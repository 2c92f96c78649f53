/** When an execution grant is honoured at all, read off the lists of function grants. */
module ExecutionGates {
  import opened Wrappers
  import opened Text
  import opened Lists
  import opened Contract
  import opened Validation
  import opened Evaluator
  import opened Execution
  import opened ExecutionLaws

  /** Some grant of that resource and action has the effect. */
  predicate Says(grants: seq<FunctionGrant>, resource: string, action: string, effect: Effect) {
    exists g | g in grants :: g.resource == resource && g.action == action && g.effect == effect
  }

  /** The source is named, if only in part. */
  predicate NamesSource(g: ExecutionGrant) {
    !(g.sourceResource == "" && g.sourceAction == "")
  }

  /** The first reason against a derivation from an accepted bundle, if there is one. */
  function Objection(grants: seq<FunctionGrant>, g: ExecutionGrant): Option<string> {
    if !(ValidIdentifier(g.resource) && ValidIdentifier(g.action)) then Some("identity.execution_grant_invalid")
    else if NamesSource(g) && !(ValidIdentifier(g.sourceResource) && ValidIdentifier(g.sourceAction)) then
      Some("identity.execution_source_invalid")
    else if NamesSource(g) && Says(grants, g.sourceResource, g.sourceAction, Deny) then
      Some("identity.execution_source_denied")
    else if NamesSource(g) && !Says(grants, g.sourceResource, g.sourceAction, Allow) then
      Some("identity.execution_source_not_granted")
    else if Says(grants, g.resource, g.action, Deny) then Some("identity.execution_grant_denied")
    else if g.resource == "*" || g.action == "*" then Some("identity.function_grant_invalid")
    else None
  }

  /** A bundle is derived exactly when the original is accepted and nothing stands against the grant: valid names, a
      source, if named, that is allowed and not denied, a target that is not denied, and no wildcard. Otherwise the
      first objection is reported. */
  lemma DerivedExactly(b: AccessBundle, g: ExecutionGrant, now: int)
    ensures match BundleCheck(b, now)
            case Fail(code) => Derived(b, g, now) == Err(code)
            case Pass =>
              match Objection(b.functionGrants, g)
              case Some(code) => Derived(b, g, now) == Err(code)
              case None => Derived(b, g, now).Ok?
  {
    hide BundleCheck, ValidIdentifier, Draft;
    if BundleCheck(b, now).Pass? && GrantAdmitted(b, g).Pass? {
      FinalValidation(b, g, now);
      if g.resource == "*" || g.action == "*" {
        WildcardRefused(b, g, now);
      }
    }
  }

  /** The derived bundle of a wildcard target fails at the grant that was added to it. */
  lemma WildcardRefused(b: AccessBundle, g: ExecutionGrant, now: int)
    requires BundleCheck(b, now).Pass? && GrantAdmitted(b, g).Pass? && (g.resource == "*" || g.action == "*")
    ensures BundleCheck(Draft(b, g), now) == Fail("identity.function_grant_invalid")
  {
    hide ValidIdentifier, DerivedPolicies, GrantWrites, FirstError, WellFormed, DataPoliciesCheck, FieldPoliciesCheck,
      ReferencesCheck, ExportsCheck, GuardrailsCheck, UniqueNonBlank, UniqueIdentifiers, ValidWorkspace;
    WellFormedPolicies(b, now);
    var extra := FunctionGrant(g.resource, g.action, Allow);
    assert !AllowGate(b.functionGrants, g.resource, g.action).GateOpen?;
    LastFails(b.functionGrants, extra, {});
  }

  lemma {:induction false} LastFails(s: seq<FunctionGrant>, x: FunctionGrant, seen: set<(string, string, Effect)>)
    requires FirstError(s, GrantCheck, GrantKey, "identity.function_grant_duplicate", NoFurtherCheck, seen).Pass?
    requires x.resource == "*" || x.action == "*"
    ensures FirstError(s + [x], GrantCheck, GrantKey, "identity.function_grant_duplicate", NoFurtherCheck, seen)
              == Fail("identity.function_grant_invalid")
  {
    hide ValidIdentifier;
    if s != [] {
      LastFails(s[1..], x, seen + {GrantKey(s[0])});
      assert (s + [x])[1..] == s[1..] + [x];
    }
  }

  /** Nothing is executed through a source nobody granted: where a derived bundle shows a record of its target, the
      original bundle allows the source's function and denies it nowhere. */
  lemma SourceWasGranted(b: AccessBundle, g: ExecutionGrant, now: int)
    requires Derived(b, g, now).Ok? && NamesSource(g)
    ensures Says(b.functionGrants, g.sourceResource, g.sourceAction, Allow)
    ensures !Says(b.functionGrants, g.sourceResource, g.sourceAction, Deny)
    ensures FunctionGate(b.functionGrants, g.sourceResource, g.sourceAction).GateOpen?
  {
    hide BundleCheck, ValidIdentifier, Derived;
    DerivedExactly(b, g, now);
  }

  /** Apart from the one verb on the target the function grants are what they were. */
  lemma GrantsDerived(b: AccessBundle, g: ExecutionGrant, now: int, resource: string, action: string, effect: Effect)
    requires Derived(b, g, now).Ok?
    ensures Says(Derived(b, g, now).value.functionGrants, resource, action, effect) <==>
              || Says(b.functionGrants, resource, action, effect)
              || (resource == g.resource && action == g.action && effect == Allow)
  {
    hide BundleCheck, ValidIdentifier, DerivedPolicies, GrantWrites;
    var grants, extra := b.functionGrants, FunctionGrant(g.resource, g.action, Allow);
    assert forall x :: x in grants + [extra] <==> x in grants || x == extra;
    assert extra.resource == g.resource;
  }

  /** Everything else of the bundle stays: header, references, exports and guardrails always, the data policies unless
      a source other than the target is projected, and the fields of other resources. */
  lemma RestDerived(b: AccessBundle, g: ExecutionGrant, now: int)
    requires Derived(b, g, now).Ok?
    ensures var d := Derived(b, g, now).value;
            && d == b.(functionGrants := d.functionGrants, dataPolicies := d.dataPolicies,
                       fieldPolicies := d.fieldPolicies)
            && (!NamesSource(g) || (g.sourceResource == g.resource && g.sourceAction == g.action) ==>
                  d.dataPolicies == b.dataPolicies)
            && (forall p: FieldPolicy | p.resource != g.resource :: p in d.fieldPolicies <==> p in b.fieldPolicies)
            && ((forall f | f in g.fields :: Trim(f) == "") ==> d.fieldPolicies == b.fieldPolicies)
  {
    hide BundleCheck, ValidIdentifier, AllowGate, DerivedPolicies, GrantAdmitted, Trim;
    OtherFieldsStay(b.fieldPolicies, g.resource, g.fields, {});
    hide GrantWrites;
  }

  predicate TargetAllowed(p: DataPolicy, g: ExecutionGrant) {
    p.resource == g.resource && p.action == g.action && p.effect == Allow
  }

  /** The source's policy, moved to the target. */
  predicate Moved(q: DataPolicy, g: ExecutionGrant, p: DataPolicy) {
    && q.resource == g.sourceResource && q.action == g.sourceAction
    && p == q.(key := q.key + ".execution." + g.resource + "." + g.action, resource := g.resource, action := g.action)
  }

  /** With a source other than the target, the target's own allows give way to the source's policies, all but those
      whose new key another remaining policy has; everything else stays. */
  lemma PoliciesDerived(b: AccessBundle, g: ExecutionGrant, now: int)
    requires Derived(b, g, now).Ok? && NamesSource(g)
    requires g.sourceResource != g.resource || g.sourceAction != g.action
    ensures forall p :: p in Derived(b, g, now).value.dataPolicies <==>
              || (p in b.dataPolicies && !TargetAllowed(p, g))
              || exists q | q in b.dataPolicies && Moved(q, g, p) ::
                   forall k | k in b.dataPolicies && !TargetAllowed(k, g) :: k.key != p.key
  {
    var ps := b.dataPolicies;
    hide BundleCheck, WellFormed, DerivedPolicies, GrantWrites, DistinctKeys, GrantAdmitted;
    WellFormedPolicies(b, now);
    assert Derived(b, g, now).value.dataPolicies == DerivedPolicies(ps, g);
    hide Derived, Moved, TargetAllowed;
    forall p
      ensures p in DerivedPolicies(ps, g) <==>
                || (p in ps && !TargetAllowed(p, g))
                || exists q | q in ps && Moved(q, g, p) :: forall k | k in ps && !TargetAllowed(k, g) :: k.key != p.key
    {
      PolicyDerived(ps, g, p);
    }
  }

  lemma PolicyDerived(ps: seq<DataPolicy>, g: ExecutionGrant, p: DataPolicy)
    requires DistinctKeys(ps, DataKey)
    ensures p in DerivedPolicies(ps, g) <==>
              || (p in ps && !TargetAllowed(p, g))
              || exists q | q in ps && Moved(q, g, p) :: forall k | k in ps && !TargetAllowed(k, g) :: k.key != p.key
  {
    hide DerivedPolicies, Projections, DistinctKeys;
    ProjectionMembers(ps, g);
    DerivedMember(ps, g, p);
    KeysLeft(ps, g, p.key);
    assert p in Projections(ps, g) <==> exists q | q in ps :: Moved(q, g, p);
  }

  lemma KeysLeft(ps: seq<DataPolicy>, g: ExecutionGrant, key: string)
    ensures key in Keys(Filter(Kept(g), ps)) <==> exists k | k in ps && !TargetAllowed(k, g) :: k.key == key
  {
    assert forall k | k in ps :: Kept(g)(k) <==> !TargetAllowed(k, g);
  }

  lemma {:induction false} OtherFieldsStay(ps: seq<FieldPolicy>, resource: string, fields: seq<string>,
                                           seen: set<string>)
    ensures forall p: FieldPolicy | p.resource != resource :: p in GrantWrites(ps, resource, fields, seen) <==> p in ps
    ensures (forall f | f in fields :: Trim(f) == "") ==> GrantWrites(ps, resource, fields, seen) == ps
    decreases |fields|
  {
    hide Trim;
    if fields != [] {
      var field, rest := Trim(fields[0]), fields[1..];
      assert fields[0] in fields && forall f | f in rest :: f in fields;
      if field == "" || field in seen {
        OtherFieldsStay(ps, resource, rest, seen);
      } else {
        OtherEntriesStay(ps, resource, field);
        OtherFieldsStay(GrantWrite(ps, resource, field), resource, rest, seen + {field});
      }
    }
  }

  lemma {:induction false} OtherEntriesStay(ps: seq<FieldPolicy>, resource: string, field: string)
    ensures forall p: FieldPolicy | p.resource != resource :: p in GrantWrite(ps, resource, field) <==> p in ps
  {
    hide Trim;
    if ps != [] {
      OtherEntriesStay(ps[1..], resource, field);
      assert forall p :: p in ps <==> p == ps[0] || p in ps[1..];
      var r := GrantWrite(ps, resource, field);
      assert forall p :: p in r <==> p == r[0] || p in r[1..];
    }
  }
}
