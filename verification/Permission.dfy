/** The route gate: a permission key checked against the bundle without any record. */
module Permission {
  import opened Wrappers
  import opened Text
  import opened Contract
  import opened Validation
  import opened Field
  import opened Evaluator
  import opened Filter

  /** `strings.LastIndexByte(s, '.')`. */
  function LastDot(s: string): (i: int)
    ensures -1 <= i < |s| && (i >= 0 ==> s[i] == '.') && forall j | i < j < |s| :: s[j] != '.'
  {
    if s == "" then -1
    else if s[|s| - 1] == '.' then |s| - 1
    else LastDot(s[..|s| - 1])
  }

  function PermissionOf(resource: string, action: string): string {
    Trim(resource) + "." + Trim(action)
  }

  predicate GuardrailBlocks(g: Guardrail, resource: string, action: string) {
    && (g.resource == "" || g.resource == "*" || Trim(g.resource) == resource)
    && (g.action == "" || g.action == "*" || Trim(g.action) == action)
    && g.effect == Deny && g.condition.None? && Blank(g.field)
  }

  /** What `Principal.HasPermission` answers, on the principal's bundle if it has one. */
  predicate PermissionHeld(bundle: Option<AccessBundle>, key: string) {
    var expected := Trim(key);
    var dot := LastDot(expected);
    && dot > 0 && dot != |expected| - 1 && bundle.Some?
    && (forall g | g in bundle.value.functionGrants && PermissionOf(g.resource, g.action) == expected ::
        g.effect != Deny)
    && (exists g | g in bundle.value.functionGrants ::
        PermissionOf(g.resource, g.action) == expected && g.effect == Allow)
    && (exists p | p in bundle.value.dataPolicies ::
        PermissionOf(p.resource, p.action) == expected && p.effect == Allow)
    && (forall g | g in bundle.value.guardrails :: !GuardrailBlocks(g, expected[..dot], expected[dot + 1..]))
  }

  /** The grant loop of `HasPermission`. */
  method GrantHeld(grants: seq<FunctionGrant>, expected: string) returns (r: bool)
    ensures r <==>
      && (forall g | g in grants && PermissionOf(g.resource, g.action) == expected :: g.effect != Deny)
      && (exists g | g in grants :: PermissionOf(g.resource, g.action) == expected && g.effect == Allow)
  {
    r := false;
    for i := 0 to |grants|
      invariant forall g | g in grants[..i] && PermissionOf(g.resource, g.action) == expected :: g.effect != Deny
      invariant r <==> exists g | g in grants[..i] ::
                  PermissionOf(g.resource, g.action) == expected && g.effect == Allow
    {
      assert grants[..i + 1] == grants[..i] + [grants[i]];
      if PermissionOf(grants[i].resource, grants[i].action) == expected {
        if grants[i].effect == Deny { return false; }
        r := r || grants[i].effect == Allow;
      }
    }
    assert grants[..|grants|] == grants;
  }

  method PolicyHeld(ps: seq<DataPolicy>, expected: string) returns (r: bool)
    ensures r <==> exists p | p in ps :: PermissionOf(p.resource, p.action) == expected && p.effect == Allow
  {
    r := false;
    for i := 0 to |ps|
      invariant r <==> exists p | p in ps[..i] :: PermissionOf(p.resource, p.action) == expected && p.effect == Allow
    {
      assert ps[..i + 1] == ps[..i] + [ps[i]];
      if PermissionOf(ps[i].resource, ps[i].action) == expected && ps[i].effect == Allow {
        r := true;
      }
    }
    assert ps[..|ps|] == ps;
  }

  method Blocked(gs: seq<Guardrail>, resource: string, action: string) returns (r: bool)
    ensures r <==> exists g | g in gs :: GuardrailBlocks(g, resource, action)
  {
    for i := 0 to |gs|
      invariant forall g | g in gs[..i] :: !GuardrailBlocks(g, resource, action)
    {
      assert gs[..i + 1] == gs[..i] + [gs[i]];
      if GuardrailBlocks(gs[i], resource, action) { return true; }
    }
    assert gs[..|gs|] == gs;
    return false;
  }

  /** `Principal.HasPermission`. */
  method HasPermission(bundle: Option<AccessBundle>, key: string) returns (r: bool)
    ensures r == PermissionHeld(bundle, key)
  {
    hide Trim, LastDot, PermissionOf, GuardrailBlocks;
    var expected := Trim(key);
    var separator := LastDot(expected);
    if separator <= 0 || separator == |expected| - 1 || bundle.None? { return false; }
    var functionAllowed := GrantHeld(bundle.value.functionGrants, expected);
    if !functionAllowed { return false; }
    var dataAllowed := PolicyHeld(bundle.value.dataPolicies, expected);
    if !dataAllowed { return false; }
    var blocked := Blocked(bundle.value.guardrails, expected[..separator], expected[separator + 1..]);
    return !blocked;
  }

  // ----- Agreement with the record layer -----

  predicate PlainAction(action: string) {
    Trimmed(action) && '.' !in action
  }

  /** Identifiers carry no surrounding space and actions no dot, so a permission key has one reading. */
  predicate PlainNames(b: AccessBundle) {
    && (forall g | g in b.functionGrants :: Trimmed(g.resource) && PlainAction(g.action))
    && (forall p | p in b.dataPolicies :: Trimmed(p.resource) && PlainAction(p.action))
    && (forall g | g in b.guardrails :: Trimmed(g.resource) && Trimmed(g.action))
  }

  lemma KeySplits(resource: string, action: string)
    requires '.' !in action
    ensures var key := resource + "." + action;
            LastDot(key) == |resource| && key[..|resource|] == resource && key[|resource| + 1..] == action
  {
    var key := resource + "." + action;
    assert key[|resource|] == '.';
    assert forall j | |resource| < j < |key| :: key[j] == action[j - |resource| - 1];
    assert forall j | |resource| < j < |key| :: key[j] in action;
  }

  lemma KeyIsUnique(resource: string, action: string, resource': string, action': string)
    requires '.' !in action && '.' !in action'
    requires resource + "." + action == resource' + "." + action'
    ensures resource == resource' && action == action'
  {
    KeySplits(resource, action);
    KeySplits(resource', action');
  }

  lemma KeyTrimmed(resource: string, action: string)
    requires Trimmed(resource) && Trimmed(action) && resource != "" && action != ""
    ensures Trim(resource + "." + action) == resource + "." + action
              && PermissionOf(resource, action) == resource + "." + action
  {
    var key := resource + "." + action;
    assert key[0] == resource[0] && key[|key| - 1] == action[|action| - 1];
  }

  /** The gate, said with resources and actions instead of key texts. */
  predicate GateOpens(b: AccessBundle, resource: string, action: string) {
    && (forall g | g in b.functionGrants && GrantNames(g, resource, action) :: g.effect != Deny)
    && (exists g | g in b.functionGrants :: GrantNames(g, resource, action) && g.effect == Allow)
    && (exists p | p in b.dataPolicies :: p.resource == resource && p.action == action && p.effect == Allow)
    && (forall g | g in b.guardrails ::
        !(GuardrailApplies(g, resource, action) && g.condition.None? && g.effect == Deny))
  }

  lemma NameMatches(resource: string, action: string, resource': string, action': string)
    requires Trimmed(resource) && Trimmed(resource') && PlainAction(action) && PlainAction(action')
    ensures PermissionOf(resource, action) == resource' + "." + action' <==> resource == resource' && action == action'
  {
    if PermissionOf(resource, action) == resource' + "." + action' {
      KeyIsUnique(resource, action, resource', action');
    }
  }

  /** The record layer and the gate see the same guardrail. */
  predicate SameGuardrail(g: Guardrail, key: string, resource: string, action: string)
    requires 0 <= LastDot(key)
  {
    GuardrailBlocks(g, key[..LastDot(key)], key[LastDot(key) + 1..]) <==>
      GuardrailApplies(g, resource, action) && g.condition.None? && g.effect == Deny
  }

  /** Every entry that spells the permission's key names its resource and its action, and the key's last dot separates
      the two. */
  predicate OneReading(b: AccessBundle, resource: string, action: string) {
    var key := resource + "." + action;
    && action != "" && action[|action| - 1] != '.' && LastDot(key) >= 0
    && (forall g | g in b.functionGrants && PermissionOf(g.resource, g.action) == key ::
        GrantNames(g, resource, action))
    && (forall p | p in b.dataPolicies && PermissionOf(p.resource, p.action) == key ::
        p.resource == resource && p.action == action)
    && (forall g | g in b.guardrails :: SameGuardrail(g, key, resource, action))
  }

  lemma GuardrailReads(g: Guardrail, resource: string, action: string)
    requires Trimmed(g.resource) && Trimmed(g.action)
    ensures GuardrailBlocks(g, resource, action) <==>
              GuardrailApplies(g, resource, action) && g.condition.None? && g.effect == Deny
  {
  }

  /** Names without surrounding space and actions without a dot have one reading. */
  lemma PlainNamesRead(b: AccessBundle, resource: string, action: string)
    requires PlainNames(b) && Trimmed(resource) && PlainAction(action) && action != ""
    ensures OneReading(b, resource, action)
  {
    KeySplits(resource, action);
    hide Trim, LastDot, GuardrailBlocks, GuardrailApplies, PermissionOf;
    assert action[|action| - 1] in action;
    forall g | g in b.functionGrants
      ensures PermissionOf(g.resource, g.action) == resource + "." + action <==> GrantNames(g, resource, action)
    {
      NameMatches(g.resource, g.action, resource, action);
    }
    forall p | p in b.dataPolicies
      ensures PermissionOf(p.resource, p.action) == resource + "." + action <==>
                p.resource == resource && p.action == action
    {
      NameMatches(p.resource, p.action, resource, action);
    }
    forall g | g in b.guardrails
      ensures SameGuardrail(g, resource + "." + action, resource, action)
    {
      GuardrailReads(g, resource, action);
    }
  }

  lemma LastDotInside(resource: string, action: string)
    requires resource != "" && action != ""
    ensures var key := resource + "." + action;
            0 < LastDot(key) && (LastDot(key) == |key| - 1 <==> action[|action| - 1] == '.')
  {
    var key := resource + "." + action;
    assert key[|resource|] == '.' && key[|key| - 1] == action[|action| - 1];
  }

  lemma PermissionReads(b: AccessBundle, resource: string, action: string)
    requires OneReading(b, resource, action) && Trimmed(resource) && resource != "" && Trimmed(action)
    ensures PermissionHeld(Some(b), resource + "." + action) <==> GateOpens(b, resource, action)
  {
    KeyTrimmed(resource, action);
    LastDotInside(resource, action);
    hide Trim, LastDot, GuardrailBlocks, GuardrailApplies;
    assert forall g | g in b.guardrails :: SameGuardrail(g, resource + "." + action, resource, action);
    assert forall g | g in b.functionGrants && GrantNames(g, resource, action) ::
        PermissionOf(g.resource, g.action) == resource + "." + action;
  }

  /** The denies that the gate reads as meant for a permission although they are written for another one. */
  predicate Misread(b: AccessBundle, resource: string, action: string)
    requires resource != "" && action != ""
  {
    LastDotInside(resource, action);
    var key := resource + "." + action;
    || (exists g | g in b.functionGrants ::
        PermissionOf(g.resource, g.action) == key && g.effect == Deny && !GrantNames(g, resource, action))
    || (exists g | g in b.guardrails ::
        GuardrailBlocks(g, key[..LastDot(key)], key[LastDot(key) + 1..]) && !GuardrailApplies(g, resource, action))
  }

  /** Behind an open gate on names, the key is held unless a deny is misread or the key cannot be split. */
  lemma HeldUnlessMisread(b: AccessBundle, resource: string, action: string)
    requires GateOpens(b, resource, action) && Trimmed(resource) && resource != "" && Trimmed(action) && action != ""
    ensures PermissionHeld(Some(b), resource + "." + action) <==>
              action[|action| - 1] != '.' && !Misread(b, resource, action)
  {
    KeyTrimmed(resource, action);
    LastDotInside(resource, action);
    hide Trim, LastDot, PermissionOf;
    assert forall g | g in b.functionGrants && GrantNames(g, resource, action) ::
        PermissionOf(g.resource, g.action) == resource + "." + action;
  }

  /** A key is held only with a bundle, and only if it reads as a resource, a dot and an action without a dot. */
  lemma HeldKeysSplit(bundle: Option<AccessBundle>, key: string) returns (resource: string, action: string)
    requires PermissionHeld(bundle, key)
    ensures bundle.Some? && Trim(key) == resource + "." + action
    ensures resource != "" && action != "" && '.' !in action
  {
    hide Trim, PermissionOf, GuardrailBlocks;
    var k := Trim(key);
    var dot := LastDot(k);
    resource, action := k[..dot], k[dot + 1..];
  }

  /** An unconditional guardrail on the whole record of the permission. */
  predicate ShutBy(g: Guardrail, resource: string, action: string) {
    && (g.resource in {"", "*"} || Trim(g.resource) == resource) && (g.action in {"", "*"} || Trim(g.action) == action)
    && Trim(g.field) == "" && g.condition == None && g.effect == Deny
  }

  predicate Says(b: AccessBundle, resource: string, action: string, effect: Effect) {
    exists g | g in b.functionGrants ::
      Trim(g.resource) == resource && Trim(g.action) == action && g.effect == effect
  }

  /** Where actions carry no dot, a permission is held exactly when its function is allowed and not denied, some data
      policy allows it, and no unconditional guardrail shuts it, whatever space surrounds the key and the names in the
      bundle. */
  lemma HeldExactly(b: AccessBundle, key: string, resource: string, action: string)
    requires (forall g | g in b.functionGrants :: '.' !in Trim(g.action))
             && forall p | p in b.dataPolicies :: '.' !in Trim(p.action)
    requires Trim(key) == resource + "." + action && resource != "" && action != "" && '.' !in action
    ensures PermissionHeld(Some(b), key) <==>
              && Says(b, resource, action, Allow) && !Says(b, resource, action, Deny)
              && (exists p | p in b.dataPolicies ::
                    Trim(p.resource) == resource && Trim(p.action) == action && p.effect == Allow)
              && forall g | g in b.guardrails :: !ShutBy(g, resource, action)
  {
    KeySplits(resource, action);
    hide Trim, LastDot;
    forall r, a | '.' !in Trim(a)
      ensures PermissionOf(r, a) == Trim(key) <==> Trim(r) == resource && Trim(a) == action
    {
      if PermissionOf(r, a) == Trim(key) {
        KeyIsUnique(Trim(r), Trim(a), resource, action);
      }
    }
    assert forall g | g in b.guardrails :: GuardrailBlocks(g, resource, action) <==> ShutBy(g, resource, action);
    hide GuardrailBlocks, ShutBy, PermissionOf;
  }

  lemma GateImplied(b: AccessBundle, resource: string, action: string, facts: ResourceFacts, context: EvaluationContext)
    requires (forall x | x in b.functionGrants :: GrantValid(x))
               && (forall p | p in b.dataPolicies :: DataPolicyValid(p))
    requires RecordAllowed(b, resource, action, facts, context)
    ensures GateOpens(b, resource, action)
  {
    hide DataPolicyValid, EvalPredicate, ValidIdentifier;
    var p :| p in b.dataPolicies && PolicyGrants(p, resource, action, facts, context);
    if p.resource != resource {
      UnrelatedReads(p, resource, action, facts, context);
    }
  }

  /** No record is shown through a closed gate: what the evaluator allows, the route gate lets pass, except exactly
      where a deny written for another permission spells the same key, or the action ends in the dot the key is split
      at. */
  lemma AllowedImpliesPermission(b: AccessBundle, request: AccessRequest, facts: ResourceFacts,
                                 context: EvaluationContext, now: int)
    requires Verdict(b, request, facts, context, now).Allowed()
    ensures var resource, action := Trim(request.objectKey), Trim(request.action);
            && resource != "" && action != ""
            && (PermissionHeld(Some(b), resource + "." + action) <==>
                  action[|action| - 1] != '.' && !Misread(b, resource, action))
  {
    hide BundleCheck, WellFormed, RecordAllowed, Trim, GateOpens, PermissionHeld, FieldLayer, DataPolicyValid,
      GrantValid, DistinctKeys, Layers, Misread;
    var resource, action := Trim(request.objectKey), Trim(request.action);
    AllowedByLayers(b, request, facts, context);
    WellFormedPolicies(b, now);
    GateImplied(b, resource, action, facts, context);
    GateNames(b, resource, action);
    HeldUnlessMisread(b, resource, action);
  }

  lemma GateNames(b: AccessBundle, resource: string, action: string)
    requires GateOpens(b, resource, action) && forall g | g in b.functionGrants :: GrantValid(g)
    ensures resource != "" && action != ""
  {
  }

  /** A misread deny: the grant of `a.b` for `c` is refused with that of `a` for `b.c`. */
  lemma MisreadExample(b: AccessBundle)
    requires b.functionGrants == [FunctionGrant("a.b", "c", Allow), FunctionGrant("a", "b.c", Deny)]
    ensures Misread(b, "a.b", "c") && !PermissionHeld(Some(b), "a.b.c")
  {
    var g := b.functionGrants[1];
    assert Trim("a") == "a" && Trim("b.c") == "b.c";
    assert PermissionOf(g.resource, g.action) == "a.b" + "." + "c" == "a.b.c";
    assert Trim("a.b.c") == "a.b.c";
  }

  lemma {:induction false} PolicyFilterVisible(ps: seq<DataPolicy>, resource: string, action: string,
                                               start: RecordFilter)
    requires (forall p | p in ps :: DataPolicyValid(p)) && PolicyFilter(ps, resource, action, start).Ok?
    ensures var f := PolicyFilter(ps, resource, action, start).value;
            f.unrestricted || f.allow != [] <==>
              start.unrestricted || start.allow != [] || exists p | p in ps ::
                  p.resource == resource && p.action == action && p.effect == Allow
  {
    hide DataPolicyValid, ResourceMatches;
    if ps != [] {
      var p := ps[0];
      assert p in ps && forall q | q in ps[1..] :: q in ps;
      assert forall q | q in ps :: q == p || q in ps[1..];
      AppliesMeaning(p, resource, action);
      if !PolicyApplies(p, resource, action) {
        PolicyFilterVisible(ps[1..], resource, action, start);
      } else if p.effect == Deny {
        PolicyFilterVisible(ps[1..], resource, action, start.(deny := start.deny + [p.condition]));
      } else if ScopeAll in p.dataScopes {
        PolicyFilterVisible(ps[1..], resource, action, start.(unrestricted := true));
      } else {
        PolicyFilterVisible(ps[1..], resource, action, start.(allow := start.allow + [p.condition]));
      }
    }
  }

  lemma AppliesMeaning(p: DataPolicy, resource: string, action: string)
    requires DataPolicyValid(p)
    ensures PolicyApplies(p, resource, action) <==> p.resource == resource && p.action == action
  {
    hide PredicateCheck, Blank, ValidIdentifier;
  }

  lemma {:induction false} DeniesMeaning(gs: seq<Guardrail>, resource: string, action: string)
    ensures GuardrailDenies(gs, resource, action).None? <==>
              exists g | g in gs :: GuardrailCovers(g, resource, action) && g.condition.None?
  {
    hide GuardrailCovers;
    if gs != [] {
      assert gs[0] in gs && forall g | g in gs[1..] :: g in gs;
      assert forall g | g in gs :: g == gs[0] || g in gs[1..];
      DeniesMeaning(gs[1..], resource, action);
    }
  }

  /** The compiled filter could show anything at all exactly when the gate is open and no guardrail without a condition,
      which the gate skips when it names a field, covers the permission. */
  lemma PermissionIffVisible(b: AccessBundle, resource: string, action: string, now: int)
    requires OneReading(b, resource, action) && Trimmed(resource) && Trimmed(action)
    requires FilterOf(b, resource, action, now).Ok?
    ensures var f := FilterOf(b, resource, action, now).value;
            f.unrestricted || f.allow != [] <==>
              && PermissionHeld(Some(b), resource + "." + action)
              && forall g | g in b.guardrails && GuardrailCovers(g, resource, action) && g.condition.None? ::
                  Blank(g.field)
  {
    hide BundleCheck, WellFormed, PermissionHeld, DataPolicyValid, OneReading, DistinctKeys, Trim, GuardrailCovers,
      PolicyFilter, GuardrailDenies, ResourceMatches;
    FilterOfValidates(b, resource, action, now);
    NonEmptyIds(resource, action);
    WellFormedPolicies(b, now);
    GuardrailEffects(b, now);
    PermissionReads(b, resource, action);
    hide ValidIdentifier;
    DeniesMeaning(b.guardrails, resource, action);
    var denies := GuardrailDenies(b.guardrails, resource, action);
    if FunctionGate(b.functionGrants, resource, action).GateOpen? && denies.Some? {
      PolicyFilterVisible(b.dataPolicies, resource, action, RecordFilter([], denies.value, false));
    }
  }

  lemma NonEmptyIds(resource: string, action: string)
    requires ValidIdentifier(resource) && ValidIdentifier(action)
    ensures resource != "" && action != ""
  {
  }

  lemma GuardrailEffects(b: AccessBundle, now: int)
    requires BundleCheck(b, now).Pass?
    ensures forall g | g in b.guardrails :: g.effect == Deny
  {
    hide BundleCheck, DistinctKeys, HeaderCheck, GrantValid, DataPolicyValid, FieldPolicyValid, ReferenceCheck,
      ExportCheck, Blank, GuardrailFurtherCheck;
    ValidationMeaning(b, now);
    forall g | g in b.guardrails
      ensures g.effect == Deny
    {
      assert GuardrailValid(g);
    }
  }
}
