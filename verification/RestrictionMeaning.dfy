/** Restriction said in the terms of the credential's scopes: what each of them keeps, and what is gone without it. */
module RestrictionMeaning {
  import opened Wrappers
  import opened Text
  import opened Lists
  import opened Contract
  import opened Validation
  import opened Field
  import opened FieldLaws
  import opened FieldMeaning
  import opened Evaluator
  import opened Restriction

  /** Some scope, without surrounding space, is that of the action on the resource. */
  predicate Scoped(scopes: seq<string>, resource: string, action: string) {
    exists s | s in scopes :: Trim(s) == resource + "." + action
  }

  predicate ScopedToWrite(scopes: seq<string>, resource: string) {
    Scoped(scopes, resource, "create") || Scoped(scopes, resource, "update")
  }

  lemma ScopedMeaning(scopes: seq<string>, resource: string, action: string)
    ensures InScope(Allowed(scopes), resource, action) <==> Scoped(scopes, resource, action)
  {
    assert |resource + "." + action| > 0;
    hide Trim;
  }

  /** What is left of a field entry. */
  function Narrowed(p: FieldPolicy, scopes: seq<string>): FieldPolicy {
    p.(read := p.read && Scoped(scopes, p.resource, "read"), write := p.write && ScopedToWrite(scopes, p.resource),
       export_ := p.export_ && Scoped(scopes, p.resource, "export"))
  }

  /** Exactly what a restricted bundle keeps: its header and guardrails, every deny, the allows, references and exports
      whose scope is there, and the field entries of which something is left. */
  lemma KeptExactly(b: AccessBundle, scopes: seq<string>)
    ensures var r := Restricted(b, Allowed(scopes));
            && r == b.(functionGrants := r.functionGrants, dataPolicies := r.dataPolicies,
                       fieldPolicies := r.fieldPolicies, referencePolicies := r.referencePolicies,
                       exportPolicies := r.exportPolicies)
            && (forall g :: g in r.functionGrants <==>
                  g in b.functionGrants && (g.effect == Deny || Scoped(scopes, g.resource, g.action)))
            && (forall p :: p in r.dataPolicies <==>
                  p in b.dataPolicies && (p.effect == Deny || Scoped(scopes, p.resource, p.action)))
            && (forall p :: p in r.referencePolicies <==>
                  p in b.referencePolicies && Scoped(scopes, p.sourceResource, "read"))
            && (forall p :: p in r.exportPolicies <==>
                  p in b.exportPolicies && Scoped(scopes, p.resource, "export"))
            && (forall q :: q in r.fieldPolicies <==>
                  (q.read || q.write || q.export_)
                  && exists p | p in b.fieldPolicies :: q == Narrowed(p, scopes))
  {
    var allowed := Allowed(scopes);
    forall resource, action
      ensures InScope(allowed, resource, action) <==> Scoped(scopes, resource, action)
    {
      ScopedMeaning(scopes, resource, action);
    }
    NarrowMembers(allowed, b.fieldPolicies);
    hide InScope, Scoped, Filter, NarrowFields, Allowed;
    forall p: FieldPolicy
      ensures Narrow(allowed)(p) == Narrowed(p, scopes)
    {
    }
    hide Narrow, Narrowed;
  }

  /** A record request is decided as before when its scope is there, and otherwise never allowed. */
  lemma ScopesDecide(b: AccessBundle, scopes: seq<string>, request: AccessRequest, facts: ResourceFacts,
                     context: EvaluationContext, now: int)
    requires BundleCheck(b, now).Pass? && Trim(request.fieldKey) == ""
    ensures var r := Restricted(b, Allowed(scopes));
            if Scoped(scopes, Trim(request.objectKey), Trim(request.action)) then
              Verdict(r, request, facts, context, now) == Verdict(b, request, facts, context, now)
            else !Verdict(r, request, facts, context, now).Allowed()
  {
    hide BundleCheck, Trim, Restricted, Verdict;
    RestrictionLaw(b, Allowed(scopes), request, facts, context, now);
    ScopedMeaning(scopes, Trim(request.objectKey), Trim(request.action));
  }

  /** The scope of the access a verb asks for. */
  predicate AccessScoped(scopes: seq<string>, resource: string, request: FieldRequest) {
    var verb := Lower(Trim(request.action));
    if verb in {"read", "list", "view", "search", "report", "audit"} then Scoped(scopes, resource, "read")
    else if verb == "export" then Scoped(scopes, resource, "export")
    else ScopedToWrite(scopes, resource)
  }

  lemma NarrowedFlag(p: FieldPolicy, scopes: seq<string>, request: FieldRequest)
    ensures FlagFor(Narrowed(p, scopes), request) ==> AccessScoped(scopes, p.resource, request)
  {
    hide Scoped, Lower, Trim;
  }

  lemma EntryIsListed(b: AccessBundle, request: FieldRequest, p: FieldPolicy)
    requires EntryFor(b, request) == Some(p)
    ensures p in b.fieldPolicies
  {
    BestPolicyScan(b.fieldPolicies, request.resource, Trim(request.field), None, -1);
  }

  /** Where flags decide, a field of a restricted bundle is hidden without the scope of that access to the resource of
      its entry. */
  lemma FlagsNeedScope(b: AccessBundle, scopes: seq<string>, request: FieldRequest, matches: Option<PredicateMatcher>,
                       p: FieldPolicy)
    requires Proper(request) && Unguarded(b, request, matches)
    requires EntryFor(Restricted(b, Allowed(scopes)), request) == Some(p)
    requires forall r | r in p.rules && RuleOn(r, request) :: Holds(r.condition, matches) == Ok(false)
    requires !AccessScoped(scopes, p.resource, request)
    ensures FieldVerdict(Restricted(b, Allowed(scopes)), request, matches)
              == Ok(FieldDecision(FieldHide, "static_field_policy", p.reason, None, p.auditDenial))
  {
    var r := Restricted(b, Allowed(scopes));
    KeptExactly(b, scopes);
    EntryIsListed(r, request, p);
    var q :| q in b.fieldPolicies && p == Narrowed(q, scopes);
    NarrowedFlag(q, scopes, request);
    assert r.guardrails == b.guardrails && p.resource == q.resource;
    hide Restricted, AccessScoped, FieldVerdict, RuleOn, Holds, EntryFor, FlagFor, GuardrailOn, Proper, Narrowed;
    FlagsDecide(r, request, matches, p);
  }
}
