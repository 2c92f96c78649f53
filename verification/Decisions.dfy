/** Why the evaluator decides what it decides: the first thing that stands in the way of a request, on the lists of the
    bundle themselves. */
module Decisions {
  import opened Wrappers
  import opened Text
  import opened Contract
  import opened Validation
  import opened Field
  import opened Evaluator

  /** One request on an accepted bundle, with its names as they are compared. */
  datatype Case = Case(b: AccessBundle, request: AccessRequest, facts: ResourceFacts, context: EvaluationContext,
      now: int)
  {
    function Resource(): string {
      Trim(request.objectKey)
    }

    function Action(): string {
      Trim(request.action)
    }

    predicate Proper() {
      BundleCheck(b, now).Pass? && ValidIdentifier(Resource()) && ValidIdentifier(Action())
    }

    function Outcome(): Evaluation {
      Verdict(b, request, facts, context, now)
    }

    /** Some function grant on the request has the effect. */
    predicate Says(effect: Effect) {
      exists g | g in b.functionGrants :: g.resource == Resource() && g.action == Action() && g.effect == effect
    }

    /** The request may be made at all. */
    predicate Granted() {
      Proper() && Says(Allow) && !Says(Deny)
    }

    predicate GuardrailOn(g: Guardrail) {
      g.resource in {"", "*", Resource()} && g.action in {"", "*", Action()} && Trim(g.field) == ""
    }

    function GuardrailSays(g: Guardrail): Result<bool> {
      if g.condition == None then Ok(true) else EvalPredicate(g.condition.value, facts, context)
    }

    /** No guardrail on the record has a say. */
    predicate Unguarded() {
      forall g | g in b.guardrails && GuardrailOn(g) :: GuardrailSays(g) == Ok(false)
    }

    predicate PolicyOn(p: DataPolicy) {
      p.resource == Resource() && p.action == Action()
    }

    function PolicySays(p: DataPolicy): Result<bool> {
      if p.effect == Allow && ScopeAll in p.dataScopes then Ok(true) else EvalPredicate(p.condition, facts, context)
    }

    /** The policy ends the evaluation: its condition fails, or it denies and matches. */
    predicate Stops(p: DataPolicy) {
      PolicyOn(p) && (PolicySays(p).Err? || (p.effect == Deny && PolicySays(p) == Ok(true)))
    }

    predicate Admits(p: DataPolicy) {
      PolicyOn(p) && p.effect == Allow && PolicySays(p) == Ok(true)
    }
  }

  function Refused(code: string, key: string, reason: string, audit: bool): Evaluation {
    Decided(Decision(false, code, key, reason, audit))
  }

  const ALLOWED := Decided(Decision(true, "allowed", "", "", false))

  // ----- Before the record -----

  /** What is reported before any record is looked at. */
  lemma NotProper(c: Case)
    requires !c.Proper()
    ensures c.Outcome() == match BundleCheck(c.b, c.now)
                           case Fail(code) => Failed("access_bundle_invalid", code)
                           case Pass => Failed("access_request_invalid", "identity.access_request_invalid")
  {
    hide BundleCheck, ValidIdentifier, Trim;
  }

  /** A deny closes the function for good, and without an allow it is not open. */
  lemma NotGranted(c: Case)
    requires c.Proper() && !c.Granted()
    ensures c.Outcome() == Refused(if c.Says(Deny) then "function_denied" else "function_not_granted", "", "", false)
  {
    hide ValidIdentifier, Trim;
    EffectsKnown(c.b, c.now);
    hide BundleCheck;
  }

  lemma GateOpens(c: Case)
    requires c.Granted()
    ensures FunctionGate(c.b.functionGrants, c.Resource(), c.Action()).GateOpen?
  {
    hide BundleCheck, ValidIdentifier, Trim;
  }

  // ----- Guardrails -----

  lemma GuardrailOnMeaning(c: Case, g: Guardrail)
    ensures GuardrailApplies(g, c.Resource(), c.Action()) <==> c.GuardrailOn(g)
    ensures GuardrailMatch(g, c.facts, c.context) == c.GuardrailSays(g)
  {
    hide EvalPredicate, Trim;
  }

  lemma {:induction false} GuardrailScan(c: Case, gs: seq<Guardrail>, i: nat)
    requires i <= |gs| && forall j | 0 <= j < i && c.GuardrailOn(gs[j]) :: c.GuardrailSays(gs[j]) == Ok(false)
    requires i < |gs| ==> c.GuardrailOn(gs[i]) && c.GuardrailSays(gs[i]) != Ok(false)
    ensures ScanRecordGuardrails(gs, c.Resource(), c.Action(), c.facts, c.context)
              == if i == |gs| then None
                 else Some(match c.GuardrailSays(gs[i])
                           case Err(error) => Failed("guardrail_invalid", error)
                           case Ok(_) => Refused("guardrail_denied", gs[i].key, gs[i].reason, false))
    decreases |gs|
  {
    if gs != [] {
      GuardrailOnMeaning(c, gs[0]);
      hide GuardrailApplies, GuardrailMatch, EvalPredicate, Trim;
      if i > 0 {
        assert forall j | 0 <= j < i - 1 :: gs[1..][j] == gs[j + 1];
        GuardrailScan(c, gs[1..], i - 1);
      }
    }
  }

  /** The first guardrail on the record whose condition does not come out false ends the evaluation, with its key and
      its reason or with its failure. */
  lemma FirstGuardrailEnds(c: Case, i: nat)
    requires c.Granted() && i < |c.b.guardrails|
    requires c.GuardrailOn(c.b.guardrails[i]) && c.GuardrailSays(c.b.guardrails[i]) != Ok(false)
    requires forall j | 0 <= j < i && c.GuardrailOn(c.b.guardrails[j]) ::
               c.GuardrailSays(c.b.guardrails[j]) == Ok(false)
    ensures var g := c.b.guardrails[i];
            c.Outcome() == match c.GuardrailSays(g)
                           case Err(error) => Failed("guardrail_invalid", error)
                           case Ok(_) => Refused("guardrail_denied", g.key, g.reason, false)
  {
    GateOpens(c);
    GuardrailScan(c, c.b.guardrails, i);
    hide BundleCheck, ValidIdentifier, Trim, FunctionGate, ScanRecordGuardrails, EvalPredicate;
  }

  // ----- Data policies -----

  lemma PolicyOnMeaning(c: Case, p: DataPolicy)
    requires p.resource != "*"
    ensures PolicyApplies(p, c.Resource(), c.Action()) <==> c.PolicyOn(p)
    ensures PolicyMatch(p, c.facts, c.context) == c.PolicySays(p)
  {
    hide EvalPredicate, Trim;
  }

  predicate SomeOn(c: Case, ps: seq<DataPolicy>) {
    exists p | p in ps :: c.PolicyOn(p)
  }

  predicate SomeAdmits(c: Case, ps: seq<DataPolicy>) {
    exists p | p in ps :: c.Admits(p)
  }

  predicate SomeAudits(c: Case, ps: seq<DataPolicy>) {
    exists p | p in ps :: c.PolicyOn(p) && p.auditDenial
  }

  lemma SomeStep(c: Case, ps: seq<DataPolicy>)
    requires ps != []
    ensures SomeOn(c, ps) <==> c.PolicyOn(ps[0]) || SomeOn(c, ps[1..])
    ensures SomeAdmits(c, ps) <==> c.Admits(ps[0]) || SomeAdmits(c, ps[1..])
    ensures SomeAudits(c, ps) <==> (c.PolicyOn(ps[0]) && ps[0].auditDenial) || SomeAudits(c, ps[1..])
  {
    hide EvalPredicate, Trim;
    assert ps[0] in ps && forall q | q in ps[1..] :: q in ps;
    assert forall q | q in ps :: q == ps[0] || q in ps[1..];
  }

  function Stopped(c: Case, p: DataPolicy): Evaluation {
    match c.PolicySays(p)
    case Err(error) => Failed("data_policy_invalid", error)
    case Ok(_) => Refused("data_policy_denied", p.key, "", p.auditDenial)
  }

  function Scan(c: Case, ps: seq<DataPolicy>, matchedAllow: bool, hasPolicies: bool, audit: bool): DataScan {
    ScanPolicies(ps, c.Resource(), c.Action(), c.facts, c.context, matchedAllow, hasPolicies, audit)
  }

  lemma ScanStep(c: Case, ps: seq<DataPolicy>, m: bool, h: bool, a: bool)
    requires ps != [] && ps[0].resource != "*"
    ensures var p := ps[0];
            Scan(c, ps, m, h, a)
              == if c.Stops(p) then Stop(Stopped(c, p))
                 else Scan(c, ps[1..], m || c.Admits(p), h || c.PolicyOn(p), a || (c.PolicyOn(p) && p.auditDenial))
  {
    PolicyOnMeaning(c, ps[0]);
    hide PolicyApplies, PolicyMatch, EvalPredicate, Trim;
  }

  lemma {:induction false} PolicyScan(c: Case, ps: seq<DataPolicy>, i: nat, m: bool, h: bool, a: bool)
    requires i <= |ps| && (forall p | p in ps :: p.resource != "*") && forall j | 0 <= j < i :: !c.Stops(ps[j])
    requires i < |ps| ==> c.Stops(ps[i])
    ensures Scan(c, ps, m, h, a)
              == if i < |ps| then Stop(Stopped(c, ps[i]))
                 else Scanned(m || SomeAdmits(c, ps), h || SomeOn(c, ps), a || SomeAudits(c, ps))
    decreases |ps|
  {
    hide Case.Stops, Case.Admits, Case.PolicyOn, Stopped;
    if ps != [] {
      var p := ps[0];
      assert p in ps && forall q | q in ps[1..] :: q in ps;
      ScanStep(c, ps, m, h, a);
      SomeStep(c, ps);
      hide Scan, SomeOn, SomeAdmits, SomeAudits;
      if i > 0 {
        assert forall j | 0 <= j < i - 1 :: ps[1..][j] == ps[j + 1];
        PolicyScan(c, ps[1..], i - 1, m || c.Admits(p), h || c.PolicyOn(p), a || (c.PolicyOn(p) && p.auditDenial));
      }
    }
  }

  lemma PastGuardrails(c: Case)
    requires c.Granted() && c.Unguarded()
    ensures c.Outcome() == DataLayer(c.b, c.request, c.Resource(), c.Action(), c.facts, c.context)
  {
    GateOpens(c);
    GuardrailScan(c, c.b.guardrails, |c.b.guardrails|);
    hide BundleCheck, ValidIdentifier, Trim, FunctionGate, ScanRecordGuardrails, EvalPredicate, DataLayer;
  }

  /** Past the guardrails, the first data policy whose condition fails, or that denies and matches, ends it. */
  lemma FirstPolicyEnds(c: Case, i: nat)
    requires c.Granted() && c.Unguarded() && i < |c.b.dataPolicies| && c.Stops(c.b.dataPolicies[i])
    requires forall j | 0 <= j < i :: !c.Stops(c.b.dataPolicies[j])
    ensures c.Outcome() == Stopped(c, c.b.dataPolicies[i])
  {
    PastGuardrails(c);
    EffectsKnown(c.b, c.now);
    PolicyScan(c, c.b.dataPolicies, i, false, false, false);
    hide ScanPolicies, EvalPredicate, Verdict, BundleCheck, ValidIdentifier, Trim;
  }

  /** When no policy ends it and none admits the record, the record is not granted, and the denial is audited if any
      policy on the request asks for that. */
  lemma NothingAdmits(c: Case)
    requires c.Granted() && c.Unguarded()
    requires forall p | p in c.b.dataPolicies :: !c.Stops(p) && !c.Admits(p)
    ensures c.Outcome() == Refused("data_policy_not_granted", "", "", SomeAudits(c, c.b.dataPolicies))
  {
    PastGuardrails(c);
    EffectsKnown(c.b, c.now);
    PolicyScan(c, c.b.dataPolicies, |c.b.dataPolicies|, false, false, false);
    hide ScanPolicies, EvalPredicate, Verdict, BundleCheck, ValidIdentifier, Trim;
  }

  lemma PastPolicies(c: Case, p: DataPolicy)
    requires c.Granted() && c.Unguarded() && p in c.b.dataPolicies && c.Admits(p)
    requires forall q | q in c.b.dataPolicies :: !c.Stops(q)
    ensures c.Outcome() == FieldLayer(c.b, c.request, c.Resource(), c.facts, c.context)
  {
    PastGuardrails(c);
    EffectsKnown(c.b, c.now);
    PolicyScan(c, c.b.dataPolicies, |c.b.dataPolicies|, false, false, false);
    hide ScanPolicies, EvalPredicate, Verdict, BundleCheck, ValidIdentifier, Trim, FieldLayer;
  }

  /** A record some policy admits and none ends is allowed as such; one of its fields is, when the field decision opens
      or masks it. */
  lemma Admitted(c: Case, p: DataPolicy)
    requires c.Granted() && c.Unguarded() && p in c.b.dataPolicies && c.Admits(p)
    requires forall q | q in c.b.dataPolicies :: !c.Stops(q)
    ensures Trim(c.request.fieldKey) == "" ==> c.Outcome() == ALLOWED
    ensures Trim(c.request.fieldKey) != "" ==>
              c.Outcome() == match FieldVerdict(c.b, FieldRequest(c.Resource(), c.request.fieldKey, c.request.action),
                                 Some(p => EvalPredicate(p, c.facts, c.context)))
                             case Err(error) => Failed("field_policy_invalid", error)
                             case Ok(d) =>
                               if d.effect in {FieldAllow, FieldMask} then ALLOWED
                               else Refused("field_not_granted", d.ruleKey, d.reason, d.auditDenial)
  {
    PastPolicies(c, p);
    TrimmedField(c.b, FieldRequest(c.Resource(), c.request.fieldKey, c.request.action),
        Some(p => EvalPredicate(p, c.facts, c.context)));
    hide EvalPredicate, Verdict, BundleCheck, ValidIdentifier, Trim, FieldVerdict;
  }

  /** Space around a requested field does not matter. */
  lemma TrimmedField(b: AccessBundle, request: FieldRequest, matches: Option<PredicateMatcher>)
    ensures FieldVerdict(b, request.(field := Trim(request.field)), matches) == FieldVerdict(b, request, matches)
  {
    TrimTwice(request.field);
    hide Trim, ValidIdentifier, FieldGuardrail, PolicyDecision, BestPolicy;
  }
}
