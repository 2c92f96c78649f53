/** The record evaluator: two-valued, short-circuiting, deny-overrides. */
module Evaluator {
  import opened Wrappers
  import opened Text
  import opened Lists
  import opened Contract
  import opened Validation
  import opened Context
  import opened Field

  datatype Decision = Decision(allowed: bool, code: string, policyKey: string, reason: string, auditDenial: bool)

  /** A decision, or the decision code and the error code of a failed evaluation (which never allows). */
  datatype Evaluation = Decided(decision: Decision) | Failed(code: string, error: string) {
    predicate Allowed() {
      Decided? && decision.allowed
    }
  }

  function Denial(code: string): Evaluation {
    Decided(Decision(false, code, "", "", false))
  }

  // ----- Predicates -----

  /** `EvaluatePredicateWithContext` on a comparison. */
  function EvalLeaf(p: Predicate, facts: ResourceFacts, context: EvaluationContext): Result<bool> {
    var resolved :- ResolveValue(p.value, context);
    if resolved.Missing? then Ok(false)
    else
      var expected := resolved.value;
      var exists_ := p.fact in facts;
      match p.operator
      case Exists => if expected.Bool? then Ok(exists_ == expected.b) else Err("identity.policy_value_invalid")
      case Eq => Ok(exists_ && facts[p.fact] == expected)
      case Neq => Ok(exists_ && facts[p.fact] != expected)
      case In =>
        if Elements(expected).None? then Err("identity.policy_value_invalid")
        else Ok(exists_ && facts[p.fact] in Elements(expected).value)
      case NotIn =>
        if Elements(expected).None? then Err("identity.policy_value_invalid")
        else Ok(exists_ && facts[p.fact] !in Elements(expected).value)
      case Prefix => Ok(exists_ && facts[p.fact].Str? && expected.Str? && expected.s <= facts[p.fact].s)
      case _ => Err("identity.policy_operator_unsupported")
  }

  function EvalPredicate(p: Predicate, facts: ResourceFacts, context: EvaluationContext): Result<bool>
    decreases p, 1
  {
    if PredicateCheck(p).Fail? then Err(PredicateCheck(p).code)
    else if p.path != [] then Err("identity.policy_relation_resolver_required")
    else if p.all != [] then EvalAll(p.all, facts, context)
    else if p.anyOf != [] then EvalAny(p.anyOf, facts, context)
    else if p.not.Some? then
      var r :- EvalPredicate(p.not.value, facts, context);
      Ok(!r)
    else EvalLeaf(p, facts, context)
  }

  /** Stops at the first child that fails or does not match. */
  function EvalAll(ps: seq<Predicate>, facts: ResourceFacts, context: EvaluationContext): Result<bool>
    decreases ps, 0
  {
    if ps == [] then Ok(true)
    else
      var r :- EvalPredicate(ps[0], facts, context);
      if r then EvalAll(ps[1..], facts, context) else Ok(false)
  }

  /** Stops at the first child that fails or matches. */
  function EvalAny(ps: seq<Predicate>, facts: ResourceFacts, context: EvaluationContext): Result<bool>
    decreases ps, 0
  {
    if ps == [] then Ok(false)
    else
      var r :- EvalPredicate(ps[0], facts, context);
      if r then Ok(true) else EvalAny(ps[1..], facts, context)
  }

  lemma {:induction false} EvalAllMeaning(ps: seq<Predicate>, facts: ResourceFacts, context: EvaluationContext)
    requires forall p | p in ps :: EvalPredicate(p, facts, context).Ok?
    ensures EvalAll(ps, facts, context) == Ok(forall p | p in ps :: Yes(EvalPredicate(p, facts, context)))
  {
    hide EvalPredicate;
    if ps != [] {
      assert ps[0] in ps;
      assert forall p | p in ps :: p == ps[0] || p in ps[1..];
      assert forall p | p in ps[1..] :: p in ps;
      EvalAllMeaning(ps[1..], facts, context);
    }
  }

  lemma {:induction false} EvalAnyMeaning(ps: seq<Predicate>, facts: ResourceFacts, context: EvaluationContext)
    requires forall p | p in ps :: EvalPredicate(p, facts, context).Ok?
    ensures EvalAny(ps, facts, context) == Ok(exists p | p in ps :: Yes(EvalPredicate(p, facts, context)))
  {
    hide EvalPredicate;
    if ps != [] {
      assert ps[0] in ps;
      assert forall p | p in ps :: p == ps[0] || p in ps[1..];
      assert forall p | p in ps[1..] :: p in ps;
      EvalAnyMeaning(ps[1..], facts, context);
    }
  }

  // ----- The layers of one request -----

  datatype Gate = GateDenied | GateClosed | GateOpen

  predicate GrantNames(g: FunctionGrant, resource: string, action: string) {
    g.resource == resource && g.action == action
  }

  /** The function layer: any deny closes it for good, otherwise any matching grant opens it. */
  function FunctionGate(grants: seq<FunctionGrant>, resource: string, action: string): Gate {
    if exists g | g in grants :: GrantNames(g, resource, action) && g.effect == Deny then GateDenied
    else if exists g | g in grants :: GrantNames(g, resource, action) then GateOpen
    else GateClosed
  }

  /** An empty resource or action of a guardrail applies to every request. */
  predicate GuardrailCovers(g: Guardrail, resource: string, action: string) {
    (g.resource == "" || ResourceMatches(g.resource, resource)) && (g.action == "" || ResourceMatches(g.action, action))
  }

  /** The guardrails the record layer evaluates: those that name no field. */
  predicate GuardrailApplies(g: Guardrail, resource: string, action: string) {
    GuardrailCovers(g, resource, action) && Blank(g.field)
  }

  function GuardrailMatch(g: Guardrail, facts: ResourceFacts, context: EvaluationContext): Result<bool> {
    if g.condition.None? then Ok(true) else EvalPredicate(g.condition.value, facts, context)
  }

  function ScanRecordGuardrails(gs: seq<Guardrail>, resource: string, action: string, facts: ResourceFacts,
                                context: EvaluationContext): Option<Evaluation> {
    if gs == [] then None
    else if !GuardrailApplies(gs[0], resource, action) then
        ScanRecordGuardrails(gs[1..], resource, action, facts, context)
    else
      match GuardrailMatch(gs[0], facts, context)
      case Err(error) => Some(Failed("guardrail_invalid", error))
      case Ok(true) => Some(Decided(Decision(false, "guardrail_denied", gs[0].key, gs[0].reason, false)))
      case Ok(false) => ScanRecordGuardrails(gs[1..], resource, action, facts, context)
  }

  predicate PolicyApplies(p: DataPolicy, resource: string, action: string) {
    ResourceMatches(p.resource, resource) && p.action == action
  }

  predicate UnrestrictedAllow(p: DataPolicy) {
    p.effect == Allow && ScopeAll in p.dataScopes
  }

  function PolicyMatch(p: DataPolicy, facts: ResourceFacts, context: EvaluationContext): Result<bool> {
    if UnrestrictedAllow(p) then Ok(true) else EvalPredicate(p.condition, facts, context)
  }

  datatype DataScan = Stop(evaluation: Evaluation) | Scanned(matchedAllow: bool, hasPolicies: bool, auditDenial: bool)

  function ScanPolicies(ps: seq<DataPolicy>, resource: string, action: string, facts: ResourceFacts,
                        context: EvaluationContext,
                        matchedAllow: bool, hasPolicies: bool, auditDenial: bool): DataScan
  {
    if ps == [] then Scanned(matchedAllow, hasPolicies, auditDenial)
    else if !PolicyApplies(ps[0], resource, action) then
      ScanPolicies(ps[1..], resource, action, facts, context, matchedAllow, hasPolicies, auditDenial)
    else
      match PolicyMatch(ps[0], facts, context)
      case Err(error) => Stop(Failed("data_policy_invalid", error))
      case Ok(m) =>
        if m && ps[0].effect == Deny then
          Stop(Decided(Decision(false, "data_policy_denied", ps[0].key, "", ps[0].auditDenial)))
        else
          ScanPolicies(ps[1..], resource, action, facts, context,
                       matchedAllow || (m && ps[0].effect == Allow), true, auditDenial || ps[0].auditDenial)
  }

  function Matcher(facts: ResourceFacts, context: EvaluationContext): PredicateMatcher {
    p => EvalPredicate(p, facts, context)
  }

  function FieldLayer(b: AccessBundle, request: AccessRequest, resource: string, facts: ResourceFacts,
                      context: EvaluationContext): Evaluation {
    if Blank(request.fieldKey) then Decided(Decision(true, "allowed", "", "", false))
    else
      match FieldVerdict(b, FieldRequest(resource, Trim(request.fieldKey), request.action),
          Some(Matcher(facts, context)))
      case Err(error) => Failed("field_policy_invalid", error)
      case Ok(d) =>
        if d.effect.FieldAllow? || d.effect.FieldMask? then Decided(Decision(true, "allowed", "", "", false))
        else Decided(Decision(false, "field_not_granted", d.ruleKey, d.reason, d.auditDenial))
  }

  function DataLayer(b: AccessBundle, request: AccessRequest, resource: string, action: string, facts: ResourceFacts,
                     context: EvaluationContext): Evaluation {
    var scan := ScanPolicies(b.dataPolicies, resource, action, facts, context, false, false, false);
    if scan.Stop? then scan.evaluation
    else if !scan.hasPolicies || !scan.matchedAllow then
        Decided(Decision(false, "data_policy_not_granted", "", "", scan.auditDenial))
    else FieldLayer(b, request, resource, facts, context)
  }

  /** The evaluation of one request once the bundle itself is accepted. */
  function Layers(b: AccessBundle, request: AccessRequest, facts: ResourceFacts,
                  context: EvaluationContext): Evaluation {
    var resource, action := Trim(request.objectKey), Trim(request.action);
    if !ValidIdentifier(resource) || !ValidIdentifier(action) then
        Failed("access_request_invalid", "identity.access_request_invalid")
    else
      match FunctionGate(b.functionGrants, resource, action)
      case GateDenied => Denial("function_denied")
      case GateClosed => Denial("function_not_granted")
      case GateOpen =>
        var guarded := ScanRecordGuardrails(b.guardrails, resource, action, facts, context);
        if guarded.Some? then guarded.value
        else DataLayer(b, request, resource, action, facts, context)
  }

  /** What `EvaluateWithContext` decides. */
  function Verdict(b: AccessBundle, request: AccessRequest, facts: ResourceFacts, context: EvaluationContext,
                   now: int): Evaluation {
    match BundleCheck(b, now)
    case Fail(error) => Failed("access_bundle_invalid", error)
    case Pass => Layers(b, request, facts, context)
  }

  // ----- The loops -----

  /** The grant loop: the `functionAllowed` flag and the early return on a deny. */
  method GrantLoop(grants: seq<FunctionGrant>, resource: string, action: string) returns (gate: Gate)
    ensures gate == FunctionGate(grants, resource, action)
  {
    var functionAllowed := false;
    for i := 0 to |grants|
      invariant functionAllowed <==> exists g | g in grants[..i] :: GrantNames(g, resource, action)
      invariant forall g | g in grants[..i] && GrantNames(g, resource, action) :: g.effect != Deny
    {
      assert grants[..i + 1] == grants[..i] + [grants[i]];
      if GrantNames(grants[i], resource, action) {
        if grants[i].effect == Deny { return GateDenied; }
        functionAllowed := true;
      }
    }
    assert grants[..|grants|] == grants;
    return if functionAllowed then GateOpen else GateClosed;
  }

  method GuardrailLoop(gs: seq<Guardrail>, resource: string, action: string, facts: ResourceFacts,
                       context: EvaluationContext) returns (r: Option<Evaluation>)
    ensures r == ScanRecordGuardrails(gs, resource, action, facts, context)
  {
    for i := 0 to |gs|
      invariant ScanRecordGuardrails(gs[i..], resource, action, facts, context)
                  == ScanRecordGuardrails(gs, resource, action, facts, context)
    {
      var g := gs[i];
      assert gs[i..][0] == g && gs[i..][1..] == gs[i + 1..];
      if (g.resource != "" && !ResourceMatches(g.resource, resource))
          || (g.action != "" && !ResourceMatches(g.action, action)) {
        continue;
      }
      if !Blank(g.field) {
        continue;
      }
      var matches: Result<bool> := Ok(true);
      if g.condition.Some? {
        matches := EvalPredicate(g.condition.value, facts, context);
      }
      if matches.Err? { return Some(Failed("guardrail_invalid", matches.code)); }
      if matches.value { return Some(Decided(Decision(false, "guardrail_denied", g.key, g.reason, false))); }
    }
    return None;
  }

  method PolicyLoop(ps: seq<DataPolicy>, resource: string, action: string, facts: ResourceFacts,
                    context: EvaluationContext) returns (r: DataScan)
    ensures r == ScanPolicies(ps, resource, action, facts, context, false, false, false)
  {
    var matchedAllow, hasPolicies, auditDenial := false, false, false;
    for i := 0 to |ps|
      invariant ScanPolicies(ps[i..], resource, action, facts, context, matchedAllow, hasPolicies, auditDenial)
             == ScanPolicies(ps, resource, action, facts, context, false, false, false)
    {
      var p := ps[i];
      assert ps[i..][0] == p && ps[i..][1..] == ps[i + 1..];
      if !ResourceMatches(p.resource, resource) || p.action != action {
        continue;
      }
      hasPolicies := true;
      auditDenial := auditDenial || p.auditDenial;
      var matches: Result<bool> := Ok(p.effect == Allow && ScopeAll in p.dataScopes);
      if !matches.value {
        matches := EvalPredicate(p.condition, facts, context);
        if matches.Err? { return Stop(Failed("data_policy_invalid", matches.code)); }
      }
      if matches.value && p.effect == Deny {
        return Stop(Decided(Decision(false, "data_policy_denied", p.key, "", p.auditDenial)));
      }
      matchedAllow := matchedAllow || (matches.value && p.effect == Allow);
    }
    return Scanned(matchedAllow, hasPolicies, auditDenial);
  }

  /** `EvaluateWithContext`. */
  method Evaluate(b: AccessBundle, request: AccessRequest, facts: ResourceFacts, context: EvaluationContext,
                  now: int) returns (r: Evaluation)
    ensures r == Verdict(b, request, facts, context, now)
  {
    var valid := Validate(b, now);
    if valid.Fail? { return Failed("access_bundle_invalid", valid.code); }
    var resource, action := Trim(request.objectKey), Trim(request.action);
    if !ValidIdentifier(resource) || !ValidIdentifier(action) {
      return Failed("access_request_invalid", "identity.access_request_invalid");
    }
    var gate := GrantLoop(b.functionGrants, resource, action);
    if gate.GateDenied? { return Denial("function_denied"); }
    if gate.GateClosed? { return Denial("function_not_granted"); }
    var guarded := GuardrailLoop(b.guardrails, resource, action, facts, context);
    if guarded.Some? { return guarded.value; }
    var scan := PolicyLoop(b.dataPolicies, resource, action, facts, context);
    if scan.Stop? { return scan.evaluation; }
    if !scan.hasPolicies || !scan.matchedAllow {
      return Decided(Decision(false, "data_policy_not_granted", "", "", scan.auditDenial));
    }
    if !Blank(request.fieldKey) {
      var d := EvaluateField(b, FieldRequest(resource, Trim(request.fieldKey), request.action),
          Some(Matcher(facts, context)));
      if d.Err? { return Failed("field_policy_invalid", d.code); }
      if !d.value.effect.FieldAllow? && !d.value.effect.FieldMask? {
        return Decided(Decision(false, "field_not_granted", d.value.ruleKey, d.value.reason, d.value.auditDenial));
      }
    }
    return Decided(Decision(true, "allowed", "", "", false));
  }

  // ----- When a record is allowed -----

  predicate GuardrailsSilent(gs: seq<Guardrail>, resource: string, action: string, facts: ResourceFacts,
                             context: EvaluationContext) {
    forall g | g in gs && GuardrailApplies(g, resource, action) :: No(GuardrailMatch(g, facts, context))
  }

  predicate PolicyQuiet(p: DataPolicy, resource: string, action: string, facts: ResourceFacts,
                        context: EvaluationContext) {
    PolicyApplies(p, resource, action) ==>
      PolicyMatch(p, facts, context).Ok? && (p.effect == Deny ==> !PolicyMatch(p, facts, context).value)
  }

  predicate PolicyGrants(p: DataPolicy, resource: string, action: string, facts: ResourceFacts,
                         context: EvaluationContext) {
    PolicyApplies(p, resource, action) && p.effect == Allow && Yes(PolicyMatch(p, facts, context))
  }

  /** Some allow policy matches, and every applicable policy evaluates without error and no deny matches. */
  predicate PoliciesPass(ps: seq<DataPolicy>, resource: string, action: string, facts: ResourceFacts,
                         context: EvaluationContext) {
    && (exists p | p in ps :: PolicyGrants(p, resource, action, facts, context))
    && (forall p | p in ps :: PolicyQuiet(p, resource, action, facts, context))
  }

  /** The record layers, stated without order: no scan, no flags, no early return. */
  predicate RecordAllowed(b: AccessBundle, resource: string, action: string, facts: ResourceFacts,
                          context: EvaluationContext) {
    && FunctionGate(b.functionGrants, resource, action).GateOpen?
    && GuardrailsSilent(b.guardrails, resource, action, facts, context)
    && PoliciesPass(b.dataPolicies, resource, action, facts, context)
  }

  lemma {:induction false} GuardrailScanMeaning(gs: seq<Guardrail>, resource: string, action: string,
                                                facts: ResourceFacts, context: EvaluationContext)
    ensures ScanRecordGuardrails(gs, resource, action, facts, context).None? <==>
              GuardrailsSilent(gs, resource, action, facts, context)
    ensures ScanRecordGuardrails(gs, resource, action, facts, context).Some? ==>
              !ScanRecordGuardrails(gs, resource, action, facts, context).value.Allowed()
  {
    if gs != [] {
      GuardrailScanMeaning(gs[1..], resource, action, facts, context);
      assert gs == [gs[0]] + gs[1..];
    }
  }

  lemma {:induction false} PolicyScanMeaning(ps: seq<DataPolicy>, resource: string, action: string,
                                             facts: ResourceFacts, context: EvaluationContext,
                                            m: bool, h: bool, a: bool)
    ensures var scan := ScanPolicies(ps, resource, action, facts, context, m, h, a);
            && (scan.Scanned? <==> forall p | p in ps :: PolicyQuiet(p, resource, action, facts, context))
            && (scan.Scanned? ==> (scan.matchedAllow <==>
                m || exists p | p in ps :: PolicyGrants(p, resource, action, facts, context)))
            && (scan.Scanned? ==> (scan.hasPolicies <==> h || exists p | p in ps :: PolicyApplies(p, resource, action)))
            && (scan.Stop? ==> !scan.evaluation.Allowed())
  {
    if ps != [] {
      var p := ps[0];
      assert ps == [p] + ps[1..];
      if !PolicyApplies(p, resource, action) {
        PolicyScanMeaning(ps[1..], resource, action, facts, context, m, h, a);
      } else if PolicyQuiet(p, resource, action, facts, context) {
        assert PolicyGrants(p, resource, action, facts, context) <==>
            (PolicyMatch(p, facts, context).value && p.effect == Allow);
        PolicyScanMeaning(ps[1..], resource, action, facts, context,
                          m || (PolicyMatch(p, facts, context).value && p.effect == Allow), true, a || p.auditDenial);
      }
    }
  }

  lemma PoliciesPassMeaning(ps: seq<DataPolicy>, resource: string, action: string, facts: ResourceFacts,
                            context: EvaluationContext)
    ensures PoliciesPass(ps, resource, action, facts, context) <==>
              var scan := ScanPolicies(ps, resource, action, facts, context, false, false, false);
              scan.Scanned? && scan.hasPolicies && scan.matchedAllow
  {
    hide PolicyMatch, ScanPolicies;
    PolicyScanMeaning(ps, resource, action, facts, context, false, false, false);
  }

  /** A request is allowed when the record is, and then the field if one was asked for. */
  lemma AllowedByLayers(b: AccessBundle, request: AccessRequest, facts: ResourceFacts, context: EvaluationContext)
    ensures var resource, action := Trim(request.objectKey), Trim(request.action);
            Layers(b, request, facts, context).Allowed() <==>
              && ValidIdentifier(resource) && ValidIdentifier(action)
                  && RecordAllowed(b, resource, action, facts, context)
              && FieldLayer(b, request, resource, facts, context).Allowed()
  {
    hide ValidIdentifier, FunctionGate, GuardrailsSilent, PoliciesPass, ScanRecordGuardrails, ScanPolicies, FieldLayer,
      Trim;
    var resource, action := Trim(request.objectKey), Trim(request.action);
    GuardrailScanMeaning(b.guardrails, resource, action, facts, context);
    PolicyScanMeaning(b.dataPolicies, resource, action, facts, context, false, false, false);
    PoliciesPassMeaning(b.dataPolicies, resource, action, facts, context);
  }

  /** A record request is allowed exactly when the order-free reading of the bundle allows it: denies override
      allows wherever they stand, an error anywhere among the applicable policies refuses, and no policy means no. */
  lemma AllowedMeaning(b: AccessBundle, request: AccessRequest, facts: ResourceFacts, context: EvaluationContext,
                       now: int)
    requires Blank(request.fieldKey)
    ensures Verdict(b, request, facts, context, now).Allowed() <==>
            && BundleCheck(b, now).Pass?
            && ValidIdentifier(Trim(request.objectKey)) && ValidIdentifier(Trim(request.action))
            && RecordAllowed(b, Trim(request.objectKey), Trim(request.action), facts, context)
  {
    AllowedByLayers(b, request, facts, context);
  }

  lemma UnrelatedReads(p: DataPolicy, resource: string, action: string, facts: ResourceFacts,
                       context: EvaluationContext)
    requires DataPolicyValid(p) && !(p.resource == resource && p.action == action)
    ensures !PolicyApplies(p, resource, action)
    ensures PolicyQuiet(p, resource, action, facts, context) && !PolicyGrants(p, resource, action, facts, context)
  {
    hide PredicateCheck, EvalPredicate, Blank, ValidIdentifier;
  }

  lemma {:induction false} ScanSkips(keep: DataPolicy -> bool, ps: seq<DataPolicy>, resource: string, action: string,
                                    facts: ResourceFacts, context: EvaluationContext, m: bool, h: bool, a: bool)
    requires forall p | p in ps && !keep(p) :: !PolicyApplies(p, resource, action)
    ensures ScanPolicies(Filter(keep, ps), resource, action, facts, context, m, h, a)
              == ScanPolicies(ps, resource, action, facts, context, m, h, a)
  {
    hide PolicyApplies, PolicyMatch;
    if ps != [] {
      assert ps[0] in ps && forall p | p in ps[1..] :: p in ps;
      var f := Filter(keep, ps);
      if keep(ps[0]) {
        assert f[0] == ps[0] && f[1..] == Filter(keep, ps[1..]);
      } else {
        assert f == Filter(keep, ps[1..]);
      }
      if !PolicyApplies(ps[0], resource, action) {
        ScanSkips(keep, ps[1..], resource, action, facts, context, m, h, a);
      } else if PolicyMatch(ps[0], facts, context).Ok? {
        var matched := PolicyMatch(ps[0], facts, context).value;
        ScanSkips(keep, ps[1..], resource, action, facts, context,
                  m || (matched && ps[0].effect == Allow), true, a || ps[0].auditDenial);
      }
    }
  }
}
