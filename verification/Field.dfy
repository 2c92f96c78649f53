/** Field access: which policy and which rule decide about one field of one record. */
module Field {
  import opened Wrappers
  import opened Text
  import opened Lists
  import opened Contract

  datatype FieldRequest = FieldRequest(resource: string, field: string, action: string)

  datatype FieldDecision = FieldDecision(
    effect: FieldEffect, ruleKey: string, reason: string, maskStrategy: Option<MaskStrategy>, auditDenial: bool)

  type PredicateMatcher = Predicate -> Result<bool>

  predicate ResourceMatches(configured: string, requested: string) {
    configured == requested || configured == "*"
  }

  predicate FieldMatches(configured: string, requested: string) {
    Trim(configured) == Trim(requested) || Trim(configured) == "*"
  }

  function NormalAction(action: string): string {
    Lower(Trim(action))
  }

  predicate FieldActionMatches(candidate: string, expected: string) {
    var candidate, expected := NormalAction(candidate), NormalAction(expected);
    || candidate == expected || candidate == "*"
    || (candidate == "write" && expected in {"create", "update"})
    || (expected == "write" && candidate in {"create", "update"})
  }

  predicate ContainsAction(actions: seq<string>, expected: string) {
    exists a | a in actions :: FieldActionMatches(a, expected)
  }

  predicate RequestValid(request: FieldRequest) {
    ValidIdentifier(request.resource) && !Blank(request.field) && ValidIdentifier(NormalAction(request.action))
  }

  predicate GuardrailNames(g: Guardrail, resource: string, field: string, action: string) {
    ResourceMatches(g.resource, resource) && FieldMatches(g.field, field) && FieldActionMatches(g.action, action)
  }

  predicate PolicyNames(p: FieldPolicy, resource: string, field: string) {
    ResourceMatches(p.resource, resource) && FieldMatches(p.field, field)
  }

  /** `FieldRequiresPolicyEvaluation`. */
  predicate FieldRequiresPolicyEvaluation(b: AccessBundle, request: FieldRequest) {
    var resource, field, action := request.resource, Trim(request.field), NormalAction(request.action);
    || !RequestValid(request)
    || (exists g | g in b.guardrails :: GuardrailNames(g, resource, field, action))
    || (exists p | p in b.fieldPolicies :: PolicyNames(p, resource, field) && exists r | r in p.rules ::
        ContainsAction(r.actions, action))
  }

  /** A missing predicate always matches; a present one needs a matcher. */
  function Matched(condition: Option<Predicate>, matches: Option<PredicateMatcher>): Result<bool> {
    if condition.None? then Ok(true)
    else if matches.None? then Err("identity.policy_predicate_matcher_required")
    else matches.value(condition.value)
  }

  /** The first guardrail on the field that matches or fails, if any. */
  function FieldGuardrail(gs: seq<Guardrail>, resource: string, field: string, action: string,
                          matches: Option<PredicateMatcher>): Option<Result<FieldDecision>> {
    if gs == [] then None
    else if !GuardrailNames(gs[0], resource, field, action) then
        FieldGuardrail(gs[1..], resource, field, action, matches)
    else
      match Matched(gs[0].condition, matches)
      case Err(code) => Some(Err(code))
      case Ok(true) => Some(Ok(FieldDecision(FieldHide, gs[0].key, gs[0].reason, None, false)))
      case Ok(false) => FieldGuardrail(gs[1..], resource, field, action, matches)
  }

  function Score(p: FieldPolicy, resource: string, field: string): nat {
    (if p.resource == resource then 2 else 0) + (if Trim(p.field) == field then 1 else 0)
  }

  /** The first policy naming the field with the highest score above `score`. */
  function BestPolicy(ps: seq<FieldPolicy>, resource: string, field: string, best: Option<FieldPolicy>,
                      score: int): Option<FieldPolicy> {
    if ps == [] then best
    else if PolicyNames(ps[0], resource, field) && Score(ps[0], resource, field) > score then
      BestPolicy(ps[1..], resource, field, Some(ps[0]), Score(ps[0], resource, field))
    else
      BestPolicy(ps[1..], resource, field, best, score)
  }

  predicate HigherPriority(a: FieldRule, b: FieldRule) {
    a.priority >= b.priority
  }

  /** The first applicable rule, in the given order, that matches or fails. */
  function DecidingRule(rules: seq<FieldRule>, action: string, reason: string,
                        matches: Option<PredicateMatcher>): Option<Result<FieldDecision>> {
    if rules == [] then None
    else if !ContainsAction(rules[0].actions, action) then DecidingRule(rules[1..], action, reason, matches)
    else
      match Matched(rules[0].condition, matches)
      case Err(code) => Some(Err(code))
      case Ok(false) => DecidingRule(rules[1..], action, reason, matches)
      case Ok(true) => Some(Ok(FieldDecision(rules[0].effect, rules[0].key, reason, rules[0].maskStrategy,
          rules[0].auditDenial)))
  }

  function Baseline(p: FieldPolicy, action: string): FieldDecision {
    var allowed :=
      if action in {"read", "list", "view", "search", "report", "audit"} then p.read
      else if action == "export" then p.export_
      else p.write;
    if !allowed then FieldDecision(FieldHide, "static_field_policy", p.reason, None, p.auditDenial)
    else if p.masked && action !in {"write", "update", "create"} then
        FieldDecision(FieldMask, "", p.reason, None, false)
    else FieldDecision(FieldAllow, "", p.reason, None, false)
  }

  function PolicyDecision(best: Option<FieldPolicy>, action: string,
                          matches: Option<PredicateMatcher>): Result<FieldDecision> {
    if best.None? then
      Ok(FieldDecision(FieldHide, "", "", None, false))
    else
      var rule := DecidingRule(Sort(HigherPriority, best.value.rules), action, best.value.reason, matches);
      if rule.Some? then rule.value else Ok(Baseline(best.value, action))
  }

  /** What `EvaluateField` decides. */
  function FieldVerdict(b: AccessBundle, request: FieldRequest,
                        matches: Option<PredicateMatcher>): Result<FieldDecision> {
    var resource, field, action := request.resource, Trim(request.field), NormalAction(request.action);
    if !RequestValid(request) then
      Err("identity.field_request_invalid")
    else
      var guarded := FieldGuardrail(b.guardrails, resource, field, action, matches);
      if guarded.Some? then guarded.value
      else PolicyDecision(BestPolicy(b.fieldPolicies, resource, field, None, -1), action, matches)
  }

  /** The guardrail loop of `EvaluateField`. */
  method ScanGuardrails(gs: seq<Guardrail>, resource: string, field: string, action: string,
                        matches: Option<PredicateMatcher>)
    returns (r: Option<Result<FieldDecision>>)
    ensures r == FieldGuardrail(gs, resource, field, action, matches)
  {
    for i := 0 to |gs|
      invariant FieldGuardrail(gs[i..], resource, field, action, matches)
                  == FieldGuardrail(gs, resource, field, action, matches)
    {
      var g := gs[i];
      assert gs[i..][0] == g && gs[i..][1..] == gs[i + 1..];
      if GuardrailNames(g, resource, field, action) {
        var matched := Matched(g.condition, matches);
        if matched.Err? { return Some(Err(matched.code)); }
        if matched.value { return Some(Ok(FieldDecision(FieldHide, g.key, g.reason, None, false))); }
      }
    }
    return None;
  }

  /** The best-policy loop of `EvaluateField`. */
  method ChoosePolicy(ps: seq<FieldPolicy>, resource: string, field: string) returns (best: Option<FieldPolicy>)
    ensures best == BestPolicy(ps, resource, field, None, -1)
  {
    hide Trim, PolicyNames;
    var score := -1;
    best := None;
    for i := 0 to |ps|
      invariant BestPolicy(ps[i..], resource, field, best, score) == BestPolicy(ps, resource, field, None, -1)
    {
      var candidate := ps[i];
      assert ps[i..][0] == candidate && ps[i..][1..] == ps[i + 1..];
      if PolicyNames(candidate, resource, field) {
        var s := 0;
        if candidate.resource == resource { s := s + 2; }
        if Trim(candidate.field) == field { s := s + 1; }
        if s > score {
          best, score := Some(candidate), s;
        }
      }
    }
  }

  /** The rule loop of `EvaluateField`, over the sorted copy. */
  method ApplyRules(rules: seq<FieldRule>, action: string, reason: string, matches: Option<PredicateMatcher>)
    returns (r: Option<Result<FieldDecision>>)
    ensures r == DecidingRule(rules, action, reason, matches)
  {
    for i := 0 to |rules|
      invariant DecidingRule(rules[i..], action, reason, matches) == DecidingRule(rules, action, reason, matches)
    {
      var rule := rules[i];
      assert rules[i..][0] == rule && rules[i..][1..] == rules[i + 1..];
      if ContainsAction(rule.actions, action) {
        var matched := Matched(rule.condition, matches);
        if matched.Err? { return Some(Err(matched.code)); }
        if matched.value {
          return Some(Ok(FieldDecision(rule.effect, rule.key, reason, rule.maskStrategy, rule.auditDenial)));
        }
      }
    }
    return None;
  }

  /** `EvaluateField`. */
  method EvaluateField(b: AccessBundle, request: FieldRequest,
                       matches: Option<PredicateMatcher>) returns (r: Result<FieldDecision>)
    ensures r == FieldVerdict(b, request, matches)
  {
    var resource, field, action := request.resource, Trim(request.field), NormalAction(request.action);
    if !ValidIdentifier(resource) || field == "" || !ValidIdentifier(action) {
      return Err("identity.field_request_invalid");
    }
    var guarded := ScanGuardrails(b.guardrails, resource, field, action, matches);
    if guarded.Some? { return guarded.value; }
    var policy := ChoosePolicy(b.fieldPolicies, resource, field);
    if policy.None? {
      return Ok(FieldDecision(FieldHide, "", "", None, false));
    }
    var rules := Sort(HigherPriority, policy.value.rules);
    var decided := ApplyRules(rules, action, policy.value.reason, matches);
    if decided.Some? { return decided.value; }
    return Ok(Baseline(policy.value, action));
  }
}
