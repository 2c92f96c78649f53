/** Field decisions said in the terms of the policies themselves: what each guardrail, rule, entry and flag decides. */
module FieldMeaning {
  import opened Wrappers
  import opened Text
  import opened Lists
  import opened Contract
  import opened Field
  import opened FieldLaws

  // ----- Vocabulary -----

  /** The verbs a configured action stands for. */
  function Verbs(action: string): set<string> {
    if action == "write" then {"write", "create", "update"}
    else if action in {"create", "update"} then {action, "write"}
    else {action}
  }

  /** A configured action governs a requested one, up to letter case and surrounding space. */
  predicate Governs(configured: string, requested: string) {
    Lower(Trim(configured)) == "*" || Lower(Trim(requested)) in Verbs(Lower(Trim(configured)))
  }

  /** A request that names a resource, a field and an action. */
  predicate Proper(request: FieldRequest) {
    && ValidIdentifier(request.resource) && Trim(request.field) != ""
    && ValidIdentifier(Lower(Trim(request.action)))
  }

  predicate GuardrailOn(g: Guardrail, request: FieldRequest) {
    && g.resource in {"*", request.resource} && Trim(g.field) in {"*", Trim(request.field)}
    && Governs(g.action, request.action)
  }

  predicate RuleOn(r: FieldRule, request: FieldRequest) {
    exists a | a in r.actions :: Governs(a, request.action)
  }

  predicate EntryOn(p: FieldPolicy, request: FieldRequest) {
    p.resource in {"*", request.resource} && Trim(p.field) in {"*", Trim(request.field)}
  }

  /** Whether a condition holds, which nobody can tell without a matcher. */
  function Holds(condition: Option<Predicate>, matches: Option<PredicateMatcher>): Result<bool> {
    match (condition, matches)
    case (None, _) => Ok(true)
    case (Some(_), None) => Err("identity.policy_predicate_matcher_required")
    case (Some(p), Some(matcher)) => matcher(p)
  }

  /** No guardrail on the field has a say. */
  predicate Unguarded(b: AccessBundle, request: FieldRequest, matches: Option<PredicateMatcher>) {
    forall g | g in b.guardrails && GuardrailOn(g, request) :: Holds(g.condition, matches) == Ok(false)
  }

  /** The entry that decides about the field. */
  function EntryFor(b: AccessBundle, request: FieldRequest): Option<FieldPolicy> {
    BestPolicy(b.fieldPolicies, request.resource, Trim(request.field), None, -1)
  }

  // ----- The vocabulary is the evaluator's -----

  lemma NormalTwice(action: string)
    ensures NormalAction(NormalAction(action)) == NormalAction(action)
  {
    LowerTrimmed(Trim(action));
  }

  lemma GovernsMeaning(configured: string, requested: string)
    ensures FieldActionMatches(configured, NormalAction(requested)) <==> Governs(configured, requested)
  {
    NormalTwice(requested);
    hide Lower, Trim;
  }

  lemma ProperMeaning(request: FieldRequest)
    ensures RequestValid(request) <==> Proper(request)
  {
    hide Lower, Trim, ValidIdentifier;
  }

  lemma RuleOnMeaning(r: FieldRule, request: FieldRequest)
    ensures ContainsAction(r.actions, NormalAction(request.action)) <==> RuleOn(r, request)
  {
    hide FieldActionMatches, Governs, NormalAction;
    forall a | a in r.actions
      ensures FieldActionMatches(a, NormalAction(request.action)) <==> Governs(a, request.action)
    {
      GovernsMeaning(a, request.action);
    }
  }

  lemma GuardrailOnMeaning(g: Guardrail, request: FieldRequest)
    ensures GuardrailNames(g, request.resource, Trim(request.field), NormalAction(request.action)) <==>
              GuardrailOn(g, request)
  {
    TrimTwice(request.field);
    GovernsMeaning(g.action, request.action);
    hide Lower, Trim, FieldActionMatches, Governs;
  }

  lemma EntryOnMeaning(p: FieldPolicy, request: FieldRequest)
    ensures PolicyNames(p, request.resource, Trim(request.field)) <==> EntryOn(p, request)
  {
    TrimTwice(request.field);
    hide Trim;
  }

  lemma HoldsMeaning(condition: Option<Predicate>, matches: Option<PredicateMatcher>)
    ensures Matched(condition, matches) == Holds(condition, matches)
  {
  }

  // ----- Which entry decides -----

  predicate HasEntry(ps: seq<FieldPolicy>, resource: string, field: string) {
    exists p | p in ps :: p.resource == resource && Trim(p.field) == field
  }

  /** The entry of the field itself, else the one of all fields of the resource, else the one of the field in all
      resources, else the one of everything. */
  lemma Precedence(b: AccessBundle, request: FieldRequest)
    requires Unambiguous(b.fieldPolicies)
    ensures var resource, field := request.resource, Trim(request.field);
            var ps, best := b.fieldPolicies, EntryFor(b, request);
            if HasEntry(ps, resource, field) then
              best.Some? && best.value in ps && best.value.resource == resource && Trim(best.value.field) == field
            else if HasEntry(ps, resource, "*") then
              best.Some? && best.value in ps && best.value.resource == resource && Trim(best.value.field) == "*"
            else if HasEntry(ps, "*", field) then
              best.Some? && best.value in ps && best.value.resource == "*" && Trim(best.value.field) == field
            else if HasEntry(ps, "*", "*") then
              best.Some? && best.value in ps && best.value.resource == "*" && Trim(best.value.field) == "*"
            else best.None?
  {
    hide Trim, BestPolicy, Unambiguous, Trimmed;
    BestPolicyMeaning(b.fieldPolicies, request.resource, Trim(request.field));
    TrimTwice(request.field);
  }

  // ----- What is decided -----

  /** An improper request is refused, whatever the policies. */
  lemma ImproperIsRefused(b: AccessBundle, request: FieldRequest, matches: Option<PredicateMatcher>)
    requires !Proper(request)
    ensures FieldVerdict(b, request, matches) == Err("identity.field_request_invalid")
  {
    ProperMeaning(request);
    hide RequestValid, Proper;
  }

  /** The first guardrail on the field whose condition does not come out false decides: it hides the field, or its
      failure is that of the request. */
  lemma FirstGuardrailDecides(b: AccessBundle, request: FieldRequest, matches: Option<PredicateMatcher>, i: nat)
    requires Proper(request) && i < |b.guardrails| && GuardrailOn(b.guardrails[i], request)
    requires Holds(b.guardrails[i].condition, matches) != Ok(false)
    requires forall j | 0 <= j < i && GuardrailOn(b.guardrails[j], request) ::
               Holds(b.guardrails[j].condition, matches) == Ok(false)
    ensures var g := b.guardrails[i];
            FieldVerdict(b, request, matches)
              == match Holds(g.condition, matches)
                 case Err(code) => Err(code)
                 case Ok(_) => Ok(FieldDecision(FieldHide, g.key, g.reason, None, false))
  {
    ProperMeaning(request);
    hide RequestValid, Proper, Trim, NormalAction, GuardrailOn, PolicyDecision;
    GuardrailScan(b.guardrails, request, matches, i);
  }

  lemma {:induction false} GuardrailScan(gs: seq<Guardrail>, request: FieldRequest, matches: Option<PredicateMatcher>,
                                         i: nat)
    requires i <= |gs|
    requires forall j | 0 <= j < i && GuardrailOn(gs[j], request) :: Holds(gs[j].condition, matches) == Ok(false)
    requires i < |gs| ==> GuardrailOn(gs[i], request) && Holds(gs[i].condition, matches) != Ok(false)
    ensures FieldGuardrail(gs, request.resource, Trim(request.field), NormalAction(request.action), matches)
              == if i == |gs| then None
                 else Some(match Holds(gs[i].condition, matches)
                           case Err(code) => Err(code)
                           case Ok(_) => Ok(FieldDecision(FieldHide, gs[i].key, gs[i].reason, None, false)))
  {
    hide GuardrailOn, GuardrailNames, Trim, NormalAction, Matched, Holds;
    if gs != [] {
      GuardrailOnMeaning(gs[0], request);
      HoldsMeaning(gs[0].condition, matches);
      if i > 0 {
        assert forall j | 0 <= j < i - 1 :: gs[1..][j] == gs[j + 1];
        GuardrailScan(gs[1..], request, matches, i - 1);
      }
    }
  }

  lemma UnguardedScan(b: AccessBundle, request: FieldRequest, matches: Option<PredicateMatcher>)
    requires Unguarded(b, request, matches)
    ensures FieldGuardrail(b.guardrails, request.resource, Trim(request.field), NormalAction(request.action),
                matches).None?
  {
    hide GuardrailOn, Trim, NormalAction, Holds;
    GuardrailScan(b.guardrails, request, matches, |b.guardrails|);
  }

  /** A field no entry speaks of is hidden. */
  lemma UnlistedIsHidden(b: AccessBundle, request: FieldRequest, matches: Option<PredicateMatcher>)
    requires Proper(request) && Unguarded(b, request, matches)
    requires forall p | p in b.fieldPolicies :: !EntryOn(p, request)
    ensures FieldVerdict(b, request, matches) == Ok(FieldDecision(FieldHide, "", "", None, false))
  {
    ProperMeaning(request);
    hide RequestValid, Proper, Trim, NormalAction, Unguarded, EntryOn, PolicyNames;
    UnguardedScan(b, request, matches);
    forall p | p in b.fieldPolicies
      ensures !PolicyNames(p, request.resource, Trim(request.field))
    {
      EntryOnMeaning(p, request);
    }
    BestPolicyScan(b.fieldPolicies, request.resource, Trim(request.field), None, -1);
  }

  /** Of the deciding entry's rules on the action whose conditions do not come out false, the one of highest priority
      decides. */
  lemma FirstRuleDecides(b: AccessBundle, request: FieldRequest, matches: Option<PredicateMatcher>, p: FieldPolicy,
                         r: FieldRule)
    requires Proper(request) && Unguarded(b, request, matches) && EntryFor(b, request) == Some(p)
    requires r in p.rules && RuleOn(r, request) && Holds(r.condition, matches) != Ok(false)
    requires forall s | s in p.rules && s != r && RuleOn(s, request) && Holds(s.condition, matches) != Ok(false) ::
               s.priority < r.priority
    ensures FieldVerdict(b, request, matches)
              == match Holds(r.condition, matches)
                 case Err(code) => Err(code)
                 case Ok(_) => Ok(FieldDecision(r.effect, r.key, p.reason, r.maskStrategy, r.auditDenial))
  {
    ProperMeaning(request);
    hide RequestValid, Proper, Trim, NormalAction, Unguarded, RuleOn, BestPolicy, Sort, Holds, DecidingRule;
    UnguardedScan(b, request, matches);
    var sorted := Sort(HigherPriority, p.rules);
    SameMembers(sorted, p.rules);
    SortSorted(HigherPriority, p.rules);
    FirstRule(sorted, request, p.reason, matches, r);
  }

  lemma {:induction false} FirstRule(rules: seq<FieldRule>, request: FieldRequest, reason: string,
                                     matches: Option<PredicateMatcher>, r: FieldRule)
    requires Sorted(HigherPriority, rules)
    requires r in rules && RuleOn(r, request) && Holds(r.condition, matches) != Ok(false)
    requires forall s | s in rules && s != r && RuleOn(s, request) && Holds(s.condition, matches) != Ok(false) ::
               s.priority < r.priority
    ensures DecidingRule(rules, NormalAction(request.action), reason, matches)
              == Some(match Holds(r.condition, matches)
                      case Err(code) => Err(code)
                      case Ok(_) => Ok(FieldDecision(r.effect, r.key, reason, r.maskStrategy, r.auditDenial)))
  {
    hide RuleOn, ContainsAction, NormalAction, Matched, Holds;
    var s := rules[0];
    RuleOnMeaning(s, request);
    HoldsMeaning(s.condition, matches);
    assert s in rules;
    if s != r {
      var i :| 0 < i < |rules| && rules[i] == r;
      assert HigherPriority(s, r);
      assert forall x | x in rules[1..] :: x in rules;
      assert rules[1..][i - 1] == r;
      FirstRule(rules[1..], request, reason, matches, r);
    }
  }

  /** The kind of access a verb asks for. */
  function FlagFor(p: FieldPolicy, request: FieldRequest): bool {
    var verb := Lower(Trim(request.action));
    if verb in {"read", "list", "view", "search", "report", "audit"} then p.read
    else if verb == "export" then p.export_
    else p.write
  }

  predicate Writing(request: FieldRequest) {
    Lower(Trim(request.action)) in {"write", "create", "update"}
  }

  /** When no guardrail and no rule has a say, the flags of the deciding entry do: the field is hidden where the flag
      of the verb is off, masked where the entry masks and nothing is written, and otherwise open. */
  lemma FlagsDecide(b: AccessBundle, request: FieldRequest, matches: Option<PredicateMatcher>, p: FieldPolicy)
    requires Proper(request) && Unguarded(b, request, matches) && EntryFor(b, request) == Some(p)
    requires forall r | r in p.rules && RuleOn(r, request) :: Holds(r.condition, matches) == Ok(false)
    ensures FieldVerdict(b, request, matches)
              == Ok(if !FlagFor(p, request) then
                      FieldDecision(FieldHide, "static_field_policy", p.reason, None, p.auditDenial)
                    else
                      FieldDecision(if p.masked && !Writing(request) then FieldMask else FieldAllow, "", p.reason,
                          None, false))
  {
    ProperMeaning(request);
    hide RequestValid, Proper, Trim, Lower, Unguarded, RuleOn, BestPolicy, Sort, Holds, DecidingRule;
    UnguardedScan(b, request, matches);
    var sorted := Sort(HigherPriority, p.rules);
    SameMembers(sorted, p.rules);
    NoRule(sorted, request, p.reason, matches);
  }

  lemma {:induction false} NoRule(rules: seq<FieldRule>, request: FieldRequest, reason: string,
                                  matches: Option<PredicateMatcher>)
    requires forall r | r in rules && RuleOn(r, request) :: Holds(r.condition, matches) == Ok(false)
    ensures DecidingRule(rules, NormalAction(request.action), reason, matches).None?
  {
    hide RuleOn, ContainsAction, NormalAction, Matched, Holds;
    if rules != [] {
      RuleOnMeaning(rules[0], request);
      HoldsMeaning(rules[0].condition, matches);
      assert rules[0] in rules && forall x | x in rules[1..] :: x in rules;
      NoRule(rules[1..], request, reason, matches);
    }
  }

  /** A request asks for nothing that needs evaluating exactly when it is valid, no guardrail is on its field, and no
      entry that speaks of the field has a rule on its action. */
  lemma NeedsEvaluation(b: AccessBundle, request: FieldRequest)
    ensures FieldRequiresPolicyEvaluation(b, request) <==>
              || !Proper(request)
              || (exists g | g in b.guardrails :: GuardrailOn(g, request))
              || (exists p, r | p in b.fieldPolicies && r in p.rules :: EntryOn(p, request) && RuleOn(r, request))
  {
    ProperMeaning(request);
    hide RequestValid, Proper, Trim, NormalAction, GuardrailOn, GuardrailNames, EntryOn, PolicyNames, RuleOn,
      ContainsAction;
    forall g: Guardrail
      ensures GuardrailNames(g, request.resource, Trim(request.field), NormalAction(request.action)) <==>
                GuardrailOn(g, request)
    {
      GuardrailOnMeaning(g, request);
    }
    forall p: FieldPolicy
      ensures PolicyNames(p, request.resource, Trim(request.field)) <==> EntryOn(p, request)
    {
      EntryOnMeaning(p, request);
    }
    forall r: FieldRule
      ensures ContainsAction(r.actions, NormalAction(request.action)) <==> RuleOn(r, request)
    {
      RuleOnMeaning(r, request);
    }
  }
}
