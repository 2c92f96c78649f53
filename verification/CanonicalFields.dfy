/** Field decisions, and with them whole requests, survive canonicalisation. */
module CanonicalFields {
  import opened Wrappers
  import opened Text
  import opened Lists
  import opened Contract
  import opened Validation
  import opened Field
  import opened FieldLaws
  import opened Evaluator
  import opened Canonical
  import opened CanonicalBundle

  lemma MatchedKept(c: Option<Predicate>, facts: ResourceFacts, context: EvaluationContext, o: Orders)
    requires ConditionErrorFree(c, facts, context)
    ensures Matched(c, Some(Matcher(facts, context))).Ok?
    ensures Matched(CanonCondition(c, o), Some(Matcher(facts, context))) == Matched(c, Some(Matcher(facts, context)))
  {
    hide Canon, EvalPredicate, ErrorFree;
    if c.Some? {
      CanonKeepsMeaning(c.value, facts, context, o);
    }
  }

  // ----- Guardrails -----

  predicate Hides(g: Guardrail, resource: string, field: string, action: string, matches: Option<PredicateMatcher>) {
    GuardrailNames(g, resource, field, action) && Yes(Matched(g.condition, matches))
  }

  lemma {:induction false} FieldGuardrailMeaning(gs: seq<Guardrail>, resource: string, field: string, action: string,
                                                 matches: Option<PredicateMatcher>)
    requires forall g | g in gs :: Matched(g.condition, matches).Ok?
    ensures var r := FieldGuardrail(gs, resource, field, action, matches);
            && (r.Some? <==> exists g | g in gs :: Hides(g, resource, field, action, matches))
            && (r.Some? ==> r.value.Ok? && r.value.value.effect == FieldHide)
  {
    hide GuardrailNames, Matched;
    if gs != [] {
      assert gs[0] in gs && forall g | g in gs[1..] :: g in gs;
      assert forall g | g in gs :: g == gs[0] || g in gs[1..];
      FieldGuardrailMeaning(gs[1..], resource, field, action, matches);
    }
  }

  lemma HidesKept(g: Guardrail, resource: string, field: string, action: string, facts: ResourceFacts,
                  context: EvaluationContext, o: Orders)
    requires ConditionErrorFree(g.condition, facts, context)
    ensures var h, m := CanonGuardrail(o)(g), Some(Matcher(facts, context));
            && Matched(g.condition, m).Ok? && Matched(h.condition, m).Ok?
            && Hides(h, resource, field, action, m) == Hides(g, resource, field, action, m)
  {
    hide Canon, Matched, FieldMatches, FieldActionMatches, ConditionErrorFree, CanonCondition;
    MatchedKept(g.condition, facts, context, o);
  }

  lemma FieldGuardrailsKept(gs: seq<Guardrail>, resource: string, field: string, action: string, facts: ResourceFacts,
                            context: EvaluationContext, o: Orders)
    requires forall g | g in gs :: ConditionErrorFree(g.condition, facts, context)
    ensures var m := Some(Matcher(facts, context));
            var r := FieldGuardrail(gs, resource, field, action, m);
            var r' := FieldGuardrail(Sort(GuardrailLeq, Map(CanonGuardrail(o), gs)), resource, field, action, m);
            && (r.Some? <==> r'.Some?)
            && (r.Some? ==> r.value.Ok? && r.value.value.effect == FieldHide)
            && (r'.Some? ==> r'.value.Ok? && r'.value.value.effect == FieldHide)
  {
    hide Sort, Map, Hides, Matched, CanonGuardrail, ConditionErrorFree, FieldGuardrail;
    var m := Some(Matcher(facts, context));
    var hs := Sort(GuardrailLeq, Map(CanonGuardrail(o), gs));
    RewrittenMembers(GuardrailLeq, CanonGuardrail(o), gs);
    forall g | g in gs
      ensures Matched(g.condition, m).Ok? && Matched(CanonGuardrail(o)(g).condition, m).Ok?
      ensures Hides(CanonGuardrail(o)(g), resource, field, action, m) == Hides(g, resource, field, action, m)
    {
      HidesKept(g, resource, field, action, facts, context, o);
    }
    FieldGuardrailMeaning(gs, resource, field, action, m);
    FieldGuardrailMeaning(hs, resource, field, action, m);
    if exists g | g in gs :: Hides(g, resource, field, action, m) {
      var g :| g in gs && Hides(g, resource, field, action, m);
      assert CanonGuardrail(o)(g) in hs;
    }
  }

  // ----- The chosen policy -----

  function CanonChoice(best: Option<FieldPolicy>, o: Orders): Option<FieldPolicy> {
    if best.Some? then Some(CanonField(o)(best.value)) else None
  }

  lemma NamesKept(p: FieldPolicy, resource: string, field: string, o: Orders)
    ensures PolicyNames(CanonField(o)(p), resource, field) == PolicyNames(p, resource, field)
    ensures Score(CanonField(o)(p), resource, field) == Score(p, resource, field)
  {
    hide Sort, Map, Trim;
  }

  lemma {:induction false} BestPolicyMapped(ps: seq<FieldPolicy>, resource: string, field: string,
                                            best: Option<FieldPolicy>, score: int, o: Orders)
    ensures BestPolicy(Map(CanonField(o), ps), resource, field, CanonChoice(best, o), score)
         == CanonChoice(BestPolicy(ps, resource, field, best, score), o)
  {
    hide PolicyNames, Score, CanonField;
    if ps != [] {
      var qs := Map(CanonField(o), ps);
      NamesKept(ps[0], resource, field, o);
      assert qs[0] == CanonField(o)(ps[0]) && qs[1..] == Map(CanonField(o), ps[1..]);
      if PolicyNames(ps[0], resource, field) && Score(ps[0], resource, field) > score {
        BestPolicyMapped(ps[1..], resource, field, Some(ps[0]), Score(ps[0], resource, field), o);
      } else {
        BestPolicyMapped(ps[1..], resource, field, best, score, o);
      }
    }
  }

  lemma ChoiceKept(ps: seq<FieldPolicy>, resource: string, field: string, o: Orders)
    requires Unambiguous(ps) && Trimmed(field)
    ensures BestPolicy(Sort(FieldLeq, Map(CanonField(o), ps)), resource, field, None, -1)
         == CanonChoice(BestPolicy(ps, resource, field, None, -1), o)
  {
    hide BestPolicy, DistinctKeys, Sort, Trimmed;
    var qs := Map(CanonField(o), ps);
    RewrittenKeys(FieldLeq, CanonField(o), NamedKey, ps);
    ChosenPolicyPermuted(qs, Sort(FieldLeq, qs), resource, field);
    BestPolicyMapped(ps, resource, field, None, -1, o);
  }

  // ----- The deciding rule -----

  lemma SortedActions(actions: seq<string>, action: string)
    ensures ContainsAction(Sort(StringLeq, actions), action) == ContainsAction(actions, action)
  {
    hide FieldActionMatches, Sort;
    SameMembers(actions, Sort(StringLeq, actions));
  }

  lemma {:induction false} DecidingRuleKept(rules: seq<FieldRule>, action: string, reason: string,
                                            facts: ResourceFacts, context: EvaluationContext, o: Orders)
    requires forall r | r in rules :: ConditionErrorFree(r.condition, facts, context)
    ensures var m := Some(Matcher(facts, context));
            && DecidingRule(Map(CanonRule(o), rules), action, reason, m) == DecidingRule(rules, action, reason, m)
            && (DecidingRule(rules, action, reason, m).Some? ==> DecidingRule(rules, action, reason, m).value.Ok?)
  {
    hide Matched, ContainsAction, CanonCondition, ConditionErrorFree, Sort;
    if rules != [] {
      var rs := Map(CanonRule(o), rules);
      assert rs[0] == CanonRule(o)(rules[0]) && rs[1..] == Map(CanonRule(o), rules[1..]);
      assert rules[0] in rules && forall r | r in rules[1..] :: r in rules;
      SortedActions(rules[0].actions, action);
      MatchedKept(rules[0].condition, facts, context, o);
      DecidingRuleKept(rules[1..], action, reason, facts, context, o);
    }
  }

  lemma CanonBaseline(p: FieldPolicy, action: string, o: Orders)
    ensures Baseline(CanonField(o)(p), action) == Baseline(p, action) && CanonField(o)(p).reason == p.reason
    ensures CanonField(o)(p).rules == Sort(RuleLeq, Map(CanonRule(o), p.rules))
  {
    hide Sort, Map;
    BaselineIgnoresRules(p, CanonField(o)(p).rules, action);
  }

  lemma TriedRulesKept(rules: seq<FieldRule>, o: Orders)
    requires DistinctKeys(rules, RulePriority)
    ensures Sort(HigherPriority, Sort(RuleLeq, Map(CanonRule(o), rules)))
              == Map(CanonRule(o), Sort(HigherPriority, rules))
  {
    hide Sort, Map, DistinctKeys;
    var f := CanonRule(o);
    RewrittenKeys(RuleLeq, f, RulePriority, rules);
    RuleOrderPermuted(Sort(RuleLeq, Map(f, rules)), Map(f, rules));
    SortMapped(HigherPriority, f, rules);
  }

  lemma PolicyDecisionKept(p: FieldPolicy, action: string, facts: ResourceFacts, context: EvaluationContext, o: Orders)
    requires DistinctKeys(p.rules, RulePriority) && forall r | r in p.rules ::
               ConditionErrorFree(r.condition, facts, context)
    ensures var m := Some(Matcher(facts, context));
            PolicyDecision(Some(CanonField(o)(p)), action, m) == PolicyDecision(Some(p), action, m)
                && PolicyDecision(Some(p), action, m).Ok?
  {
    hide Sort, Map, DistinctKeys, DecidingRule, CanonField, Baseline, ConditionErrorFree;
    CanonBaseline(p, action, o);
    TriedRulesKept(p.rules, o);
    SameMembers(p.rules, Sort(HigherPriority, p.rules));
    DecidingRuleKept(Sort(HigherPriority, p.rules), action, p.reason, facts, context, o);
  }

  // ----- Field requests and whole requests -----

  lemma FieldVerdictKept(b: AccessBundle, now: int, request: FieldRequest, facts: ResourceFacts,
                         context: EvaluationContext, o: Orders)
    requires WellFormed(b, now) && BundleErrorFree(b, facts, context) && Unambiguous(b.fieldPolicies)
    ensures var m := Some(Matcher(facts, context));
            var r, r' := FieldVerdict(b, request, m), FieldVerdict(CanonBundle(b, o), request, m);
            && (r.Ok? <==> r'.Ok?) && (r.Ok? <==> RequestValid(request))
            && (r.Ok? ==> r.value.effect == r'.value.effect)
            && var field, action := Trim(request.field), NormalAction(request.action);
               (FieldGuardrail(b.guardrails, request.resource, field, action, m).None? ==> r == r')
  {
    hide FieldGuardrail, BestPolicy, PolicyDecision, Sort, Map, CanonField, ErrorFree, DataPolicyValid, HeaderCheck,
      DistinctKeys, GuardrailValid,
      RequestValid, ConditionErrorFree;
    var field, action := Trim(request.field), NormalAction(request.action);
    FieldGuardrailsKept(b.guardrails, request.resource, field, action, facts, context, o);
    ChoiceKept(b.fieldPolicies, request.resource, field, o);
    var best := BestPolicy(b.fieldPolicies, request.resource, field, None, -1);
    BestPolicyScan(b.fieldPolicies, request.resource, field, None, -1);
    if best.Some? {
      assert best.value in b.fieldPolicies;
      PolicyDecisionKept(best.value, action, facts, context, o);
    } else {
      NoPolicyDecision(action, Some(Matcher(facts, context)));
    }
  }

  lemma NoPolicyDecision(action: string, matches: Option<PredicateMatcher>)
    ensures PolicyDecision(None, action, matches).Ok?
  {
  }

  lemma FieldLayerKept(b: AccessBundle, now: int, request: AccessRequest, resource: string, facts: ResourceFacts,
                       context: EvaluationContext, o: Orders)
    requires WellFormed(b, now) && BundleErrorFree(b, facts, context) && Unambiguous(b.fieldPolicies)
    ensures FieldLayer(CanonBundle(b, o), request, resource, facts, context).Allowed()
              == FieldLayer(b, request, resource, facts, context).Allowed()
  {
    hide FieldVerdict, WellFormed, BundleErrorFree, CanonBundle, Unambiguous;
    FieldVerdictKept(b, now, FieldRequest(resource, Trim(request.fieldKey), request.action), facts, context, o);
  }

  /** Canonicalising a bundle changes no answer: the same records and the same fields are allowed, for every request. */
  lemma CanonicalVerdict(b: AccessBundle, now: int, request: AccessRequest, facts: ResourceFacts,
                         context: EvaluationContext, o: Orders)
    requires BundleErrorFree(b, facts, context) && Unambiguous(b.fieldPolicies) && BundleCheck(b, now).Pass?
    ensures Verdict(CanonBundle(b, o), request, facts, context, now).Allowed() <==>
              Verdict(b, request, facts, context, now).Allowed()
  {
    hide WellFormed, BundleErrorFree, CanonBundle, Unambiguous, BundleCheck, Layers, RecordAllowed, FieldLayer,
      ValidIdentifier, Trim;
    var resource, action := Trim(request.objectKey), Trim(request.action);
    ValidationMeaning(b, now);
    CanonBundleValid(b, now, o);
    ValidationMeaning(CanonBundle(b, o), now);
    AllowedByLayers(b, request, facts, context);
    AllowedByLayers(CanonBundle(b, o), request, facts, context);
    CanonicalRecords(b, now, resource, action, facts, context, o);
    FieldLayerKept(b, now, request, resource, facts, context, o);
  }
}
