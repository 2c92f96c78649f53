/** Field decisions do not depend on the order of policies and rules, and planners may trust the static envelope. */
module FieldLaws {
  import opened Wrappers
  import opened Text
  import opened Lists
  import opened Contract
  import opened Validation
  import opened Field

  /** What matching compares: the field without surrounding space, which the validated key still has. */
  function NamedKey(p: FieldPolicy): (string, string) {
    (p.resource, Trim(p.field))
  }

  /** No two entries of one resource name the same field up to surrounding space. */
  predicate Unambiguous(ps: seq<FieldPolicy>) {
    DistinctKeys(ps, NamedKey)
  }

  /** `best` is the only policy of the highest score among those naming the field. */
  predicate IsBest(best: Option<FieldPolicy>, ps: seq<FieldPolicy>, resource: string, field: string) {
    if best.None? then forall p | p in ps :: !PolicyNames(p, resource, field)
    else
      && best.value in ps && PolicyNames(best.value, resource, field)
      && forall p | p in ps && PolicyNames(p, resource, field) ::
          p == best.value || Score(p, resource, field) < Score(best.value, resource, field)
  }

  /** A policy's key can be read off its score: of two policies naming the field, equal scores mean equal keys. */
  lemma ScoreIsKey(p: FieldPolicy, q: FieldPolicy, resource: string, field: string)
    requires Trimmed(field) && PolicyNames(p, resource, field) && PolicyNames(q, resource, field)
    requires Score(p, resource, field) == Score(q, resource, field)
    ensures NamedKey(p) == NamedKey(q)
  {
    hide Trim;
  }

  lemma {:induction false} BestPolicyScan(ps: seq<FieldPolicy>, resource: string, field: string,
                                          best: Option<FieldPolicy>, score: int)
    requires best.Some? ==> PolicyNames(best.value, resource, field) && score == Score(best.value, resource, field)
    requires best.None? ==> score == -1
    ensures var r := BestPolicy(ps, resource, field, best, score);
            && (r.None? <==> best.None? && forall p | p in ps :: !PolicyNames(p, resource, field))
            && (r.Some? ==>
                  && (r == best || r.value in ps) && PolicyNames(r.value, resource, field)
                  && score <= Score(r.value, resource, field)
                  && forall p | p in ps && PolicyNames(p, resource, field) ::
                      Score(p, resource, field) <= Score(r.value, resource, field))
  {
    hide PolicyNames, Score;
    if ps != [] {
      assert forall p | p in ps :: p == ps[0] || p in ps[1..];
      assert ps[0] in ps && forall p | p in ps[1..] :: p in ps;
      if PolicyNames(ps[0], resource, field) && Score(ps[0], resource, field) > score {
        BestPolicyScan(ps[1..], resource, field, Some(ps[0]), Score(ps[0], resource, field));
      } else {
        BestPolicyScan(ps[1..], resource, field, best, score);
      }
    }
  }

  /** The loop finds the unique best policy of an unambiguous list. */
  lemma BestPolicyMeaning(ps: seq<FieldPolicy>, resource: string, field: string)
    requires Unambiguous(ps) && Trimmed(field)
    ensures IsBest(BestPolicy(ps, resource, field, None, -1), ps, resource, field)
  {
    var r := BestPolicy(ps, resource, field, None, -1);
    BestPolicyScan(ps, resource, field, None, -1);
    if r.Some? {
      forall p | p in ps && PolicyNames(p, resource, field) && p != r.value
        ensures Score(p, resource, field) < Score(r.value, resource, field)
      {
        if Score(p, resource, field) == Score(r.value, resource, field) {
          ScoreIsKey(p, r.value, resource, field);
          KeyDetermines(ps, NamedKey, p, r.value);
        }
      }
    }
  }

  lemma BestIsUnique(best: Option<FieldPolicy>, best': Option<FieldPolicy>, ps: seq<FieldPolicy>, qs: seq<FieldPolicy>,
                     resource: string, field: string)
    requires multiset(ps) == multiset(qs)
    requires IsBest(best, ps, resource, field) && IsBest(best', qs, resource, field)
    ensures best == best'
  {
    hide PolicyNames, Score;
    SameMembers(ps, qs);
  }

  /** The chosen policy of an unambiguous list does not depend on the order of the policies. */
  lemma ChosenPolicyPermuted(ps: seq<FieldPolicy>, qs: seq<FieldPolicy>, resource: string, field: string)
    requires multiset(ps) == multiset(qs) && Unambiguous(ps) && Trimmed(field)
    ensures BestPolicy(ps, resource, field, None, -1) == BestPolicy(qs, resource, field, None, -1)
  {
    SameMembers(ps, qs);
    MapPermuted(NamedKey, ps, qs);
    NoDuplicatesPermuted(Map(NamedKey, ps), Map(NamedKey, qs));
    BestPolicyMeaning(ps, resource, field);
    BestPolicyMeaning(qs, resource, field);
    BestIsUnique(BestPolicy(ps, resource, field, None, -1), BestPolicy(qs, resource, field, None, -1), ps, qs,
        resource, field);
  }

  lemma {:induction false} FirstOnTop(ps: seq<FieldPolicy>, resource: string, field: string, best: Option<FieldPolicy>)
    ensures BestPolicy(ps, resource, field, best, 3) == best
  {
    hide PolicyNames;
    if ps != [] {
      FirstOnTop(ps[1..], resource, field, best);
    }
  }

  lemma ExactInFront(p: FieldPolicy, rest: seq<FieldPolicy>)
    ensures BestPolicy([p] + rest, p.resource, Trim(p.field), None, -1) == Some(p)
  {
    hide Trim;
    var ps := [p] + rest;
    assert ps[0] == p && ps[1..] == rest;
    FirstOnTop(rest, p.resource, Trim(p.field), Some(p));
  }

  function ToFront(ps: seq<FieldPolicy>, i: nat): (r: seq<FieldPolicy>)
    requires i < |ps|
    ensures multiset(r) == multiset(ps)
  {
    assert ps == ps[..i] + ([ps[i]] + ps[i + 1..]);
    [ps[i]] + (ps[..i] + ps[i + 1..])
  }

  lemma FrontDecides(ps: seq<FieldPolicy>, i: nat)
    requires i < |ps|
    ensures BestPolicy(ToFront(ps, i), ps[i].resource, Trim(ps[i].field), None, -1) == Some(ps[i])
  {
    hide BestPolicy, Trim;
    ExactInFront(ps[i], ps[..i] + ps[i + 1..]);
  }

  /** Exactly the unambiguous lists of a validated bundle are read the same in every order. */
  lemma OrderMattersIffAmbiguous(ps: seq<FieldPolicy>)
    requires DistinctKeys(ps, FieldKey)
    ensures Unambiguous(ps) <==>
              forall qs, resource, field | multiset(qs) == multiset(ps) && Trimmed(field) ::
                BestPolicy(qs, resource, field, None, -1) == BestPolicy(ps, resource, field, None, -1)
  {
    hide BestPolicy, Trim, Trimmed;
    if Unambiguous(ps) {
      forall qs, resource, field | multiset(qs) == multiset(ps) && Trimmed(field)
        ensures BestPolicy(qs, resource, field, None, -1) == BestPolicy(ps, resource, field, None, -1)
      {
        ChosenPolicyPermuted(ps, qs, resource, field);
      }
    } else {
      var i, j :| 0 <= i < j < |ps| && Map(NamedKey, ps)[i] == Map(NamedKey, ps)[j];
      assert Map(FieldKey, ps)[i] != Map(FieldKey, ps)[j];
      FrontDecides(ps, i);
      FrontDecides(ps, j);
      hide ToFront, Map, DistinctKeys;
      var resource, field := ps[i].resource, Trim(ps[i].field);
      assert BestPolicy(ToFront(ps, i), resource, field, None, -1)
          != BestPolicy(ToFront(ps, j), resource, field, None, -1);
    }
  }

  lemma PrioritiesSeparate(rules: seq<FieldRule>)
    requires DistinctKeys(rules, RulePriority)
    ensures Ordering(HigherPriority) && Separates(HigherPriority, rules)
  {
    forall a, b | a in rules && b in rules && HigherPriority(a, b) && HigherPriority(b, a)
      ensures a == b
    {
      KeyDetermines(rules, RulePriority, a, b);
    }
  }

  /** The order in which the rules are tried does not depend on the order in which they are listed. */
  lemma RuleOrderPermuted(rules: seq<FieldRule>, rules': seq<FieldRule>)
    requires multiset(rules) == multiset(rules') && DistinctKeys(rules, RulePriority)
    ensures Sort(HigherPriority, rules) == Sort(HigherPriority, rules')
  {
    PrioritiesSeparate(rules);
    SortPermuted(HigherPriority, rules, rules');
  }

  /** The rule has a say about the action and its predicate holds. */
  predicate Speaks(r: FieldRule, action: string, matches: Option<PredicateMatcher>) {
    ContainsAction(r.actions, action) && Yes(Matched(r.condition, matches))
  }

  function DecisionOf(r: FieldRule, reason: string): FieldDecision {
    FieldDecision(r.effect, r.key, reason, r.maskStrategy, r.auditDenial)
  }

  /** No rule that applies to the action fails. */
  predicate ApplicableEvaluate(rules: seq<FieldRule>, action: string, matches: Option<PredicateMatcher>) {
    forall r | r in rules && ContainsAction(r.actions, action) :: Matched(r.condition, matches).Ok?
  }

  lemma DecidingStep(rules: seq<FieldRule>, action: string, reason: string, matches: Option<PredicateMatcher>)
    requires rules != [] && (ContainsAction(rules[0].actions, action) ==> Matched(rules[0].condition, matches).Ok?)
    ensures DecidingRule(rules, action, reason, matches)
         == if Speaks(rules[0], action, matches) then Some(Ok(DecisionOf(rules[0], reason)))
             else DecidingRule(rules[1..], action, reason, matches)
  {
    hide ContainsAction, Matched;
  }

  lemma {:induction false} FirstSpeaks(rules: seq<FieldRule>, action: string, reason: string,
                                       matches: Option<PredicateMatcher>)
    requires ApplicableEvaluate(rules, action, matches)
    ensures var d := DecidingRule(rules, action, reason, matches);
            && (d.None? <==> forall r | r in rules :: !Speaks(r, action, matches))
            && (d.Some? ==> d.value.Ok? && exists i | 0 <= i < |rules| ::
                  Speaks(rules[i], action, matches) && d.value.value == DecisionOf(rules[i], reason)
                  && forall j | 0 <= j < i :: !Speaks(rules[j], action, matches))
  {
    if rules == [] {
    } else {
      hide Speaks, Matched, DecidingRule, ContainsAction;
      var rest := rules[1..];
      assert rules == [rules[0]] + rest;
      DecidingStep(rules, action, reason, matches);
      FirstSpeaks(rest, action, reason, matches);
      var d := DecidingRule(rest, action, reason, matches);
      if !Speaks(rules[0], action, matches) && d.Some? {
        var i :| 0 <= i < |rest| && Speaks(rest[i], action, matches) && d.value.value == DecisionOf(rest[i], reason)
                 && forall j | 0 <= j < i :: !Speaks(rest[j], action, matches);
        assert rules[i + 1] == rest[i] && forall j | 0 < j < i + 1 :: rules[j] == rest[j - 1];
      }
    }
  }

  /** Of the rules that speak, the one of highest priority decides, wherever it is listed; without any, none does. */
  lemma HighestPriorityDecides(rules: seq<FieldRule>, action: string, reason: string, matches: Option<PredicateMatcher>)
    requires DistinctKeys(rules, RulePriority) && ApplicableEvaluate(rules, action, matches)
    ensures var d := DecidingRule(Sort(HigherPriority, rules), action, reason, matches);
            && (d.None? <==> forall r | r in rules :: !Speaks(r, action, matches))
            && (d.Some? ==> d.value.Ok? && exists r | r in rules ::
                  Speaks(r, action, matches) && d.value.value == DecisionOf(r, reason)
                  && forall other | other in rules && Speaks(other, action, matches) :: other.priority <= r.priority)
  {
    hide Matched, DecidingRule, DistinctKeys, Sort, Speaks, ContainsAction;
    var sorted := Sort(HigherPriority, rules);
    PrioritiesSeparate(rules);
    SortSorted(HigherPriority, rules);
    SameMembers(sorted, rules);
    FirstSpeaks(sorted, action, reason, matches);
    var d := DecidingRule(sorted, action, reason, matches);
    if d.Some? {
      var i :| 0 <= i < |sorted| && Speaks(sorted[i], action, matches) && d.value.value == DecisionOf(sorted[i], reason)
               && forall j | 0 <= j < i :: !Speaks(sorted[j], action, matches);
      assert sorted[i] in sorted;
      forall other | other in rules && Speaks(other, action, matches)
        ensures other.priority <= sorted[i].priority
      {
        var k :| 0 <= k < |sorted| && sorted[k] == other;
        assert i == k || HigherPriority(sorted[i], sorted[k]);
      }
    }
  }

  /** Shuffling the field policies of a bundle never changes a field decision. */
  lemma FieldVerdictPermuted(b: AccessBundle, policies: seq<FieldPolicy>, request: FieldRequest,
                             matches: Option<PredicateMatcher>)
    requires multiset(b.fieldPolicies) == multiset(policies) && Unambiguous(b.fieldPolicies)
    ensures FieldVerdict(b.(fieldPolicies := policies), request, matches) == FieldVerdict(b, request, matches)
  {
    ChosenPolicyPermuted(b.fieldPolicies, policies, request.resource, Trim(request.field));
  }

  lemma BaselineIgnoresRules(p: FieldPolicy, rules: seq<FieldRule>, action: string)
    ensures Baseline(p.(rules := rules), action) == Baseline(p, action)
  {
  }

  lemma PolicyDecisionPermuted(p: FieldPolicy, rules: seq<FieldRule>, action: string, matches: Option<PredicateMatcher>)
    requires multiset(p.rules) == multiset(rules) && DistinctKeys(p.rules, RulePriority)
    ensures PolicyDecision(Some(p.(rules := rules)), action, matches) == PolicyDecision(Some(p), action, matches)
  {
    hide Sort, DecidingRule, Baseline, DistinctKeys;
    RuleOrderPermuted(p.rules, rules);
    assert Baseline(p.(rules := rules), action) == Baseline(p, action) by {
      BaselineIgnoresRules(p, rules, action);
    }
  }

  // ----- The static envelope -----

  lemma {:induction false} NoRuleDecides(rules: seq<FieldRule>, action: string, reason: string,
                                         matches: Option<PredicateMatcher>)
    requires forall r | r in rules :: !ContainsAction(r.actions, action)
    ensures DecidingRule(rules, action, reason, matches).None?
  {
    if rules != [] {
      assert rules[0] in rules && forall r | r in rules[1..] :: r in rules;
      NoRuleDecides(rules[1..], action, reason, matches);
    }
  }

  lemma {:induction false} NoGuardrailDecides(gs: seq<Guardrail>, resource: string, field: string, action: string,
                                              matches: Option<PredicateMatcher>)
    requires forall g | g in gs :: !GuardrailNames(g, resource, field, action)
    ensures FieldGuardrail(gs, resource, field, action, matches).None?
  {
    if gs != [] {
      assert gs[0] in gs && forall g | g in gs[1..] :: g in gs;
      NoGuardrailDecides(gs[1..], resource, field, action, matches);
    }
  }

  /** The static answer of a bundle: the baseline of the best policy, hidden when there is none. */
  function StaticDecision(b: AccessBundle, request: FieldRequest): FieldDecision {
    var best := BestPolicy(b.fieldPolicies, request.resource, Trim(request.field), None, -1);
    if best.None? then FieldDecision(FieldHide, "", "", None, false)
        else Baseline(best.value, NormalAction(request.action))
  }

  /** When no policy evaluation is required, every matcher, even a missing or failing one, yields the static answer. */
  lemma StaticEnvelope(b: AccessBundle, request: FieldRequest, matches: Option<PredicateMatcher>)
    requires !FieldRequiresPolicyEvaluation(b, request)
    ensures FieldVerdict(b, request, matches) == Ok(StaticDecision(b, request))
  {
    var resource, field, action := request.resource, Trim(request.field), NormalAction(request.action);
    NoGuardrailDecides(b.guardrails, resource, field, action, matches);
    BestPolicyScan(b.fieldPolicies, resource, field, None, -1);
    var best := BestPolicy(b.fieldPolicies, resource, field, None, -1);
    if best.Some? {
      var rules := Sort(HigherPriority, best.value.rules);
      SameMembers(rules, best.value.rules);
      NoRuleDecides(rules, action, best.value.reason, matches);
    }
  }
}
