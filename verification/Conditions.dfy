/** Conditions made of conditions: which child decides, which failure is reported, and what is refused outright, by the
    evaluator and by the compiler. */
module Conditions {
  import opened Wrappers
  import opened Text
  import opened Contract
  import opened Validation
  import opened Evaluator
  import opened Filter
  import opened References
  import opened Translation

  /** A valid condition is of one kind only. */
  lemma OneKind(p: Predicate)
    requires PredicateCheck(p).Pass?
    ensures p.path != [] ==> p.all == [] && p.anyOf == [] && p.not.None?
    ensures p.all != [] ==> p.anyOf == [] && p.not.None?
    ensures p.anyOf != [] ==> p.not.None?
  {
    hide PredicatesCheck;
  }

  /** Neither interpreter looks into a malformed condition. */
  lemma MalformedRefused(p: Predicate, facts: ResourceFacts, context: EvaluationContext, resolve: ColumnResolver)
    requires PredicateCheck(p).Fail?
    ensures EvalPredicate(p, facts, context) == Err(PredicateCheck(p).code)
    ensures PredicateSql(p, context, resolve) == Err(PredicateCheck(p).code)
  {
    hide PredicateCheck;
  }

  /** Neither interpreter follows relations. */
  lemma PathRefused(p: Predicate, facts: ResourceFacts, context: EvaluationContext, resolve: ColumnResolver)
    requires PredicateCheck(p).Pass? && p.path != []
    ensures EvalPredicate(p, facts, context) == Err("identity.policy_relation_resolver_required")
    ensures PredicateSql(p, context, resolve) == Err("identity.policy_relation_resolver_required")
  {
    hide PredicateCheck;
  }

  // ----- Evaluation -----

  /** The first child of an All that does not hold decides, be it with no or with a failure. */
  lemma AllDecided(p: Predicate, facts: ResourceFacts, context: EvaluationContext, i: nat)
    requires PredicateCheck(p).Pass? && i < |p.all| && EvalPredicate(p.all[i], facts, context) != Ok(true)
    requires forall j | 0 <= j < i :: EvalPredicate(p.all[j], facts, context) == Ok(true)
    ensures EvalPredicate(p, facts, context) == EvalPredicate(p.all[i], facts, context)
  {
    OneKind(p);
    FirstOfAll(p.all, facts, context, i);
    hide PredicateCheck, EvalAll;
  }

  lemma {:induction false} FirstOfAll(ps: seq<Predicate>, facts: ResourceFacts, context: EvaluationContext, i: nat)
    requires i < |ps| && EvalPredicate(ps[i], facts, context) != Ok(true)
    requires forall j | 0 <= j < i :: EvalPredicate(ps[j], facts, context) == Ok(true)
    ensures EvalAll(ps, facts, context) == EvalPredicate(ps[i], facts, context)
  {
    hide EvalPredicate;
    if i > 0 {
      assert ps[1..][i - 1] == ps[i] && forall j | 0 <= j < i - 1 :: ps[1..][j] == ps[j + 1];
      FirstOfAll(ps[1..], facts, context, i - 1);
    }
  }

  /** The first child of an Any that does hold, or fails, decides. */
  lemma AnyDecided(p: Predicate, facts: ResourceFacts, context: EvaluationContext, i: nat)
    requires PredicateCheck(p).Pass? && i < |p.anyOf| && EvalPredicate(p.anyOf[i], facts, context) != Ok(false)
    requires forall j | 0 <= j < i :: EvalPredicate(p.anyOf[j], facts, context) == Ok(false)
    ensures EvalPredicate(p, facts, context) == EvalPredicate(p.anyOf[i], facts, context)
  {
    OneKind(p);
    FirstOfAny(p.anyOf, facts, context, i);
    hide PredicateCheck, EvalAny;
  }

  lemma {:induction false} FirstOfAny(ps: seq<Predicate>, facts: ResourceFacts, context: EvaluationContext, i: nat)
    requires i < |ps| && EvalPredicate(ps[i], facts, context) != Ok(false)
    requires forall j | 0 <= j < i :: EvalPredicate(ps[j], facts, context) == Ok(false)
    ensures EvalAny(ps, facts, context) == EvalPredicate(ps[i], facts, context)
  {
    hide EvalPredicate;
    if i > 0 {
      assert ps[1..][i - 1] == ps[i] && forall j | 0 <= j < i - 1 :: ps[1..][j] == ps[j + 1];
      FirstOfAny(ps[1..], facts, context, i - 1);
    }
  }

  /** When no child decides, an All holds and an Any does not. */
  lemma NoneDecides(p: Predicate, facts: ResourceFacts, context: EvaluationContext)
    requires PredicateCheck(p).Pass?
    ensures p.all != [] && (forall q | q in p.all :: EvalPredicate(q, facts, context) == Ok(true)) ==>
              EvalPredicate(p, facts, context) == Ok(true)
    ensures p.anyOf != [] && (forall q | q in p.anyOf :: EvalPredicate(q, facts, context) == Ok(false)) ==>
              EvalPredicate(p, facts, context) == Ok(false)
  {
    OneKind(p);
    if forall q | q in p.all :: EvalPredicate(q, facts, context) == Ok(true) {
      EvalAllMeaning(p.all, facts, context);
    }
    if forall q | q in p.anyOf :: EvalPredicate(q, facts, context) == Ok(false) {
      EvalAnyMeaning(p.anyOf, facts, context);
    }
    hide PredicateCheck, EvalAll, EvalAny;
  }

  /** A Not turns its child's answer round and passes its failure on. */
  lemma NotTurns(p: Predicate, facts: ResourceFacts, context: EvaluationContext)
    requires PredicateCheck(p).Pass? && p.not.Some?
    ensures EvalPredicate(p, facts, context) == match EvalPredicate(p.not.value, facts, context)
                                                case Err(code) => Err(code)
                                                case Ok(holds) => Ok(!holds)
  {
    OneKind(p);
    hide PredicateCheck;
  }

  // ----- Translation -----

  /** Why a comparison with a literal does not compile: its fact has no column, or its value does not suit. */
  lemma ComparisonRefused(p: Predicate, context: EvaluationContext, resolve: ColumnResolver)
    requires Comparison(p) && Literal(p.value)
    ensures PredicateSql(p, context, resolve).Err? <==> !Translatable(p, resolve) || !Suits(p.operator, p.value)
    ensures !Translatable(p, resolve) ==>
              PredicateSql(p, context, resolve) == Err("identity.policy_fact_untranslatable")
    ensures Translatable(p, resolve) && !Suits(p.operator, p.value) ==>
              PredicateSql(p, context, resolve) == Err("identity.policy_value_invalid")
  {
    OperatorKnown(p);
    ComparisonIsLeaf(p, map[], context, resolve);
    hide PredicateCheck, PredicateSql, EvalPredicate, EvalLeaf, Blank, Marks;
  }

  lemma OperatorKnown(p: Predicate)
    requires Comparison(p)
    ensures p.operator in {Eq, Neq, In, NotIn, Exists, Prefix}
  {
    hide Blank;
  }

  /** A group does not compile exactly when some child does not, and then for the reason of the first such child. */
  lemma GroupRefused(p: Predicate, context: EvaluationContext, resolve: ColumnResolver, i: nat)
    requires PredicateCheck(p).Pass? && i < |p.all + p.anyOf|
    requires PredicateSql((p.all + p.anyOf)[i], context, resolve).Err?
    requires forall j | 0 <= j < i :: PredicateSql((p.all + p.anyOf)[j], context, resolve).Ok?
    ensures PredicateSql(p, context, resolve) == Err(PredicateSql((p.all + p.anyOf)[i], context, resolve).code)
  {
    OneKind(p);
    var ps := if p.all != [] then p.all else p.anyOf;
    assert ps == p.all + p.anyOf;
    FirstRefused(ps, context, resolve, i);
    hide PredicateCheck, Fragments;
  }

  lemma {:induction false} FirstRefused(ps: seq<Predicate>, context: EvaluationContext, resolve: ColumnResolver, i: nat)
    requires i < |ps| && PredicateSql(ps[i], context, resolve).Err?
    requires forall j | 0 <= j < i :: PredicateSql(ps[j], context, resolve).Ok?
    ensures Fragments(ps, context, resolve) == Err(PredicateSql(ps[i], context, resolve).code)
  {
    hide PredicateSql;
    if i > 0 {
      assert ps[1..][i - 1] == ps[i] && forall j | 0 <= j < i - 1 :: ps[1..][j] == ps[j + 1];
      FirstRefused(ps[1..], context, resolve, i - 1);
    }
  }

  lemma NotRefused(p: Predicate, context: EvaluationContext, resolve: ColumnResolver)
    requires PredicateCheck(p).Pass? && p.not.Some? && PredicateSql(p.not.value, context, resolve).Err?
    ensures PredicateSql(p, context, resolve) == Err(PredicateSql(p.not.value, context, resolve).code)
  {
    OneKind(p);
    hide PredicateCheck;
  }

  /** A filter is refused for its allow group, unless all is allowed, and then for its deny group. */
  lemma GroupsRefuse(filter: RecordFilter, context: EvaluationContext, resolve: ColumnResolver)
    ensures FilterSql(filter, context, None) == Err("identity.policy_column_resolver_required")
    ensures var allow := Fragments(if filter.unrestricted then [] else filter.allow, context, resolve);
            var deny, r := Fragments(filter.deny, context, resolve), FilterSql(filter, context, Some(resolve));
            (allow.Err? ==> r == Err(allow.code)) && (allow.Ok? && deny.Err? ==> r == Err(deny.code))
  {
    hide PredicateSql, Joined;
  }

  /** Unless all is allowed, the first allow predicate that does not compile is the reason. */
  lemma AllowRefused(filter: RecordFilter, context: EvaluationContext, resolve: ColumnResolver, i: nat)
    requires !filter.unrestricted && i < |filter.allow| && PredicateSql(filter.allow[i], context, resolve).Err?
    requires forall j | 0 <= j < i :: PredicateSql(filter.allow[j], context, resolve).Ok?
    ensures FilterSql(filter, context, Some(resolve)) == Err(PredicateSql(filter.allow[i], context, resolve).code)
  {
    GroupsRefuse(filter, context, resolve);
    hide PredicateSql, FilterSql, Fragments;
    FirstRefused(filter.allow, context, resolve, i);
  }

  /** When all that is emitted for the allows compiles, it is the first deny predicate that does not. */
  lemma DenyRefused(filter: RecordFilter, context: EvaluationContext, resolve: ColumnResolver, i: nat)
    requires filter.unrestricted || forall p | p in filter.allow :: PredicateSql(p, context, resolve).Ok?
    requires i < |filter.deny| && PredicateSql(filter.deny[i], context, resolve).Err?
    requires forall j | 0 <= j < i :: PredicateSql(filter.deny[j], context, resolve).Ok?
    ensures FilterSql(filter, context, Some(resolve)) == Err(PredicateSql(filter.deny[i], context, resolve).code)
  {
    GroupsRefuse(filter, context, resolve);
    hide PredicateSql, FilterSql, Fragments;
    AllCompile(if filter.unrestricted then [] else filter.allow, context, resolve);
    FirstRefused(filter.deny, context, resolve, i);
  }

  lemma {:induction false} AllCompile(ps: seq<Predicate>, context: EvaluationContext, resolve: ColumnResolver)
    requires forall p | p in ps :: PredicateSql(p, context, resolve).Ok?
    ensures Fragments(ps, context, resolve).Ok?
  {
    hide PredicateSql;
    if ps != [] {
      assert ps[0] in ps && forall p | p in ps[1..] :: p in ps;
      AllCompile(ps[1..], context, resolve);
    }
  }
}
