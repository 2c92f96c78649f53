/** What the filter compiler can translate: exactly which bundles, predicates and filters become a clause. */
module Translation {
  import opened Wrappers
  import opened Text
  import opened Lists
  import opened Contract
  import opened Validation
  import opened Context
  import opened Evaluator
  import opened Sql
  import opened Filter

  /** The predicates of an accepted bundle can always be collected into a filter; otherwise its error is that of the
      bundle or of the request. */
  lemma FilterAlways(b: AccessBundle, resource: string, action: string, now: int)
    ensures match BundleCheck(b, now)
            case Fail(code) => FilterOf(b, resource, action, now) == Err(code)
            case Pass =>
              if ValidIdentifier(resource) && ValidIdentifier(action) then FilterOf(b, resource, action, now).Ok?
              else FilterOf(b, resource, action, now) == Err("identity.access_request_invalid")
  {
    hide BundleCheck, ValidIdentifier, GuardrailDenies, FunctionGate;
    if BundleCheck(b, now).Pass? {
      EffectsKnown(b, now);
      var denies := GuardrailDenies(b.guardrails, resource, action);
      if denies.Some? {
        PoliciesCollected(b.dataPolicies, resource, action, RecordFilter([], denies.value, false));
      }
    }
  }

  lemma {:induction false} PoliciesCollected(ps: seq<DataPolicy>, resource: string, action: string,
                                             filter: RecordFilter)
    requires forall p | p in ps :: p.effect in {Allow, Deny}
    ensures PolicyFilter(ps, resource, action, filter).Ok?
    decreases |ps|
  {
    hide PolicyApplies;
    if ps != [] {
      var p, rest := ps[0], ps[1..];
      assert p in ps && forall q | q in rest :: q in ps;
      PoliciesCollected(rest, resource, action, filter);
      PoliciesCollected(rest, resource, action, filter.(deny := filter.deny + [p.condition]));
      PoliciesCollected(rest, resource, action, filter.(unrestricted := true));
      PoliciesCollected(rest, resource, action, filter.(allow := filter.allow + [p.condition]));
    }
  }

  // ----- Predicates -----

  /** The value of a comparison, once resolved, is of the kind its operator takes. */
  predicate Suits(operator: Operator, v: Value) {
    match operator
    case Eq => true
    case Neq => true
    case Prefix => v.Str?
    case Exists => v.Bool?
    case In => (v.Strs? && v.ss != []) || (v.List? && v.vs != [])
    case NotIn => (v.Strs? && v.ss != []) || (v.List? && v.vs != [])
    case _ => false
  }

  /** Every comparison is about a fact with a column of its own, across no relation, and with a value that resolves to
      nothing or to something its operator takes. */
  predicate Translates(p: Predicate, context: EvaluationContext, resolve: ColumnResolver)
    decreases p
  {
    if p.all != [] then forall q | q in p.all :: Translates(q, context, resolve)
    else if p.anyOf != [] then forall q | q in p.anyOf :: Translates(q, context, resolve)
    else if p.not.Some? then Translates(p.not.value, context, resolve)
    else
      && p.path == []
      && resolve(p.fact).Some? && Trim(resolve(p.fact).value) != ""
      && ResolveValue(p.value, context).Ok?
      && var v := ResolveValue(p.value, context).value; (v.Missing? || Suits(p.operator, v.value))
  }

  lemma LeafTranslates(p: Predicate, context: EvaluationContext, resolve: ColumnResolver)
    ensures LeafSql(p, context, resolve).Ok? <==>
              && resolve(p.fact).Some? && Trim(resolve(p.fact).value) != ""
              && ResolveValue(p.value, context).Ok?
              && var v := ResolveValue(p.value, context).value; (v.Missing? || Suits(p.operator, v.value))
  {
    hide ResolveValue, Trim, Marks, EscapeLike;
    if ResolveValue(p.value, context).Ok? && ResolveValue(p.value, context).value.Present? {
      var v := ResolveValue(p.value, context).value.value;
      if v.Strs? {
        assert |Map(TextValue, v.ss)| == |v.ss|;
      }
    }
  }

  /** A valid predicate becomes a clause exactly when it translates. */
  lemma {:induction false} TranslatesExactly(p: Predicate, context: EvaluationContext, resolve: ColumnResolver)
    requires PredicateCheck(p).Pass?
    ensures PredicateSql(p, context, resolve).Ok? <==> Translates(p, context, resolve)
    decreases p, 1
  {
    PredicatesCheckMeaning(p.all);
    PredicatesCheckMeaning(p.anyOf);
    LeafTranslates(p, context, resolve);
    if p.all != [] {
      EachTranslates(p.all, context, resolve);
    } else if p.anyOf != [] {
      EachTranslates(p.anyOf, context, resolve);
    } else if p.not.Some? {
      TranslatesExactly(p.not.value, context, resolve);
    }
    hide ResolveValue, LeafSql, Trim, Blank, Suits, SegmentValid, Joined, Parenthesised;
  }

  lemma {:induction false} EachTranslates(ps: seq<Predicate>, context: EvaluationContext, resolve: ColumnResolver)
    requires forall p | p in ps :: PredicateCheck(p).Pass?
    ensures Fragments(ps, context, resolve).Ok? <==> forall p | p in ps :: Translates(p, context, resolve)
    decreases ps, 0
  {
    hide Translates, PredicateSql, PredicateCheck;
    if ps != [] {
      assert ps[0] in ps && forall p | p in ps[1..] :: p in ps;
      assert forall p | p in ps :: p == ps[0] || p in ps[1..];
      TranslatesExactly(ps[0], context, resolve);
      EachTranslates(ps[1..], context, resolve);
    }
  }

  // ----- Filters -----

  lemma {:induction false} ClausesNotEmpty(p: Predicate, context: EvaluationContext, resolve: ColumnResolver)
    requires PredicateSql(p, context, resolve).Ok?
    ensures PredicateSql(p, context, resolve).value.clause != []
  {
    hide ResolveValue, Joined, PredicateCheck, Blank, Marks, EscapeLike, Elements;
  }

  lemma JoinedNotEmpty(ps: seq<Predicate>, context: EvaluationContext, resolve: ColumnResolver)
    requires ps != [] && Fragments(ps, context, resolve).Ok?
    ensures Joined(Fragments(ps, context, resolve).value, OrT).clause != []
  {
    hide PredicateSql;
    var fs := Fragments(ps, context, resolve).value;
    ClausesNotEmpty(ps[0], context, resolve);
    assert fs[0].clause != [];
    var clauses := Map(Clause, fs);
    assert clauses[0] == fs[0].clause;
  }

  /** A filter of valid predicates becomes a clause exactly when a resolver is there, every deny translates, and so does
      every allow unless nothing is restricted. */
  lemma FilterTranslates(filter: RecordFilter, context: EvaluationContext, resolve: Option<ColumnResolver>)
    requires forall p | p in filter.allow || p in filter.deny :: PredicateCheck(p).Pass?
    ensures FilterSql(filter, context, resolve).Ok? <==>
              && resolve.Some?
              && (forall p | p in filter.deny :: Translates(p, context, resolve.value))
              && (!filter.unrestricted ==> forall p | p in filter.allow :: Translates(p, context, resolve.value))
  {
    hide Translates, PredicateSql, PredicateCheck, Joined, Fragments;
    if resolve.Some? {
      EachTranslates(filter.allow, context, resolve.value);
      EachTranslates(filter.deny, context, resolve.value);
      if filter.allow != [] && Fragments(filter.allow, context, resolve.value).Ok? {
        JoinedNotEmpty(filter.allow, context, resolve.value);
      }
    }
  }
}
