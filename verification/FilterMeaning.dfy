/** The compiled WHERE clause under three-valued logic against the record evaluator: which rows it selects, exactly. */
module FilterMeaning {
  import opened Wrappers
  import opened Text
  import opened Contract
  import opened Validation
  import opened Context
  import opened Evaluator
  import opened Sql
  import opened Filter
  import opened FilterText

  /** The facts of a record are its row's columns under the resolver, with NULL columns absent. */
  ghost predicate Projects(facts: ResourceFacts, resolve: ColumnResolver, row: Row) {
    forall f | resolve(f).Some? ::
      && (f in facts <==> row(resolve(f).value) != Null)
      && (f in facts ==> facts[f] == row(resolve(f).value))
  }

  /** True and false in SQL are decisions; unknown decides nothing. */
  predicate Agrees(t: Tri, r: Result<bool>) {
    && r.Ok?
    && (t == T ==> r.value)
    && (t == F ==> !r.value)
  }

  /** The two-valued reading of a condition: a comparison with a NULL column simply fails. */
  predicate Read(c: Cond, row: Row) {
    match c
    case Conj(l, r) => Read(l, row) && Read(r, row)
    case Disj(l, r) => Read(l, row) || Read(r, row)
    case Neg(d) => !Read(d, row)
    case Never => false
    case Equals(col, v) => row(col) != Null && row(col) == v
    case Differs(col, v) => row(col) != Null && row(col) != v
    case LikePattern(col, v) => row(col).Str? && v.Str? && Like(row(col).s, v.s)
    case InList(col, vs) => row(col) != Null && row(col) in vs
    case NotInList(col, vs) => vs == [] || (row(col) != Null && row(col) !in vs)
    case IsNull(col) => row(col) == Null
    case IsNotNull(col) => row(col) != Null
  }

  lemma {:induction false} InExact(a: Value, vs: seq<Value>)
    ensures InTruth(a, vs) == T <==> Comparable(a) && a in vs
    ensures InTruth(a, vs) == F <==> vs == [] || (Comparable(a) && a !in vs && forall v | v in vs :: Comparable(v))
  {
    if vs != [] {
      InExact(a, vs[1..]);
      assert forall v | v in vs :: v == vs[0] || v in vs[1..];
    }
  }

  /** What SQL decides, the two-valued reading decides the same way. */
  lemma {:induction false} ReadFollows(c: Cond, row: Row)
    ensures Truth(c, row) == T ==> Read(c, row)
    ensures Truth(c, row) == F ==> !Read(c, row)
  {
    match c
    case Conj(l, r) => ReadFollows(l, row); ReadFollows(r, row);
    case Disj(l, r) => ReadFollows(l, row); ReadFollows(r, row);
    case Neg(d) => ReadFollows(d, row);
    case InList(col, vs) => InExact(row(col), vs);
    case NotInList(col, vs) => InExact(row(col), vs);
    case _ =>
  }

  // ----- One predicate -----

  lemma LeafReads(p: Predicate, facts: ResourceFacts, context: EvaluationContext, resolve: ColumnResolver, row: Row)
    requires LeafSql(p, context, resolve).Ok? && Projects(facts, resolve, row)
    ensures EvalLeaf(p, facts, context) == Ok(Read(IntendedLeaf(p, context, resolve), row))
  {
    hide ResolveValue, Elements, Blank, Marks, Like, EscapeLike;
    var resolved := ResolveValue(p.value, context).value;
    if resolved.Present? && p.operator.Prefix? {
      var column := row(resolve(p.fact).value);
      if column.Str? {
        EscapedPrefix(column.s, resolved.value.s);
      }
    }
  }

  /** A predicate that compiles never fails to evaluate, and evaluates to the two-valued reading of its condition. */
  lemma {:induction false} PredicateReads(p: Predicate, facts: ResourceFacts, context: EvaluationContext,
                                          resolve: ColumnResolver, row: Row)
    requires PredicateSql(p, context, resolve).Ok? && Projects(facts, resolve, row)
    ensures EvalPredicate(p, facts, context) == Ok(Read(Intended(p, context, resolve), row))
    decreases p, 1
  {
    hide PredicateCheck, LeafSql, EvalLeaf, IntendedLeaf;
    if p.all != [] {
      AllReads(p.all, facts, context, resolve, row);
    } else if p.anyOf != [] {
      AnyReads(p.anyOf, facts, context, resolve, row);
    } else if p.not.Some? {
      PredicateReads(p.not.value, facts, context, resolve, row);
    } else {
      LeafReads(p, facts, context, resolve, row);
    }
  }

  lemma {:induction false} AllReads(ps: seq<Predicate>, facts: ResourceFacts, context: EvaluationContext,
                                    resolve: ColumnResolver, row: Row)
    requires ps != [] && Fragments(ps, context, resolve).Ok? && Projects(facts, resolve, row)
    ensures EvalAll(ps, facts, context) == Ok(Read(IntendedAll(ps, context, resolve), row))
    decreases ps, 0
  {
    hide PredicateSql, Intended, EvalPredicate, Projects;
    PredicateReads(ps[0], facts, context, resolve, row);
    if |ps| > 1 {
      AllReads(ps[1..], facts, context, resolve, row);
    }
  }

  lemma {:induction false} AnyReads(ps: seq<Predicate>, facts: ResourceFacts, context: EvaluationContext,
                                    resolve: ColumnResolver, row: Row)
    requires ps != [] && Fragments(ps, context, resolve).Ok? && Projects(facts, resolve, row)
    ensures EvalAny(ps, facts, context) == Ok(Read(IntendedAny(ps, context, resolve), row))
    decreases ps, 0
  {
    hide PredicateSql, Intended, EvalPredicate, Projects;
    PredicateReads(ps[0], facts, context, resolve, row);
    if |ps| > 1 {
      AnyReads(ps[1..], facts, context, resolve, row);
    }
  }

  /** The truth of a compiled condition decides the evaluation of its predicate: an absent fact is NULL, and where the
      evaluator says no for want of a fact SQL may only stay unknown. */
  lemma PredicateRefines(p: Predicate, facts: ResourceFacts, context: EvaluationContext, resolve: ColumnResolver,
                         row: Row)
    requires PredicateSql(p, context, resolve).Ok? && Projects(facts, resolve, row)
    ensures Agrees(Truth(Intended(p, context, resolve), row), EvalPredicate(p, facts, context))
  {
    hide PredicateSql, EvalPredicate, Intended, Projects, Truth, Read;
    PredicateReads(p, facts, context, resolve, row);
    ReadFollows(Intended(p, context, resolve), row);
  }

  /** Where the two part: under a NULL column the evaluator answers a negated comparison with yes, SQL with unknown. */
  lemma NegatedComparisonOverNull(q: Predicate, v: Value, facts: ResourceFacts, context: EvaluationContext,
                                  resolve: ColumnResolver, row: Row)
    requires PredicateSql(q, context, resolve).Ok? && IsLeaf(q) && q.operator.Eq?
               && ResolveValue(q.value, context) == Ok(Present(v))
    requires Projects(facts, resolve, row) && resolve(q.fact).Some? && row(resolve(q.fact).value) == Null
    ensures var p := ZERO_PREDICATE.(not := Some(q));
            Yes(EvalPredicate(p, facts, context)) && Truth(Intended(p, context, resolve), row) == U
  {
    ShapeOfLeaf(q);
    var p := ZERO_PREDICATE.(not := Some(q));
    assert PredicateCheck(p).Pass?;
    hide PredicateCheck;
    assert EvalPredicate(q, facts, context) == EvalLeaf(q, facts, context);
    assert Intended(q, context, resolve) == Equals(resolve(q.fact).value, v);
  }

  lemma {:induction false} CompiledEvaluates(ps: seq<Predicate>, facts: ResourceFacts, context: EvaluationContext,
                                             resolve: ColumnResolver, row: Row)
    requires Fragments(ps, context, resolve).Ok? && Projects(facts, resolve, row)
    ensures forall p | p in ps :: EvalPredicate(p, facts, context).Ok?
  {
    hide PredicateSql, EvalPredicate, Projects, Intended;
    if ps != [] {
      PredicateReads(ps[0], facts, context, resolve, row);
      CompiledEvaluates(ps[1..], facts, context, resolve, row);
      assert forall p | p in ps :: p == ps[0] || p in ps[1..];
    }
  }

  // ----- The filter against the bundle -----

  predicate Silent(ps: seq<Predicate>, facts: ResourceFacts, context: EvaluationContext) {
    forall p | p in ps :: No(EvalPredicate(p, facts, context))
  }

  predicate Grants(filter: RecordFilter, facts: ResourceFacts, context: EvaluationContext) {
    filter.unrestricted || exists p | p in filter.allow :: Yes(EvalPredicate(p, facts, context))
  }

  predicate AllowsEvaluate(filter: RecordFilter, facts: ResourceFacts, context: EvaluationContext) {
    forall p | p in filter.allow :: EvalPredicate(p, facts, context).Ok?
  }

  lemma {:induction false} PolicyFilterMeaning(ps: seq<DataPolicy>, resource: string, action: string,
                                               start: RecordFilter,
                                              facts: ResourceFacts, context: EvaluationContext)
    requires PolicyFilter(ps, resource, action, start).Ok?
    ensures var f := PolicyFilter(ps, resource, action, start).value;
            && (Silent(f.deny, facts, context) && AllowsEvaluate(f, facts, context) <==>
                  && Silent(start.deny, facts, context) && AllowsEvaluate(start, facts, context)
                  && forall p | p in ps :: PolicyQuiet(p, resource, action, facts, context))
            && (Grants(f, facts, context) <==>
                  Grants(start, facts, context) || exists p | p in ps ::
                      PolicyGrants(p, resource, action, facts, context))
  {
    hide EvalPredicate;
    if ps != [] {
      var p := ps[0];
      assert p in ps && forall q | q in ps[1..] :: q in ps;
      assert forall q | q in ps :: q == p || q in ps[1..];
      if !PolicyApplies(p, resource, action) {
        PolicyFilterMeaning(ps[1..], resource, action, start, facts, context);
      } else if p.effect == Deny {
        var next := start.(deny := start.deny + [p.condition]);
        assert Silent(next.deny, facts, context) <==>
            Silent(start.deny, facts, context) && PolicyQuiet(p, resource, action, facts, context) by {
          SilentAppend(start.deny, p.condition, facts, context);
        }
        PolicyFilterMeaning(ps[1..], resource, action, next, facts, context);
      } else if ScopeAll in p.dataScopes {
        assert PolicyQuiet(p, resource, action, facts, context) && PolicyGrants(p, resource, action, facts, context);
        PolicyFilterMeaning(ps[1..], resource, action, start.(unrestricted := true), facts, context);
      } else {
        var next := start.(allow := start.allow + [p.condition]);
        AllowAppend(start, p.condition, facts, context);
        PolicyFilterMeaning(ps[1..], resource, action, next, facts, context);
      }
    }
  }

  lemma SilentAppend(ps: seq<Predicate>, p: Predicate, facts: ResourceFacts, context: EvaluationContext)
    ensures Silent(ps + [p], facts, context) <==> Silent(ps, facts, context) && No(EvalPredicate(p, facts, context))
    ensures Silent([p] + ps, facts, context) <==> Silent(ps, facts, context) && No(EvalPredicate(p, facts, context))
  {
    hide EvalPredicate;
    assert p in ps + [p] && p in [p] + ps;
    assert forall q | q in ps :: q in ps + [p] && q in [p] + ps;
  }

  lemma AllowAppend(f: RecordFilter, p: Predicate, facts: ResourceFacts, context: EvaluationContext)
    ensures var next := f.(allow := f.allow + [p]);
            && (AllowsEvaluate(next, facts, context) <==>
                AllowsEvaluate(f, facts, context) && EvalPredicate(p, facts, context).Ok?)
            && (Grants(next, facts, context) <==> Grants(f, facts, context) || Yes(EvalPredicate(p, facts, context)))
  {
    hide EvalPredicate;
    assert p in f.allow + [p];
    assert forall q | q in f.allow :: q in f.allow + [p];
  }

  /** None of the guardrails that the record evaluator skips, because they name a field, would match. */
  predicate FieldGuardrailsSilent(gs: seq<Guardrail>, resource: string, action: string, facts: ResourceFacts,
                                  context: EvaluationContext) {
    forall g | g in gs && GuardrailCovers(g, resource, action) && !Blank(g.field) ::
      No(GuardrailMatch(g, facts, context))
  }

  /** The guardrails a filter denies by are silent exactly when those of the evaluator are and those it skips are. */
  lemma {:induction false} GuardrailDeniesMeaning(gs: seq<Guardrail>, resource: string, action: string,
                                                  facts: ResourceFacts, context: EvaluationContext)
    ensures var denies := GuardrailDenies(gs, resource, action);
            denies.Some? && Silent(denies.value, facts, context) <==>
              && GuardrailsSilent(gs, resource, action, facts, context)
              && FieldGuardrailsSilent(gs, resource, action, facts, context)
  {
    hide EvalPredicate;
    if gs != [] {
      assert gs[0] in gs && forall g | g in gs[1..] :: g in gs;
      assert forall g | g in gs :: g == gs[0] || g in gs[1..];
      var rest := GuardrailDenies(gs[1..], resource, action);
      if gs[0].condition.Some? && rest.Some? {
        SilentAppend(rest.value, gs[0].condition.value, facts, context);
      }
      GuardrailDeniesMeaning(gs[1..], resource, action, facts, context);
    }
  }

  predicate Passes(f: RecordFilter, facts: ResourceFacts, context: EvaluationContext) {
    Silent(f.deny, facts, context) && AllowsEvaluate(f, facts, context) && Grants(f, facts, context)
  }

  /** The denies of a filter are silent and one of its allows grants exactly when the record is allowed and none of the
      guardrails on its fields would match. */
  lemma FilterDecides(b: AccessBundle, resource: string, action: string, now: int, facts: ResourceFacts,
                      context: EvaluationContext)
    requires FilterOf(b, resource, action, now).Ok?
    ensures Passes(FilterOf(b, resource, action, now).value, facts, context) <==>
              && RecordAllowed(b, resource, action, facts, context)
              && FieldGuardrailsSilent(b.guardrails, resource, action, facts, context)
  {
    hide EvalPredicate, BundleCheck, ValidIdentifier, FunctionGate, GuardrailsSilent, FieldGuardrailsSilent, Trim;
    GuardrailDeniesMeaning(b.guardrails, resource, action, facts, context);
    var denies := GuardrailDenies(b.guardrails, resource, action);
    if FunctionGate(b.functionGrants, resource, action).GateOpen? && denies.Some? {
      PolicyFilterMeaning(b.dataPolicies, resource, action, RecordFilter([], denies.value, false), facts, context);
    }
  }

  // ----- The clause against the filter -----

  lemma GroupReads(ps: seq<Predicate>, facts: ResourceFacts, context: EvaluationContext, resolve: ColumnResolver,
                   row: Row)
    requires ps != [] && Fragments(ps, context, resolve).Ok? && Projects(facts, resolve, row)
    ensures forall p | p in ps :: EvalPredicate(p, facts, context).Ok?
    ensures Read(IntendedAny(ps, context, resolve), row) <==>
              exists p | p in ps :: Yes(EvalPredicate(p, facts, context))
  {
    hide EvalPredicate, Read, IntendedAny, Fragments, Projects, EvalAny;
    CompiledEvaluates(ps, facts, context, resolve, row);
    EvalAnyMeaning(ps, facts, context);
    AnyReads(ps, facts, context, resolve, row);
  }

  lemma FilterReads(filter: RecordFilter, facts: ResourceFacts, context: EvaluationContext, resolve: ColumnResolver,
                    row: Row)
    requires FilterSql(filter, context, Some(resolve)).Ok? && Fragments(filter.allow, context, resolve).Ok?
               && Projects(facts, resolve, row)
    ensures var intended := IntendedFilter(filter, context, resolve);
            Passes(filter, facts, context) <==> intended.None? || Read(intended.value, row)
  {
    hide EvalPredicate, Joined, IntendedAny, Projects, Fragments;
    if filter.allow != [] {
      GroupReads(filter.allow, facts, context, resolve, row);
    }
    if filter.deny != [] {
      GroupReads(filter.deny, facts, context, resolve, row);
      FilterSqlShape(filter, context, resolve);
    }
  }

  lemma SelectsMeaning(filter: RecordFilter, context: EvaluationContext, resolve: ColumnResolver, row: Row)
    requires FilterSql(filter, context, Some(resolve)).Ok?
    ensures var sql, intended := FilterSql(filter, context, Some(resolve)).value,
              IntendedFilter(filter, context, resolve);
            Selects(sql.clause, sql.args, row) <==> intended.None? || Truth(intended.value, row) == T
  {
    hide FilterSql, SearchCondition, IntendedFilter, Truth;
    ClauseReadsAsIntended(filter, context, resolve);
  }

  // ----- Where no NULL gets in the way -----

  /** The reading `sign` of a condition rests on comparisons none of which meets a NULL or a list: all of a conjunction
      that holds, some failing part of one that fails, and the other way round for a disjunction. */
  predicate Firm(c: Cond, row: Row, sign: bool) {
    match c
    case Conj(l, r) =>
      if sign then Firm(l, row, true) && Firm(r, row, true)
      else (!Read(l, row) && Firm(l, row, false)) || (!Read(r, row) && Firm(r, row, false))
    case Disj(l, r) =>
      if sign then (Read(l, row) && Firm(l, row, true)) || (Read(r, row) && Firm(r, row, true))
      else Firm(l, row, false) && Firm(r, row, false)
    case Neg(d) => Firm(d, row, !sign)
    case Equals(col, v) => Comparable(row(col)) && Comparable(v)
    case Differs(col, v) => Comparable(row(col)) && Comparable(v)
    case LikePattern(col, v) => Comparable(row(col)) && v.Str?
    case InList(col, vs) => vs == [] || (Comparable(row(col)) && (sign || forall v | v in vs :: Comparable(v)))
    case NotInList(col, vs) => vs == [] || (Comparable(row(col)) && (!sign || forall v | v in vs :: Comparable(v)))
    case _ => true
  }

  /** SQL decides a condition the way it reads exactly when that reading is firm; otherwise it stays unknown. */
  lemma {:induction false} FirmDecides(c: Cond, row: Row)
    ensures Truth(c, row) == (if !Firm(c, row, Read(c, row)) then U else Tri2(Read(c, row)))
  {
    match c
    case Conj(l, r) => FirmDecides(l, row); FirmDecides(r, row);
    case Disj(l, r) => FirmDecides(l, row); FirmDecides(r, row);
    case Neg(d) => FirmDecides(d, row);
    case InList(col, vs) => InExact(row(col), vs);
    case NotInList(col, vs) => InExact(row(col), vs);
    case _ =>
  }

  /** A check on the row alone, by polarity: a comparison that is to hold may meet a NULL column, one under an odd
      number of negations (as every deny is) may not. */
  predicate Settled(c: Cond, row: Row, sign: bool) {
    match c
    case Conj(l, r) => Settled(l, row, sign) && Settled(r, row, sign)
    case Disj(l, r) => Settled(l, row, sign) && Settled(r, row, sign)
    case Neg(d) => Settled(d, row, !sign)
    case Equals(col, v) =>
      if sign then row(col) == Null || Comparable(row(col)) else Comparable(row(col)) && Comparable(v)
    case Differs(col, v) =>
      if sign then row(col) == Null || (Comparable(row(col)) && Comparable(v)) else Comparable(row(col))
    case LikePattern(col, v) => sign || (Comparable(row(col)) && v.Str?)
    case InList(col, vs) =>
      if sign then row(col) == Null || Comparable(row(col))
      else Comparable(row(col)) && forall v | v in vs :: Comparable(v)
    case NotInList(col, vs) =>
      if sign then row(col) == Null || (Comparable(row(col)) && forall v | v in vs :: Comparable(v))
      else Comparable(row(col))
    case _ => true
  }

  lemma {:induction false} SettledIsFirm(c: Cond, row: Row, sign: bool)
    requires Settled(c, row, sign) && Read(c, row) == sign
    ensures Firm(c, row, sign)
  {
    match c
    case Conj(l, r) =>
      if Read(l, row) == sign { SettledIsFirm(l, row, sign); }
      if Read(r, row) == sign { SettledIsFirm(r, row, sign); }
    case Disj(l, r) =>
      if Read(l, row) == sign { SettledIsFirm(l, row, sign); }
      if Read(r, row) == sign { SettledIsFirm(r, row, sign); }
    case Neg(d) => SettledIsFirm(d, row, !sign);
    case _ =>
  }

  // ----- The clause against the evaluator -----

  /** The clause of a filter as one condition; without a clause there is none. */
  function Condition(sql: Fragment): Option<Cond> {
    SearchCondition(sql.clause, sql.args)
  }

  predicate Compiles(filter: RecordFilter, context: EvaluationContext, resolve: ColumnResolver) {
    FilterSql(filter, context, Some(resolve)).Ok? && Fragments(filter.allow, context, resolve).Ok?
  }

  /** The clause selects a row exactly when the evaluator allows the record, none of the guardrails it skips would
      match, and the condition holds by comparisons that meet no NULL. Only the allow predicates an unrestricted filter
      leaves uncompiled have to be asked to compile: the evaluator runs them and one of them could fail. */
  lemma SqlSelectsExactly(b: AccessBundle, request: AccessRequest, facts: ResourceFacts, context: EvaluationContext,
                          now: int, resolve: ColumnResolver, row: Row)
    requires Blank(request.fieldKey) && Projects(facts, resolve, row)
    requires FilterOf(b, Trim(request.objectKey), Trim(request.action), now).Ok?
    requires Compiles(FilterOf(b, Trim(request.objectKey), Trim(request.action), now).value, context, resolve)
    ensures var resource, action := Trim(request.objectKey), Trim(request.action);
            var sql := FilterSql(FilterOf(b, resource, action, now).value, context, Some(resolve)).value;
            Selects(sql.clause, sql.args, row) <==>
              && Verdict(b, request, facts, context, now).Allowed()
              && FieldGuardrailsSilent(b.guardrails, resource, action, facts, context)
              && (sql.clause != [] ==> Condition(sql).Some? && Firm(Condition(sql).value, row, true))
  {
    hide Selects, FilterSql, IntendedFilter, Fragments, RecordAllowed, BundleCheck, Verdict, Truth, ValidIdentifier,
      FunctionGate, GuardrailDenies, PolicyFilter, SearchCondition, FieldGuardrailsSilent, Passes, Read, Firm;
    var resource, action := Trim(request.objectKey), Trim(request.action);
    var filter := FilterOf(b, resource, action, now).value;
    ClauseReadsAsIntended(filter, context, resolve);
    SelectsMeaning(filter, context, resolve, row);
    FilterReads(filter, facts, context, resolve, row);
    FilterDecides(b, resource, action, now, facts, context);
    AllowedMeaning(b, request, facts, context, now);
    FilterOfValidates(b, resource, action, now);
    var intended := IntendedFilter(filter, context, resolve);
    if intended.Some? {
      FirmDecides(intended.value, row);
    }
  }

  /** The compiled clause never selects a record the evaluator would refuse. */
  lemma SqlRefinesEvaluator(b: AccessBundle, request: AccessRequest, facts: ResourceFacts, context: EvaluationContext,
                            now: int, resolve: ColumnResolver, row: Row)
    requires Blank(request.fieldKey) && Projects(facts, resolve, row)
    requires FilterOf(b, Trim(request.objectKey), Trim(request.action), now).Ok?
    requires Compiles(FilterOf(b, Trim(request.objectKey), Trim(request.action), now).value, context, resolve)
    requires var sql := FilterSql(FilterOf(b, Trim(request.objectKey), Trim(request.action), now).value, context,
               Some(resolve)).value;
             Selects(sql.clause, sql.args, row)
    ensures Verdict(b, request, facts, context, now).Allowed()
  {
    hide Selects, FilterSql, Compiles, FilterOf, Verdict, SearchCondition, FieldGuardrailsSilent, Firm;
    SqlSelectsExactly(b, request, facts, context, now, resolve, row);
  }

  /** Where each comparison is settled for its polarity, NULL columns included, the clause selects a row exactly when
      the evaluator allows the record and none of the guardrails on its fields would match. */
  lemma SqlAgreesWithEvaluator(b: AccessBundle, request: AccessRequest, facts: ResourceFacts,
                               context: EvaluationContext, now: int, resolve: ColumnResolver, row: Row)
    requires Blank(request.fieldKey) && Projects(facts, resolve, row)
    requires FilterOf(b, Trim(request.objectKey), Trim(request.action), now).Ok?
    requires Compiles(FilterOf(b, Trim(request.objectKey), Trim(request.action), now).value, context, resolve)
    requires var sql := FilterSql(FilterOf(b, Trim(request.objectKey), Trim(request.action), now).value, context,
               Some(resolve)).value;
             Condition(sql).Some? ==> Settled(Condition(sql).value, row, true)
    ensures var resource, action := Trim(request.objectKey), Trim(request.action);
            var sql := FilterSql(FilterOf(b, resource, action, now).value, context, Some(resolve)).value;
            Selects(sql.clause, sql.args, row) <==>
              && Verdict(b, request, facts, context, now).Allowed()
              && FieldGuardrailsSilent(b.guardrails, resource, action, facts, context)
  {
    hide Selects, FilterSql, IntendedFilter, Fragments, RecordAllowed, BundleCheck, Verdict, ValidIdentifier,
      FunctionGate, GuardrailDenies, PolicyFilter, SearchCondition, FieldGuardrailsSilent, Passes, Read, Firm, Settled;
    var resource, action := Trim(request.objectKey), Trim(request.action);
    var filter := FilterOf(b, resource, action, now).value;
    SqlSelectsExactly(b, request, facts, context, now, resolve, row);
    ClauseReadsAsIntended(filter, context, resolve);
    FilterReads(filter, facts, context, resolve, row);
    FilterDecides(b, resource, action, now, facts, context);
    AllowedMeaning(b, request, facts, context, now);
    var intended := IntendedFilter(filter, context, resolve);
    if intended.Some? && Read(intended.value, row) {
      SettledIsFirm(intended.value, row, true);
    }
  }

}
