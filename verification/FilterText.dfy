/** The emitted text is unambiguous: read with the precedence NOT, AND, OR and positional arguments, every compiled
    clause is exactly the condition its policies describe. */
module FilterText {
  import opened Wrappers
  import opened Text
  import opened Lists
  import opened Contract
  import opened Validation
  import opened Context
  import opened Sql
  import opened Filter

  // ----- The intended condition, with no text in between -----

  function IntendedLeaf(p: Predicate, context: EvaluationContext, resolve: ColumnResolver): Cond {
    var column := resolve(p.fact);
    var resolved := ResolveValue(p.value, context);
    if column.None? || resolved.Err? || resolved.value.Missing? then Never
    else
      var col, expected := column.value, resolved.value.value;
      match p.operator
      case Eq => Equals(col, expected)
      case Neq => Differs(col, expected)
      case Prefix => if expected.Str? then LikePattern(col, Str(EscapeLike(expected.s) + "%")) else Never
      case Exists => if expected == Bool(true) then IsNotNull(col) else IsNull(col)
      case In => if Elements(expected).Some? then InList(col, Elements(expected).value) else Never
      case NotIn => if Elements(expected).Some? then NotInList(col, Elements(expected).value) else Never
      case _ => Never
  }

  function Intended(p: Predicate, context: EvaluationContext, resolve: ColumnResolver): Cond
    decreases p, 1
  {
    if p.all != [] then IntendedAll(p.all, context, resolve)
    else if p.anyOf != [] then IntendedAny(p.anyOf, context, resolve)
    else if p.not.Some? then Neg(Intended(p.not.value, context, resolve))
    else IntendedLeaf(p, context, resolve)
  }

  function IntendedAll(ps: seq<Predicate>, context: EvaluationContext, resolve: ColumnResolver): Cond
    requires ps != []
    decreases ps, 0
  {
    var head := Intended(ps[0], context, resolve);
    if |ps| == 1 then head else Conj(head, IntendedAll(ps[1..], context, resolve))
  }

  function IntendedAny(ps: seq<Predicate>, context: EvaluationContext, resolve: ColumnResolver): Cond
    requires ps != []
    decreases ps, 0
  {
    var head := Intended(ps[0], context, resolve);
    if |ps| == 1 then head else Disj(head, IntendedAny(ps[1..], context, resolve))
  }

  /** Some allow holds and no deny holds; without restriction only the denies remain, and without any allow nothing
      does. */
  function IntendedFilter(filter: RecordFilter, context: EvaluationContext, resolve: ColumnResolver): Option<Cond> {
    var deny := if filter.deny == [] then None else Some(Neg(IntendedAny(filter.deny, context, resolve)));
    if filter.unrestricted then deny
    else
      var allow := if filter.allow == [] then Never else IntendedAny(filter.allow, context, resolve);
      if deny.None? then Some(allow) else Some(Conj(allow, deny.value))
  }

  // ----- Reading emitted text back -----

  predicate Ends(rest: seq<Token>) {
    rest == [] || rest[0] == RPar
  }

  lemma {:induction false} ReadMarks(n: nat, rest: seq<Token>, vs: seq<Value>, args: seq<Value>)
    requires n > 0 && |vs| == n
    ensures ParseMarks(Marks(n) + [RPar] + rest, vs + args) == Parsed(vs, rest, args)
  {
    var ts := Marks(n) + [RPar] + rest;
    assert (vs + args)[1..] == vs[1..] + args;
    if n == 1 {
      assert ts == [MarkT, RPar] + rest;
      assert vs == [vs[0]];
    } else {
      assert ts == [MarkT, CommaT] + (Marks(n - 1) + [RPar] + rest);
      assert ts[2..] == Marks(n - 1) + [RPar] + rest;
      ReadMarks(n - 1, rest, vs[1..], args);
      assert vs == [vs[0]] + vs[1..];
    }
  }

  lemma ReadIn(col: string, vs: seq<Value>, ts: seq<Token>, rest: seq<Token>, args: seq<Value>)
    requires vs != [] && |ts| > 2 && ts[0] == InT && ts[1] == LPar && ts[2..] == Marks(|vs|) + [RPar] + rest
    ensures ParseComparison(col, ts, vs + args) == Parsed(InList(col, vs), rest, args)
  {
    ReadMarks(|vs|, rest, vs, args);
  }

  lemma ReadNotIn(col: string, vs: seq<Value>, ts: seq<Token>, rest: seq<Token>, args: seq<Value>)
    requires vs != [] && |ts| > 3 && ts[0] == NotT && ts[1] == InT && ts[2] == LPar
               && ts[3..] == Marks(|vs|) + [RPar] + rest
    ensures ParseComparison(col, ts, vs + args) == Parsed(NotInList(col, vs), rest, args)
  {
    ReadMarks(|vs|, rest, vs, args);
  }

  lemma ReadNever(rest: seq<Token>, args: seq<Value>)
    ensures ParseNot([ZeroT, EqT, OneT] + rest, args) == Parsed(Never, rest, args)
  {
    var ts := [ZeroT, EqT, OneT] + rest;
    assert ts[0] == ZeroT && ts[1] == EqT && ts[2] == OneT && ts[3..] == rest;
  }

  /** A column followed by what reads as its comparison. */
  lemma ReadColumn(col: string, body: seq<Token>, args: seq<Value>, c: Cond, rest: seq<Token>, args': seq<Value>)
    requires ParseComparison(col, body + rest, args) == Parsed(c, rest, args')
    ensures ParseNot([ColumnT(col)] + body + rest, args) == Parsed(c, rest, args')
  {
    hide ParseComparison;
    var ts := [ColumnT(col)] + body + rest;
    assert ts[0] == ColumnT(col) && ts[1..] == body + rest;
  }

  lemma ReadListLeaf(p: Predicate, context: EvaluationContext, resolve: ColumnResolver, rest: seq<Token>,
                     args: seq<Value>)
    requires LeafSql(p, context, resolve).Ok? && ResolveValue(p.value, context).value.Present?
    requires p.operator.In? || p.operator.NotIn?
    ensures var f := LeafSql(p, context, resolve).value;
            ParseNot(f.clause + rest, f.args + args) == Parsed(IntendedLeaf(p, context, resolve), rest, args)
  {
    hide ResolveValue, Elements, Marks, ParseNot, ParseComparison, Blank;
    var f := LeafSql(p, context, resolve).value;
    var column, vs := resolve(p.fact).value, Elements(ResolveValue(p.value, context).value.value).value;
    var head := if p.operator.In? then [InT, LPar] else [NotT, InT, LPar];
    var body := head + Marks(|vs|) + [RPar];
    var ts := body + rest;
    assert ts[|head|..] == Marks(|vs|) + [RPar] + rest;
    assert forall i | 0 <= i < |head| :: ts[i] == head[i];
    if p.operator.In? {
      ReadIn(column, vs, ts, rest, args);
      ReadColumn(column, body, vs + args, InList(column, vs), rest, args);
    } else {
      ReadNotIn(column, vs, ts, rest, args);
      ReadColumn(column, body, vs + args, NotInList(column, vs), rest, args);
    }
    assert f.clause == [ColumnT(column)] + body && f.args == vs;
  }

  lemma ReadPlainLeaf(p: Predicate, context: EvaluationContext, resolve: ColumnResolver, rest: seq<Token>,
                      args: seq<Value>)
    requires LeafSql(p, context, resolve).Ok? && ResolveValue(p.value, context).value.Present?
    requires !p.operator.In? && !p.operator.NotIn?
    ensures var f := LeafSql(p, context, resolve).value;
            ParseNot(f.clause + rest, f.args + args) == Parsed(IntendedLeaf(p, context, resolve), rest, args)
  {
    hide ResolveValue, Elements, ParseNot, ParseComparison, Blank, EscapeLike;
    var f := LeafSql(p, context, resolve).value;
    var column, body := resolve(p.fact).value, f.clause[1..];
    assert f.clause == [ColumnT(column)] + body;
    assert f.args != [] ==> (f.args + args)[0] == f.args[0] && (f.args + args)[1..] == args;
    assert f.args == [] ==> f.args + args == args;
    ReadPlain(column, body, rest, f.args + args);
    ReadColumn(column, body, f.args + args, IntendedLeaf(p, context, resolve), rest, args);
  }

  lemma ReadLeaf(p: Predicate, context: EvaluationContext, resolve: ColumnResolver, rest: seq<Token>, args: seq<Value>)
    requires LeafSql(p, context, resolve).Ok?
    ensures var f := LeafSql(p, context, resolve).value;
            ParseNot(f.clause + rest, f.args + args) == Parsed(IntendedLeaf(p, context, resolve), rest, args)
  {
    hide ResolveValue, Elements, ParseNot, Blank;
    if ResolveValue(p.value, context).value.Missing? {
      ReadNever(rest, args);
      assert [] + args == args;
    } else if p.operator.In? || p.operator.NotIn? {
      ReadListLeaf(p, context, resolve, rest, args);
    } else {
      ReadPlainLeaf(p, context, resolve, rest, args);
    }
  }

  /** The comparisons without a list, by their first tokens. */
  lemma ReadPlain(col: string, body: seq<Token>, rest: seq<Token>, args: seq<Value>)
    requires body in {[EqT, MarkT], [NeT, MarkT], [LikeT, MarkT, EscapeT, BackslashT], [IsT, NotT, NullT], [IsT, NullT]}
    requires MarkT in body ==> args != []
    ensures ParseComparison(col, body + rest, args) ==
              if body == [EqT, MarkT] then Parsed(Equals(col, args[0]), rest, args[1..])
              else if body == [NeT, MarkT] then Parsed(Differs(col, args[0]), rest, args[1..])
              else if body == [LikeT, MarkT, EscapeT, BackslashT] then
                  Parsed(LikePattern(col, args[0]), rest, args[1..])
              else if body == [IsT, NotT, NullT] then Parsed(IsNotNull(col), rest, args)
              else Parsed(IsNull(col), rest, args)
  {
    var ts := body + rest;
    assert ts[|body|..] == rest;
    assert forall i | 0 <= i < |body| :: ts[i] == body[i];
  }

  // One step of the grammar each, for text already split into what is read and what is left.

  lemma StepNot(ts: seq<Token>, args: seq<Value>, c: Cond, rest: seq<Token>, args': seq<Value>)
    requires ParseNot(ts, args) == Parsed(c, rest, args')
    ensures ParseNot([NotT] + ts, args) == Parsed(Neg(c), rest, args')
  {
    assert ([NotT] + ts)[1..] == ts;
  }

  lemma StepParentheses(ts: seq<Token>, args: seq<Value>, c: Cond, rest: seq<Token>, args': seq<Value>)
    requires ParseOr(ts, args) == Parsed(c, [RPar] + rest, args')
    ensures ParseNot([LPar] + ts, args) == Parsed(c, rest, args')
  {
    assert ([LPar] + ts)[1..] == ts;
    assert ([RPar] + rest)[1..] == rest;
  }

  lemma StepAnd(ts: seq<Token>, args: seq<Value>, c: Cond, ts': seq<Token>, args': seq<Value>, d: Cond,
                rest: seq<Token>, args'': seq<Value>)
    requires ParseNot(ts, args) == Parsed(c, [AndT] + ts', args')
    requires ParseAnd(ts', args') == Parsed(d, rest, args'')
    ensures ParseAnd(ts, args) == Parsed(Conj(c, d), rest, args'')
  {
    assert ([AndT] + ts')[1..] == ts';
  }

  lemma StepOr(ts: seq<Token>, args: seq<Value>, c: Cond, ts': seq<Token>, args': seq<Value>, d: Cond,
               rest: seq<Token>, args'': seq<Value>)
    requires ParseNot(ts, args) == Parsed(c, [OrT] + ts', args')
    requires ParseOr(ts', args') == Parsed(d, rest, args'')
    ensures ParseOr(ts, args) == Parsed(Disj(c, d), rest, args'')
  {
    assert ParseAnd(ts, args) == Parsed(c, [OrT] + ts', args');
    assert ([OrT] + ts')[1..] == ts';
  }

  lemma StopAnd(ts: seq<Token>, args: seq<Value>, c: Cond, rest: seq<Token>, args': seq<Value>)
    requires ParseNot(ts, args) == Parsed(c, rest, args') && Ends(rest)
    ensures ParseAnd(ts, args) == Parsed(c, rest, args')
  {
  }

  lemma StopOr(ts: seq<Token>, args: seq<Value>, c: Cond, rest: seq<Token>, args': seq<Value>)
    requires ParseAnd(ts, args) == Parsed(c, rest, args') && Ends(rest)
    ensures ParseOr(ts, args) == Parsed(c, rest, args')
  {
  }

  lemma ReadParenthesised(f: Fragment, rest: seq<Token>, args: seq<Value>, c: Cond)
    requires ParseOr(f.clause + ([RPar] + rest), f.args + args) == Parsed(c, [RPar] + rest, args)
    ensures ParseNot(Parenthesised(f).clause + rest, f.args + args) == Parsed(c, rest, args)
  {
    hide ParseOr, ParseNot;
    StepParentheses(f.clause + ([RPar] + rest), f.args + args, c, rest, args);
    assert Parenthesised(f).clause + rest == [LPar] + (f.clause + ([RPar] + rest));
  }

  lemma JoinedStep(fs: seq<Fragment>, separator: Token)
    requires |fs| > 1
    ensures var tail := Joined(fs[1..], separator);
            Joined(fs, separator) == Fragment(fs[0].clause + [separator] + tail.clause, fs[0].args + tail.args)
  {
    assert Map(Clause, fs)[1..] == Map(Clause, fs[1..]);
  }

  lemma JoinedOne(fs: seq<Fragment>, separator: Token)
    requires |fs| == 1
    ensures Joined(fs, separator) == fs[0]
  {
    assert Map(Clause, fs) == [fs[0].clause];
    assert Arguments(fs) == fs[0].args + Arguments(fs[1..]) == fs[0].args;
  }

  /** A compiled predicate reads back as its intended condition, whatever text and arguments follow it. */
  lemma {:induction false} ReadPredicate(p: Predicate, context: EvaluationContext, resolve: ColumnResolver,
                                         rest: seq<Token>, args: seq<Value>)
    requires PredicateSql(p, context, resolve).Ok?
    ensures var f := PredicateSql(p, context, resolve).value;
            && f.clause != []
            && ParseNot(f.clause + rest, f.args + args) == Parsed(Intended(p, context, resolve), rest, args)
    decreases p, 1
  {
    hide PredicateCheck;
    var f := PredicateSql(p, context, resolve).value;
    if p.all != [] {
      var g := Joined(Fragments(p.all, context, resolve).value, AndT);
      ReadAll(p.all, context, resolve, [RPar] + rest, args);
      StopOr(g.clause + ([RPar] + rest), g.args + args, Intended(p, context, resolve), [RPar] + rest, args);
      ReadParenthesised(g, rest, args, Intended(p, context, resolve));
    } else if p.anyOf != [] {
      var g := Joined(Fragments(p.anyOf, context, resolve).value, OrT);
      ReadAny(p.anyOf, context, resolve, [RPar] + rest, args);
      ReadParenthesised(g, rest, args, Intended(p, context, resolve));
    } else if p.not.Some? {
      ReadNegation(p.not.value, context, resolve, rest, args);
    } else {
      ReadLeaf(p, context, resolve, rest, args);
    }
  }

  lemma {:induction false} ReadNegation(p: Predicate, context: EvaluationContext, resolve: ColumnResolver,
                                        rest: seq<Token>, args: seq<Value>)
    requires PredicateSql(p, context, resolve).Ok?
    ensures var g := PredicateSql(p, context, resolve).value;
            ParseNot([NotT, LPar] + g.clause + [RPar] + rest, g.args + args)
                == Parsed(Neg(Intended(p, context, resolve)), rest, args)
    decreases p, 2
  {
    hide PredicateSql, Intended, ParseOr, ParseAnd, ParseNot;
    var g := PredicateSql(p, context, resolve).value;
    var c, ts := Intended(p, context, resolve), g.clause + ([RPar] + rest);
    ReadPredicate(p, context, resolve, [RPar] + rest, args);
    StopAnd(ts, g.args + args, c, [RPar] + rest, args);
    StopOr(ts, g.args + args, c, [RPar] + rest, args);
    ReadParenthesised(g, rest, args, c);
    StepNot(Parenthesised(g).clause + rest, g.args + args, c, rest, args);
    assert [NotT, LPar] + g.clause + [RPar] + rest == [NotT] + (Parenthesised(g).clause + rest);
  }

  /** A conjunction is read whole before anything weaker, so its children never regroup. */
  lemma {:induction false} ReadAll(ps: seq<Predicate>, context: EvaluationContext, resolve: ColumnResolver,
                                   rest: seq<Token>, args: seq<Value>)
    requires ps != [] && Fragments(ps, context, resolve).Ok? && Ends(rest)
    ensures var f := Joined(Fragments(ps, context, resolve).value, AndT);
            && f.clause != []
            && ParseAnd(f.clause + rest, f.args + args) == Parsed(IntendedAll(ps, context, resolve), rest, args)
    decreases ps, 0
  {
    hide PredicateSql, Intended, Joined, ParseOr, ParseAnd, ParseNot;
    var fs := Fragments(ps, context, resolve).value;
    var head, f := fs[0], Joined(fs, AndT);
    var c := Intended(ps[0], context, resolve);
    if |ps| == 1 {
      JoinedOne(fs, AndT);
      ReadPredicate(ps[0], context, resolve, rest, args);
      StopAnd(head.clause + rest, head.args + args, c, rest, args);
    } else {
      var tail := Joined(fs[1..], AndT);
      JoinedStep(fs, AndT);
      ReadPredicate(ps[0], context, resolve, [AndT] + (tail.clause + rest), tail.args + args);
      ReadAll(ps[1..], context, resolve, rest, args);
      assert f.clause + rest == head.clause + ([AndT] + (tail.clause + rest));
      assert f.args + args == head.args + (tail.args + args);
      StepAnd(f.clause + rest, f.args + args, c, tail.clause + rest, tail.args + args,
          IntendedAll(ps[1..], context, resolve), rest, args);
    }
  }

  lemma {:induction false} ReadAny(ps: seq<Predicate>, context: EvaluationContext, resolve: ColumnResolver,
                                   rest: seq<Token>, args: seq<Value>)
    requires ps != [] && Fragments(ps, context, resolve).Ok? && Ends(rest)
    ensures var f := Joined(Fragments(ps, context, resolve).value, OrT);
            && f.clause != []
            && ParseOr(f.clause + rest, f.args + args) == Parsed(IntendedAny(ps, context, resolve), rest, args)
    decreases ps, 0
  {
    hide PredicateSql, Intended, Joined, ParseOr, ParseAnd, ParseNot;
    var fs := Fragments(ps, context, resolve).value;
    var head, f := fs[0], Joined(fs, OrT);
    var c := Intended(ps[0], context, resolve);
    if |ps| == 1 {
      JoinedOne(fs, OrT);
      ReadPredicate(ps[0], context, resolve, rest, args);
      StopAnd(head.clause + rest, head.args + args, c, rest, args);
      StopOr(head.clause + rest, head.args + args, c, rest, args);
    } else {
      var tail := Joined(fs[1..], OrT);
      JoinedStep(fs, OrT);
      ReadPredicate(ps[0], context, resolve, [OrT] + (tail.clause + rest), tail.args + args);
      ReadAny(ps[1..], context, resolve, rest, args);
      assert f.clause + rest == head.clause + ([OrT] + (tail.clause + rest));
      assert f.args + args == head.args + (tail.args + args);
      StepOr(f.clause + rest, f.args + args, c, tail.clause + rest, tail.args + args,
          IntendedAny(ps[1..], context, resolve), rest, args);
    }
  }

  /** The text of the allow side of a restricted filter. */
  function Visible(filter: RecordFilter, allows: seq<Fragment>): Fragment {
    if filter.allow == [] then Fragment([ZeroT, EqT, OneT], []) else Parenthesised(Joined(allows, OrT))
  }

  function IntendedVisible(filter: RecordFilter, context: EvaluationContext, resolve: ColumnResolver): Cond {
    if filter.allow == [] then Never else IntendedAny(filter.allow, context, resolve)
  }

  lemma ReadVisible(filter: RecordFilter, context: EvaluationContext, resolve: ColumnResolver, rest: seq<Token>,
                    args: seq<Value>)
    requires Fragments(filter.allow, context, resolve).Ok?
    ensures var allows := Fragments(filter.allow, context, resolve).value;
            var f := Visible(filter, allows);
            && (filter.allow != [] ==> Joined(allows, OrT).clause != [])
            && ParseNot(f.clause + rest, f.args + args) == Parsed(IntendedVisible(filter, context, resolve), rest, args)
  {
    if filter.allow == [] {
      var ts := [ZeroT, EqT, OneT] + rest;
      assert ts[3..] == rest;
      assert [] + args == args;
    } else {
      ReadAny(filter.allow, context, resolve, [RPar] + rest, args);
      ReadParenthesised(Joined(Fragments(filter.allow, context, resolve).value, OrT), rest, args,
          IntendedAny(filter.allow, context, resolve));
    }
  }

  function Denied(deny: Fragment): seq<Token> {
    [NotT, LPar] + deny.clause + [RPar]
  }

  lemma ReadDenied(denies: seq<Predicate>, context: EvaluationContext, resolve: ColumnResolver)
    requires denies != [] && Fragments(denies, context, resolve).Ok?
    ensures var deny := Joined(Fragments(denies, context, resolve).value, OrT);
            && deny.clause != []
            && ParseNot(Denied(deny), deny.args) == Parsed(Neg(IntendedAny(denies, context, resolve)), [], [])
  {
    hide ParseOr, ParseAnd, ParseNot, Fragments, Joined, IntendedAny;
    var deny, c := Joined(Fragments(denies, context, resolve).value, OrT), IntendedAny(denies, context, resolve);
    ReadAny(denies, context, resolve, [RPar] + [], []);
    ReadParenthesised(deny, [], [], c);
    assert Parenthesised(deny).clause + [] == Parenthesised(deny).clause && deny.args + [] == deny.args;
    StepNot(Parenthesised(deny).clause, deny.args, c, [], []);
    assert Denied(deny) == [NotT] + Parenthesised(deny).clause;
  }

  lemma NothingJoined(fs: seq<Fragment>, separator: Token)
    requires fs == []
    ensures Joined(fs, separator) == Fragment([], [])
  {
  }

  /** The three shapes the final text can take. */
  lemma FilterSqlShape(filter: RecordFilter, context: EvaluationContext, resolve: ColumnResolver)
    requires FilterSql(filter, context, Some(resolve)).Ok?
    ensures var sql := FilterSql(filter, context, Some(resolve)).value;
            var deny := Joined(Fragments(filter.deny, context, resolve).value, OrT);
            && Fragments(filter.deny, context, resolve).Ok?
            && (!filter.unrestricted ==> Fragments(filter.allow, context, resolve).Ok?)
            && (filter.unrestricted ==>
                  sql == if filter.deny == [] then Fragment([], []) else Fragment(Denied(deny), deny.args))
            && (!filter.unrestricted ==>
                  var visible := Visible(filter, Fragments(filter.allow, context, resolve).value);
                  sql == if filter.deny == [] then visible
                         else Fragment(visible.clause + ([AndT] + Denied(deny)), visible.args + deny.args))
  {
    hide Fragments, ParseNot, ParseOr, IntendedAny, Join;
    var denies := Fragments(filter.deny, context, resolve).value;
    var deny := Joined(denies, OrT);
    if filter.deny == [] {
      NothingJoined(denies, OrT);
    } else {
      ReadDenied(filter.deny, context, resolve);
    }
    if filter.unrestricted {
      assert [] + deny.args == deny.args;
      assert [] + [] + [NotT, LPar] + deny.clause + [RPar] == Denied(deny);
    } else {
      ReadVisible(filter, context, resolve, [], []);
      var visible := Visible(filter, Fragments(filter.allow, context, resolve).value);
      assert visible.clause + [AndT] + [NotT, LPar] + deny.clause + [RPar] == visible.clause + ([AndT] + Denied(deny));
      if filter.allow == [] {
        NothingJoined(Fragments(filter.allow, context, resolve).value, OrT);
      }
    }
  }

  lemma ReadWhole(ts: seq<Token>, args: seq<Value>, c: Cond)
    requires ParseNot(ts, args) == Parsed(c, [], [])
    ensures SearchCondition(ts, args) == Some(c)
  {
    StopAnd(ts, args, c, [], []);
    StopOr(ts, args, c, [], []);
  }

  lemma ReadBoth(filter: RecordFilter, context: EvaluationContext, resolve: ColumnResolver)
    requires filter.deny != [] && Fragments(filter.allow, context, resolve).Ok?
               && Fragments(filter.deny, context, resolve).Ok?
    ensures var visible := Visible(filter, Fragments(filter.allow, context, resolve).value);
            var deny := Joined(Fragments(filter.deny, context, resolve).value, OrT);
            SearchCondition(visible.clause + ([AndT] + Denied(deny)), visible.args + deny.args)
            == Some(Conj(IntendedVisible(filter, context, resolve), Neg(IntendedAny(filter.deny, context, resolve))))
  {
    hide ParseOr, ParseAnd, ParseNot, Fragments, Joined, IntendedAny;
    var visible := Visible(filter, Fragments(filter.allow, context, resolve).value);
    var deny := Joined(Fragments(filter.deny, context, resolve).value, OrT);
    var ts, args := visible.clause + ([AndT] + Denied(deny)), visible.args + deny.args;
    var allowed, denied := IntendedVisible(filter, context, resolve), Neg(IntendedAny(filter.deny, context, resolve));
    ReadVisible(filter, context, resolve, [AndT] + Denied(deny), deny.args);
    ReadDenied(filter.deny, context, resolve);
    StopAnd(Denied(deny), deny.args, denied, [], []);
    StepAnd(ts, args, allowed, Denied(deny), deny.args, denied, [], []);
    StopOr(ts, args, Conj(allowed, denied), [], []);
  }

  /** The WHERE clause of a filter, read as SQL, is the condition the filter intends, with every argument in its
      place. */
  lemma ClauseReadsAsIntended(filter: RecordFilter, context: EvaluationContext, resolve: ColumnResolver)
    requires FilterSql(filter, context, Some(resolve)).Ok?
    ensures var sql, intended := FilterSql(filter, context, Some(resolve)).value,
              IntendedFilter(filter, context, resolve);
            && (intended.None? ==> sql == Fragment([], []))
            && (intended.Some? ==> sql.clause != [] && SearchCondition(sql.clause, sql.args) == intended)
  {
    FilterSqlShape(filter, context, resolve);
    hide ParseOr, ParseAnd, ParseNot, Fragments, Joined, IntendedAny, FilterSql, SearchCondition;
    var deny := Joined(Fragments(filter.deny, context, resolve).value, OrT);
    if !filter.unrestricted {
      var visible := Visible(filter, Fragments(filter.allow, context, resolve).value);
      if filter.deny == [] {
        ReadVisible(filter, context, resolve, [], []);
        assert visible.clause + [] == visible.clause && visible.args + [] == visible.args;
        ReadWhole(visible.clause, visible.args, IntendedVisible(filter, context, resolve));
      } else {
        ReadBoth(filter, context, resolve);
      }
    } else if filter.deny != [] {
      ReadDenied(filter.deny, context, resolve);
      ReadWhole(Denied(deny), deny.args, Neg(IntendedAny(filter.deny, context, resolve)));
    }
  }
}
