/** The SQL the filter compiler targets: search-condition tokens, their grammar, and three-valued truth,
    following sections 8.2 to 8.12 of ISO/IEC 9075:1992. */
module Sql {
  import opened Wrappers
  import opened Contract

  datatype Token =
    | LPar | RPar | CommaT | MarkT | AndT | OrT | NotT | ColumnT(name: string)
    | EqT | NeT | LikeT | EscapeT | BackslashT | InT | IsT | NullT | ZeroT | OneT

  /** A search condition with its placeholders replaced by the arguments bound to them. */
  datatype Cond =
    | Conj(l: Cond, r: Cond) | Disj(l: Cond, r: Cond) | Neg(c: Cond) | Never
    | Equals(col: string, arg: Value) | Differs(col: string, arg: Value) | LikePattern(col: string, arg: Value)
    | InList(col: string, args: seq<Value>) | NotInList(col: string, args: seq<Value>)
    | IsNull(col: string) | IsNotNull(col: string)

  // ----- The grammar: OR binds weaker than AND, AND weaker than NOT; the k-th mark takes the k-th argument -----

  datatype Parse<+T> = NoParse | Parsed(value: T, tokens: seq<Token>, args: seq<Value>)

  function ParseOr(ts: seq<Token>, args: seq<Value>): (r: Parse<Cond>)
    ensures r.Parsed? ==> |r.tokens| < |ts|
    decreases |ts|, 3
  {
    match ParseAnd(ts, args)
    case NoParse => NoParse
    case Parsed(c, ts', args') =>
      if ts' == [] || ts'[0] != OrT then Parsed(c, ts', args')
      else
        match ParseOr(ts'[1..], args')
        case NoParse => NoParse
        case Parsed(d, ts'', args'') => Parsed(Disj(c, d), ts'', args'')
  }

  function ParseAnd(ts: seq<Token>, args: seq<Value>): (r: Parse<Cond>)
    ensures r.Parsed? ==> |r.tokens| < |ts|
    decreases |ts|, 2
  {
    match ParseNot(ts, args)
    case NoParse => NoParse
    case Parsed(c, ts', args') =>
      if ts' == [] || ts'[0] != AndT then Parsed(c, ts', args')
      else
        match ParseAnd(ts'[1..], args')
        case NoParse => NoParse
        case Parsed(d, ts'', args'') => Parsed(Conj(c, d), ts'', args'')
  }

  function ParseNot(ts: seq<Token>, args: seq<Value>): (r: Parse<Cond>)
    ensures r.Parsed? ==> |r.tokens| < |ts|
    decreases |ts|, 1
  {
    if ts == [] then NoParse
    else if ts[0] == NotT then
      match ParseNot(ts[1..], args)
      case NoParse => NoParse
      case Parsed(c, ts', args') => Parsed(Neg(c), ts', args')
    else if ts[0] == LPar then
      match ParseOr(ts[1..], args)
      case NoParse => NoParse
      case Parsed(c, ts', args') => if ts' != [] && ts'[0] == RPar then Parsed(c, ts'[1..], args') else NoParse
    else if ts[0] == ZeroT then
      if |ts| > 2 && ts[1] == EqT && ts[2] == OneT then Parsed(Never, ts[3..], args) else NoParse
    else if ts[0].ColumnT? then ParseComparison(ts[0].name, ts[1..], args)
    else NoParse
  }

  function ParseComparison(col: string, ts: seq<Token>, args: seq<Value>): (r: Parse<Cond>)
    ensures r.Parsed? ==> |r.tokens| < |ts|
  {
    if |ts| < 2 then NoParse
    else if ts[0] == EqT && ts[1] == MarkT && args != [] then Parsed(Equals(col, args[0]), ts[2..], args[1..])
    else if ts[0] == NeT && ts[1] == MarkT && args != [] then Parsed(Differs(col, args[0]), ts[2..], args[1..])
    else if ts[0] == LikeT && ts[1] == MarkT && |ts| > 3 && ts[2] == EscapeT && ts[3] == BackslashT && args != [] then
      Parsed(LikePattern(col, args[0]), ts[4..], args[1..])
    else if ts[0] == IsT && ts[1] == NotT && |ts| > 2 && ts[2] == NullT then Parsed(IsNotNull(col), ts[3..], args)
    else if ts[0] == IsT && ts[1] == NullT then Parsed(IsNull(col), ts[2..], args)
    else if ts[0] == InT && ts[1] == LPar then
      match ParseMarks(ts[2..], args)
      case NoParse => NoParse
      case Parsed(vs, ts', args') => Parsed(InList(col, vs), ts', args')
    else if ts[0] == NotT && ts[1] == InT && |ts| > 2 && ts[2] == LPar then
      match ParseMarks(ts[3..], args)
      case NoParse => NoParse
      case Parsed(vs, ts', args') => Parsed(NotInList(col, vs), ts', args')
    else NoParse
  }

  /** `?, ..., ?)` */
  function ParseMarks(ts: seq<Token>, args: seq<Value>): (r: Parse<seq<Value>>)
    ensures r.Parsed? ==> |r.tokens| < |ts|
  {
    if args == [] || |ts| < 2 || ts[0] != MarkT then NoParse
    else if ts[1] == RPar then Parsed([args[0]], ts[2..], args[1..])
    else if ts[1] == CommaT then
      match ParseMarks(ts[2..], args[1..])
      case NoParse => NoParse
      case Parsed(vs, ts', args') => Parsed([args[0]] + vs, ts', args')
    else NoParse
  }

  /** The whole text as one search condition, using up every token and every argument. */
  function SearchCondition(ts: seq<Token>, args: seq<Value>): Option<Cond> {
    match ParseOr(ts, args)
    case NoParse => None
    case Parsed(c, ts', args') => if ts' == [] && args' == [] then Some(c) else None
  }

  // ----- Three-valued truth -----

  datatype Tri = T | F | U

  function Tri2(b: bool): Tri {
    if b then T else F
  }

  function KNot(a: Tri): Tri {
    match a case T => F case F => T case U => U
  }

  function KAnd(a: Tri, b: Tri): Tri {
    if a == F || b == F then F else if a == T && b == T then T else U
  }

  function KOr(a: Tri, b: Tri): Tri {
    KNot(KAnd(KNot(a), KNot(b)))
  }

  /** The values an engine can compare; NULL and list arguments leave a comparison unknown. */
  predicate Comparable(v: Value) {
    v.Bool? || v.Num? || v.Str?
  }

  function Compare(a: Value, b: Value): Tri {
    if Comparable(a) && Comparable(b) then Tri2(a == b) else U
  }

  /** The LIKE predicate with escape character backslash, on case-sensitive text. */
  predicate Like(s: string, pattern: string)
    decreases |s| + |pattern|
  {
    if pattern == "" then s == ""
    else if pattern[0] == '\\' then
      |pattern| >= 2 && pattern[1] in {'\\', '%', '_'} && s != "" && s[0] == pattern[1] && Like(s[1..], pattern[2..])
    else if pattern[0] == '%' then Like(s, pattern[1..]) || (s != "" && Like(s[1..], pattern))
    else s != "" && (pattern[0] == '_' || s[0] == pattern[0]) && Like(s[1..], pattern[1..])
  }

  function LikeTruth(a: Value, pattern: Value): Tri {
    if !Comparable(a) || !pattern.Str? then U else Tri2(a.Str? && Like(a.s, pattern.s))
  }

  function InTruth(a: Value, vs: seq<Value>): Tri {
    if vs == [] then F else KOr(Compare(a, vs[0]), InTruth(a, vs[1..]))
  }

  /** A row gives every column a value, NULL included. */
  type Row = string -> Value

  function Truth(c: Cond, row: Row): Tri {
    match c
    case Conj(l, r) => KAnd(Truth(l, row), Truth(r, row))
    case Disj(l, r) => KOr(Truth(l, row), Truth(r, row))
    case Neg(d) => KNot(Truth(d, row))
    case Never => F
    case Equals(col, v) => Compare(row(col), v)
    case Differs(col, v) => KNot(Compare(row(col), v))
    case LikePattern(col, v) => LikeTruth(row(col), v)
    case InList(col, vs) => InTruth(row(col), vs)
    case NotInList(col, vs) => KNot(InTruth(row(col), vs))
    case IsNull(col) => Tri2(row(col) == Null)
    case IsNotNull(col) => Tri2(row(col) != Null)
  }

  /** A WHERE clause keeps a row when its condition is true; an empty clause is no WHERE at all. */
  predicate Selects(ts: seq<Token>, args: seq<Value>, row: Row) {
    if ts == [] then args == []
    else SearchCondition(ts, args).Some? && Truth(SearchCondition(ts, args).value, row) == T
  }

  /** The grammar above nests repeated operators to the right; the connectives do not care. */
  lemma KleeneAssociative(a: Tri, b: Tri, c: Tri)
    ensures KAnd(KAnd(a, b), c) == KAnd(a, KAnd(b, c)) && KOr(KOr(a, b), c) == KOr(a, KOr(b, c))
  {
  }

  // ----- LIKE on escaped prefixes -----

  /** `escapeLike`. */
  function EscapeLike(p: string): string {
    if p == "" then ""
    else (if p[0] in {'\\', '%', '_'} then ['\\', p[0]] else [p[0]]) + EscapeLike(p[1..])
  }

  lemma {:induction false} PercentMatchesAll(s: string)
    ensures Like(s, "%")
  {
    if s != "" {
      PercentMatchesAll(s[1..]);
    } else {
      assert "%"[1..] == "";
    }
  }

  /** The compiled LIKE pattern accepts exactly the strings with that prefix, whatever characters it holds. */
  lemma {:induction false} EscapedPrefix(s: string, p: string)
    ensures Like(s, EscapeLike(p) + "%") <==> p <= s
  {
    var pattern := EscapeLike(p) + "%";
    if p == "" {
      PercentMatchesAll(s);
      assert pattern == "%";
    } else {
      var tail := EscapeLike(p[1..]) + "%";
      if p[0] in {'\\', '%', '_'} {
        assert pattern == ['\\', p[0]] + tail;
        assert pattern[2..] == tail;
      } else {
        assert pattern == [p[0]] + tail;
        assert pattern[1..] == tail;
      }
      if s != "" {
        EscapedPrefix(s[1..], p[1..]);
        assert s == [s[0]] + s[1..] && p == [p[0]] + p[1..];
      }
    }
  }
}
