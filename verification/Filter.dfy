/** The filter compiler: one bundle, one resource and action, to one WHERE clause with positional arguments. */
module Filter {
  import opened Wrappers
  import opened Text
  import opened Lists
  import opened Contract
  import opened Validation
  import opened Context
  import opened Evaluator
  import opened Sql

  datatype RecordFilter = RecordFilter(allow: seq<Predicate>, deny: seq<Predicate>, unrestricted: bool)

  const NOTHING := RecordFilter([], [], false)

  // ----- The portable filter -----

  /** The predicates of the guardrails covering the request, or none of them when one denies outright. A guardrail
      that names a field counts here although the record evaluator skips it. */
  function GuardrailDenies(gs: seq<Guardrail>, resource: string, action: string): Option<seq<Predicate>> {
    if gs == [] then Some([])
    else if !GuardrailCovers(gs[0], resource, action) then GuardrailDenies(gs[1..], resource, action)
    else if gs[0].condition.None? then None
    else
      match GuardrailDenies(gs[1..], resource, action)
      case None => None
      case Some(ps) => Some([gs[0].condition.value] + ps)
  }

  function PolicyFilter(ps: seq<DataPolicy>, resource: string, action: string,
                        filter: RecordFilter): Result<RecordFilter> {
    if ps == [] then Ok(filter)
    else if !PolicyApplies(ps[0], resource, action) then PolicyFilter(ps[1..], resource, action, filter)
    else if ps[0].effect == Deny then
      PolicyFilter(ps[1..], resource, action, filter.(deny := filter.deny + [ps[0].condition]))
    else if ps[0].effect != Allow then Err("identity.policy_effect_unsupported")
    else if ScopeAll in ps[0].dataScopes then
      PolicyFilter(ps[1..], resource, action, filter.(unrestricted := true))
    else
      PolicyFilter(ps[1..], resource, action, filter.(allow := filter.allow + [ps[0].condition]))
  }

  /** What `CompileRecordFilter` returns. */
  function FilterOf(b: AccessBundle, resource: string, action: string, now: int): Result<RecordFilter> {
    match BundleCheck(b, now)
    case Fail(code) => Err(code)
    case Pass =>
      if !ValidIdentifier(resource) || !ValidIdentifier(action) then Err("identity.access_request_invalid")
      else if !FunctionGate(b.functionGrants, resource, action).GateOpen? then Ok(NOTHING)
      else
        match GuardrailDenies(b.guardrails, resource, action)
        case None => Ok(NOTHING)
        case Some(denies) => PolicyFilter(b.dataPolicies, resource, action, RecordFilter([], denies, false))
  }

  method GuardrailDenyLoop(gs: seq<Guardrail>, resource: string, action: string) returns (r: Option<seq<Predicate>>)
    ensures r == GuardrailDenies(gs, resource, action)
  {
    var denies := [];
    assert gs[0..] == gs && forall ps: seq<Predicate> :: [] + ps == ps;
    for i := 0 to |gs|
      invariant GuardrailDenies(gs, resource, action) ==
        match GuardrailDenies(gs[i..], resource, action) case None => None case Some(ps) => Some(denies + ps)
    {
      var g := gs[i];
      assert gs[i..][0] == g && gs[i..][1..] == gs[i + 1..];
      if GuardrailCovers(g, resource, action) {
        if g.condition.None? { return None; }
        assert forall ps :: denies + ([g.condition.value] + ps) == (denies + [g.condition.value]) + ps;
        denies := denies + [g.condition.value];
      }
    }
    assert denies + [] == denies;
    return Some(denies);
  }

  method PolicyFilterLoop(ps: seq<DataPolicy>, resource: string, action: string,
                          start: RecordFilter) returns (r: Result<RecordFilter>)
    ensures r == PolicyFilter(ps, resource, action, start)
  {
    var filter := start;
    for i := 0 to |ps|
      invariant PolicyFilter(ps[i..], resource, action, filter) == PolicyFilter(ps, resource, action, start)
    {
      var p := ps[i];
      assert ps[i..][0] == p && ps[i..][1..] == ps[i + 1..];
      if PolicyApplies(p, resource, action) {
        if p.effect == Deny {
          filter := filter.(deny := filter.deny + [p.condition]);
        } else if p.effect == Allow {
          if ScopeAll in p.dataScopes {
            filter := filter.(unrestricted := true);
          } else {
            filter := filter.(allow := filter.allow + [p.condition]);
          }
        } else {
          return Err("identity.policy_effect_unsupported");
        }
      }
    }
    return Ok(filter);
  }

  /** `CompileRecordFilter`. */
  method CompileRecordFilter(b: AccessBundle, resource: string, action: string,
                             now: int) returns (r: Result<RecordFilter>)
    ensures r == FilterOf(b, resource, action, now)
  {
    var valid := Validate(b, now);
    if valid.Fail? { return Err(valid.code); }
    if !ValidIdentifier(resource) || !ValidIdentifier(action) {
      return Err("identity.access_request_invalid");
    }
    var gate := GrantLoop(b.functionGrants, resource, action);
    if !gate.GateOpen? { return Ok(NOTHING); }
    var denies := GuardrailDenyLoop(b.guardrails, resource, action);
    if denies.None? { return Ok(NOTHING); }
    r := PolicyFilterLoop(b.dataPolicies, resource, action, RecordFilter([], denies.value, false));
  }

  // ----- SQL -----

  /** Clause text and the arguments of its placeholders, in order. */
  datatype Fragment = Fragment(clause: seq<Token>, args: seq<Value>)

  type ColumnResolver = string -> Option<string>

  function Join(clauses: seq<seq<Token>>, separator: Token): seq<Token> {
    if clauses == [] then []
    else if |clauses| == 1 then clauses[0]
    else clauses[0] + [separator] + Join(clauses[1..], separator)
  }

  function Clause(f: Fragment): seq<Token> {
    f.clause
  }

  function Arguments(fs: seq<Fragment>): seq<Value> {
    if fs == [] then [] else fs[0].args + Arguments(fs[1..])
  }

  function Joined(fs: seq<Fragment>, separator: Token): Fragment {
    Fragment(Join(Map(Clause, fs), separator), Arguments(fs))
  }

  function Parenthesised(f: Fragment): Fragment {
    Fragment([LPar] + f.clause + [RPar], f.args)
  }

  function Marks(n: nat): seq<Token>
    requires n > 0
  {
    if n == 1 then [MarkT] else [MarkT, CommaT] + Marks(n - 1)
  }

  function LeafSql(p: Predicate, context: EvaluationContext, resolve: ColumnResolver): Result<Fragment> {
    var column := resolve(p.fact);
    if column.None? || Blank(column.value) then Err("identity.policy_fact_untranslatable")
    else
      var resolved :- ResolveValue(p.value, context);
      if resolved.Missing? then Ok(Fragment([ZeroT, EqT, OneT], []))
      else
        var expected, col := resolved.value, ColumnT(column.value);
        match p.operator
        case Eq => Ok(Fragment([col, EqT, MarkT], [expected]))
        case Neq => Ok(Fragment([col, NeT, MarkT], [expected]))
        case Prefix =>
          if !expected.Str? then Err("identity.policy_value_invalid")
          else Ok(Fragment([col, LikeT, MarkT, EscapeT, BackslashT], [Str(EscapeLike(expected.s) + "%")]))
        case Exists =>
          if !expected.Bool? then Err("identity.policy_value_invalid")
          else Ok(Fragment(if expected.b then [col, IsT, NotT, NullT] else [col, IsT, NullT], []))
        case In =>
          var values := Elements(expected);
          if values.None? || values.value == [] then Err("identity.policy_value_invalid")
          else Ok(Fragment([col, InT, LPar] + Marks(|values.value|) + [RPar], values.value))
        case NotIn =>
          var values := Elements(expected);
          if values.None? || values.value == [] then Err("identity.policy_value_invalid")
          else Ok(Fragment([col, NotT, InT, LPar] + Marks(|values.value|) + [RPar], values.value))
        case _ => Err("identity.policy_operator_untranslatable")
  }

  /** What `compilePredicate` emits. */
  function PredicateSql(p: Predicate, context: EvaluationContext, resolve: ColumnResolver): Result<Fragment>
    decreases p, 1
  {
    if PredicateCheck(p).Fail? then Err(PredicateCheck(p).code)
    else if p.path != [] then Err("identity.policy_relation_resolver_required")
    else if p.all != [] then
      var fs :- Fragments(p.all, context, resolve);
      Ok(Parenthesised(Joined(fs, AndT)))
    else if p.anyOf != [] then
      var fs :- Fragments(p.anyOf, context, resolve);
      Ok(Parenthesised(Joined(fs, OrT)))
    else if p.not.Some? then
      var f :- PredicateSql(p.not.value, context, resolve);
      Ok(Fragment([NotT, LPar] + f.clause + [RPar], f.args))
    else
      LeafSql(p, context, resolve)
  }

  /** What each predicate of a group emits, unless one of them fails. */
  function Fragments(ps: seq<Predicate>, context: EvaluationContext,
                     resolve: ColumnResolver): (r: Result<seq<Fragment>>)
    ensures r.Ok? ==> |r.value| == |ps|
    decreases ps, 0
  {
    if ps == [] then Ok([])
    else
      var f :- PredicateSql(ps[0], context, resolve);
      var fs :- Fragments(ps[1..], context, resolve);
      Ok([f] + fs)
  }

  /** What `CompileSQLWithContext` returns. */
  function FilterSql(filter: RecordFilter, context: EvaluationContext,
                     resolve: Option<ColumnResolver>): Result<Fragment> {
    if resolve.None? then Err("identity.policy_column_resolver_required")
    else
      var allows :- if filter.unrestricted then Ok([]) else Fragments(filter.allow, context, resolve.value);
      var denies :- Fragments(filter.deny, context, resolve.value);
      var allow, deny := Joined(allows, OrT), Joined(denies, OrT);
      if !filter.unrestricted && allow.clause == [] && filter.allow != [] then Err("identity.policy_translation_failed")
      else
        var visible :=
          if filter.unrestricted then Fragment([], [])
          else if allow.clause != [] then Parenthesised(allow)
          else Fragment([ZeroT, EqT, OneT], []);
        if deny.clause == [] then Ok(visible)
        else
          Ok(Fragment(visible.clause + (if visible.clause == [] then []
              else [AndT]) + [NotT, LPar] + deny.clause + [RPar],
                      visible.args + deny.args))
  }

  /** `strings.Join(clauses, separator)` with the arguments gathered on the side. */
  method CompileGroup(ps: seq<Predicate>, context: EvaluationContext, resolve: ColumnResolver,
                      separator: Token) returns (r: Result<Fragment>)
    ensures match Fragments(ps, context, resolve)
            case Err(code) => r == Err(code)
            case Ok(fs) => r == Ok(Joined(fs, separator))
    decreases ps, 0
  {
    var clauses: seq<seq<Token>>, args: seq<Value> := [], [];
    ghost var done: seq<Fragment> := [];
    assert ps[0..] == ps && forall fs: seq<Fragment> :: [] + fs == fs;
    for i := 0 to |ps|
      invariant Fragments(ps, context, resolve) ==
        match Fragments(ps[i..], context, resolve) case Err(code) => Err(code) case Ok(fs) => Ok(done + fs)
      invariant clauses == Map(Clause, done) && args == Arguments(done)
    {
      assert ps[i..][0] == ps[i] && ps[i..][1..] == ps[i + 1..];
      var f := CompilePredicate(ps[i], context, resolve);
      if f.Err? { return Err(f.code); }
      assert forall fs :: done + ([f.value] + fs) == (done + [f.value]) + fs;
      ArgumentsAppend(done, f.value);
      assert Map(Clause, done + [f.value]) == Map(Clause, done) + [f.value.clause];
      clauses, args, done := clauses + [f.value.clause], args + f.value.args, done + [f.value];
    }
    assert done + [] == done;
    return Ok(Fragment(Join(clauses, separator), args));
  }

  /** `compilePredicate`. */
  method CompilePredicate(p: Predicate, context: EvaluationContext,
                          resolve: ColumnResolver) returns (r: Result<Fragment>)
    ensures r == PredicateSql(p, context, resolve)
    decreases p, 1
  {
    if PredicateCheck(p).Fail? { return Err(PredicateCheck(p).code); }
    if p.path != [] { return Err("identity.policy_relation_resolver_required"); }
    if p.all != [] {
      r := CompileGroup(p.all, context, resolve, AndT);
      if r.Ok? { r := Ok(Parenthesised(r.value)); }
      return;
    }
    if p.anyOf != [] {
      r := CompileGroup(p.anyOf, context, resolve, OrT);
      if r.Ok? { r := Ok(Parenthesised(r.value)); }
      return;
    }
    if p.not.Some? {
      r := CompilePredicate(p.not.value, context, resolve);
      if r.Ok? { r := Ok(Fragment([NotT, LPar] + r.value.clause + [RPar], r.value.args)); }
      return;
    }
    return LeafSql(p, context, resolve);
  }

  lemma {:induction false} ArgumentsAppend(fs: seq<Fragment>, f: Fragment)
    ensures Arguments(fs + [f]) == Arguments(fs) + f.args
  {
    if fs != [] {
      ArgumentsAppend(fs[1..], f);
      assert (fs + [f])[1..] == fs[1..] + [f];
    }
  }

  /** `CompileSQLWithContext`. */
  method CompileSql(filter: RecordFilter, context: EvaluationContext,
                    resolve: Option<ColumnResolver>) returns (r: Result<Fragment>)
    ensures r == FilterSql(filter, context, resolve)
  {
    if resolve.None? { return Err("identity.policy_column_resolver_required"); }
    var allow := Fragment([], []);
    if !filter.unrestricted {
      var compiled := CompileGroup(filter.allow, context, resolve.value, OrT);
      if compiled.Err? { return compiled; }
      allow := compiled.value;
    }
    var deny := CompileGroup(filter.deny, context, resolve.value, OrT);
    if deny.Err? { return deny; }
    if !filter.unrestricted && allow.clause == [] && filter.allow != [] {
      return Err("identity.policy_translation_failed");
    }
    var clause, args := [ZeroT, EqT, OneT], [];
    assert args + allow.args == allow.args && args + deny.value.args == deny.value.args;
    if filter.unrestricted {
      clause := [];
    } else if allow.clause != [] {
      clause, args := [LPar] + allow.clause + [RPar], args + allow.args;
    }
    assert clause + [] == clause;
    if deny.value.clause != [] {
      if clause != [] { clause := clause + [AndT]; }
      clause, args := clause + [NotT, LPar] + deny.value.clause + [RPar], args + deny.value.args;
    }
    return Ok(Fragment(clause, args));
  }

  lemma FilterOfValidates(b: AccessBundle, resource: string, action: string, now: int)
    requires FilterOf(b, resource, action, now).Ok?
    ensures BundleCheck(b, now).Pass? && ValidIdentifier(resource) && ValidIdentifier(action)
  {
  }
}
