/** Canonical predicates: idempotent, a complete invariant of reordering, and of unchanged meaning. */
module Canonical {
  import opened Wrappers
  import opened Text
  import opened Lists
  import opened Contract
  import opened Validation
  import opened Context
  import opened Evaluator

  /** The orders of serialised predicates and values. Serialisation itself is not modelled: only that different
      things serialise differently and that the texts are totally ordered. */
  datatype Orders = Orders(predicates: (Predicate, Predicate) -> bool, values: (Value, Value) -> bool)

  ghost predicate Total(o: Orders) {
    TotalOrder(o.predicates) && TotalOrder(o.values)
  }

  function CanonValue(operator: Operator, v: Value, o: Orders): Value {
    if !operator.In? && !operator.NotIn? then v
    else
      match v
      case Strs(ss) => Strs(Sort(StringLeq, ss))
      case List(vs) => List(Sort(o.values, vs))
      case _ => v
  }

  /** `canonicalPredicate`. */
  function Canon(p: Predicate, o: Orders): Predicate
    decreases p, 2
  {
    p.(all := CanonList(p.all, o), anyOf := CanonList(p.anyOf, o),
       not := if p.not.Some? then Some(Canon(p.not.value, o)) else None,
       value := CanonValue(p.operator, p.value, o))
  }

  /** `canonicalPredicateList`. */
  function CanonList(ps: seq<Predicate>, o: Orders): seq<Predicate>
    decreases ps, 1
  {
    Sort(o.predicates, CanonEach(ps, o))
  }

  function CanonEach(ps: seq<Predicate>, o: Orders): (r: seq<Predicate>)
    ensures |r| == |ps|
    decreases ps, 0
  {
    if ps == [] then [] else [Canon(ps[0], o)] + CanonEach(ps[1..], o)
  }

  // ----- Idempotence -----

  lemma CanonValueTwice(operator: Operator, v: Value, o: Orders)
    requires Total(o)
    ensures CanonValue(operator, CanonValue(operator, v, o), o) == CanonValue(operator, v, o)
  {
    match v
    case Strs(ss) => StringOrder(); SortTwice(StringLeq, ss);
    case List(vs) => SortTwice(o.values, vs);
    case _ =>
  }

  lemma {:induction false} CanonEachMember(ps: seq<Predicate>, o: Orders, i: nat)
    requires i < |ps|
    ensures CanonEach(ps, o)[i] == Canon(ps[i], o)
  {
    hide Canon;
    if i > 0 {
      CanonEachMember(ps[1..], o, i - 1);
    }
  }

  /** A list of canonical predicates is left as it is. */
  lemma {:induction false} CanonEachFixed(ps: seq<Predicate>, o: Orders)
    requires forall p | p in ps :: Canon(p, o) == p
    ensures CanonEach(ps, o) == ps
  {
    hide Canon;
    if ps != [] {
      assert ps[0] in ps && forall p | p in ps[1..] :: p in ps;
      CanonEachFixed(ps[1..], o);
    }
  }

  lemma {:induction false} CanonIdempotent(p: Predicate, o: Orders)
    requires Total(o)
    ensures Canon(Canon(p, o), o) == Canon(p, o)
    decreases p, 1
  {
    hide CanonValue, CanonEach;
    CanonValueTwice(p.operator, p.value, o);
    CanonListIdempotent(p.all, o);
    CanonListIdempotent(p.anyOf, o);
    if p.not.Some? {
      CanonIdempotent(p.not.value, o);
    }
  }

  lemma {:induction false} CanonListIdempotent(ps: seq<Predicate>, o: Orders)
    requires Total(o)
    ensures CanonList(CanonList(ps, o), o) == CanonList(ps, o)
    decreases ps, 0
  {
    hide Canon;
    var each := CanonEach(ps, o);
    var sorted := CanonList(ps, o);
    SameMembers(each, sorted);
    forall p | p in sorted
      ensures Canon(p, o) == p
    {
      var i :| 0 <= i < |each| && each[i] == p;
      CanonEachMember(ps, o, i);
      CanonIdempotent(ps[i], o);
    }
    CanonEachFixed(sorted, o);
    SortTwice(o.predicates, each);
  }

  // ----- Reordering -----

  predicate ValuePermuted(operator: Operator, v: Value, w: Value) {
    v == w ||
    ((operator.In? || operator.NotIn?) &&
     ((v.Strs? && w.Strs? && multiset(v.ss) == multiset(w.ss))
         || (v.List? && w.List? && multiset(v.vs) == multiset(w.vs))))
  }

  /** `q` is `p` with the lists of All, Any and In reordered, at any depth. */
  ghost predicate Permuted(p: Predicate, q: Predicate)
    decreases p, 1
  {
    && p.fact == q.fact && p.path == q.path && p.operator == q.operator && ValuePermuted(p.operator, p.value, q.value)
    && PermutedList(p.all, q.all) && PermutedList(p.anyOf, q.anyOf)
    && (p.not.Some? <==> q.not.Some?) && (p.not.Some? ==> Permuted(p.not.value, q.not.value))
  }

  /** Each predicate of `ps` has its own counterpart in `qs`, in some order. */
  ghost predicate PermutedList(ps: seq<Predicate>, qs: seq<Predicate>)
    decreases ps, 0
  {
    && |ps| == |qs|
    && (ps == [] || exists j: nat | j < |qs| :: Permuted(ps[0], qs[j]) && PermutedList(ps[1..], Drop(qs, j)))
  }

  lemma CanonValuePermuted(operator: Operator, v: Value, w: Value, o: Orders)
    requires Total(o)
    ensures ValuePermuted(operator, v, w) <==> CanonValue(operator, v, o) == CanonValue(operator, w, o)
  {
    hide TotalOrder, Sort;
    if operator.In? || operator.NotIn? {
      if v.Strs? && w.Strs? {
        StringOrder();
        TotalSeparates(StringLeq, v.ss);
        SortedAlike(StringLeq, v.ss, w.ss);
      } else if v.List? && w.List? {
        TotalSeparates(o.values, v.vs);
        SortedAlike(o.values, v.vs, w.vs);
      }
    }
  }

  lemma CanonEachStep(qs: seq<Predicate>, o: Orders)
    requires qs != []
    ensures multiset(CanonEach(qs, o)) == multiset{Canon(qs[0], o)} + multiset(CanonEach(qs[1..], o))
  {
    hide Canon;
    MultisetStep(CanonEach(qs, o));
    assert CanonEach(qs, o)[1..] == CanonEach(qs[1..], o);
  }

  lemma {:induction false} CanonEachDrop(qs: seq<Predicate>, o: Orders, j: nat)
    requires j < |qs|
    ensures multiset(CanonEach(qs, o)) == multiset{Canon(qs[j], o)} + multiset(CanonEach(Drop(qs, j), o))
  {
    hide Canon, CanonEach;
    CanonEachStep(qs, o);
    if j == 0 {
      assert Drop(qs, 0) == qs[1..];
    } else {
      CanonEachDrop(qs[1..], o, j - 1);
      var d := Drop(qs, j);
      assert d[1..] == Drop(qs[1..], j - 1) && d[0] == qs[0];
      CanonEachStep(d, o);
    }
  }

  lemma {:induction false} PermutedToCanon(p: Predicate, q: Predicate, o: Orders)
    requires Total(o) && Permuted(p, q)
    ensures Canon(p, o) == Canon(q, o)
    decreases p, 1
  {
    hide CanonValue, ValuePermuted, CanonEach, PermutedList, CanonList;
    CanonValuePermuted(p.operator, p.value, q.value, o);
    PermutedListToCanon(p.all, q.all, o);
    PermutedListToCanon(p.anyOf, q.anyOf, o);
    CanonListOf(p.all, q.all, o);
    CanonListOf(p.anyOf, q.anyOf, o);
    if p.not.Some? {
      PermutedToCanon(p.not.value, q.not.value, o);
    }
  }

  lemma CanonListOf(ps: seq<Predicate>, qs: seq<Predicate>, o: Orders)
    requires Total(o)
    ensures CanonList(ps, o) == CanonList(qs, o) <==> multiset(CanonEach(ps, o)) == multiset(CanonEach(qs, o))
  {
    TotalSeparates(o.predicates, CanonEach(ps, o));
    SortedAlike(o.predicates, CanonEach(ps, o), CanonEach(qs, o));
  }

  lemma {:induction false} PermutedListToCanon(ps: seq<Predicate>, qs: seq<Predicate>, o: Orders)
    requires Total(o) && PermutedList(ps, qs)
    ensures multiset(CanonEach(ps, o)) == multiset(CanonEach(qs, o))
    decreases ps, 0
  {
    hide Canon, Permuted;
    if ps != [] {
      var j: nat :| j < |qs| && Permuted(ps[0], qs[j]) && PermutedList(ps[1..], Drop(qs, j));
      PermutedToCanon(ps[0], qs[j], o);
      PermutedListToCanon(ps[1..], Drop(qs, j), o);
      CanonEachDrop(qs, o, j);
      MultisetStep(CanonEach(ps, o));
      assert CanonEach(ps, o)[1..] == CanonEach(ps[1..], o);
    }
  }

  lemma {:induction false} CanonToPermuted(p: Predicate, q: Predicate, o: Orders)
    requires Total(o) && Canon(p, o) == Canon(q, o)
    ensures Permuted(p, q)
    decreases p, 1
  {
    hide CanonValue, ValuePermuted, CanonEach, PermutedList, CanonList;
    CanonValuePermuted(p.operator, p.value, q.value, o);
    CanonListOf(p.all, q.all, o);
    CanonListOf(p.anyOf, q.anyOf, o);
    CanonListToPermuted(p.all, q.all, o);
    CanonListToPermuted(p.anyOf, q.anyOf, o);
    if p.not.Some? {
      CanonToPermuted(p.not.value, q.not.value, o);
    }
  }

  lemma {:induction false} CanonListToPermuted(ps: seq<Predicate>, qs: seq<Predicate>, o: Orders)
    requires Total(o) && multiset(CanonEach(ps, o)) == multiset(CanonEach(qs, o))
    ensures PermutedList(ps, qs)
    decreases ps, 0
  {
    hide Canon, Permuted, CanonEach;
    SameMembers(CanonEach(ps, o), CanonEach(qs, o));
    if ps != [] {
      var c := Canon(ps[0], o);
      CanonEachMember(ps, o, 0);
      assert c in CanonEach(qs, o);
      var j: nat :| j < |qs| && CanonEach(qs, o)[j] == c;
      CanonEachMember(qs, o, j);
      CanonToPermuted(ps[0], qs[j], o);
      CanonEachDrop(qs, o, j);
      CanonEachStep(ps, o);
      var rest := multiset(CanonEach(ps[1..], o));
      assert rest == multiset(CanonEach(ps, o)) - multiset{c} == multiset(CanonEach(Drop(qs, j), o));
      CanonListToPermuted(ps[1..], Drop(qs, j), o);
    }
  }

  /** Two predicates have the same canonical form exactly when one is a reordering of the other. */
  lemma CanonicalFormIsComplete(p: Predicate, q: Predicate, o: Orders)
    requires Total(o)
    ensures Permuted(p, q) <==> Canon(p, o) == Canon(q, o)
  {
    if Permuted(p, q) {
      PermutedToCanon(p, q, o);
    }
    if Canon(p, o) == Canon(q, o) {
      CanonToPermuted(p, q, o);
    }
  }

  // ----- Validity and meaning -----

  lemma CanonListMembers(ps: seq<Predicate>, o: Orders)
    ensures forall i | 0 <= i < |ps| :: Canon(ps[i], o) in CanonList(ps, o)
    ensures forall c | c in CanonList(ps, o) :: exists i | 0 <= i < |ps| :: c == Canon(ps[i], o)
    ensures |CanonList(ps, o)| == |ps|
  {
    hide Canon;
    var each, sorted := CanonEach(ps, o), CanonList(ps, o);
    SameMembers(each, sorted);
    forall i | 0 <= i < |ps|
      ensures Canon(ps[i], o) in sorted
    {
      CanonEachMember(ps, o, i);
      assert each[i] in each;
    }
    forall c | c in sorted
      ensures exists i | 0 <= i < |ps| :: c == Canon(ps[i], o)
    {
      var i :| 0 <= i < |each| && each[i] == c;
      CanonEachMember(ps, o, i);
    }
  }

  /** Canonicalising keeps what validation accepts, and nothing else. */
  lemma {:induction false} CanonKeepsValidity(p: Predicate, o: Orders)
    ensures PredicateCheck(Canon(p, o)).Pass? <==> PredicateCheck(p).Pass?
    decreases p, 1
  {
    hide CanonValue, CanonList, IsLeaf, Blank, SegmentValid;
    CanonListKeepsValidity(p.all, o);
    CanonListKeepsValidity(p.anyOf, o);
    if p.not.Some? {
      CanonKeepsValidity(p.not.value, o);
    }
    assert ShapeCheck(Canon(p, o)) == ShapeCheck(p) by {
      ShapeKept(p, Canon(p, o));
    }
  }

  lemma ShapeKept(p: Predicate, q: Predicate)
    requires q.fact == p.fact && q.operator == p.operator && q.path == p.path
    requires (q.all == [] <==> p.all == []) && (q.anyOf == [] <==> p.anyOf == []) && (q.not.Some? <==> p.not.Some?)
    ensures ShapeCheck(q) == ShapeCheck(p) && IsLeaf(q) == IsLeaf(p)
  {
  }

  lemma {:induction false} CanonListKeepsValidity(ps: seq<Predicate>, o: Orders)
    ensures CanonList(ps, o) == [] <==> ps == []
    ensures PredicatesCheck(CanonList(ps, o)).Pass? <==> PredicatesCheck(ps).Pass?
    decreases ps, 0
  {
    hide Canon, PredicateCheck;
    var cs := CanonList(ps, o);
    CanonListMembers(ps, o);
    PredicatesCheckMeaning(ps);
    PredicatesCheckMeaning(cs);
    forall i | 0 <= i < |ps|
      ensures PredicateCheck(Canon(ps[i], o)).Pass? <==> PredicateCheck(ps[i]).Pass?
    {
      CanonKeepsValidity(ps[i], o);
    }
    if PredicatesCheck(cs).Pass? {
      forall p | p in ps
        ensures PredicateCheck(p).Pass?
      {
        var i :| 0 <= i < |ps| && ps[i] == p;
      }
    }
    if PredicatesCheck(ps).Pass? {
      forall c | c in cs
        ensures PredicateCheck(c).Pass?
      {
        var i :| 0 <= i < |ps| && c == Canon(ps[i], o);
        assert ps[i] in ps;
      }
    }
  }

  /** No comparison anywhere in the predicate fails: only then does the order of evaluation not show. */
  predicate ErrorFree(p: Predicate, facts: ResourceFacts, context: EvaluationContext)
    decreases p
  {
    && PredicateCheck(p).Pass? && p.path == []
    && (forall c | c in p.all :: ErrorFree(c, facts, context))
    && (forall c | c in p.anyOf :: ErrorFree(c, facts, context))
    && (p.not.Some? ==> ErrorFree(p.not.value, facts, context))
    && (p.all == [] && p.anyOf == [] && p.not.None? ==> EvalLeaf(p, facts, context).Ok?)
  }

  lemma ElementsKept(operator: Operator, v: Value, o: Orders)
    ensures var w := CanonValue(operator, v, o);
            && (v == w || (!v.Str? && !w.Str?))
            && (operator.In? || operator.NotIn? ==>
                  && (Elements(v).Some? <==> Elements(w).Some?)
                  && (Elements(v).Some? ==> forall x :: x in Elements(v).value <==> x in Elements(w).value))
            && (!operator.In? && !operator.NotIn? ==> v == w)
  {
    hide Sort, Map;
    var w := CanonValue(operator, v, o);
    if v.Strs? && w.Strs? {
      if operator.In? || operator.NotIn? {
        MapPermuted(TextValue, v.ss, w.ss);
        SameMembers(Elements(v).value, Elements(w).value);
      }
    } else if v.List? && w.List? {
      if operator.In? || operator.NotIn? {
        SameMembers(v.vs, w.vs);
      }
    }
  }

  lemma LeafKept(p: Predicate, facts: ResourceFacts, context: EvaluationContext, o: Orders)
    ensures EvalLeaf(p.(value := CanonValue(p.operator, p.value, o)), facts, context) == EvalLeaf(p, facts, context)
  {
    hide CanonValue, Elements, SubjectClaim;
    ElementsKept(p.operator, p.value, o);
  }

  lemma LeafReads(p: Predicate, q: Predicate, facts: ResourceFacts, context: EvaluationContext)
    requires p.fact == q.fact && p.operator == q.operator && p.value == q.value
    ensures EvalLeaf(p, facts, context) == EvalLeaf(q, facts, context)
  {
  }

  /** An error-free predicate evaluates, stays error-free, and means the same once canonical. */
  lemma {:induction false} CanonKeepsMeaning(p: Predicate, facts: ResourceFacts, context: EvaluationContext, o: Orders)
    requires ErrorFree(p, facts, context)
    ensures ErrorFree(Canon(p, o), facts, context)
    ensures EvalPredicate(p, facts, context).Ok?
              && EvalPredicate(Canon(p, o), facts, context) == EvalPredicate(p, facts, context)
    decreases p, 1
  {
    hide CanonValue, CanonList, PredicateCheck, EvalLeaf;
    var q := Canon(p, o);
    CanonKeepsValidity(p, o);
    CanonListKeepsMeaning(p.all, facts, context, o);
    CanonListKeepsMeaning(p.anyOf, facts, context, o);
    if p.not.Some? {
      CanonKeepsMeaning(p.not.value, facts, context, o);
    }
    LeafKept(p, facts, context, o);
    LeafReads(q, p.(value := CanonValue(p.operator, p.value, o)), facts, context);
    assert q.path == [] && q.all == CanonList(p.all, o) && q.anyOf == CanonList(p.anyOf, o);
    assert ErrorFree(q, facts, context);
  }

  lemma {:induction false} CanonListKeepsMeaning(ps: seq<Predicate>, facts: ResourceFacts, context: EvaluationContext,
                                                 o: Orders)
    requires forall p | p in ps :: ErrorFree(p, facts, context)
    ensures CanonList(ps, o) == [] <==> ps == []
    ensures forall c | c in CanonList(ps, o) :: ErrorFree(c, facts, context)
    ensures EvalAll(ps, facts, context).Ok? && EvalAll(CanonList(ps, o), facts, context) == EvalAll(ps, facts, context)
    ensures EvalAny(ps, facts, context).Ok? && EvalAny(CanonList(ps, o), facts, context) == EvalAny(ps, facts, context)
    decreases ps, 0
  {
    hide Canon, EvalPredicate, ErrorFree, EvalAll, EvalAny, CanonList;
    var cs := CanonList(ps, o);
    CanonListMembers(ps, o);
    forall i | 0 <= i < |ps|
      ensures ErrorFree(Canon(ps[i], o), facts, context)
      ensures EvalPredicate(ps[i], facts, context).Ok?
      ensures EvalPredicate(Canon(ps[i], o), facts, context) == EvalPredicate(ps[i], facts, context)
    {
      CanonKeepsMeaning(ps[i], facts, context, o);
    }
    assert forall p | p in ps :: exists i | 0 <= i < |ps| :: p == ps[i];
    EvalAllMeaning(ps, facts, context);
    EvalAllMeaning(cs, facts, context);
    EvalAnyMeaning(ps, facts, context);
    EvalAnyMeaning(cs, facts, context);
    SameAnswers(ps, cs, facts, context, o);
  }

  lemma SameAnswers(ps: seq<Predicate>, cs: seq<Predicate>, facts: ResourceFacts, context: EvaluationContext, o: Orders)
    requires forall i | 0 <= i < |ps| ::
               Canon(ps[i], o) in cs && EvalPredicate(Canon(ps[i], o), facts, context)
                   == EvalPredicate(ps[i], facts, context)
    requires forall c | c in cs :: exists i | 0 <= i < |ps| :: c == Canon(ps[i], o)
    ensures (forall p | p in ps :: Yes(EvalPredicate(p, facts, context))) <==>
              (forall c | c in cs :: Yes(EvalPredicate(c, facts, context)))
    ensures (exists p | p in ps :: Yes(EvalPredicate(p, facts, context))) <==>
              (exists c | c in cs :: Yes(EvalPredicate(c, facts, context)))
  {
    hide Canon, EvalPredicate;
    if forall p | p in ps :: Yes(EvalPredicate(p, facts, context)) {
      forall c | c in cs
        ensures Yes(EvalPredicate(c, facts, context))
      {
        var i :| 0 <= i < |ps| && c == Canon(ps[i], o);
        assert ps[i] in ps;
      }
    } else {
      var p :| p in ps && !Yes(EvalPredicate(p, facts, context));
      var i :| 0 <= i < |ps| && ps[i] == p;
      assert Canon(ps[i], o) in cs && !Yes(EvalPredicate(Canon(ps[i], o), facts, context));
    }
    if exists p | p in ps :: Yes(EvalPredicate(p, facts, context)) {
      var p :| p in ps && Yes(EvalPredicate(p, facts, context));
      var i :| 0 <= i < |ps| && ps[i] == p;
      assert Canon(ps[i], o) in cs && Yes(EvalPredicate(Canon(ps[i], o), facts, context));
    }
    if exists c | c in cs :: Yes(EvalPredicate(c, facts, context)) {
      var c :| c in cs && Yes(EvalPredicate(c, facts, context));
      var i :| 0 <= i < |ps| && c == Canon(ps[i], o);
      assert ps[i] in ps && Yes(EvalPredicate(ps[i], facts, context));
    }
  }
}
