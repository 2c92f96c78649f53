/** Sequences: mapping, filtering, duplicate-freedom, and sorting under an order given as a function. */
module Lists {

  function Map<A, B>(f: A -> B, s: seq<A>): (r: seq<B>)
    ensures |r| == |s| && forall i | 0 <= i < |s| :: r[i] == f(s[i])
  {
    if s == [] then [] else [f(s[0])] + Map(f, s[1..])
  }

  function Filter<A>(keep: A -> bool, s: seq<A>): (r: seq<A>)
    ensures forall x | x in r :: x in s && keep(x)
    ensures forall x | x in s && keep(x) :: x in r
  {
    if s == [] then [] else (if keep(s[0]) then [s[0]] else []) + Filter(keep, s[1..])
  }

  predicate NoDuplicates<A(==)>(s: seq<A>) {
    forall i, j | 0 <= i < j < |s| :: s[i] != s[j]
  }

  lemma {:induction false} FilterSnoc<A>(keep: A -> bool, s: seq<A>, x: A)
    ensures Filter(keep, s + [x]) == if keep(x) then Filter(keep, s) + [x] else Filter(keep, s)
  {
    if s == [] {
      assert s + [x] == [x];
    } else {
      FilterSnoc(keep, s[1..], x);
      SnocTail(s, x);
      var head, a := if keep(s[0]) then [s[0]] else [], Filter(keep, s[1..]);
      assert Filter(keep, s) == head + a;
      Associates(head, a, [x]);
    }
  }

  lemma SnocTail<A>(s: seq<A>, x: A)
    requires s != []
    ensures s + [x] != [] && (s + [x])[0] == s[0] && (s + [x])[1..] == s[1..] + [x]
  {
  }

  lemma Associates<A>(a: seq<A>, b: seq<A>, c: seq<A>)
    ensures a + (b + c) == (a + b) + c
  {
  }

  lemma MapSnoc<A, B>(f: A -> B, s: seq<A>, x: A)
    ensures Map(f, s + [x]) == Map(f, s) + [f(x)]
  {
    assert forall i | 0 <= i < |s| :: (s + [x])[i] == s[i];
  }

  lemma MultisetStep<A>(s: seq<A>)
    requires s != []
    ensures multiset(s) == multiset{s[0]} + multiset(s[1..])
  {
    assert s == [s[0]] + s[1..];
  }

  lemma SameMembers<A>(s: seq<A>, t: seq<A>)
    requires multiset(s) == multiset(t)
    ensures |s| == |t| && forall x :: x in s <==> x in t
  {
    assert |s| == |multiset(s)| == |multiset(t)| == |t|;
    forall x
      ensures x in s <==> x in t
    {
      assert x in s <==> x in multiset(s);
      assert x in t <==> x in multiset(t);
    }
  }

  /** Duplicate-freedom is a property of the multiset of elements. */
  lemma {:induction false} NoDuplicatesCount<A>(s: seq<A>)
    ensures NoDuplicates(s) <==> forall x :: multiset(s)[x] <= 1
  {
    if s == [] {
    } else {
      NoDuplicatesCount(s[1..]);
      MultisetStep(s);
      if NoDuplicates(s) {
        assert NoDuplicates(s[1..]) by {
          forall i, j | 0 <= i < j < |s| - 1
            ensures s[1..][i] != s[1..][j]
          {
            assert s[i + 1] != s[j + 1];
          }
        }
        assert s[0] !in s[1..];
        assert s[0] !in multiset(s[1..]);
      } else {
        var i, j :| 0 <= i < j < |s| && s[i] == s[j];
        if i == 0 {
          assert s[j] == s[1..][j - 1];
          assert s[0] in multiset(s[1..]);
          assert multiset(s)[s[0]] >= 2;
        } else {
          assert s[1..][i - 1] == s[1..][j - 1];
          assert !NoDuplicates(s[1..]);
          var x :| multiset(s[1..])[x] > 1;
          assert multiset(s)[x] > 1;
        }
      }
    }
  }

  lemma NoDuplicatesPermuted<A>(s: seq<A>, t: seq<A>)
    requires multiset(s) == multiset(t) && NoDuplicates(s)
    ensures NoDuplicates(t)
  {
    NoDuplicatesCount(s);
    NoDuplicatesCount(t);
  }

  /** Takes one occurrence of `x` out of a list. */
  ghost function Without<A>(s: seq<A>, x: A): (r: seq<A>)
    requires x in s
    ensures multiset(s) == multiset{x} + multiset(r)
  {
    if s[0] == x then
      MultisetStep(s);
      s[1..]
    else
      MultisetStep(s);
      [s[0]] + Without(s[1..], x)
  }

  lemma {:induction false} MapWithout<A, B>(f: A -> B, s: seq<A>, x: A)
    requires x in s
    ensures multiset(Map(f, s)) == multiset{f(x)} + multiset(Map(f, Without(s, x)))
  {
    MultisetStep(Map(f, s));
    assert Map(f, s)[1..] == Map(f, s[1..]);
    if s[0] != x {
      MapWithout(f, s[1..], x);
      var r := Without(s[1..], x);
      assert ([s[0]] + r)[1..] == r;
      MultisetStep(Map(f, [s[0]] + r));
      assert Map(f, [s[0]] + r)[1..] == Map(f, r);
    }
  }

  lemma {:induction false} MapPermuted<A, B>(f: A -> B, s: seq<A>, t: seq<A>)
    requires multiset(s) == multiset(t)
    ensures multiset(Map(f, s)) == multiset(Map(f, t))
  {
    SameMembers(s, t);
    if s != [] {
      MultisetStep(s);
      MultisetStep(Map(f, s));
      assert Map(f, s)[1..] == Map(f, s[1..]);
      var u := Without(t, s[0]);
      assert multiset(u) == multiset(t) - multiset{s[0]} == multiset(s[1..]);
      MapPermuted(f, s[1..], u);
      MapWithout(f, t, s[0]);
    }
  }

  /** A total and transitive comparison: what `sort.Slice` asks of its less function. */
  ghost predicate Ordering<T(!new)>(leq: (T, T) -> bool) {
    && (forall a, b :: leq(a, b) || leq(b, a))
    && (forall a, b, c :: leq(a, b) && leq(b, c) ==> leq(a, c))
  }

  /** No two different elements of the list tie, as when they are compared by a unique key. */
  ghost predicate Separates<T>(leq: (T, T) -> bool, s: seq<T>) {
    forall a, b | a in s && b in s && leq(a, b) && leq(b, a) :: a == b
  }

  /** No two different values tie at all, as when they are compared by an injective serialisation. */
  ghost predicate TotalOrder<T(!new)>(leq: (T, T) -> bool) {
    Ordering(leq) && forall a, b :: leq(a, b) && leq(b, a) ==> a == b
  }

  ghost predicate Sorted<T>(leq: (T, T) -> bool, s: seq<T>) {
    forall i, j | 0 <= i < j < |s| :: leq(s[i], s[j])
  }

  function Insert<T>(leq: (T, T) -> bool, x: T, s: seq<T>): (r: seq<T>)
    ensures multiset(r) == multiset{x} + multiset(s)
  {
    if s == [] then [x]
    else if leq(x, s[0]) then
      [x] + s
    else
      MultisetStep(s);
      [s[0]] + Insert(leq, x, s[1..])
  }

  /** `sort.Slice`: some ordered rearrangement of the list. */
  function Sort<T>(leq: (T, T) -> bool, s: seq<T>): (r: seq<T>)
    ensures multiset(r) == multiset(s)
    ensures |r| == |s|
  {
    if s == [] then []
    else
      MultisetStep(s);
      var r := Insert(leq, s[0], Sort(leq, s[1..]));
      assert |r| == |multiset(r)|;
      r
  }

  lemma {:induction false} InsertSorted<T(!new)>(leq: (T, T) -> bool, x: T, s: seq<T>)
    requires Ordering(leq) && Sorted(leq, s)
    ensures Sorted(leq, Insert(leq, x, s))
  {
    if s == [] {
    } else if leq(x, s[0]) {
      assert forall i | 0 < i < |s| :: leq(s[0], s[i]) && leq(x, s[i]);
    } else {
      InsertSorted(leq, x, s[1..]);
      var r := Insert(leq, x, s[1..]);
      forall i | 0 <= i < |r|
        ensures leq(s[0], r[i])
      {
        assert r[i] in multiset(r);
        assert r[i] == x || r[i] in s[1..];
      }
    }
  }

  lemma {:induction false} SortSorted<T(!new)>(leq: (T, T) -> bool, s: seq<T>)
    requires Ordering(leq)
    ensures Sorted(leq, Sort(leq, s))
  {
    if s != [] {
      SortSorted(leq, s[1..]);
      InsertSorted(leq, s[0], Sort(leq, s[1..]));
    }
  }

  lemma SortedHeads<T(!new)>(leq: (T, T) -> bool, s: seq<T>, t: seq<T>)
    requires Ordering(leq) && Separates(leq, s) && Sorted(leq, s) && Sorted(leq, t)
    requires s != [] && t != [] && s[0] in t && t[0] in s
    ensures s[0] == t[0]
  {
    var i :| 0 <= i < |s| && s[i] == t[0];
    var j :| 0 <= j < |t| && t[j] == s[0];
    assert leq(s[0], t[0]) && leq(t[0], s[0]);
  }

  /** A list has exactly one ordered rearrangement, so the sorting algorithm does not matter. */
  lemma {:induction false} SortedUnique<T(!new)>(leq: (T, T) -> bool, s: seq<T>, t: seq<T>)
    requires Ordering(leq) && Separates(leq, s) && Sorted(leq, s) && Sorted(leq, t)
    requires multiset(s) == multiset(t)
    ensures s == t
  {
    SameMembers(s, t);
    if s != [] {
      SortedHeads(leq, s, t);
      MultisetStep(s);
      MultisetStep(t);
      assert multiset(s[1..]) == multiset(s) - multiset{s[0]} == multiset(t[1..]);
      assert s == [s[0]] + s[1..] && t == [t[0]] + t[1..];
      SortedUnique(leq, s[1..], t[1..]);
    }
  }

  lemma SortPermuted<T(!new)>(leq: (T, T) -> bool, s: seq<T>, t: seq<T>)
    requires Ordering(leq) && Separates(leq, s) && multiset(s) == multiset(t)
    ensures Sort(leq, s) == Sort(leq, t)
  {
    SortSorted(leq, s);
    SortSorted(leq, t);
    SameMembers(s, Sort(leq, s));
    SortedUnique(leq, Sort(leq, s), Sort(leq, t));
  }

  lemma SortFixed<T(!new)>(leq: (T, T) -> bool, s: seq<T>)
    requires Ordering(leq) && Separates(leq, s) && Sorted(leq, s)
    ensures Sort(leq, s) == s
  {
    SortSorted(leq, s);
    SortedUnique(leq, s, Sort(leq, s));
  }

  lemma {:induction false} InsertMapped<T(!new)>(leq: (T, T) -> bool, f: T -> T, x: T, s: seq<T>)
    requires forall a, b :: leq(f(a), f(b)) == leq(a, b)
    ensures Insert(leq, f(x), Map(f, s)) == Map(f, Insert(leq, x, s))
  {
    if s == [] {
    } else if leq(x, s[0]) {
      assert ([x] + s)[1..] == s;
    } else {
      InsertMapped(leq, f, x, s[1..]);
      var r := Insert(leq, x, s[1..]);
      assert ([s[0]] + r)[1..] == r;
      assert Map(f, s)[1..] == Map(f, s[1..]);
    }
  }

  /** A rewriting that does not touch what is compared may be done before or after sorting. */
  lemma {:induction false} SortMapped<T(!new)>(leq: (T, T) -> bool, f: T -> T, s: seq<T>)
    requires forall a, b :: leq(f(a), f(b)) == leq(a, b)
    ensures Sort(leq, Map(f, s)) == Map(f, Sort(leq, s))
  {
    if s != [] {
      SortMapped(leq, f, s[1..]);
      InsertMapped(leq, f, s[0], Sort(leq, s[1..]));
      assert Map(f, s)[1..] == Map(f, s[1..]);
    }
  }

  /** The list without its repetitions: what appending behind a `seen` map leaves. */
  function Unique<T(==)>(s: seq<T>): (r: seq<T>)
    ensures (forall x | x in r :: x in s) && (forall x | x in s :: x in r)
    ensures NoDuplicates(r)
  {
    if s == [] then []
    else
      var r := Unique(s[..|s| - 1]);
      assert s == s[..|s| - 1] + [s[|s| - 1]];
      if s[|s| - 1] in r then r else r + [s[|s| - 1]]
  }

  lemma UniqueSnoc<T>(s: seq<T>, x: T)
    ensures Unique(s + [x]) == if x in s then Unique(s) else Unique(s) + [x]
  {
    assert (s + [x])[..|s|] == s;
  }

  lemma {:induction false} UniqueFixed<T>(s: seq<T>)
    requires NoDuplicates(s)
    ensures Unique(s) == s
  {
    if s != [] {
      UniqueFixed(s[..|s| - 1]);
      assert s[|s| - 1] !in s[..|s| - 1];
      assert s == s[..|s| - 1] + [s[|s| - 1]];
    }
  }

  /** A list without duplicates is determined by its members, up to order. */
  lemma {:induction false} SameMembersOnce<T(!new)>(s: seq<T>, t: seq<T>)
    requires NoDuplicates(s) && NoDuplicates(t) && forall x :: x in s <==> x in t
    ensures multiset(s) == multiset(t)
  {
    NoDuplicatesCount(s);
    NoDuplicatesCount(t);
    forall x
      ensures multiset(s)[x] == multiset(t)[x]
    {
      assert x in s <==> x in multiset(s);
      assert x in t <==> x in multiset(t);
    }
  }

  lemma MapTail<A, B>(f: A -> B, s: seq<A>)
    requires s != []
    ensures Map(f, s) == [f(s[0])] + Map(f, s[1..]) && Map(f, s)[1..] == Map(f, s[1..])
  {
  }

  lemma DistinctTail<A, B>(key: A -> B, s: seq<A>)
    requires s != []
    ensures NoDuplicates(Map(key, s)) <==>
              NoDuplicates(Map(key, s[1..])) && forall x | x in s[1..] :: key(x) != key(s[0])
  {
    var keys, rest := Map(key, s), s[1..];
    MapTail(key, s);
    if NoDuplicates(keys) {
      forall i, j | 0 <= i < j < |rest|
        ensures keys[1..][i] != keys[1..][j]
      {
        assert keys[i + 1] != keys[j + 1];
      }
      forall x | x in rest
        ensures key(x) != key(s[0])
      {
        var i :| 0 <= i < |rest| && rest[i] == x;
        assert keys[i + 1] != keys[0];
      }
    } else {
      var i, j :| 0 <= i < j < |s| && keys[i] == keys[j];
      if i == 0 {
        assert rest[j - 1] in rest;
      } else {
        assert keys[1..][i - 1] == keys[1..][j - 1];
      }
    }
  }

  lemma MapMembers<A, B>(f: A -> B, s: seq<A>)
    ensures forall x | x in s :: f(x) in Map(f, s)
    ensures forall y | y in Map(f, s) :: exists x | x in s :: y == f(x)
  {
    var m := Map(f, s);
    forall x | x in s
      ensures f(x) in m
    {
      var i :| 0 <= i < |s| && s[i] == x;
      assert m[i] == f(x);
    }
    forall y | y in m
      ensures exists x | x in s :: y == f(x)
    {
      var i :| 0 <= i < |m| && m[i] == y;
      assert s[i] in s && y == f(s[i]);
    }
  }

  lemma MapFixed<T>(f: T -> T, s: seq<T>)
    requires forall x | x in s :: f(x) == x
    ensures Map(f, s) == s
  {
  }

  /** Sorting decides equality up to order. */
  lemma SortedAlike<T(!new)>(leq: (T, T) -> bool, s: seq<T>, t: seq<T>)
    requires Ordering(leq) && Separates(leq, s)
    ensures Sort(leq, s) == Sort(leq, t) <==> multiset(s) == multiset(t)
  {
    hide Sort;
    if multiset(s) == multiset(t) {
      SortPermuted(leq, s, t);
    }
  }

  function Drop<T>(s: seq<T>, j: nat): seq<T>
    requires j < |s|
  {
    s[..j] + s[j + 1..]
  }

  /** Each element of `s` has its own counterpart in `t`, in some order. */
  ghost predicate Reordered<T(!new)>(same: (T, T) -> bool, s: seq<T>, t: seq<T>) {
    && |s| == |t|
    && (s == [] || exists j: nat | j < |t| :: same(s[0], t[j]) && Reordered(same, s[1..], Drop(t, j)))
  }

  lemma MapConcat<T, K>(f: T -> K, s: seq<T>, t: seq<T>)
    ensures Map(f, s + t) == Map(f, s) + Map(f, t)
  {
    hide Map;
  }

  lemma MultisetMiddle<K>(a: seq<K>, x: K, b: seq<K>)
    ensures multiset(a + ([x] + b)) == multiset{x} + multiset(a + b)
  {
    assert multiset([x] + b) == multiset{x} + multiset(b);
  }

  lemma MapMiddle<T, K>(f: T -> K, a: seq<T>, x: T, b: seq<T>)
    ensures Map(f, a + ([x] + b)) == Map(f, a) + ([f(x)] + Map(f, b))
  {
    MapConcat(f, a, [x] + b);
    MapConcat(f, [x], b);
    assert Map(f, [x]) == [f(x)];
  }

  lemma SplitAt<T>(t: seq<T>, j: nat)
    requires j < |t|
    ensures t == t[..j] + ([t[j]] + t[j + 1..])
  {
  }

  lemma MapDrop<T, K>(f: T -> K, t: seq<T>, j: nat)
    requires j < |t|
    ensures multiset(Map(f, t)) == multiset{f(t[j])} + multiset(Map(f, Drop(t, j)))
  {
    hide Map;
    var a, x, b := t[..j], t[j], t[j + 1..];
    SplitAt(t, j);
    MapMiddle(f, a, x, b);
    MapConcat(f, a, b);
    MultisetMiddle(Map(f, a), f(x), Map(f, b));
  }

  lemma DropMembers<T>(t: seq<T>, j: nat)
    requires j < |t|
    ensures forall y | y in Drop(t, j) :: y in t
  {
  }

  ghost predicate ImagesDecide<T(!new), K(!new)>(same: (T, T) -> bool, f: T -> K, s: seq<T>, t: seq<T>) {
    Reordered(same, s, t) <==> multiset(Map(f, s)) == multiset(Map(f, t))
  }

  /** Counterparts that are the elements of the same image: reordering is equality of the images up to order. */
  lemma {:induction false} ReorderedImages<T(!new), K(!new)>(same: (T, T) -> bool, f: T -> K, s: seq<T>, t: seq<T>)
    requires forall x, y | x in s && y in t :: same(x, y) <==> f(x) == f(y)
    ensures ImagesDecide(same, f, s, t)
  {
    if s == [] {
      NoImages(f, s, t);
    } else {
      assert s[0] in s && forall x | x in s[1..] :: x in s;
      forall j: nat | j < |t|
        ensures same(s[0], t[j]) <==> f(s[0]) == f(t[j])
        ensures ImagesDecide(same, f, s[1..], Drop(t, j))
      {
        DropMembers(t, j);
        ReorderedImages(same, f, s[1..], Drop(t, j));
      }
      hide ImagesDecide, Map, Drop;
      if Reordered(same, s, t) {
        ReorderedForth(same, f, s, t);
      }
      if multiset(Map(f, s)) == multiset(Map(f, t)) {
        ReorderedBack(same, f, s, t);
      }
      ImagesDecided(same, f, s, t);
    }
  }

  lemma NoImages<T, K>(f: T -> K, s: seq<T>, t: seq<T>)
    requires s == []
    ensures multiset(Map(f, s)) == multiset(Map(f, t)) <==> t == []
  {
    assert Map(f, s) == [];
    if t != [] {
      ImagesStep(f, t);
    }
  }

  lemma ImagesDecided<T(!new), K(!new)>(same: (T, T) -> bool, f: T -> K, s: seq<T>, t: seq<T>)
    requires Reordered(same, s, t) <==> multiset(Map(f, s)) == multiset(Map(f, t))
    ensures ImagesDecide(same, f, s, t)
  {
  }

  lemma ReorderedForth<T(!new), K(!new)>(same: (T, T) -> bool, f: T -> K, s: seq<T>, t: seq<T>)
    requires s != [] && Reordered(same, s, t)
    requires forall j: nat | j < |t| :: same(s[0], t[j]) ==> f(s[0]) == f(t[j])
    requires forall j: nat | j < |t| :: ImagesDecide(same, f, s[1..], Drop(t, j))
    ensures multiset(Map(f, s)) == multiset(Map(f, t))
  {
    var j: nat :| j < |t| && same(s[0], t[j]) && Reordered(same, s[1..], Drop(t, j));
    assert ImagesDecide(same, f, s[1..], Drop(t, j));
    ImagesStep(f, s);
    MapDrop(f, t, j);
  }

  lemma ReorderedBack<T(!new), K(!new)>(same: (T, T) -> bool, f: T -> K, s: seq<T>, t: seq<T>)
    requires s != [] && multiset(Map(f, s)) == multiset(Map(f, t))
    requires forall j: nat | j < |t| :: f(s[0]) == f(t[j]) ==> same(s[0], t[j])
    requires forall j: nat | j < |t| :: ImagesDecide(same, f, s[1..], Drop(t, j))
    ensures Reordered(same, s, t)
  {
    ImageMember(f, s);
    SameMembers(Map(f, s), Map(f, t));
    var j: nat :| j < |t| && Map(f, t)[j] == f(s[0]);
    ImagesStep(f, s);
    MapDrop(f, t, j);
    Cancel(f(s[0]), multiset(Map(f, s[1..])), multiset(Map(f, Drop(t, j))));
    hide Map, Drop, ImagesDecide;
    DecidedBack(same, f, s[1..], Drop(t, j));
  }

  lemma DecidedBack<T(!new), K(!new)>(same: (T, T) -> bool, f: T -> K, s: seq<T>, t: seq<T>)
    requires ImagesDecide(same, f, s, t) && multiset(Map(f, s)) == multiset(Map(f, t))
    ensures Reordered(same, s, t)
  {
  }

  lemma Cancel<K>(x: K, a: multiset<K>, b: multiset<K>)
    requires multiset{x} + a == multiset{x} + b
    ensures a == b
  {
    assert a == (multiset{x} + a) - multiset{x};
    assert b == (multiset{x} + b) - multiset{x};
  }

  lemma ImageMember<T, K>(f: T -> K, s: seq<T>)
    requires s != []
    ensures f(s[0]) in Map(f, s)
  {
    assert Map(f, s)[0] == f(s[0]);
  }

  lemma ImagesStep<T, K>(f: T -> K, s: seq<T>)
    requires s != []
    ensures multiset(Map(f, s)) == multiset{f(s[0])} + multiset(Map(f, s[1..]))
  {
    MultisetStep(Map(f, s));
    MapTail(f, s);
  }

  /** Lists whose elements correspond to the elements of two rearranged lists are counterparts as those are equal. */
  lemma {:induction false} ReorderedThrough<A(!new), B>(same: (A, A) -> bool, s: seq<A>, s': seq<B>, t: seq<A>,
                                                        t': seq<B>)
    requires |s| == |s'| && |t| == |t'| && multiset(s') == multiset(t')
    requires forall i, j | 0 <= i < |s| && 0 <= j < |t| && s'[i] == t'[j] :: same(s[i], t[j])
    ensures Reordered(same, s, t)
  {
    SameMembers(s', t');
    if s != [] {
      assert s'[0] in t';
      var j: nat :| j < |t'| && t'[j] == s'[0];
      DropMultiset(s', t', j);
      ReorderedThrough(same, s[1..], s'[1..], Drop(t, j), Drop(t', j));
      assert same(s[0], t[j]) && Reordered(same, s[1..], Drop(t, j));
    }
  }

  lemma DropMultiset<B>(s: seq<B>, t: seq<B>, j: nat)
    requires s != [] && j < |t| && t[j] == s[0] && multiset(s) == multiset(t)
    ensures multiset(s[1..]) == multiset(Drop(t, j))
  {
    MultisetStep(s);
    SplitAt(t, j);
    MultisetMiddle(t[..j], t[j], t[j + 1..]);
    Cancel(s[0], multiset(s[1..]), multiset(Drop(t, j)));
  }

  lemma {:induction false} ReorderedImplies<T(!new)>(same: (T, T) -> bool, weaker: (T, T) -> bool, s: seq<T>, t: seq<T>)
    requires Reordered(same, s, t) && forall x, y | same(x, y) :: weaker(x, y)
    ensures Reordered(weaker, s, t)
  {
    if s != [] {
      var j: nat :| j < |t| && same(s[0], t[j]) && Reordered(same, s[1..], Drop(t, j));
      ReorderedImplies(same, weaker, s[1..], Drop(t, j));
      assert weaker(s[0], t[j]);
    }
  }

  lemma TotalSeparates<T(!new)>(leq: (T, T) -> bool, s: seq<T>)
    requires TotalOrder(leq)
    ensures Ordering(leq) && Separates(leq, s)
  {
  }

  lemma SortTwice<T(!new)>(leq: (T, T) -> bool, s: seq<T>)
    requires TotalOrder(leq)
    ensures Sort(leq, Sort(leq, s)) == Sort(leq, s)
  {
    TotalSeparates(leq, s);
    SortPermuted(leq, s, Sort(leq, s));
  }
}
