/** Filtering, mapping, counting and stable sorting of sequences, as the library calls of the program do. */
module Seqs {
  function Filter<T(!new)>(s: seq<T>, p: T -> bool): (r: seq<T>)
    ensures |r| <= |s|
    ensures forall x :: x in r <==> x in s && p(x)
  {
    if s == [] then [] else (if p(s[0]) then [s[0]] else []) + Filter(s[1..], p)
  }

  function Map<T(!new), U>(s: seq<T>, f: T -> U): (r: seq<U>)
    ensures |r| == |s| && forall i | 0 <= i < |s| :: r[i] == f(s[i])
  {
    if s == [] then [] else [f(s[0])] + Map(s[1..], f)
  }

  function Count<T(==, !new)>(s: seq<T>, x: T): (n: nat)
    ensures n > 0 <==> x in s
  {
    if s == [] then 0 else (if s[0] == x then 1 else 0) + Count(s[1..], x)
  }

  lemma {:induction false} FilterConcat<T(!new)>(a: seq<T>, b: seq<T>, p: T -> bool)
    ensures Filter(a + b, p) == Filter(a, p) + Filter(b, p)
  {
    if a == [] {
      assert a + b == b;
    } else {
      assert (a + b)[1..] == a[1..] + b;
      FilterConcat(a[1..], b, p);
    }
  }

  lemma FilterSnoc<T(!new)>(a: seq<T>, x: T, p: T -> bool)
    ensures Filter(a + [x], p) == Filter(a, p) + (if p(x) then [x] else [])
  {
    FilterConcat(a, [x], p);
  }

  lemma {:induction false} FilterAll<T(!new)>(s: seq<T>, p: T -> bool)
    requires forall x | x in s :: p(x)
    ensures Filter(s, p) == s
  {
    if s != [] {
      assert s[0] in s;
      FilterAll(s[1..], p);
    }
  }

  lemma {:induction false} FilterNone<T(!new)>(s: seq<T>, p: T -> bool)
    requires forall x | x in s :: !p(x)
    ensures Filter(s, p) == []
  {
    if s != [] {
      assert s[0] in s;
      FilterNone(s[1..], p);
    }
  }

  /** The first element kept is the first that passes. */
  lemma {:induction false} FilterFirst<T(!new)>(s: seq<T>, p: T -> bool) returns (i: nat)
    requires Filter(s, p) != []
    ensures i < |s| && s[i] == Filter(s, p)[0] && p(s[i]) && forall j | 0 <= j < i :: !p(s[j])
  {
    if p(s[0]) {
      i := 0;
    } else {
      i := FilterFirst(s[1..], p);
      i := i + 1;
      assert forall j | 0 < j < i :: s[j] == s[1..][j - 1];
    }
  }

  lemma {:induction false} FilterTwice<T(!new)>(s: seq<T>, p: T -> bool, q: T -> bool, both: T -> bool)
    requires forall x | x in s :: both(x) == (p(x) && q(x))
    ensures Filter(Filter(s, p), q) == Filter(s, both)
  {
    if s != [] {
      FilterTwice(s[1..], p, q, both);
      FilterConcat(if p(s[0]) then [s[0]] else [], Filter(s[1..], p), q);
      assert s[0] in s;
    }
  }

  lemma {:induction false} MapConcat<T(!new), U>(a: seq<T>, b: seq<T>, f: T -> U)
    ensures Map(a + b, f) == Map(a, f) + Map(b, f)
  {
    if a == [] {
      assert a + b == b;
    } else {
      assert (a + b)[1..] == a[1..] + b;
      MapConcat(a[1..], b, f);
    }
  }

  lemma MapSnoc<T(!new), U>(s: seq<T>, x: T, f: T -> U)
    ensures Map(s + [x], f) == Map(s, f) + [f(x)]
  {
    MapConcat(s, [x], f);
  }

  lemma {:induction false} CountConcat<T(!new)>(a: seq<T>, b: seq<T>, x: T)
    ensures Count(a + b, x) == Count(a, x) + Count(b, x)
  {
    if a == [] {
      assert a + b == b;
    } else {
      assert (a + b)[1..] == a[1..] + b;
      CountConcat(a[1..], b, x);
    }
  }

  lemma {:induction false} CountFilter<T(!new)>(s: seq<T>, p: T -> bool, x: T)
    ensures Count(Filter(s, p), x) == if p(x) then Count(s, x) else 0
  {
    if s != [] {
      CountFilter(s[1..], p, x);
      CountConcat(if p(s[0]) then [s[0]] else [], Filter(s[1..], p), x);
    }
  }

  lemma SubsetSize<T>(small: set<T>, big: set<T>)
    requires small <= big
    ensures |small| <= |big|
  {
    assert big == small + (big - small);
  }

  // ---------------------------------------------------------------- stable sorting

  ghost predicate TotalPreorder<T(!new)>(leq: (T, T) -> bool) {
    && (forall x, y :: leq(x, y) || leq(y, x))
    && (forall x, y, z :: leq(x, y) && leq(y, z) ==> leq(x, z))
  }

  ghost predicate Sorted<T(!new)>(s: seq<T>, leq: (T, T) -> bool) {
    forall i, j | 0 <= i < j < |s| :: leq(s[i], s[j])
  }

  /** `x` goes in front of the first element it need not follow. */
  function Insert<T(!new)>(x: T, s: seq<T>, leq: (T, T) -> bool): (r: seq<T>)
    ensures |r| == |s| + 1
  {
    if s == [] || leq(x, s[0]) then [x] + s else [s[0]] + Insert(x, s[1..], leq)
  }

  /** What the library's stable `sort_by` and `sort_by_key` return. */
  function StableSort<T(!new)>(s: seq<T>, leq: (T, T) -> bool): (r: seq<T>)
    ensures |r| == |s|
  {
    if s == [] then [] else Insert(s[0], StableSort(s[1..], leq), leq)
  }

  lemma {:induction false} InsertPermutes<T(!new)>(x: T, s: seq<T>, leq: (T, T) -> bool)
    ensures multiset(Insert(x, s, leq)) == multiset{x} + multiset(s)
  {
    if s != [] && !leq(x, s[0]) {
      InsertPermutes(x, s[1..], leq);
      assert s == [s[0]] + s[1..];
    }
  }

  lemma {:induction false} SortPermutes<T(!new)>(s: seq<T>, leq: (T, T) -> bool)
    ensures multiset(StableSort(s, leq)) == multiset(s)
  {
    if s != [] {
      SortPermutes(s[1..], leq);
      InsertPermutes(s[0], StableSort(s[1..], leq), leq);
      assert s == [s[0]] + s[1..];
    }
  }

  lemma {:induction false} InsertSorts<T(!new)>(x: T, s: seq<T>, leq: (T, T) -> bool)
    requires TotalPreorder(leq) && Sorted(s, leq)
    ensures Sorted(Insert(x, s, leq), leq)
  {
    if s != [] && !leq(x, s[0]) {
      InsertSorts(x, s[1..], leq);
      var t := Insert(x, s[1..], leq);
      InsertPermutes(x, s[1..], leq);
      forall j | 0 <= j < |t| ensures leq(s[0], t[j]) {
        assert t[j] in multiset(t);
        assert t[j] == x || t[j] in s[1..];
      }
    }
  }

  lemma {:induction false} SortSorts<T(!new)>(s: seq<T>, leq: (T, T) -> bool)
    requires TotalPreorder(leq)
    ensures Sorted(StableSort(s, leq), leq)
  {
    if s != [] {
      SortSorts(s[1..], leq);
      InsertSorts(s[0], StableSort(s[1..], leq), leq);
    }
  }

  /** The first of the least elements. */
  function FirstLeast<T(!new)>(s: seq<T>, leq: (T, T) -> bool): (x: T)
    requires s != []
    ensures x in s
  {
    if |s| == 1 then s[0]
    else
      var rest := FirstLeast(s[1..], leq);
      if leq(s[0], rest) then s[0] else rest
  }

  lemma {:induction false} FirstLeastIsLeast<T(!new)>(s: seq<T>, leq: (T, T) -> bool)
    requires TotalPreorder(leq) && s != []
    ensures forall y | y in s :: leq(FirstLeast(s, leq), y)
  {
    if |s| > 1 {
      FirstLeastIsLeast(s[1..], leq);
      assert s == [s[0]] + s[1..];
    }
  }

  /** A stable sort puts the first of the least elements in front. */
  lemma {:induction false} SortedHead<T(!new)>(s: seq<T>, leq: (T, T) -> bool)
    requires s != []
    ensures StableSort(s, leq)[0] == FirstLeast(s, leq)
  {
    if |s| > 1 {
      SortedHead(s[1..], leq);
    } else {
      assert StableSort(s[1..], leq) == [];
    }
  }

  /** The elements with property `p` all compare equal. */
  ghost predicate TiedOn<T(!new)>(leq: (T, T) -> bool, p: T -> bool) {
    forall a, b | p(a) && p(b) :: leq(a, b)
  }

  lemma TiedApart<T(!new)>(leq: (T, T) -> bool, p: T -> bool, x: T, y: T)
    requires TiedOn(leq, p) && !leq(x, y)
    ensures !(p(x) && p(y))
  {
  }

  lemma FilterFront<T(!new)>(x: T, s: seq<T>, p: T -> bool)
    ensures Filter([x] + s, p) == (if p(x) then [x] else []) + Filter(s, p)
  {
    assert ([x] + s)[1..] == s;
  }

  /** Elements that compare equal keep their order. */
  lemma {:induction false} InsertIsStable<T(!new)>(x: T, s: seq<T>, leq: (T, T) -> bool, p: T -> bool)
    requires TiedOn(leq, p)
    ensures Filter(Insert(x, s, leq), p) == (if p(x) then [x] else []) + Filter(s, p)
  {
    hide TiedOn, Filter;
    if s == [] || leq(x, s[0]) {
      FilterFront(x, s, p);
    } else {
      TiedApart(leq, p, x, s[0]);
      InsertIsStable(x, s[1..], leq, p);
      FilterFront(s[0], Insert(x, s[1..], leq), p);
      FilterFront(s[0], s[1..], p);
      assert s == [s[0]] + s[1..];
    }
  }

  lemma {:induction false} SortIsStable<T(!new)>(s: seq<T>, leq: (T, T) -> bool, p: T -> bool)
    requires TiedOn(leq, p)
    ensures Filter(StableSort(s, leq), p) == Filter(s, p)
  {
    hide TiedOn, Filter;
    if s != [] {
      SortIsStable(s[1..], leq, p);
      InsertIsStable(s[0], StableSort(s[1..], leq), leq, p);
      FilterFront(s[0], s[1..], p);
      assert s == [s[0]] + s[1..];
    } else {
      assert StableSort(s, leq) == s;
    }
  }
}
