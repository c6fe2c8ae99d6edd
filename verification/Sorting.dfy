/** What Go's `sort` package promises, and facts about counting that sorting arguments need. */
module Sorting {
  import opened Text

  ghost predicate Preorder<T(!new)>(leq: (T, T) -> bool) {
    && (forall x, y :: leq(x, y) || leq(y, x))
    && (forall x, y, z :: leq(x, y) && leq(y, z) ==> leq(x, z))
  }

  predicate Sorted<T>(s: seq<T>, leq: (T, T) -> bool) {
    forall i, j :: 0 <= i < j < |s| ==> leq(s[i], s[j])
  }

  /** The contract of sort.Slice: some ordered rearrangement, with no promise about ties. */
  predicate SortOf<T(==)>(out: seq<T>, s: seq<T>, leq: (T, T) -> bool) {
    multiset(out) == multiset(s) && Sorted(out, leq)
  }

  function Filter<T(!new)>(s: seq<T>, keep: T -> bool): (r: seq<T>)
    ensures forall x :: x in r <==> x in s && keep(x)
  {
    if s == [] then []
    else if keep(s[|s| - 1]) then Filter(s[..|s| - 1], keep) + [s[|s| - 1]]
    else Filter(s[..|s| - 1], keep)
  }

  function Map<T, U>(f: T -> U, s: seq<T>): (r: seq<U>)
    ensures |r| == |s| && forall i :: 0 <= i < |s| ==> r[i] == f(s[i])
  {
    seq(|s|, i requires 0 <= i < |s| => f(s[i]))
  }

  ghost function TiesWith<T>(x: T, leq: (T, T) -> bool): T -> bool {
    y => leq(x, y) && leq(y, x)
  }

  /** Elements that `leq` cannot tell from x, in their order. */
  ghost function Ties<T(!new)>(s: seq<T>, x: T, leq: (T, T) -> bool): seq<T> {
    Filter(s, TiesWith(x, leq))
  }

  /** The contract of sort.SliceStable: ordered, and ties keep their order.  Equality of all tie
      classes already makes `out` a rearrangement of `s`. */
  ghost predicate StableSortOf<T(!new)>(out: seq<T>, s: seq<T>, leq: (T, T) -> bool) {
    Sorted(out, leq) && forall x :: Ties(out, x, leq) == Ties(s, x, leq)
  }

  /** Stable insertion: x goes in front of the first element it does not exceed. */
  function Insert<T>(x: T, s: seq<T>, leq: (T, T) -> bool): seq<T> {
    if s == [] then [x]
    else if leq(x, s[0]) then [x] + s
    else [s[0]] + Insert(x, s[1..], leq)
  }

  function StableSort<T>(s: seq<T>, leq: (T, T) -> bool): seq<T> {
    if s == [] then [] else Insert(s[0], StableSort(s[1..], leq), leq)
  }

  lemma {:induction false} FilterConcat<T(!new)>(a: seq<T>, b: seq<T>, keep: T -> bool)
    ensures Filter(a + b, keep) == Filter(a, keep) + Filter(b, keep)
  {
    if b == [] {
      assert a + b == a;
    } else {
      var c := b[..|b| - 1];
      FilterConcat(a, c, keep);
      assert (a + b)[..|a + b| - 1] == a + c;
    }
  }

  lemma FilterOne<T(!new)>(x: T, keep: T -> bool)
    ensures Filter([x], keep) == if keep(x) then [x] else []
  {
    assert [x][..0] == [];
  }

  lemma {:induction false} InsertPermutes<T>(x: T, s: seq<T>, leq: (T, T) -> bool)
    ensures multiset(Insert(x, s, leq)) == multiset{x} + multiset(s)
  {
    if s != [] {
      InsertPermutes(x, s[1..], leq);
      assert s == [s[0]] + s[1..];
    }
  }

  lemma {:induction false} InsertSorts<T(!new)>(x: T, s: seq<T>, leq: (T, T) -> bool)
    requires Preorder(leq) && Sorted(s, leq)
    ensures Sorted(Insert(x, s, leq), leq)
  {
    if s != [] && !leq(x, s[0]) {
      var rest := Insert(x, s[1..], leq);
      InsertSorts(x, s[1..], leq);
      InsertPermutes(x, s[1..], leq);
      forall j | 0 <= j < |rest| ensures leq(s[0], rest[j]) {
        assert rest[j] in multiset(rest);
      }
    }
  }

  /** Members of one tie class are not ordered against each other. */
  ghost predicate TieClass<T(!new)>(y: T, leq: (T, T) -> bool) {
    forall a, b :: TiesWith(y, leq)(a) && TiesWith(y, leq)(b) ==> leq(a, b)
  }

  lemma {:induction false} InsertIsStable<T(!new)>(x: T, s: seq<T>, y: T, leq: (T, T) -> bool)
    requires TieClass(y, leq)
    ensures Ties(Insert(x, s, leq), y, leq) == Ties([x] + s, y, leq)
  {
    var keep := TiesWith(y, leq);
    if s == [] {
      assert [x] + s == [x];
    } else if !leq(x, s[0]) {
      hide Filter;
      var h, t := [s[0]], s[1..];
      InsertIsStable(x, t, y, leq);
      assert s == h + t;
      assert !keep(x) || !keep(s[0]);
      SwapFiltered(x, s[0], t, keep);
      FilterConcat(h, Insert(x, t, leq), keep);
      FilterConcat(h, [x] + t, keep);
      assert [x] + s == [x] + (h + t);
    }
  }

  lemma SwapFiltered<T(!new)>(x: T, y: T, t: seq<T>, keep: T -> bool)
    requires !keep(x) || !keep(y)
    ensures Filter([y] + ([x] + t), keep) == Filter([x] + ([y] + t), keep)
  {
    hide Filter;
    FilterConcat([y], [x] + t, keep);
    FilterConcat([x], t, keep);
    FilterConcat([x], [y] + t, keep);
    FilterConcat([y], t, keep);
    FilterOne(x, keep);
    FilterOne(y, keep);
  }

  lemma {:induction false} StableSortSorts<T(!new)>(s: seq<T>, leq: (T, T) -> bool)
    requires Preorder(leq)
    ensures SortOf(StableSort(s, leq), s, leq)
  {
    if s != [] {
      StableSortSorts(s[1..], leq);
      InsertSorts(s[0], StableSort(s[1..], leq), leq);
      InsertPermutes(s[0], StableSort(s[1..], leq), leq);
      assert s == [s[0]] + s[1..];
    }
  }

  lemma {:induction false} StableSortKeepsTies<T(!new)>(s: seq<T>, y: T, leq: (T, T) -> bool)
    requires Preorder(leq)
    ensures Ties(StableSort(s, leq), y, leq) == Ties(s, y, leq)
  {
    if s != [] {
      var h, t := [s[0]], s[1..];
      StableSortKeepsTies(t, y, leq);
      InsertIsStable(s[0], StableSort(t, leq), y, leq);
      FilterConcat(h, StableSort(t, leq), TiesWith(y, leq));
      FilterConcat(h, t, TiesWith(y, leq));
      assert s == h + t;
    }
  }

  lemma StableSortMeetsContract<T(!new)>(s: seq<T>, leq: (T, T) -> bool)
    requires Preorder(leq)
    ensures StableSortOf(StableSort(s, leq), s, leq)
  {
    StableSortSorts(s, leq);
    forall y ensures Ties(StableSort(s, leq), y, leq) == Ties(s, y, leq) {
      StableSortKeepsTies(s, y, leq);
    }
  }

  lemma RearrangedLength<T>(a: seq<T>, b: seq<T>)
    requires multiset(a) == multiset(b)
    ensures |a| == |b|
  {
    assert |multiset(a)| == |a| && |multiset(b)| == |b|;
  }

  lemma RearrangedMember<T>(a: seq<T>, b: seq<T>, x: T)
    requires multiset(a) == multiset(b)
    ensures x in a <==> x in b
  {
    assert x in multiset(a) <==> x in a;
    assert x in multiset(b) <==> x in b;
  }

  /** Taking out the same element on both sides keeps the rearrangement. */
  lemma RearrangedRest<T>(a: seq<T>, b: seq<T>, i: nat)
    requires multiset(a) == multiset(b) && a != [] && i < |b| && b[i] == a[0]
    ensures multiset(a[1..]) == multiset(b[..i] + b[i + 1..])
  {
    assert a == [a[0]] + a[1..];
    assert b == b[..i] + [b[i]] + b[i + 1..];
    assert multiset(a) == multiset{a[0]} + multiset(a[1..]);
    assert multiset(b) == multiset(b[..i]) + multiset{b[i]} + multiset(b[i + 1..]);
    assert multiset(b[..i] + b[i + 1..]) == multiset(b[..i]) + multiset(b[i + 1..]);
    forall x ensures multiset(a[1..])[x] == multiset(b[..i] + b[i + 1..])[x] {
      assert multiset(a)[x] == multiset(b)[x];
    }
  }

  /** `leq` tells apart any two different elements of s. */
  ghost predicate Separates<T(!new)>(s: seq<T>, leq: (T, T) -> bool) {
    forall x, y :: x in s && y in s && leq(x, y) && leq(y, x) ==> x == y
  }

  lemma SameHead<T(!new)>(a: seq<T>, b: seq<T>, leq: (T, T) -> bool)
    requires Sorted(a, leq) && Sorted(b, leq) && a != [] && a[0] in b && b != [] && b[0] in a
    requires Separates(a, leq)
    ensures a[0] == b[0]
  {
    var i :| 0 <= i < |b| && b[i] == a[0];
    var j :| 0 <= j < |a| && a[j] == b[0];
    if i != 0 && j != 0 {
      assert leq(b[0], b[i]) && leq(a[0], a[j]);
    }
  }

  lemma SortedTail<T(!new)>(a: seq<T>, leq: (T, T) -> bool)
    requires Sorted(a, leq) && a != []
    ensures Sorted(a[1..], leq)
    ensures Separates(a, leq) ==> Separates(a[1..], leq)
  {
  }

  /** Two ordered rearrangements agree when ties are equal: the outcome of an unstable sort is
      determined as soon as the keys separate the elements. */
  lemma {:induction false} SortUnique<T(!new)>(a: seq<T>, b: seq<T>, leq: (T, T) -> bool)
    requires Sorted(a, leq) && Sorted(b, leq) && multiset(a) == multiset(b)
    requires Separates(a, leq)
    ensures a == b
  {
    hide Sorted, Separates;
    RearrangedLength(a, b);
    if a != [] {
      RearrangedMember(a, b, a[0]);
      RearrangedMember(a, b, b[0]);
      SameHead(a, b, leq);
      RearrangedRest(a, b, 0);
      assert b[..0] + b[1..] == b[1..];
      SortedTail(a, leq);
      SortedTail(b, leq);
      SortUnique(a[1..], b[1..], leq);
      assert a == [a[0]] + a[1..] && b == [b[0]] + b[1..];
    }
  }

  lemma {:induction false} MapKeepsRearrangement<T, U>(f: T -> U, a: seq<T>, b: seq<T>)
    requires multiset(a) == multiset(b)
    ensures multiset(Map(f, a)) == multiset(Map(f, b))
    decreases |a|
  {
    RearrangedLength(a, b);
    if a != [] {
      RearrangedMember(a, b, a[0]);
      var i :| 0 <= i < |b| && b[i] == a[0];
      RearrangedRest(a, b, i);
      var l, r := Map(f, b[..i]), Map(f, b[i + 1..]);
      MapKeepsRearrangement(f, a[1..], b[..i] + b[i + 1..]);
      assert Map(f, a) == [f(a[0])] + Map(f, a[1..]);
      assert Map(f, b) == l + [f(b[i])] + r;
      assert Map(f, b[..i] + b[i + 1..]) == l + r;
    }
  }

  // ----- filtering rearrangements -----

  lemma {:induction false} FilterCounts<T(!new)>(s: seq<T>, keep: T -> bool, x: T)
    ensures multiset(Filter(s, keep))[x] == if keep(x) then multiset(s)[x] else 0
  {
    if s != [] {
      var n := |s| - 1;
      FilterCounts(s[..n], keep, x);
      assert s == s[..n] + [s[n]];
      assert multiset(s)[x] == multiset(s[..n])[x] + multiset([s[n]])[x];
      if keep(s[n]) {
        assert multiset(Filter(s, keep))[x] == multiset(Filter(s[..n], keep))[x] + multiset([s[n]])[x];
      }
    }
  }

  lemma FilterRearranged<T(!new)>(a: seq<T>, b: seq<T>, keep: T -> bool)
    requires multiset(a) == multiset(b)
    ensures multiset(Filter(a, keep)) == multiset(Filter(b, keep))
  {
    forall x ensures multiset(Filter(a, keep))[x] == multiset(Filter(b, keep))[x] {
      FilterCounts(a, keep, x);
      FilterCounts(b, keep, x);
    }
  }

  lemma {:induction false} FilterSorted<T(!new)>(s: seq<T>, keep: T -> bool, leq: (T, T) -> bool)
    requires Sorted(s, leq)
    ensures Sorted(Filter(s, keep), leq)
  {
    if s != [] {
      var n := |s| - 1;
      FilterSorted(s[..n], keep, leq);
      var before := Filter(s[..n], keep);
      forall i | 0 <= i < |before| ensures leq(before[i], s[n]) {
        assert before[i] in before;
      }
    }
  }

  lemma {:induction false} FilterAll<T(!new)>(s: seq<T>, keep: T -> bool)
    requires forall x :: x in s ==> keep(x)
    ensures Filter(s, keep) == s
  {
    if s != [] {
      FilterAll(s[..|s| - 1], keep);
      assert s == s[..|s| - 1] + [s[|s| - 1]];
    }
  }

  lemma {:induction false} FilterNone<T(!new)>(s: seq<T>, keep: T -> bool)
    requires forall x :: x in s ==> !keep(x)
    ensures Filter(s, keep) == []
  {
    if s != [] {
      FilterNone(s[..|s| - 1], keep);
    }
  }

  predicate Distinct<T(==)>(s: seq<T>) {
    forall i, j :: 0 <= i < j < |s| ==> s[i] != s[j]
  }

  lemma {:induction false} DistinctCounts<T>(s: seq<T>)
    ensures Distinct(s) <==> forall x :: multiset(s)[x] <= 1
  {
    if s != [] {
      var t := s[..|s| - 1];
      var last := s[|s| - 1];
      DistinctCounts(t);
      assert s == t + [last];
      if Distinct(s) {
        assert Distinct(t) && last !in t;
        assert multiset(t)[last] == 0;
      } else if Distinct(t) {
        var i :| 0 <= i < |t| && t[i] == last;
        assert last in multiset(t);
        assert multiset(s)[last] >= 2;
      } else {
        var x :| multiset(t)[x] > 1;
        assert multiset(s)[x] > 1;
      }
    }
  }

  /** Rearranging does not create or remove repetitions. */
  lemma RearrangedDistinct<T>(a: seq<T>, b: seq<T>)
    requires multiset(a) == multiset(b)
    ensures Distinct(a) <==> Distinct(b)
  {
    DistinctCounts(a);
    DistinctCounts(b);
  }

  lemma {:induction false} DistinctSize<T>(s: seq<T>)
    requires Distinct(s)
    ensures |set x | x in s| == |s|
  {
    if s != [] {
      var t := s[..|s| - 1];
      DistinctSize(t);
      assert (set x | x in s) == (set x | x in t) + {s[|s| - 1]};
    }
  }

  /** Repetition-free lists over the same elements rearrange each other. */
  lemma SameElements<T>(a: seq<T>, b: seq<T>)
    requires Distinct(a) && Distinct(b)
    requires forall x :: x in a <==> x in b
    ensures multiset(a) == multiset(b)
  {
    DistinctCounts(a);
    DistinctCounts(b);
    forall x ensures multiset(a)[x] == multiset(b)[x] {
      assert x in multiset(a) <==> x in a;
      assert x in multiset(b) <==> x in b;
    }
  }

  /** Pigeonhole: a repetition-free list drawn from one of the same length uses all of it. */
  lemma DrawnAll<T>(a: seq<T>, b: seq<T>)
    requires Distinct(a) && |a| == |b|
    requires forall x :: x in a ==> x in b
    ensures Distinct(b) && multiset(a) == multiset(b)
  {
    DistinctSize(a);
    var sa, sb := set x | x in a, set x | x in b;
    SetSize(b);
    assert sa <= sb;
    SubsetOfSameSize(sa, sb);
    FullSetDistinct(b);
    forall x ensures x in a <==> x in b {
      assert x in sa <==> x in a;
      assert x in sb <==> x in b;
    }
    SameElements(a, b);
  }

  lemma {:induction false} SetSize<T>(s: seq<T>)
    ensures |set x | x in s| <= |s|
  {
    if s != [] {
      var t := s[..|s| - 1];
      SetSize(t);
      assert (set x | x in s) == (set x | x in t) + {s[|s| - 1]};
    }
  }

  lemma SubsetOfSameSize<T>(a: set<T>, b: set<T>)
    requires a <= b && |a| >= |b|
    ensures a == b
  {
    if a != b {
      var x :| x in b && x !in a;
      assert a <= b - {x};
      SubsetSize(a, b - {x});
    }
  }

  lemma {:induction false} SubsetSize<T>(a: set<T>, b: set<T>)
    requires a <= b
    ensures |a| <= |b|
  {
    if a != {} {
      var x :| x in a;
      SubsetSize(a - {x}, b - {x});
    }
  }

  lemma {:induction false} FullSetDistinct<T>(s: seq<T>)
    requires |set x | x in s| >= |s|
    ensures Distinct(s)
  {
    if s != [] {
      var t := s[..|s| - 1];
      assert (set x | x in s) == (set x | x in t) + {s[|s| - 1]};
      SetSize(t);
      FullSetDistinct(t);
      assert s[|s| - 1] in t ==> (set x | x in s) == (set x | x in t);
    }
  }

  lemma AtMostPreorder()
    ensures Preorder(AtMost)
    ensures forall a, b :: AtMost(a, b) && AtMost(b, a) ==> a == b
  {
    forall a: string, b: string
      ensures AtMost(a, b) || AtMost(b, a)
      ensures AtMost(a, b) && AtMost(b, a) ==> a == b
    {
      LessTotal(a, b);
      if Less(a, b) && Less(b, a) {
        LessTransitive(a, b, a);
        LessIrreflexive(a);
      }
    }
    forall a: string, b: string, c: string | AtMost(a, b) && AtMost(b, c)
      ensures AtMost(a, c)
    {
      LessTotal(a, b);
      LessTotal(b, c);
      if Less(c, a) {
        if a == b || b == c {
        } else {
          LessTransitive(c, a, b);
          assert false;
        }
      }
    }
  }
}
