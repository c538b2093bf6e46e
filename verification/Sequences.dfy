/** Sums, duplicate-free sequences and the stable sort that JavaScript promises. */
module Sequences {
  import opened Options

  function Sum<T>(s: seq<T>, f: T -> nat): nat {
    if s == [] then 0 else Sum(s[..|s| - 1], f) + f(s[|s| - 1])
  }

  lemma {:induction false} SumAppend<T>(a: seq<T>, b: seq<T>, f: T -> nat)
    ensures Sum(a + b, f) == Sum(a, f) + Sum(b, f)
  {
    if b == [] {
      assert a + b == a;
    } else {
      assert (a + b)[..|a + b| - 1] == a + b[..|b| - 1];
      SumAppend(a, b[..|b| - 1], f);
    }
  }

  /** Two sums agree when their terms do. */
  lemma {:induction false} SumSame<T, U>(s: seq<T>, f: T -> nat, t: seq<U>, g: U -> nat)
    requires |s| == |t| && forall i | 0 <= i < |s| :: f(s[i]) == g(t[i])
    ensures Sum(s, f) == Sum(t, g)
  {
    if s != [] {
      SumSame(s[..|s| - 1], f, t[..|t| - 1], g);
    }
  }

  lemma {:induction false} SumConstant<T>(s: seq<T>, f: T -> nat, n: nat)
    requires n <= 1 && forall i | 0 <= i < |s| :: f(s[i]) == n
    ensures Sum(s, f) == if n == 1 then |s| else 0
  {
    if s != [] {
      SumConstant(s[..|s| - 1], f, n);
    }
  }

  /** Everything that the members of s yield, in order. */
  function Concat<T, U>(s: seq<T>, g: T -> seq<U>): seq<U> {
    if s == [] then [] else Concat(s[..|s| - 1], g) + g(s[|s| - 1])
  }

  function Weighed<T, U>(g: T -> seq<U>, w: U -> nat): T -> nat { (x: T) => Sum(g(x), w) }

  /** What is yielded weighs what each member's share weighs. */
  lemma {:induction false} SumConcat<T, U>(s: seq<T>, g: T -> seq<U>, w: U -> nat)
    ensures Sum(Concat(s, g), w) == Sum(s, Weighed(g, w))
  {
    if s != [] {
      SumConcat(s[..|s| - 1], g, w);
      SumAppend(Concat(s[..|s| - 1], g), g(s[|s| - 1]), w);
    }
  }

  lemma Regroup<T>(a: seq<T>, b: seq<T>, c: seq<T>)
    ensures (a + b) + c == a + (b + c)
  {
  }

  lemma ConcatNext<T, U>(s: seq<T>, g: T -> seq<U>, n: nat)
    requires n < |s|
    ensures Concat(s[..n + 1], g) == Concat(s[..n], g) + g(s[n])
  {
    assert s[..n + 1][..n] == s[..n];
  }

  predicate Distinct<T(==)>(s: seq<T>) { forall i, j | 0 <= i < j < |s| :: s[i] != s[j] }

  lemma SumOne<T>(x: T, f: T -> nat)
    ensures Sum([x], f) == f(x)
  {
    assert [x][..0] == [];
  }

  /** Adding up over a duplicate-free sequence, only the members that weigh something matter, and not their order. */
  lemma {:induction false} SumOverMembers<T>(xs: seq<T>, ys: seq<T>, f: T -> nat)
    requires Distinct(xs) && Distinct(ys) && forall x :: f(x) > 0 ==> (x in xs <==> x in ys)
    ensures Sum(xs, f) == Sum(ys, f)
  {
    if xs == [] {
      SumConstant(ys, f, 0);
    } else {
      var x, init := xs[|xs| - 1], xs[..|xs| - 1];
      assert init == xs[..|xs| - 1] + xs[|xs|..];
      forall y ensures y in init <==> y in xs && y != x {
        Without(xs, |xs| - 1, y);
      }
      if f(x) == 0 {
        SumOverMembers(init, ys, f);
      } else {
        assert x in xs;
        var j :| 0 <= j < |ys| && ys[j] == x;
        SumWithout(ys, j, f);
        forall y ensures y in ys[..j] + ys[j + 1..] <==> y in ys && y != x {
          Without(ys, j, y);
        }
        SumOverMembers(init, ys[..j] + ys[j + 1..], f);
      }
    }
  }

  lemma SumWithout<T>(s: seq<T>, j: nat, f: T -> nat)
    requires j < |s|
    ensures Sum(s, f) == Sum(s[..j] + s[j + 1..], f) + f(s[j])
  {
    assert s[..j + 1] + s[j + 1..] == s && s[..j + 1][..j] == s[..j];
    SumAppend(s[..j + 1], s[j + 1..], f);
    SumAppend(s[..j], s[j + 1..], f);
  }

  lemma Without<T>(s: seq<T>, j: nat, y: T)
    requires j < |s| && Distinct(s)
    ensures y in s[..j] + s[j + 1..] <==> y in s && y != s[j]
  {
    var rest := s[..j] + s[j + 1..];
    if y in s && y != s[j] {
      var i :| 0 <= i < |s| && s[i] == y;
      assert rest[if i < j then i else i - 1] == y;
    }
    if y in rest {
      var i :| 0 <= i < |rest| && rest[i] == y;
      assert s[if i < j then i else i + 1] == y;
    }
  }

  /** A set in the order in which its members were added. */
  function Unique<T(==)>(s: seq<T>): seq<T> {
    if s == [] then []
    else if s[|s| - 1] in Unique(s[..|s| - 1]) then Unique(s[..|s| - 1])
    else Unique(s[..|s| - 1]) + [s[|s| - 1]]
  }

  lemma {:induction false} UniqueIsDistinct<T>(s: seq<T>)
    ensures Distinct(Unique(s))
  {
    if s != [] {
      UniqueIsDistinct(s[..|s| - 1]);
    }
  }

  lemma {:induction false} UniqueHas<T>(s: seq<T>, x: T)
    ensures x in Unique(s) <==> x in s
  {
    if s != [] {
      assert s == s[..|s| - 1] + [s[|s| - 1]];
      UniqueHas(s[..|s| - 1], x);
    }
  }

  lemma {:induction false} UniqueOfDistinct<T>(s: seq<T>)
    requires Distinct(s)
    ensures Unique(s) == s
  {
    if s != [] {
      UniqueOfDistinct(s[..|s| - 1]);
    }
  }

  lemma {:induction false} UniqueIsShort<T>(s: seq<T>)
    ensures |Unique(s)| <= |s|
  {
    if s != [] {
      UniqueIsShort(s[..|s| - 1]);
    }
  }

  /** A repeated value is kept once. */
  lemma {:induction false} UniqueIsShorter<T>(s: seq<T>, i: nat, j: nat)
    requires i < j < |s| && s[i] == s[j]
    ensures |Unique(s)| < |s|
  {
    var init := s[..|s| - 1];
    if j == |s| - 1 {
      assert init[i] == s[j];
      UniqueHas(init, s[j]);
      UniqueIsShort(init);
    } else {
      UniqueIsShorter(init, i, j);
    }
  }

  lemma UniqueCounts<T>(s: seq<T>)
    ensures |Unique(s)| == |s| <==> Distinct(s)
  {
    if Distinct(s) {
      UniqueOfDistinct(s);
    } else {
      var i, j :| 0 <= i < j < |s| && s[i] == s[j];
      UniqueIsShorter(s, i, j);
    }
  }

  /** Puts x behind everything that does not sort after it. */
  function Insert<T>(s: seq<T>, x: T, compare: (T, T) -> int): seq<T> {
    if s == [] || compare(s[|s| - 1], x) <= 0 then s + [x]
    else Insert(s[..|s| - 1], x, compare) + [s[|s| - 1]]
  }

  function Sort<T>(s: seq<T>, compare: (T, T) -> int): seq<T> {
    if s == [] then [] else Insert(Sort(s[..|s| - 1], compare), s[|s| - 1], compare)
  }

  lemma {:induction false} SumInsert<T>(s: seq<T>, x: T, compare: (T, T) -> int, f: T -> nat)
    ensures Sum(Insert(s, x, compare), f) == Sum(s, f) + f(x)
  {
    if s == [] || compare(s[|s| - 1], x) <= 0 {
      assert (s + [x])[..|s|] == s;
    } else {
      var first := Insert(s[..|s| - 1], x, compare);
      SumInsert(s[..|s| - 1], x, compare, f);
      assert (first + [s[|s| - 1]])[..|first|] == first;
    }
  }

  /** Sorting changes no sum, so it changes no multiplicity. */
  lemma {:induction false} SumSort<T>(s: seq<T>, compare: (T, T) -> int, f: T -> nat)
    ensures Sum(Sort(s, compare), f) == Sum(s, f)
  {
    if s != [] {
      SumSort(s[..|s| - 1], compare, f);
      SumInsert(Sort(s[..|s| - 1], compare), s[|s| - 1], compare, f);
    }
  }

  lemma {:induction false} InsertHolds<T>(s: seq<T>, x: T, compare: (T, T) -> int, p: T -> bool)
    requires p(x) && forall i | 0 <= i < |s| :: p(s[i])
    ensures |Insert(s, x, compare)| == |s| + 1
    ensures forall i | 0 <= i < |Insert(s, x, compare)| :: p(Insert(s, x, compare)[i])
  {
    if s != [] && compare(s[|s| - 1], x) > 0 {
      InsertHolds(s[..|s| - 1], x, compare, p);
    }
  }

  lemma {:induction false} SortHolds<T>(s: seq<T>, compare: (T, T) -> int, p: T -> bool)
    requires forall i | 0 <= i < |s| :: p(s[i])
    ensures |Sort(s, compare)| == |s| && forall i | 0 <= i < |s| :: p(Sort(s, compare)[i])
  {
    if s != [] {
      SortHolds(s[..|s| - 1], compare, p);
      InsertHolds(Sort(s[..|s| - 1], compare), s[|s| - 1], compare, p);
    }
  }

  /** The comparisons are those of a total preorder. */
  ghost predicate Consistent<T(!new)>(compare: (T, T) -> int) {
    (forall x, y :: compare(x, y) > 0 ==> compare(y, x) <= 0)
    && forall x, y, z :: compare(x, y) <= 0 && compare(y, z) <= 0 ==> compare(x, z) <= 0
  }

  predicate Ordered<T>(s: seq<T>, compare: (T, T) -> int) { forall i, j | 0 <= i < j < |s| :: compare(s[i], s[j]) <= 0 }

  lemma {:induction false} InsertOrders<T(!new)>(s: seq<T>, x: T, compare: (T, T) -> int)
    requires Consistent(compare) && Ordered(s, compare)
    ensures Ordered(Insert(s, x, compare), compare)
  {
    if s != [] && compare(s[|s| - 1], x) > 0 {
      var init, last := s[..|s| - 1], s[|s| - 1];
      InsertOrders(init, x, compare);
      InsertHolds(init, x, compare, y => compare(y, last) <= 0);
    }
  }

  lemma {:induction false} SortOrders<T(!new)>(s: seq<T>, compare: (T, T) -> int)
    requires Consistent(compare)
    ensures Ordered(Sort(s, compare), compare)
  {
    if s != [] {
      SortOrders(s[..|s| - 1], compare);
      InsertOrders(Sort(s[..|s| - 1], compare), s[|s| - 1], compare);
    }
  }

  // ---------------------------------------------------------------- the sort is stable

  /** Does a stable sort put the i-th value before the k-th? */
  predicate Precedes<T>(s: seq<T>, compare: (T, T) -> int, i: nat, k: nat)
    requires i < |s| && k < |s|
  {
    compare(s[k], s[i]) > 0 || (compare(s[i], s[k]) <= 0 && i < k)
  }

  /** All positions of s, each once, in the order in which a stable sort takes them. */
  ghost predicate Arranges<T>(s: seq<T>, compare: (T, T) -> int, order: seq<nat>) {
    && |order| == |s| && (forall p | 0 <= p < |order| :: order[p] < |s|)
    && (forall p, q | 0 <= p < q < |order| :: Precedes(s, compare, order[p], order[q]))
    && forall i: nat | i < |s| :: i in order
  }

  lemma AllBefore<T(!new)>(s: seq<T>, x: T, compare: (T, T) -> int)
    requires Consistent(compare) && Ordered(s, compare) && (s != [] ==> compare(s[|s| - 1], x) <= 0)
    ensures forall p | 0 <= p < |s| :: compare(s[p], x) <= 0
  {
    forall p | 0 <= p < |s| ensures compare(s[p], x) <= 0 {
      assert p < |s| - 1 ==> compare(s[p], s[|s| - 1]) <= 0;
    }
  }

  /** With x behind the first q values. */
  function Placed<T>(s: seq<T>, q: nat, x: T): seq<T>
    requires q <= |s|
  {
    s[..q] + [x] + s[q..]
  }

  lemma PlacedAtEnd<T>(s: seq<T>, x: T)
    ensures Placed(s, |s|, x) == s + [x]
  {
    assert s[..|s|] == s && s[|s|..] == [];
    assert s + [x] + [] == s + [x];
  }

  lemma PlacedInside<T>(s: seq<T>, q: nat, x: T)
    requires q < |s|
    ensures Placed(s, q, x) == Placed(s[..|s| - 1], q, x) + [s[|s| - 1]]
  {
    var init := s[..|s| - 1];
    assert s[..q] == init[..q] && s[q..] == init[q..] + [s[|s| - 1]];
    Regroup(init[..q] + [x], init[q..], [s[|s| - 1]]);
  }

  lemma {:induction false} InsertAt<T(!new)>(s: seq<T>, x: T, compare: (T, T) -> int) returns (q: nat)
    requires Consistent(compare) && Ordered(s, compare)
    ensures q <= |s| && Insert(s, x, compare) == Placed(s, q, x)
    ensures forall p | 0 <= p < q :: compare(s[p], x) <= 0
    ensures forall p | q <= p < |s| :: compare(s[p], x) > 0
  {
    if s == [] || compare(s[|s| - 1], x) <= 0 {
      hide Consistent, Ordered, Placed;
      q := |s|;
      AllBefore(s, x, compare);
      PlacedAtEnd(s, x);
    } else {
      var init := s[..|s| - 1];
      assert Ordered(init, compare);
      hide Consistent, Ordered, Placed;
      q := InsertAt(init, x, compare);
      PlacedInside(s, q, x);
      assert forall p | 0 <= p < |init| :: s[p] == init[p];
    }
  }

  lemma PlacedAt<T>(s: seq<T>, q: nat, x: T, p: nat)
    requires q <= |s| && p <= |s|
    ensures |Placed(s, q, x)| == |s| + 1
    ensures Placed(s, q, x)[p] == if p < q then s[p] else if p == q then x else s[p - 1]
  {
  }

  lemma PlacedHas<T>(s: seq<T>, q: nat, x: T, y: T)
    requires q <= |s| && (y in s || y == x)
    ensures y in Placed(s, q, x)
  {
    assert s == s[..q] + s[q..];
  }

  lemma PrecedesStill<T>(s: seq<T>, compare: (T, T) -> int, i: nat, k: nat)
    requires i < |s| - 1 && k < |s| - 1
    ensures Precedes(s[..|s| - 1], compare, i, k) <==> Precedes(s, compare, i, k)
  {
  }

  /** The arrangement after one more value has been inserted behind the first q. */
  lemma ArrangedNext<T(!new)>(s: seq<T>, compare: (T, T) -> int, order: seq<nat>, q: nat)
    requires s != [] && Arranges(s[..|s| - 1], compare, order) && q <= |order|
    requires forall p | 0 <= p < q :: compare(s[order[p]], s[|s| - 1]) <= 0
    requires forall p | q <= p < |order| :: compare(s[order[p]], s[|s| - 1]) > 0
    ensures Arranges(s, compare, Placed<nat>(order, q, |s| - 1))
  {
    var n: nat := |s| - 1;
    var more := Placed<nat>(order, q, n);
    PlacedAt<nat>(order, q, n, 0);
    hide Placed;
    forall p | 0 <= p < |more| ensures more[p] < |s| {
      PlacedAt<nat>(order, q, n, p);
    }
    forall p, r | 0 <= p < r < |more| ensures Precedes(s, compare, more[p], more[r]) {
      PlacedAt<nat>(order, q, n, p);
      PlacedAt<nat>(order, q, n, r);
      InsertedPrecedes(s, compare, order, q, p, r);
    }
    forall i: nat | i < |s| ensures i in more {
      assert i < n ==> i in order;
      PlacedHas<nat>(order, q, n, i);
    }
  }

  lemma InsertedPrecedes<T(!new)>(s: seq<T>, compare: (T, T) -> int, order: seq<nat>, q: nat, p: nat, r: nat)
    requires s != [] && Arranges(s[..|s| - 1], compare, order) && q <= |order| && p < r <= |order|
    requires forall p | 0 <= p < q :: compare(s[order[p]], s[|s| - 1]) <= 0
    requires forall p | q <= p < |order| :: compare(s[order[p]], s[|s| - 1]) > 0
    ensures var i := if p < q then order[p] else if p == q then |s| - 1 else order[p - 1];
      var k := if r < q then order[r] else if r == q then |s| - 1 else order[r - 1];
      i < |s| && k < |s| && Precedes(s, compare, i, k)
  {
    if p != q && r != q {
      var x, y := if p < q then p else p - 1, if r < q then r else r - 1;
      assert Precedes(s[..|s| - 1], compare, order[x], order[y]);
      PrecedesStill(s, compare, order[x], order[y]);
    }
  }

  /** What is equal for the comparison stays in its order. */
  lemma {:induction false} SortIsStable<T(!new)>(s: seq<T>, compare: (T, T) -> int) returns (order: seq<nat>)
    requires Consistent(compare)
    ensures Arranges(s, compare, order) && |Sort(s, compare)| == |s|
    ensures forall p | 0 <= p < |s| :: Sort(s, compare)[p] == s[order[p]]
  {
    hide Consistent, Ordered, Arranges, Insert, Placed;
    order := [];
    if s == [] {
      assert Arranges(s, compare, order) by { NothingArranged(s, compare); }
    } else {
      var init, n := s[..|s| - 1], |s| - 1;
      var before := SortIsStable(init, compare);
      ArrangedWithin(init, compare, before);
      var sorted := Sort(init, compare);
      SortOrders(init, compare);
      var q := InsertAt(sorted, s[n], compare);
      forall p | 0 <= p < |before| ensures s[before[p]] == sorted[p] {}
      ArrangedNext(s, compare, before, q);
      order := Placed<nat>(before, q, n);
      ArrangedWithin(s, compare, order);
      PlacedAt(sorted, q, s[n], 0);
      forall p | 0 <= p < |s| ensures Sort(s, compare)[p] == s[order[p]] {
        PlacedAt(sorted, q, s[n], p);
        PlacedAt<nat>(before, q, n, p);
      }
    }
  }

  lemma NothingArranged<T>(s: seq<T>, compare: (T, T) -> int)
    requires s == []
    ensures Arranges(s, compare, [])
  {
  }

  lemma ArrangedWithin<T>(s: seq<T>, compare: (T, T) -> int, order: seq<nat>)
    requires Arranges(s, compare, order)
    ensures |order| == |s| && forall p | 0 <= p < |order| :: order[p] < |s|
  {
  }

  predicate DistinctBy<T, K(==)>(s: seq<T>, key: T -> K) { forall i, j | 0 <= i < j < |s| :: key(s[i]) != key(s[j]) }

  lemma {:induction false} InsertKeepsDistinct<T, K>(s: seq<T>, x: T, compare: (T, T) -> int, key: T -> K)
    requires DistinctBy(s, key) && forall i | 0 <= i < |s| :: key(s[i]) != key(x)
    ensures DistinctBy(Insert(s, x, compare), key)
  {
    if s != [] && compare(s[|s| - 1], x) > 0 {
      var init, last := s[..|s| - 1], s[|s| - 1];
      InsertKeepsDistinct(init, x, compare, key);
      InsertHolds(init, x, compare, y => key(y) != key(last));
    }
  }

  lemma {:induction false} SortKeepsDistinct<T, K>(s: seq<T>, compare: (T, T) -> int, key: T -> K)
    requires DistinctBy(s, key)
    ensures DistinctBy(Sort(s, compare), key)
  {
    if s != [] {
      var init, last := s[..|s| - 1], s[|s| - 1];
      SortKeepsDistinct(init, compare, key);
      SortHolds(init, compare, y => key(y) != key(last));
      InsertKeepsDistinct(Sort(init, compare), last, compare, key);
    }
  }

  lemma {:induction false} InsertHas<T>(s: seq<T>, x: T, compare: (T, T) -> int, y: T)
    ensures y in Insert(s, x, compare) <==> y in s || y == x
  {
    if s != [] && compare(s[|s| - 1], x) > 0 {
      InsertHas(s[..|s| - 1], x, compare, y);
      assert s == s[..|s| - 1] + [s[|s| - 1]];
    }
  }

  lemma {:induction false} SortHas<T>(s: seq<T>, compare: (T, T) -> int, y: T)
    ensures y in Sort(s, compare) <==> y in s
  {
    if s != [] {
      SortHas(s[..|s| - 1], compare, y);
      InsertHas(Sort(s[..|s| - 1], compare), s[|s| - 1], compare, y);
      assert s == s[..|s| - 1] + [s[|s| - 1]];
    }
  }

  function Filter<T>(s: seq<T>, keep: T -> bool): seq<T> {
    if s == [] then []
    else if keep(s[|s| - 1]) then Filter(s[..|s| - 1], keep) + [s[|s| - 1]]
    else Filter(s[..|s| - 1], keep)
  }

  lemma {:induction false} FilterHolds<T>(s: seq<T>, keep: T -> bool)
    ensures |Filter(s, keep)| <= |s|
    ensures forall i | 0 <= i < |Filter(s, keep)| :: keep(Filter(s, keep)[i])
  {
    if s != [] {
      FilterHolds(s[..|s| - 1], keep);
    }
  }

  lemma {:induction false} FilterHas<T>(s: seq<T>, keep: T -> bool, x: T)
    ensures x in Filter(s, keep) <==> x in s && keep(x)
  {
    if s != [] {
      FilterHas(s[..|s| - 1], keep, x);
      assert s == s[..|s| - 1] + [s[|s| - 1]];
    }
  }

  lemma {:induction false} FilterKeepsDistinct<T, K>(s: seq<T>, keep: T -> bool, key: T -> K)
    requires DistinctBy(s, key)
    ensures DistinctBy(Filter(s, keep), key)
  {
    if s != [] {
      var init, last := s[..|s| - 1], s[|s| - 1];
      FilterKeepsDistinct(init, keep, key);
      forall i | 0 <= i < |Filter(init, keep)| ensures key(Filter(init, keep)[i]) != key(last) {
        FilterHas(init, keep, Filter(init, keep)[i]);
      }
    }
  }

  /** Splitting by a test loses nothing. */
  lemma {:induction false} FilterSplits<T>(s: seq<T>, keep: T -> bool, drop: T -> bool)
    requires forall i | 0 <= i < |s| :: drop(s[i]) <==> !keep(s[i])
    ensures |Filter(s, keep)| + |Filter(s, drop)| == |s|
  {
    if s != [] {
      FilterSplits(s[..|s| - 1], keep, drop);
    }
  }

  /** Distinct values that all occur in another duplicate-free sequence are no more than it has. */
  lemma DistinctFits<T>(xs: seq<T>, ys: seq<T>)
    requires Distinct(xs) && Distinct(ys) && forall i | 0 <= i < |xs| :: xs[i] in ys
    ensures |xs| <= |ys|
  {
    var f := x => if x in xs then 1 else 0;
    SumOverMembers(xs, ys, f);
    SumConstant(xs, f, 1);
    SumAtMost(ys, f);
  }

  lemma {:induction false} SumAtMost<T>(s: seq<T>, f: T -> nat)
    requires forall i | 0 <= i < |s| :: f(s[i]) <= 1
    ensures Sum(s, f) <= |s|
  {
    if s != [] {
      SumAtMost(s[..|s| - 1], f);
    }
  }

  /** Among the members that pass the test x is a greatest, and the last one of them. */
  ghost predicate LastGreatest<T(!new)>(s: seq<T>, keep: T -> bool, compare: (T, T) -> int, x: T) {
    exists j | 0 <= j < |s| ::
      && s[j] == x && keep(x)
      && (forall i | 0 <= i < |s| && keep(s[i]) :: compare(s[i], x) <= 0)
      && forall i | j < i < |s| && keep(s[i]) :: compare(x, s[i]) > 0
  }

  /** The greatest member that passes the test, the last one among equals. */
  method MaxBy<T(!new, ==)>(s: seq<T>, keep: T -> bool, compare: (T, T) -> int) returns (best: Option<T>)
    requires Consistent(compare)
    ensures best.None? <==> forall i | 0 <= i < |s| :: !keep(s[i])
    ensures best.Some? ==> LastGreatest(s, keep, compare, best.value)
  {
    best := None;
    ghost var j := 0;
    for n := 0 to |s|
      invariant best.None? <==> forall i | 0 <= i < n :: !keep(s[i])
      invariant best.Some? ==> 0 <= j < n && s[j] == best.value && keep(best.value)
      invariant best.Some? ==> forall i | 0 <= i < n && keep(s[i]) :: compare(s[i], best.value) <= 0
      invariant best.Some? ==> forall i | j < i < n && keep(s[i]) :: compare(best.value, s[i]) > 0
    {
      if keep(s[n]) && (best.None? || compare(best.value, s[n]) <= 0) {
        assert compare(s[n], s[n]) <= 0;
        best, j := Some(s[n]), n;
      }
    }
  }

  function By<T, K>(key: T -> K, compare: (K, K) -> int): (T, T) -> int { (x: T, y: T) => compare(key(x), key(y)) }

  function Reversed<T>(compare: (T, T) -> int): (T, T) -> int { (x: T, y: T) => compare(y, x) }

  lemma ByIsConsistent<T(!new), K(!new)>(key: T -> K, compare: (K, K) -> int)
    requires Consistent(compare)
    ensures Consistent(By(key, compare))
  {
  }

  lemma ReversedIsConsistent<T(!new)>(compare: (T, T) -> int)
    requires Consistent(compare)
    ensures Consistent(Reversed(compare))
  {
  }

  /** Neighbours that are equal become one. */
  function Dedup<T(==)>(s: seq<T>): seq<T> {
    if |s| <= 1 then s
    else if s[|s| - 1] == s[|s| - 2] then Dedup(s[..|s| - 1])
    else Dedup(s[..|s| - 1]) + [s[|s| - 1]]
  }

  lemma {:induction false} DedupHolds<T>(s: seq<T>)
    ensures forall i | 0 <= i < |Dedup(s)| :: Dedup(s)[i] in s
  {
    if |s| > 1 {
      DedupHolds(s[..|s| - 1]);
      assert s == s[..|s| - 1] + [s[|s| - 1]];
    }
  }

  lemma {:induction false} DedupIsShort<T>(s: seq<T>)
    ensures |Dedup(s)| <= |s|
  {
    if |s| > 1 {
      DedupIsShort(s[..|s| - 1]);
    }
  }

  lemma {:induction false} DedupHas<T>(s: seq<T>, x: T)
    ensures x in s <==> x in Dedup(s)
  {
    if |s| > 1 {
      DedupHas(s[..|s| - 1], x);
      assert s == s[..|s| - 1] + [s[|s| - 1]];
    }
  }

  /** A value comes back after another one. */
  ghost predicate ComesBack<T>(s: seq<T>) { exists i, j, k | 0 <= i < j < k < |s| :: s[i] == s[k] && s[i] != s[j] }

  /** The first elements without repeated neighbours come from the first elements. */
  lemma {:induction false} DedupTake<T>(s: seq<T>, k: nat) returns (n: nat)
    requires k <= |Dedup(s)|
    ensures n <= |s| && Dedup(s[..n]) == Dedup(s)[..k]
  {
    if k == |Dedup(s)| {
      n := |s|;
      assert s[..n] == s;
    } else if |s| <= 1 {
      n := 0;
    } else {
      var init := s[..|s| - 1];
      n := DedupTake(init, k);
      assert s[..n] == init[..n];
    }
  }

  lemma ComesBackAtEnd<T>(s: seq<T>)
    requires |s| > 1
    ensures var init, last := s[..|s| - 1], s[|s| - 1];
      ComesBack(s) <==> ComesBack(init) || (last != init[|init| - 1] && last in init)
  {
    var init, n := s[..|s| - 1], |s| - 1;
    assert forall i | 0 <= i < n :: init[i] == s[i];
    if ComesBack(s) {
      var i, j, k :| 0 <= i < j < k < |s| && s[i] == s[k] && s[i] != s[j];
      assert k < n ==> init[i] == init[k] && init[i] != init[j];
      assert init[i] in init;
      if k == n && s[n] == init[n - 1] {
        assert init[i] == init[n - 1] && init[i] != init[j];
      }
    }
    if ComesBack(init) {
      var i, j, k :| 0 <= i < j < k < n && init[i] == init[k] && init[i] != init[j];
      assert s[i] == s[k] && s[i] != s[j];
    }
    if s[n] != init[n - 1] && s[n] in init {
      var i :| 0 <= i < n && init[i] == s[n];
      assert s[i] == s[n] && s[i] != s[n - 1];
    }
  }

  /** What is left when neighbours are merged repeats a value exactly if one came back. */
  lemma {:induction false} DedupRepeatsExactly<T>(s: seq<T>)
    ensures Distinct(Dedup(s)) <==> !ComesBack(s)
  {
    if |s| > 1 {
      var init, last := s[..|s| - 1], s[|s| - 1];
      DedupRepeatsExactly(init);
      ComesBackAtEnd(s);
      DedupHas(init, last);
      if last != init[|init| - 1] {
        AppendDistinct(Dedup(init), last);
      }
    }
  }

  lemma AppendDistinct<T>(s: seq<T>, x: T)
    ensures Distinct(s + [x]) <==> Distinct(s) && x !in s
  {
    var t := s + [x];
    if Distinct(t) {
      assert forall i | 0 <= i < |s| :: t[i] == s[i] && t[i] != t[|s|];
    }
  }

  lemma {:induction false} DedupOrdered<T>(s: seq<T>, compare: (T, T) -> int)
    requires Ordered(s, compare)
    ensures Ordered(Dedup(s), compare)
  {
    if |s| > 1 {
      var init := s[..|s| - 1];
      DedupOrdered(init, compare);
      DedupHolds(init);
      forall i | 0 <= i < |Dedup(init)| ensures compare(Dedup(init)[i], s[|s| - 1]) <= 0 {
        var j :| 0 <= j < |init| && init[j] == Dedup(init)[i];
        assert init[j] == s[j];
      }
    }
  }

  // ---------------------------------------------------------------- merging neighbours of a sorted sequence

  predicate Tied<T>(compare: (T, T) -> int, x: T, y: T) { compare(x, y) <= 0 && compare(y, x) <= 0 }

  /** An equal value comes earlier, and nothing but that value among what is tied with it in between. */
  predicate Continues<T(==)>(s: seq<T>, compare: (T, T) -> int, i: nat)
    requires i < |s|
  {
    exists j | 0 <= j < i :: s[j] == s[i] && forall l | j < l < i && Tied(compare, s[l], s[i]) :: s[l] == s[i]
  }

  /** The arrangement follows the order. */
  lemma PrecedesIsBefore<T(!new)>(s: seq<T>, compare: (T, T) -> int, order: seq<nat>, p: nat, q: nat)
    requires Consistent(compare) && Arranges(s, compare, order) && p < |s| && q < |s|
    ensures order[p] < |s| && order[q] < |s| && (Precedes(s, compare, order[p], order[q]) <==> p < q)
  {
    if q < p {
      assert Precedes(s, compare, order[q], order[p]);
    }
  }

  /** Every value stands somewhere. */
  lemma ArrangedAt<T(!new)>(s: seq<T>, compare: (T, T) -> int, order: seq<nat>, i: nat) returns (p: nat)
    requires Arranges(s, compare, order) && i < |s|
    ensures p < |order| == |s| && order[p] == i
  {
    assert i in order;
    p :| 0 <= p < |order| && order[p] == i;
  }

  lemma TiedPrecedes<T>(s: seq<T>, compare: (T, T) -> int, i: nat, k: nat)
    requires i < k < |s| && Tied(compare, s[i], s[k])
    ensures Precedes(s, compare, i, k)
  {
  }

  lemma TiedIsTransitive<T(!new)>(compare: (T, T) -> int, x: T, y: T, z: T)
    requires Consistent(compare)
    ensures Tied(compare, x, x) && (Tied(compare, x, y) ==> Tied(compare, y, x))
    ensures compare(x, y) <= 0 && compare(y, z) <= 0 && Tied(compare, x, z) ==>
              Tied(compare, y, z) && Tied(compare, x, y)
  {
  }

  /** In the sorted sequence such a value stands next to an equal one. */
  lemma ContinuesBehind<T(!new)>(s: seq<T>, compare: (T, T) -> int, order: seq<nat>, p: nat)
    requires Consistent(compare) && Arranges(s, compare, order) && p < |s|
    ensures |order| == |s| && order[p] < |s| && (p > 0 ==> order[p - 1] < |s|)
    ensures Continues(s, compare, order[p]) <==> p > 0 && s[order[p - 1]] == s[order[p]]
  {
    ArrangedWithin(s, compare, order);
    hide Arranges;
    if p > 0 && s[order[p - 1]] == s[order[p]] {
      EqualNeighbourContinues(s, compare, order, p);
    }
    if Continues(s, compare, order[p]) {
      ContinuedNeighbour(s, compare, order, p);
    }
  }

  lemma EqualNeighbourContinues<T(!new)>(s: seq<T>, compare: (T, T) -> int, order: seq<nat>, p: nat)
    requires Consistent(compare) && Arranges(s, compare, order) && 0 < p < |s|
    requires |order| == |s| && order[p] < |s| && order[p - 1] < |s| && s[order[p - 1]] == s[order[p]]
    ensures Continues(s, compare, order[p])
  {
    hide Arranges, Consistent, Tied;
    var i, j := order[p], order[p - 1];
    TiedIsTransitive(compare, s[i], s[i], s[i]);
    PrecedesIsBefore(s, compare, order, p - 1, p);
    PrecedesIsBefore(s, compare, order, p, p - 1);
    assert j < i by {
      if i < j {
        TiedPrecedes(s, compare, i, j);
      }
    }
    forall l | j < l < i ensures !Tied(compare, s[l], s[i]) {
      if Tied(compare, s[l], s[i]) {
        var r := ArrangedAt(s, compare, order, l);
        TiedIsTransitive(compare, s[l], s[i], s[i]);
        TiedPrecedes(s, compare, j, l);
        TiedPrecedes(s, compare, l, i);
        PrecedesIsBefore(s, compare, order, p - 1, r);
        PrecedesIsBefore(s, compare, order, r, p);
      }
    }
  }

  lemma ContinuedNeighbour<T(!new)>(s: seq<T>, compare: (T, T) -> int, order: seq<nat>, p: nat)
    requires Consistent(compare) && Arranges(s, compare, order) && p < |s|
    requires |order| == |s| && order[p] < |s| && Continues(s, compare, order[p])
    ensures p > 0 && order[p - 1] < |s| && s[order[p - 1]] == s[order[p]]
  {
    hide Arranges, Consistent;
    var i := order[p];
    var j :| 0 <= j < i && s[j] == s[i] && forall l | j < l < i && Tied(compare, s[l], s[i]) :: s[l] == s[i];
    var r := ArrangedAt(s, compare, order, j);
    TiedIsTransitive(compare, s[i], s[i], s[i]);
    TiedPrecedes(s, compare, j, i);
    PrecedesIsBefore(s, compare, order, r, p);
    if r < p - 1 {
      var l := order[p - 1];
      PrecedesIsBefore(s, compare, order, r, p - 1);
      PrecedesIsBefore(s, compare, order, p - 1, p);
      TiedBetween(s, compare, j, l, i);
    }
  }

  /** What stands between equal values is tied with them and comes between them. */
  lemma TiedBetween<T(!new)>(s: seq<T>, compare: (T, T) -> int, j: nat, l: nat, i: nat)
    requires Consistent(compare) && j < |s| && l < |s| && i < |s| && s[j] == s[i]
    requires Precedes(s, compare, j, l) && Precedes(s, compare, l, i)
    ensures j < l < i && Tied(compare, s[l], s[i])
  {
  }

  /** The values among the first m of the arrangement that do not continue an earlier one. */
  ghost function OpenedFirst<T>(s: seq<T>, compare: (T, T) -> int, order: seq<nat>, m: nat): set<nat>
    requires m <= |order|
  {
    set i: nat | i in order[..m] && i < |s| && !Continues(s, compare, i)
  }

  /**
   How far down the sorted and merged sequence the k-th value is found: as many
   values as do not come behind it and do not continue an earlier one.
   */
  ghost function Place<T>(s: seq<T>, compare: (T, T) -> int, k: nat): nat
    requires k < |s|
  {
    |set i: nat | i < |s| && !Continues(s, compare, i) && (i == k || Precedes(s, compare, i, k))|
  }

  lemma OpenedNext<T(!new)>(s: seq<T>, compare: (T, T) -> int, order: seq<nat>, m: nat)
    requires Consistent(compare) && Arranges(s, compare, order) && m < |s|
    ensures |OpenedFirst(s, compare, order, m + 1)|
         == |OpenedFirst(s, compare, order, m)| + if Continues(s, compare, order[m]) then 0 else 1
  {
    hide Continues;
    assert order[..m + 1] == order[..m] + [order[m]];
    forall p | 0 <= p < m ensures order[p] != order[m] {
      assert Precedes(s, compare, order[p], order[m]);
    }
    var more := if Continues(s, compare, order[m]) then {} else {order[m]};
    assert OpenedFirst(s, compare, order, m + 1) == OpenedFirst(s, compare, order, m) + more;
  }

  /** What is left of the first m sorted values when neighbours are merged. */
  lemma {:induction false} MergedCount<T(!new)>(
      s: seq<T>, compare: (T, T) -> int, order: seq<nat>, sorted: seq<T>, m: nat)
    requires Consistent(compare) && Arranges(s, compare, order) && m <= |s| == |sorted|
    requires forall p | 0 <= p < |s| :: sorted[p] == s[order[p]]
    ensures |Dedup(sorted[..m])| == |OpenedFirst(s, compare, order, m)|
  {
    hide Consistent, Arranges, Continues;
    if m > 0 {
      MergedCount(s, compare, order, sorted, m - 1);
      ArrangedWithin(s, compare, order);
      OpenedNext(s, compare, order, m - 1);
      ContinuesBehind(s, compare, order, m - 1);
      assert sorted[..m][..m - 1] == sorted[..m - 1];
      assert m > 1 ==> sorted[m - 2] == s[order[m - 2]];
    }
  }

  lemma PlaceIs<T(!new)>(s: seq<T>, compare: (T, T) -> int, order: seq<nat>, c: nat)
    requires Consistent(compare) && Arranges(s, compare, order) && c < |s|
    ensures Place(s, compare, order[c]) == |OpenedFirst(s, compare, order, c + 1)|
  {
    hide Continues;
    var k := order[c];
    forall i: nat | i < |s| ensures i in order[..c + 1] <==> i == k || Precedes(s, compare, i, k) {
      assert i in order;
      var p :| 0 <= p < |order| && order[p] == i;
      if p <= c {
        assert order[..c + 1][p] == i;
        assert p < c ==> Precedes(s, compare, order[p], order[c]);
      } else {
        assert Precedes(s, compare, k, i);
        forall q | 0 <= q <= c ensures order[q] != i {
          assert Precedes(s, compare, order[q], order[p]);
        }
      }
    }
    var those := set i: nat | i < |s| && !Continues(s, compare, i) && (i == k || Precedes(s, compare, i, k));
    assert those == OpenedFirst(s, compare, order, c + 1);
  }

  /** Merging neighbours of the first values gives the first of the merged values. */
  lemma {:induction false} DedupPrefix<T>(s: seq<T>, n: nat)
    requires n <= |s|
    ensures Dedup(s[..n]) <= Dedup(s)
  {
    if n < |s| {
      if |s| > 1 {
        DedupPrefix(s[..|s| - 1], n);
        assert s[..|s| - 1][..n] == s[..n];
      }
    } else {
      assert s[..n] == s;
    }
  }

  /** Equal values with another one between them that the comparison does not tell apart from them. */
  predicate Interrupted<T(==)>(s: seq<T>, compare: (T, T) -> int, i: nat, j: nat, k: nat) {
    i < j < k < |s| && s[i] == s[k] && s[j] != s[k] && Tied(compare, s[j], s[k])
  }

  /** The first values of a sequence, at most so many. */
  function Upto<T>(s: seq<T>, limit: nat): seq<T> { if |s| <= limit then s else s[..limit] }

  lemma MergedUpto<T>(sorted: seq<T>, limit: nat) returns (n: nat)
    ensures n <= |sorted| && Upto(Dedup(sorted), limit) == Dedup(sorted[..n]) && |Dedup(sorted[..n])| <= limit
  {
    var all := Dedup(sorted);
    n := DedupTake(sorted, |Upto(all, limit)|);
    assert all[..|Upto(all, limit)|] == Upto(all, limit);
  }

  lemma RepetitionWasInterrupted<T(!new)>(s: seq<T>, compare: (T, T) -> int, limit: nat)
    returns (i: nat, j: nat, k: nat)
    requires Consistent(compare) && !Distinct(Upto(Dedup(Sort(s, compare)), limit))
    ensures Interrupted(s, compare, i, j, k) && Place(s, compare, k) <= limit
  {
    hide Arranges, Continues, Dedup, Sort, Distinct, Place;
    var sorted := Sort(s, compare);
    var order := SortIsStable(s, compare);
    var n := MergedUpto(sorted, limit);
    DedupRepeatsExactly(sorted[..n]);
    var a, b, c :| 0 <= a < b < c < n && sorted[..n][a] == sorted[..n][c] && sorted[..n][a] != sorted[..n][b];
    ArrangedWithin(s, compare, order);
    i, j, k := order[a], order[b], order[c];
    assert Precedes(s, compare, i, j) && Precedes(s, compare, j, k) by { ArrangedPrecedes(s, compare, order, a, b, c); }
    PlaceIs(s, compare, order, c);
    MergedCount(s, compare, order, sorted, c + 1);
    DedupPrefix(sorted[..n], c + 1);
    assert sorted[..n][..c + 1] == sorted[..c + 1];
  }

  lemma ArrangedPrecedes<T>(s: seq<T>, compare: (T, T) -> int, order: seq<nat>, a: nat, b: nat, c: nat)
    requires Arranges(s, compare, order) && a < b < c < |s|
    ensures order[a] < |s| && order[b] < |s| && order[c] < |s|
    ensures Precedes(s, compare, order[a], order[b]) && Precedes(s, compare, order[b], order[c])
  {
  }

  lemma ArrangedInOrder<T(!new)>(s: seq<T>, compare: (T, T) -> int, order: seq<nat>, p: nat, q: nat)
    requires Consistent(compare) && Arranges(s, compare, order) && p < |s| && q < |s|
    requires order[p] < order[q] && Tied(compare, s[order[p]], s[order[q]])
    ensures p < q
  {
    ArrangedWithin(s, compare, order);
    hide Arranges, Consistent;
    TiedPrecedes(s, compare, order[p], order[q]);
    PrecedesIsBefore(s, compare, order, p, q);
  }

  lemma InterruptedRepeats<T(!new)>(s: seq<T>, compare: (T, T) -> int, limit: nat, i: nat, j: nat, k: nat)
    requires Consistent(compare) && Interrupted(s, compare, i, j, k) && Place(s, compare, k) <= limit
    ensures !Distinct(Upto(Dedup(Sort(s, compare)), limit))
  {
    hide Arranges, Continues, Dedup, Sort, Place;
    var sorted := Sort(s, compare);
    var order := SortIsStable(s, compare);
    ArrangedWithin(s, compare, order);
    var a := ArrangedAt(s, compare, order, i);
    var b := ArrangedAt(s, compare, order, j);
    var c := ArrangedAt(s, compare, order, k);
    ArrangedInOrder(s, compare, order, a, b);
    ArrangedInOrder(s, compare, order, b, c);
    var first := sorted[..c + 1];
    assert first[a] == first[c] && first[a] != first[b];
    DedupRepeatsExactly(first);
    PlaceIs(s, compare, order, c);
    MergedCount(s, compare, order, sorted, c + 1);
    DedupPrefix(sorted, c + 1);
    PrefixRepeats(Dedup(first), Upto(Dedup(sorted), limit));
  }

  lemma PrefixRepeats<T>(s: seq<T>, t: seq<T>)
    requires s <= t && !Distinct(s)
    ensures !Distinct(t)
  {
    var i, j :| 0 <= i < j < |s| && s[i] == s[j];
    assert t[i] == t[j];
  }

  /** How many values do not continue an earlier one. */
  ghost function Entries<T>(s: seq<T>, compare: (T, T) -> int): nat {
    |set i: nat | i < |s| && !Continues(s, compare, i)|
  }

  /** As many values are left when a sorted sequence is merged. */
  lemma MergedLength<T(!new)>(s: seq<T>, compare: (T, T) -> int)
    requires Consistent(compare)
    ensures |Dedup(Sort(s, compare))| == Entries(s, compare) <= |s|
    ensures forall k | 0 <= k < |s| :: Place(s, compare, k) <= Entries(s, compare)
  {
    hide Continues, Arranges, Place, Consistent;
    var sorted := Sort(s, compare);
    var order := SortIsStable(s, compare);
    ArrangedWithin(s, compare, order);
    MergedCount(s, compare, order, sorted, |s|);
    assert sorted[..|s|] == sorted;
    DedupIsShort(sorted);
    assert (set i: nat | i < |s| && !Continues(s, compare, i)) == OpenedFirst(s, compare, order, |s|) by {
      forall i: nat | i < |s| ensures i in order[..|s|] {
        var p := ArrangedAt(s, compare, order, i);
        assert order[..|s|][p] == i;
      }
    }
    forall k | 0 <= k < |s| ensures Place(s, compare, k) <= |Dedup(sorted)| {
      var c := ArrangedAt(s, compare, order, k);
      PlaceIs(s, compare, order, c);
      MergedCount(s, compare, order, sorted, c + 1);
      DedupPrefix(sorted, c + 1);
    }
  }
}
