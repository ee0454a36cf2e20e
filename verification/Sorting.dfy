/**
 The stable sort behind `ORDER BY` and `Array.prototype.sort`, and what it guarantees: a permutation in order, with ties
 left as they were; when two orders sort a sequence alike; when the order it came in does not matter; and when sorting
 again changes nothing.
 */
module Sorting {

  /** Puts `x` before the first element it is not greater than. */
  function Insert<T>(x: T, sorted: seq<T>, leq: (T, T) -> bool): seq<T> {
    if sorted == [] || leq(x, sorted[0]) then [x] + sorted
    else [sorted[0]] + Insert(x, sorted[1..], leq)
  }

  function Sort<T>(xs: seq<T>, leq: (T, T) -> bool): (sorted: seq<T>)
    ensures |sorted| == |xs|
  {
    if xs == [] then [] else
      SortLength(xs[0], Sort(xs[1..], leq), leq);
      Insert(xs[0], Sort(xs[1..], leq), leq)
  }

  lemma SortLength<T>(x: T, sorted: seq<T>, leq: (T, T) -> bool)
    ensures |Insert(x, sorted, leq)| == |sorted| + 1
  {}

  ghost predicate Sorted<T>(xs: seq<T>, leq: (T, T) -> bool) {
    forall i, j | 0 <= i < j < |xs| :: leq(xs[i], xs[j])
  }

  /** A comparison that places any two elements and does so consistently; ties are allowed. */
  ghost predicate TotalPreorder<T(!new)>(leq: (T, T) -> bool) {
    && (forall x, y :: leq(x, y) || leq(y, x))
    && (forall x, y, z :: leq(x, y) && leq(y, z) ==> leq(x, z))
  }

  ghost predicate TotalOrder<T(!new)>(leq: (T, T) -> bool) {
    && TotalPreorder(leq)
    && (forall x, y :: leq(x, y) && leq(y, x) ==> x == y)
  }

  lemma {:induction false} InsertPermutes<T>(x: T, sorted: seq<T>, leq: (T, T) -> bool)
    ensures multiset(Insert(x, sorted, leq)) == multiset{x} + multiset(sorted)
  {
    if sorted != [] {
      assert sorted == [sorted[0]] + sorted[1..];
      if !leq(x, sorted[0]) {
        InsertPermutes(x, sorted[1..], leq);
      }
    }
  }

  lemma {:induction false} SortPermutes<T>(xs: seq<T>, leq: (T, T) -> bool)
    ensures multiset(Sort(xs, leq)) == multiset(xs)
  {
    if xs != [] {
      assert xs == [xs[0]] + xs[1..];
      SortPermutes(xs[1..], leq);
      InsertPermutes(xs[0], Sort(xs[1..], leq), leq);
    }
  }

  /** The members of a sequence are those of its sort. */
  lemma SortMembers<T>(xs: seq<T>, leq: (T, T) -> bool)
    ensures forall x :: x in Sort(xs, leq) <==> x in xs
  {
    SortPermutes(xs, leq);
    forall x
      ensures x in Sort(xs, leq) <==> x in xs
    {
      assert x in multiset(Sort(xs, leq)) <==> x in multiset(xs);
    }
  }

  lemma {:induction false} InsertSorts<T(!new)>(x: T, sorted: seq<T>, leq: (T, T) -> bool)
    requires TotalPreorder(leq) && Sorted(sorted, leq)
    ensures Sorted(Insert(x, sorted, leq), leq)
  {
    if sorted != [] && !leq(x, sorted[0]) {
      InsertSorts(x, sorted[1..], leq);
      InsertPermutes(x, sorted[1..], leq);
      var tail := Insert(x, sorted[1..], leq);
      forall y | y in tail
        ensures leq(sorted[0], y)
      {
        assert y in multiset(tail);
        assert y == x || y in sorted[1..];
      }
    }
  }

  lemma {:induction false} SortSorts<T(!new)>(xs: seq<T>, leq: (T, T) -> bool)
    requires TotalPreorder(leq)
    ensures Sorted(Sort(xs, leq), leq)
  {
    if xs != [] {
      SortSorts(xs[1..], leq);
      InsertSorts(xs[0], Sort(xs[1..], leq), leq);
    }
  }

  lemma SortedTail<T>(xs: seq<T>, leq: (T, T) -> bool)
    requires xs != [] && Sorted(xs, leq)
    ensures Sorted(xs[1..], leq)
  {
    forall i, j | 0 <= i < j < |xs[1..]|
      ensures leq(xs[1..][i], xs[1..][j])
    {
      assert leq(xs[i + 1], xs[j + 1]);
    }
  }

  /** Sorting what is already in order changes nothing; no law on the comparison is needed. */
  lemma {:induction false} SortKeepsSorted<T>(xs: seq<T>, leq: (T, T) -> bool)
    requires Sorted(xs, leq)
    ensures Sort(xs, leq) == xs
  {
    if xs != [] {
      SortedTail(xs, leq);
      SortKeepsSorted(xs[1..], leq);
      if |xs| > 1 {
        assert leq(xs[0], xs[1]);
      }
    }
  }

  lemma LeastFirst<T(!new)>(xs: seq<T>, ys: seq<T>, leq: (T, T) -> bool)
    requires TotalOrder(leq) && Sorted(xs, leq) && Sorted(ys, leq)
    requires multiset(xs) == multiset(ys) && xs != [] && ys != []
    ensures xs[0] == ys[0]
  {
    assert xs[0] in multiset(ys) && ys[0] in multiset(xs);
    var i :| 0 <= i < |ys| && ys[i] == xs[0];
    var j :| 0 <= j < |xs| && xs[j] == ys[0];
    assert leq(xs[0], xs[0]) && leq(ys[0], ys[0]);
    assert leq(xs[0], xs[j]) && leq(ys[0], ys[i]);
  }

  /** Under an antisymmetric order two sorted arrangements of the same elements are one. */
  lemma {:induction false} SortedUnique<T(!new)>(xs: seq<T>, ys: seq<T>, leq: (T, T) -> bool)
    requires TotalOrder(leq) && Sorted(xs, leq) && Sorted(ys, leq)
    requires multiset(xs) == multiset(ys)
    ensures xs == ys
  {
    assert |xs| == |multiset(xs)| == |multiset(ys)| == |ys|;
    if xs != [] {
      LeastFirst(xs, ys, leq);
      assert xs == [xs[0]] + xs[1..] && ys == [ys[0]] + ys[1..];
      assert multiset(xs[1..]) == multiset(xs) - multiset{xs[0]};
      assert multiset(ys[1..]) == multiset(ys) - multiset{ys[0]};
      SortedTail(xs, leq);
      SortedTail(ys, leq);
      SortedUnique(xs[1..], ys[1..], leq);
    }
  }

  /** Sorting forgets the order its input came in. */
  lemma SortIgnoresOrder<T(!new)>(xs: seq<T>, ys: seq<T>, leq: (T, T) -> bool)
    requires TotalOrder(leq) && multiset(xs) == multiset(ys)
    ensures Sort(xs, leq) == Sort(ys, leq)
  {
    SortPermutes(xs, leq);
    SortPermutes(ys, leq);
    SortSorts(xs, leq);
    SortSorts(ys, leq);
    SortedUnique(Sort(xs, leq), Sort(ys, leq), leq);
  }

  // Ties

  function Filter<T>(xs: seq<T>, keep: T -> bool): seq<T> {
    if xs == [] then [] else (if keep(xs[0]) then [xs[0]] else []) + Filter(xs[1..], keep)
  }

  lemma {:induction false} FilterMember<T>(xs: seq<T>, keep: T -> bool, x: T)
    ensures x in Filter(xs, keep) <==> x in xs && keep(x)
  {
    if xs != [] {
      FilterMember(xs[1..], keep, x);
      assert x in xs <==> x == xs[0] || x in xs[1..];
    }
  }

  lemma {:induction false} FilterCons<T>(x: T, xs: seq<T>, keep: T -> bool)
    ensures Filter([x] + xs, keep) == if keep(x) then [x] + Filter(xs, keep) else Filter(xs, keep)
  {
    assert ([x] + xs)[1..] == xs;
  }

  predicate Tied<T>(x: T, y: T, leq: (T, T) -> bool) {
    leq(x, y) && leq(y, x)
  }

  lemma {:induction false} FilterInsert<T(!new)>(x: T, sorted: seq<T>, leq: (T, T) -> bool, keep: T -> bool)
    requires TotalPreorder(leq) && Sorted(sorted, leq)
    ensures Filter(Insert(x, sorted, leq), keep) == if keep(x) then Insert(x, Filter(sorted, keep), leq)
            else Filter(sorted, keep)
  {
    var kept := Filter(sorted, keep);
    if sorted == [] || leq(x, sorted[0]) {
      FilterCons(x, sorted, keep);
      if kept != [] {
        FilterMember(sorted, keep, kept[0]);
        assert sorted[0] == kept[0] || leq(sorted[0], kept[0]);
      }
    } else {
      var first, rest := sorted[0], sorted[1..];
      assert sorted == [first] + rest;
      SortedTail(sorted, leq);
      FilterInsert(x, rest, leq, keep);
      FilterCons(first, rest, keep);
      FilterCons(first, Insert(x, rest, leq), keep);
      InsertAtHead(x, first, Filter(rest, keep), leq);
    }
  }

  lemma {:induction false} InsertAtHead<T>(x: T, first: T, rest: seq<T>, leq: (T, T) -> bool)
    requires !leq(x, first)
    ensures Insert(x, [first] + rest, leq) == [first] + Insert(x, rest, leq)
  {
    assert ([first] + rest)[1..] == rest;
  }

  /** A stable sort and a selection commute. */
  lemma {:induction false} FilterSort<T(!new)>(xs: seq<T>, leq: (T, T) -> bool, keep: T -> bool)
    requires TotalPreorder(leq)
    ensures Filter(Sort(xs, leq), keep) == Sort(Filter(xs, keep), leq)
  {
    if xs != [] {
      var x, rest := xs[0], xs[1..];
      FilterSort(rest, leq, keep);
      SortSorts(rest, leq);
      FilterInsert(x, Sort(rest, leq), leq, keep);
      assert xs == [x] + rest;
      FilterCons(x, rest, keep);
      assert keep(x) ==> ([x] + Filter(rest, keep))[1..] == Filter(rest, keep);
    }
  }

  /** A stable sort leaves elements that tie in the order they came in. */
  lemma {:induction false} SortKeepsTies<T(!new)>(xs: seq<T>, leq: (T, T) -> bool, x: T)
    requires TotalPreorder(leq)
    ensures Filter(Sort(xs, leq), y => Tied(x, y, leq)) == Filter(xs, y => Tied(x, y, leq))
  {
    var keep := y => Tied(x, y, leq);
    FilterSort(xs, leq, keep);
    var kept := Filter(xs, keep);
    forall i, j | 0 <= i < j < |kept|
      ensures leq(kept[i], kept[j])
    {
      FilterMember(xs, keep, kept[i]);
      FilterMember(xs, keep, kept[j]);
      assert leq(kept[i], x) && leq(x, kept[j]);
    }
    SortKeepsSorted(kept, leq);
  }

  /** The same elements tie with `x` in the same order. */
  ghost predicate SameTies<T(!new)>(xs: seq<T>, ys: seq<T>, leq: (T, T) -> bool) {
    forall x :: Ties(xs, x, leq) == Ties(ys, x, leq)
  }

  ghost function Ties<T>(xs: seq<T>, x: T, leq: (T, T) -> bool): seq<T> {
    Filter(xs, y => Tied(x, y, leq))
  }

  lemma TiesCons<T>(first: T, rest: seq<T>, x: T, leq: (T, T) -> bool)
    ensures Ties([first] + rest, x, leq) == if Tied(x, first, leq) then [first] + Ties(rest, x, leq)
            else Ties(rest, x, leq)
  {
    FilterCons(first, rest, y => Tied(x, y, leq));
  }

  lemma HeadAmongTies<T(!new)>(xs: seq<T>, ys: seq<T>, leq: (T, T) -> bool)
    requires TotalPreorder(leq) && Sorted(xs, leq) && SameTies(xs, ys, leq) && ys != []
    ensures xs != [] && leq(xs[0], ys[0])
  {
    var y := ys[0];
    assert ys == [y] + ys[1..] && leq(y, y);
    TiesCons(y, ys[1..], y, leq);
    assert Ties(xs, y, leq)[0] == y;
    FilterMember(xs, z => Tied(y, z, leq), y);
  }

  lemma TailsTie<T(!new)>(first: T, xs: seq<T>, ys: seq<T>, leq: (T, T) -> bool)
    requires SameTies([first] + xs, [first] + ys, leq)
    ensures SameTies(xs, ys, leq)
  {
    forall z
      ensures Ties(xs, z, leq) == Ties(ys, z, leq)
    {
      TiesCons(first, xs, z, leq);
      TiesCons(first, ys, z, leq);
      assert Ties([first] + xs, z, leq) == Ties([first] + ys, z, leq);
      if Tied(z, first, leq) {
        ConsCancel(first, Ties(xs, z, leq), Ties(ys, z, leq));
      }
    }
  }

  /** A sorted arrangement is determined by the order within its ties. */
  lemma {:induction false} StableUnique<T(!new)>(xs: seq<T>, ys: seq<T>, leq: (T, T) -> bool)
    requires TotalPreorder(leq) && Sorted(xs, leq) && Sorted(ys, leq) && SameTies(xs, ys, leq)
    ensures xs == ys
  {
    if xs != [] || ys != [] {
      if ys != [] {
        HeadAmongTies(xs, ys, leq);
      }
      HeadAmongTies(ys, xs, leq);
      var x := xs[0];
      assert xs == [x] + xs[1..] && ys == [ys[0]] + ys[1..] && leq(x, x);
      TiesCons(x, xs[1..], x, leq);
      TiesCons(ys[0], ys[1..], x, leq);
      assert Ties(xs, x, leq)[0] == Ties(ys, x, leq)[0];
      TailsTie(x, xs[1..], ys[1..], leq);
      SortedTail(xs, leq);
      SortedTail(ys, leq);
      StableUnique(xs[1..], ys[1..], leq);
    }
  }

  lemma ConsCancel<T>(x: T, a: seq<T>, b: seq<T>)
    requires [x] + a == [x] + b
    ensures a == b
  {
    assert a == ([x] + a)[1..] == ([x] + b)[1..] == b;
  }

  /** Two arrangements sort alike exactly when no tie was reordered. */
  lemma SortsAlike<T(!new)>(xs: seq<T>, ys: seq<T>, leq: (T, T) -> bool)
    requires TotalPreorder(leq)
    ensures Sort(xs, leq) == Sort(ys, leq) <==> SameTies(xs, ys, leq)
  {
    forall x
      ensures Ties(Sort(xs, leq), x, leq) == Ties(xs, x, leq) && Ties(Sort(ys, leq), x, leq) == Ties(ys, x, leq)
    {
      SortKeepsTies(xs, leq, x);
      SortKeepsTies(ys, leq, x);
    }
    if SameTies(xs, ys, leq) {
      SortSorts(xs, leq);
      SortSorts(ys, leq);
      StableUnique(Sort(xs, leq), Sort(ys, leq), leq);
    }
  }

  // Elements that are all different

  ghost predicate Distinct<T>(xs: seq<T>) {
    forall i, j | 0 <= i < j < |xs| :: xs[i] != xs[j]
  }

  /** No two different elements tie. */
  ghost predicate NoTies<T(!new)>(xs: seq<T>, leq: (T, T) -> bool) {
    forall x, y | x in xs && y in xs && Tied(x, y, leq) :: x == y
  }

  lemma {:induction false} FilterNone<T>(xs: seq<T>, keep: T -> bool)
    requires forall x | x in xs :: !keep(x)
    ensures Filter(xs, keep) == []
  {
    if xs != [] {
      FilterNone(xs[1..], keep);
    }
  }

  lemma {:induction false} FilterOne<T>(xs: seq<T>, keep: T -> bool, y: T)
    requires Distinct(xs) && y in xs && keep(y) && forall z | z in xs && keep(z) :: z == y
    ensures Filter(xs, keep) == [y]
  {
    var rest := xs[1..];
    if xs[0] == y {
      assert forall z | z in rest :: z != y;
      FilterNone(rest, keep);
    } else {
      assert y in rest;
      FilterOne(rest, keep, y);
    }
  }

  /** Different elements that never tie are sorted into one order. */
  lemma {:induction false} UntiedSortAlike<T(!new)>(xs: seq<T>, ys: seq<T>, leq: (T, T) -> bool)
    requires TotalPreorder(leq) && Distinct(xs) && Distinct(ys) && (forall x :: x in xs <==> x in ys) && NoTies(xs, leq)
    ensures Sort(xs, leq) == Sort(ys, leq)
  {
    forall x ensures Ties(xs, x, leq) == Ties(ys, x, leq) {
      var keep := z => Tied(x, z, leq);
      if y :| y in xs && keep(y) {
        forall z | z in xs && keep(z) ensures z == y {
          assert Tied(y, z, leq);
        }
        FilterOne(xs, keep, y);
        FilterOne(ys, keep, y);
      } else {
        FilterNone(xs, keep);
        FilterNone(ys, keep);
      }
    }
    SortsAlike(xs, ys, leq);
  }

  /** Different elements, placed by one comparison, are sorted alike by another if no two tie under both. */
  lemma {:induction false} PlacedSortAlike<T(!new)>(xs: seq<T>, ys: seq<T>, leq: (T, T) -> bool, place: (T, T) -> bool)
    requires TotalPreorder(leq) && Distinct(xs) && Distinct(ys) && (forall x :: x in xs <==> x in ys)
    requires TotalPreorder(place) && Sorted(xs, place) && Sorted(ys, place)
    requires forall x, y | x in xs && y in xs && Tied(x, y, leq) && Tied(x, y, place) :: x == y
    ensures Sort(xs, leq) == Sort(ys, leq)
  {
    forall x ensures Ties(xs, x, leq) == Ties(ys, x, leq) {
      var keep := z => Tied(x, z, leq);
      TiesPlaced(xs, x, leq, place);
      TiesPlaced(ys, x, leq, place);
      forall z ensures z in Ties(xs, x, leq) <==> z in xs && keep(z) {
        FilterMember(xs, keep, z);
      }
      forall z ensures z in Ties(ys, x, leq) <==> z in ys && keep(z) {
        FilterMember(ys, keep, z);
      }
      UntiedSortAlike(Ties(xs, x, leq), Ties(ys, x, leq), place);
    }
    SortsAlike(xs, ys, leq);
  }

  lemma {:induction false} TiesPlaced<T(!new)>(xs: seq<T>, x: T, leq: (T, T) -> bool, place: (T, T) -> bool)
    requires Distinct(xs) && TotalPreorder(place) && Sorted(xs, place)
    ensures Distinct(Ties(xs, x, leq)) && Sort(Ties(xs, x, leq), place) == Ties(xs, x, leq)
  {
    var keep := z => Tied(x, z, leq);
    FilterDistinct(xs, keep);
    FilterSort(xs, place, keep);
    SortKeepsSorted(xs, place);
  }

  /** A selection keeps elements in their order. */
  lemma {:induction false} FilterOrder<T>(xs: seq<T>, keep: T -> bool, i: nat, j: nat) returns (p: nat, q: nat)
    requires i < j < |xs| && keep(xs[i]) && keep(xs[j])
    ensures p < q < |Filter(xs, keep)| && Filter(xs, keep)[p] == xs[i] && Filter(xs, keep)[q] == xs[j]
  {
    var rest := xs[1..];
    if i > 0 {
      p, q := FilterOrder(rest, keep, i - 1, j - 1);
      if keep(xs[0]) {
        p, q := p + 1, q + 1;
      }
    } else {
      FilterMember(rest, keep, xs[j]);
      assert rest[j - 1] == xs[j];
      var k :| 0 <= k < |Filter(rest, keep)| && Filter(rest, keep)[k] == xs[j];
      p, q := 0, k + 1;
    }
  }

  /** What comes in order in a selection came in that order before. */
  lemma {:induction false} FilterFrom<T>(xs: seq<T>, keep: T -> bool, p: nat, q: nat) returns (i: nat, j: nat)
    requires p < q < |Filter(xs, keep)|
    ensures i < j < |xs| && xs[i] == Filter(xs, keep)[p] && xs[j] == Filter(xs, keep)[q]
  {
    var rest := xs[1..];
    var kept := Filter(rest, keep);
    if !keep(xs[0]) {
      i, j := FilterFrom(rest, keep, p, q);
      i, j := i + 1, j + 1;
    } else if p > 0 {
      i, j := FilterFrom(rest, keep, p - 1, q - 1);
      i, j := i + 1, j + 1;
    } else {
      FilterMember(rest, keep, kept[q - 1]);
      var k :| 0 <= k < |rest| && rest[k] == kept[q - 1];
      i, j := 0, k + 1;
    }
  }

  lemma {:induction false} FilterDistinct<T>(xs: seq<T>, keep: T -> bool)
    requires Distinct(xs)
    ensures Distinct(Filter(xs, keep))
  {
    if xs != [] {
      FilterDistinct(xs[1..], keep);
      if keep(xs[0]) {
        FilterMember(xs[1..], keep, xs[0]);
        var kept := Filter(xs[1..], keep);
        assert forall k | 0 <= k < |kept| :: kept[k] in kept;
      }
    }
  }

  function Swap<T>(xs: seq<T>, i: nat, j: nat): seq<T>
    requires i < j < |xs|
  {
    xs[i := xs[j]][j := xs[i]]
  }

  lemma {:induction false} OppositeOrders<T>(a: seq<T>, b: seq<T>, p: nat, q: nat, p': nat, q': nat)
    requires Distinct(a) && p < q < |a| && p' < q' < |b| && a[p] == b[q'] && a[q] == b[p']
    ensures a != b
  {}

  /** Two different elements that tie sort differently once they are exchanged. */
  lemma {:induction false} SwapSortsApart<T(!new)>(xs: seq<T>, leq: (T, T) -> bool, i: nat, j: nat)
    requires TotalPreorder(leq) && Distinct(xs) && i < j < |xs| && Tied(xs[i], xs[j], leq)
    ensures Sort(xs, leq) != Sort(Swap(xs, i, j), leq)
  {
    var ys, x := Swap(xs, i, j), xs[i];
    var keep := z => Tied(x, z, leq);
    assert leq(x, x);
    var p, q := FilterOrder(xs, keep, i, j);
    var p', q' := FilterOrder(ys, keep, i, j);
    FilterDistinct(xs, keep);
    OppositeOrders(Filter(xs, keep), Filter(ys, keep), p, q, p', q');
    assert Ties(xs, x, leq) != Ties(ys, x, leq);
    SortsAlike(xs, ys, leq);
  }

  lemma {:induction false} InsertDistinct<T>(x: T, sorted: seq<T>, leq: (T, T) -> bool)
    requires Distinct(sorted) && x !in sorted
    ensures Distinct(Insert(x, sorted, leq))
  {
    if sorted != [] && !leq(x, sorted[0]) {
      var tail := Insert(x, sorted[1..], leq);
      InsertDistinct(x, sorted[1..], leq);
      InsertPermutes(x, sorted[1..], leq);
      assert forall y | y in tail :: y in multiset(tail);
      assert forall k | 0 <= k < |tail| :: tail[k] in tail;
    }
  }

  lemma {:induction false} SortDistinct<T>(xs: seq<T>, leq: (T, T) -> bool)
    requires Distinct(xs)
    ensures Distinct(Sort(xs, leq))
  {
    if xs != [] {
      SortDistinct(xs[1..], leq);
      SortMembers(xs[1..], leq);
      InsertDistinct(xs[0], Sort(xs[1..], leq), leq);
    }
  }

  lemma {:induction false} MultisetDistinct<T>(xs: seq<T>)
    ensures Distinct(xs) <==> forall x :: multiset(xs)[x] <= 1
  {
    if xs != [] {
      var first, rest := xs[0], xs[1..];
      assert xs == [first] + rest;
      MultisetDistinct(rest);
      assert first in rest <==> multiset(rest)[first] > 0;
      assert forall x :: multiset(xs)[x] == multiset(rest)[x] + if x == first then 1 else 0;
      if Distinct(rest) && first !in rest {
        assert forall j | 0 < j < |xs| :: xs[j] == rest[j - 1] && rest[j - 1] in rest;
      }
      if Distinct(xs) {
        assert forall j | 0 <= j < |rest| :: rest[j] == xs[j + 1];
      }
    }
  }

  /** An arrangement in strict order is the sort of every other arrangement. */
  lemma {:induction false} SortOfDistinct<T(!new)>(xs: seq<T>, ys: seq<T>, leq: (T, T) -> bool)
    requires TotalPreorder(leq) && multiset(xs) == multiset(ys) && Sorted(ys, leq) && Distinct(ys) && NoTies(ys, leq)
    ensures Sort(xs, leq) == ys
  {
    MultisetDistinct(xs);
    MultisetDistinct(ys);
    forall x ensures x in xs <==> x in ys {
      assert x in multiset(xs) <==> x in multiset(ys);
    }
    UntiedSortAlike(ys, xs, leq);
    SortKeepsSorted(ys, leq);
  }

  // A sort between two others

  /**
   Of two elements that tie under the last comparison and under the placing one, the first comparison leaves the
   earlier first.
   */
  ghost predicate LeavesTies<T(!new)>(xs: seq<T>, first: (T, T) -> bool, place: (T, T) -> bool, last: (T, T) -> bool) {
    forall i, j | 0 <= i < j < |xs| && Tied(xs[i], xs[j], last) && Tied(xs[i], xs[j], place) :: first(xs[i], xs[j])
  }

  ghost function Resorted<T>(xs: seq<T>, first: (T, T) -> bool, place: (T, T) -> bool): seq<T> {
    Sort(Sort(xs, first), place)
  }

  /**
   A sequence in place survives being sorted and put in place again if and only if elements in one place are sorted.
   */
  lemma {:induction false} ResortedSame<T(!new)>(xs: seq<T>, first: (T, T) -> bool, place: (T, T) -> bool)
    requires TotalPreorder(first) && TotalPreorder(place) && Sort(xs, place) == xs
    ensures Resorted(xs, first, place) == xs <==> forall x :: Sorted(Ties(xs, x, place), first)
  {
    SortsAlike(Sort(xs, first), xs, place);
    forall x
      ensures Ties(Sort(xs, first), x, place) == Ties(xs, x, place) <==> Sorted(Ties(xs, x, place), first)
    {
      FilterSort(xs, first, y => Tied(x, y, place));
      SortSorts(Ties(xs, x, place), first);
      if Sorted(Ties(xs, x, place), first) {
        SortKeepsSorted(Ties(xs, x, place), first);
      }
    }
  }

  lemma {:induction false} ResortedTies<T(!new)>(xs: seq<T>, first: (T, T) -> bool, place: (T, T) -> bool,
      last: (T, T) -> bool, x: T)
    requires TotalPreorder(first) && TotalPreorder(place) && Sorted(xs, place)
    ensures Ties(Resorted(xs, first, place), x, last) == Ties(xs, x, last) <==>
            forall y :: Sorted(Ties(Ties(xs, x, last), y, place), first)
  {
    var keep := y => Tied(x, y, last);
    FilterSort(Sort(xs, first), place, keep);
    FilterSort(xs, first, keep);
    FilterSort(xs, place, keep);
    SortKeepsSorted(xs, place);
    ResortedSame(Ties(xs, x, last), first, place);
  }

  /** Two elements of the same ties under both comparisons, as positions. */
  lemma {:induction false} TiesSorted<T(!new)>(xs: seq<T>, first: (T, T) -> bool, place: (T, T) -> bool,
      last: (T, T) -> bool, x: T, y: T)
    requires TotalPreorder(place) && TotalPreorder(last) && LeavesTies(xs, first, place, last)
    ensures Sorted(Ties(Ties(xs, x, last), y, place), first)
  {
    var outer, inner := z => Tied(x, z, last), z => Tied(y, z, place);
    var ties := Ties(xs, x, last);
    var both := Ties(ties, y, place);
    forall p, q | 0 <= p < q < |both| ensures first(both[p], both[q]) {
      FilterMember(ties, inner, both[p]);
      FilterMember(ties, inner, both[q]);
      FilterMember(xs, outer, both[p]);
      FilterMember(xs, outer, both[q]);
      var k, l := FilterFrom(ties, inner, p, q);
      var i, j := FilterFrom(xs, outer, k, l);
      assert Tied(xs[i], xs[j], last) && Tied(xs[i], xs[j], place);
    }
  }

  lemma {:induction false} TiesLeft<T(!new)>(xs: seq<T>, first: (T, T) -> bool, place: (T, T) -> bool,
      last: (T, T) -> bool, i: nat, j: nat)
    requires TotalPreorder(place) && TotalPreorder(last) && i < j < |xs| && Tied(xs[i], xs[j], last)
             && Tied(xs[i], xs[j], place)
    requires Sorted(Ties(Ties(xs, xs[i], last), xs[i], place), first)
    ensures first(xs[i], xs[j])
  {
    var x := xs[i];
    assert last(x, x) && place(x, x);
    var k, l := FilterOrder(xs, z => Tied(x, z, last), i, j);
    var p, q := FilterOrder(Ties(xs, x, last), z => Tied(x, z, place), k, l);
  }

  /**
   A sequence in place, sorted by one comparison and put in place again, is sorted by another as it would have
   been before if and only if the first leaves what ties under both of the others in order.
   */
  lemma {:induction false} ResortedSortsAlike<T(!new)>(xs: seq<T>, first: (T, T) -> bool, place: (T, T) -> bool,
      last: (T, T) -> bool)
    requires TotalPreorder(first) && TotalPreorder(place) && TotalPreorder(last) && Sorted(xs, place)
    ensures Sort(Resorted(xs, first, place), last) == Sort(xs, last) <==> LeavesTies(xs, first, place, last)
  {
    var again := Resorted(xs, first, place);
    SortsAlike(again, xs, last);
    if LeavesTies(xs, first, place, last) {
      forall x ensures Ties(again, x, last) == Ties(xs, x, last) {
        ResortedTies(xs, first, place, last, x);
        forall y ensures Sorted(Ties(Ties(xs, x, last), y, place), first) {
          TiesSorted(xs, first, place, last, x, y);
        }
      }
    }
    if SameTies(again, xs, last) {
      forall i, j | 0 <= i < j < |xs| && Tied(xs[i], xs[j], last) && Tied(xs[i], xs[j], place)
        ensures first(xs[i], xs[j])
      {
        assert Ties(again, xs[i], last) == Ties(xs, xs[i], last);
        ResortedTies(xs, first, place, last, xs[i]);
        TiesLeft(xs, first, place, last, i, j);
      }
    }
  }
}
