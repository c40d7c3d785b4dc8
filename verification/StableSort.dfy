/** A stable sort by a numeric rank (sort.SliceStable), and the fact that sortedness and stability
    leave it only one possible result. */
module StableSort {

  ghost predicate Sorted<T>(list: seq<T>, rank: T -> nat) {
    forall i, j | 0 <= i < j < |list| :: rank(list[i]) <= rank(list[j])
  }

  /** The elements of rank `q`, in list order. A reordering is stable when it keeps all of these. */
  function OfRank<T>(list: seq<T>, rank: T -> nat, q: nat): seq<T> {
    if list == [] then []
    else if rank(list[0]) == q then [list[0]] + OfRank(list[1..], rank, q)
    else OfRank(list[1..], rank, q)
  }

  ghost predicate SameClasses<T>(a: seq<T>, b: seq<T>, rank: T -> nat) {
    forall q: nat :: OfRank(a, rank, q) == OfRank(b, rank, q)
  }

  /** Puts `x` in front of the first element that does not rank below it. */
  function Insert<T>(x: T, sorted: seq<T>, rank: T -> nat): seq<T> {
    if sorted == [] || rank(x) <= rank(sorted[0]) then [x] + sorted
    else [sorted[0]] + Insert(x, sorted[1..], rank)
  }

  function Sort<T>(list: seq<T>, rank: T -> nat): seq<T> {
    if list == [] then [] else Insert(list[0], Sort(list[1..], rank), rank)
  }

  lemma PrependLeast<T>(x: T, rest: seq<T>, rank: T -> nat)
    requires Sorted(rest, rank)
    requires forall y | y in rest :: rank(x) <= rank(y)
    ensures Sorted([x] + rest, rank)
  {
    var r := [x] + rest;
    forall i, j | 0 <= i < j < |r| ensures rank(r[i]) <= rank(r[j]) {
      assert r[j] == rest[j - 1];
      if i > 0 { assert r[i] == rest[i - 1]; }
    }
  }

  lemma LeastOfSorted<T>(sorted: seq<T>, rank: T -> nat, y: T)
    requires Sorted(sorted, rank) && y in sorted
    ensures rank(sorted[0]) <= rank(y)
  {
    var k :| 0 <= k < |sorted| && sorted[k] == y;
  }

  lemma {:induction false} InsertSorts<T>(x: T, sorted: seq<T>, rank: T -> nat)
    requires Sorted(sorted, rank)
    ensures multiset(Insert(x, sorted, rank)) == multiset([x] + sorted)
    ensures Sorted(Insert(x, sorted, rank), rank)
  {
    if sorted == [] {
    } else if rank(x) <= rank(sorted[0]) {
      forall y | y in sorted ensures rank(x) <= rank(y) { LeastOfSorted(sorted, rank, y); }
      PrependLeast(x, sorted, rank);
    } else {
      var tail := sorted[1..];
      var rest := Insert(x, tail, rank);
      assert sorted == [sorted[0]] + tail;
      InsertSorts(x, tail, rank);
      forall y | y in rest ensures rank(sorted[0]) <= rank(y) {
        assert y in multiset(rest);
        if y != x {
          assert y in multiset(tail);
          LeastOfSorted(sorted, rank, y);
        }
      }
      PrependLeast(sorted[0], rest, rank);
    }
  }

  /** Sorting loses and invents nothing, and sorts. */
  lemma {:induction false} SortSorts<T>(list: seq<T>, rank: T -> nat)
    ensures multiset(Sort(list, rank)) == multiset(list)
    ensures Sorted(Sort(list, rank), rank)
  {
    if list != [] {
      SortSorts(list[1..], rank);
      InsertSorts(list[0], Sort(list[1..], rank), rank);
      assert list == [list[0]] + list[1..];
    }
  }

  lemma OfRankCons<T>(x: T, rest: seq<T>, rank: T -> nat, q: nat)
    ensures OfRank([x] + rest, rank, q) == (if rank(x) == q then [x] else []) + OfRank(rest, rank, q)
  {
    assert ([x] + rest)[1..] == rest;
  }

  lemma {:induction false} InsertIsStable<T>(x: T, sorted: seq<T>, rank: T -> nat, q: nat)
    ensures OfRank(Insert(x, sorted, rank), rank, q) == OfRank([x] + sorted, rank, q)
  {
    if sorted != [] && rank(sorted[0]) < rank(x) {
      var tail := sorted[1..];
      InsertIsStable(x, tail, rank, q);
      OfRankCons(sorted[0], Insert(x, tail, rank), rank, q);
      OfRankCons(x, tail, rank, q);
      OfRankCons(x, sorted, rank, q);
    }
  }

  /** Elements of equal rank keep their relative order. */
  lemma {:induction false} SortIsStable<T>(list: seq<T>, rank: T -> nat, q: nat)
    ensures OfRank(Sort(list, rank), rank, q) == OfRank(list, rank, q)
  {
    if list != [] {
      SortIsStable(list[1..], rank, q);
      InsertIsStable(list[0], Sort(list[1..], rank), rank, q);
      OfRankCons(list[0], Sort(list[1..], rank), rank, q);
    }
  }

  lemma {:induction false} ClassMember<T>(list: seq<T>, rank: T -> nat, x: T)
    requires x in list
    ensures OfRank(list, rank, rank(x)) != []
  {
    if x != list[0] { ClassMember(list[1..], rank, x); }
  }

  lemma {:induction false} ClassSubset<T>(list: seq<T>, rank: T -> nat, q: nat, x: T)
    requires x in OfRank(list, rank, q)
    ensures x in list && rank(x) == q
  {
    if rank(list[0]) == q && x == list[0] {
    } else {
      ClassSubset(list[1..], rank, q, x);
    }
  }

  lemma NoClassesNoElements<T>(a: seq<T>, rank: T -> nat)
    requires forall q: nat :: OfRank(a, rank, q) == []
    ensures a == []
  {
    if a != [] { ClassMember(a, rank, a[0]); }
  }

  lemma HeadRankLeast<T>(a: seq<T>, b: seq<T>, rank: T -> nat)
    requires a != [] && b != []
    requires Sorted(b, rank) && SameClasses(a, b, rank)
    ensures rank(b[0]) <= rank(a[0])
  {
    var q := rank(a[0]);
    ClassMember(a, rank, a[0]);
    assert OfRank(b, rank, q) == OfRank(a, rank, q);
    var y := OfRank(b, rank, q)[0];
    ClassSubset(b, rank, q, y);
    LeastOfSorted(b, rank, y);
  }

  /** Sortedness and stability determine the result, so it does not matter how the library sorts. */
  lemma {:induction false} StableSortIsUnique<T>(a: seq<T>, b: seq<T>, rank: T -> nat)
    requires Sorted(a, rank) && Sorted(b, rank)
    requires SameClasses(a, b, rank)
    ensures a == b
  {
    if a == [] {
      assert forall q: nat :: OfRank(b, rank, q) == OfRank(a, rank, q);
      NoClassesNoElements(b, rank);
    } else if b == [] {
      assert forall q: nat :: OfRank(a, rank, q) == OfRank(b, rank, q);
      NoClassesNoElements(a, rank);
    } else {
      HeadRankLeast(a, b, rank);
      HeadRankLeast(b, a, rank);
      var r := rank(a[0]);
      assert OfRank(a, rank, r) == [a[0]] + OfRank(a[1..], rank, r);
      assert OfRank(b, rank, r) == [b[0]] + OfRank(b[1..], rank, r);
      assert OfRank(a, rank, r) == OfRank(b, rank, r);
      assert OfRank(a, rank, r)[0] == a[0] && OfRank(b, rank, r)[0] == b[0];
      forall q: nat ensures OfRank(a[1..], rank, q) == OfRank(b[1..], rank, q) {
        assert OfRank(a, rank, q) == OfRank(b, rank, q);
        assert rank(a[0]) == q ==> OfRank(a[1..], rank, q) == OfRank(a, rank, q)[1..];
        assert rank(a[0]) == q ==> OfRank(b[1..], rank, q) == OfRank(b, rank, q)[1..];
      }
      StableSortIsUnique(a[1..], b[1..], rank);
      assert a == [a[0]] + a[1..] && b == [b[0]] + b[1..];
    }
  }

  /** A list is the sorted one exactly when it is sorted and keeps every rank class in order. */
  lemma SortCharacterized<T>(list: seq<T>, rank: T -> nat, r: seq<T>)
    ensures r == Sort(list, rank) <==> Sorted(r, rank) && SameClasses(r, list, rank)
  {
    SortSorts(list, rank);
    var s := Sort(list, rank);
    forall q: nat ensures OfRank(s, rank, q) == OfRank(list, rank, q) { SortIsStable(list, rank, q); }
    if Sorted(r, rank) && SameClasses(r, list, rank) {
      forall q: nat ensures OfRank(r, rank, q) == OfRank(s, rank, q) {
        assert OfRank(r, rank, q) == OfRank(list, rank, q);
      }
      StableSortIsUnique(r, s, rank);
    }
  }
}
