/** Filtering sequences, as the loops that append selected elements to a fresh slice do. */
module Seqs {

  function Filter<T>(s: seq<T>, keep: T -> bool): seq<T> {
    if s == [] then []
    else
      var last := s[|s| - 1];
      Filter(s[..|s| - 1], keep) + if keep(last) then [last] else []
  }

  lemma FilterStep<T>(s: seq<T>, keep: T -> bool, i: nat)
    requires i < |s|
    ensures Filter(s[..i + 1], keep) == Filter(s[..i], keep) + if keep(s[i]) then [s[i]] else []
  {
    assert s[..i + 1][..i] == s[..i];
  }

  lemma {:induction false} FilterConcat<T>(a: seq<T>, b: seq<T>, keep: T -> bool)
    ensures Filter(a + b, keep) == Filter(a, keep) + Filter(b, keep)
  {
    if b == [] {
      assert a + b == a;
    } else {
      var front := b[..|b| - 1];
      FilterConcat(a, front, keep);
      assert (a + b)[..|a + b| - 1] == a + front;
    }
  }

  lemma FilterCons<T>(s: seq<T>, keep: T -> bool)
    requires s != []
    ensures Filter(s, keep) == (if keep(s[0]) then [s[0]] else []) + Filter(s[1..], keep)
  {
    FilterConcat([s[0]], s[1..], keep);
    assert [s[0]] + s[1..] == s;
    assert Filter([s[0]], keep) == if keep(s[0]) then [s[0]] else [] by {
      assert [s[0]][..0] == [];
    }
  }

  lemma {:induction false} FilterMember<T>(s: seq<T>, keep: T -> bool, x: T)
    ensures x in Filter(s, keep) <==> x in s && keep(x)
  {
    if s != [] {
      FilterMember(s[..|s| - 1], keep, x);
      assert s == s[..|s| - 1] + [s[|s| - 1]];
    }
  }

  lemma {:induction false} FilterAll<T>(s: seq<T>, keep: T -> bool)
    requires forall x | x in s :: keep(x)
    ensures Filter(s, keep) == s
  {
    if s != [] {
      FilterAll(s[..|s| - 1], keep);
      assert s == s[..|s| - 1] + [s[|s| - 1]];
    }
  }
}
