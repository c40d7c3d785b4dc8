/** One field of a cron schedule: its expansion into values, and what it means. */
module CronField {
  import opened Wrappers
  import opened Text

  /** One list element: the values lo, lo + step, ... up to hi. */
  datatype Range = Range(lo: int, hi: int, step: int)

  /** Reads the part of a list element in front of its step. */
  function ParseBounds(body: string, min: int, max: int, hasStep: bool): Result<(int, int)> {
    var dash := IndexOf(body, '-');
    if body == "*" then
      Success((min, max))
    else if dash >= 0 then
      match (Atoi(body[..dash]), Atoi(body[dash + 1..]))
      case (Some(lo), Some(hi)) => Success((lo, hi))
      case _ => Failure
    else
      match Atoi(body)
      case Some(v) => Success((v, if hasStep then max else v))
      case None => Failure
  }

  function ParseStep(part: string): Result<int> {
    var slash := IndexOf(part, '/');
    if slash < 0 then Success(1)
    else match Atoi(part[slash + 1..])
      case Some(s) => if s < 1 then Failure else Success(s)
      case None => Failure
  }

  function ParsePart(part: string, min: int, max: int): (r: Result<Range>)
    ensures r.Success? ==> min <= r.value.lo <= r.value.hi <= max && r.value.step >= 1
  {
    var slash := IndexOf(part, '/');
    var step :- ParseStep(part);
    var bounds :- ParseBounds(if slash < 0 then part else part[..slash], min, max, slash >= 0);
    if bounds.0 < min || bounds.1 > max || bounds.0 > bounds.1 then Failure
    else Success(Range(bounds.0, bounds.1, step))
  }

  function Values(lo: int, hi: int, step: int): seq<int>
    requires step >= 1
    decreases hi - lo
  {
    if lo > hi then [] else [lo] + Values(lo + step, hi, step)
  }

  function ExpandParts(parts: seq<string>, min: int, max: int): Result<seq<int>> {
    if parts == [] then
      Success([])
    else
      var front :- ExpandParts(parts[..|parts| - 1], min, max);
      var r :- ParsePart(parts[|parts| - 1], min, max);
      Success(front + Values(r.lo, r.hi, r.step))
  }

  function Expand(f: string, min: int, max: int): Result<seq<int>> {
    if f == "" then Failure else ExpandParts(Split(f, ','), min, max)
  }

  // ---- What a field means ----

  predicate PartMatches(part: string, min: int, max: int, v: int) {
    var r := ParsePart(part, min, max);
    r.Success? && r.value.lo <= v <= r.value.hi && (v - r.value.lo) % r.value.step == 0
  }

  /** A field matches a value when one of its list elements does. */
  predicate Matches(f: string, min: int, max: int, v: int) {
    exists part | part in Split(f, ',') :: PartMatches(part, min, max, v)
  }

  lemma MulAtLeast(x: int, d: int)
    requires x >= 1 && d >= 1
    ensures x * d >= d
  {
    assert x * d == (x - 1) * d + d;
    assert (x - 1) * d >= 0;
  }

  lemma ModUnique(a: int, d: int, q: int, r: int)
    requires d >= 1 && 0 <= r < d && a == q * d + r
    ensures a % d == r
  {
    var q', r' := a / d, a % d;
    assert a == q' * d + r';
    assert (q - q') * d == r' - r by { assert (q - q') * d == q * d - q' * d; }
    assert (q' - q) * d == -((q - q') * d);
    if q > q' { MulAtLeast(q - q', d); }
    if q' > q { MulAtLeast(q' - q, d); }
  }

  lemma ModStep(a: int, step: int)
    requires step >= 1
    ensures (a + step) % step == a % step
  {
    var q := a / step;
    assert a == q * step + a % step;
    assert (q + 1) * step == q * step + step;
    ModUnique(a + step, step, q + 1, a % step);
  }

  lemma {:induction false} ValuesMembers(lo: int, hi: int, step: int, v: int)
    requires step >= 1
    ensures v in Values(lo, hi, step) <==> lo <= v <= hi && (v - lo) % step == 0
    decreases hi - lo
  {
    if lo <= hi {
      ValuesMembers(lo + step, hi, step, v);
      var rest := Values(lo + step, hi, step);
      assert v in Values(lo, hi, step) <==> v == lo || v in rest;
      if v == lo {
        ModUnique(0, step, 0, 0);
      } else if lo < v < lo + step {
        ModUnique(v - lo, step, 0, v - lo);
      } else if v >= lo + step {
        ModStep(v - lo - step, step);
        assert v - (lo + step) == v - lo - step;
      }
    }
  }

  lemma PartMembers(part: string, min: int, max: int, v: int)
    requires ParsePart(part, min, max).Success?
    ensures var r := ParsePart(part, min, max).value;
            v in Values(r.lo, r.hi, r.step) <==> PartMatches(part, min, max, v)
  {
    var r := ParsePart(part, min, max).value;
    ValuesMembers(r.lo, r.hi, r.step, v);
  }

  /** One more list element: what the last one contributes. */
  lemma ExpandPartsSnoc(front: seq<string>, last: string, min: int, max: int, v: int)
    requires ExpandParts(front + [last], min, max).Success?
    ensures ExpandParts(front, min, max).Success? && ParsePart(last, min, max).Success?
    ensures v in ExpandParts(front + [last], min, max).value <==>
            v in ExpandParts(front, min, max).value || PartMatches(last, min, max, v)
  {
    assert (front + [last])[..|front|] == front;
    PartMembers(last, min, max, v);
  }

  lemma ExistsSnoc(front: seq<string>, last: string, min: int, max: int, v: int)
    ensures (exists part | part in front + [last] :: PartMatches(part, min, max, v)) <==>
            (exists part | part in front :: PartMatches(part, min, max, v)) || PartMatches(last, min, max, v)
  {
    if part :| part in front && PartMatches(part, min, max, v) { assert part in front + [last]; }
    assert last in front + [last];
  }

  lemma {:induction false} ExpandPartsMembers(parts: seq<string>, min: int, max: int, v: int)
    requires ExpandParts(parts, min, max).Success?
    ensures v in ExpandParts(parts, min, max).value <==> exists part | part in parts :: PartMatches(part, min, max, v)
    ensures forall part | part in parts :: ParsePart(part, min, max).Success?
  {
    if parts != [] {
      var front, last := parts[..|parts| - 1], parts[|parts| - 1];
      assert parts == front + [last];
      ExpandPartsSnoc(front, last, min, max, v);
      ExpandPartsMembers(front, min, max, v);
      ExistsSnoc(front, last, min, max, v);
    }
  }

  /** The expansion lists exactly the values the field matches, all within the field's bounds. */
  lemma ExpandIsMatches(f: string, min: int, max: int, v: int)
    requires Expand(f, min, max).Success?
    ensures v in Expand(f, min, max).value <==> Matches(f, min, max, v)
    ensures Matches(f, min, max, v) ==> min <= v <= max
  {
    ExpandPartsMembers(Split(f, ','), min, max, v);
  }

  /** An accepted field matches something. */
  lemma MatchesSomething(f: string, min: int, max: int) returns (v: int)
    requires Expand(f, min, max).Success?
    ensures Matches(f, min, max, v)
  {
    var part := Split(f, ',')[0];
    ExpandPartsMembers(Split(f, ','), min, max, min);
    assert part in Split(f, ',');
    v := ParsePart(part, min, max).value.lo;
    assert PartMatches(part, min, max, v);
  }

  lemma StarMatchesAll(min: int, max: int, v: int)
    requires min <= v <= max
    ensures Expand("*", min, max).Success? && Matches("*", min, max, v)
  {
    SplitPlain("*", ',');
    assert ParsePart("*", min, max) == Success(Range(min, max, 1));
    assert "*" in Split("*", ',');
    assert PartMatches("*", min, max, v);
    assert ["*"][..0] == [];
    assert ExpandParts(["*"], min, max).Success?;
  }

  // ---- The loops ----

  lemma {:induction false} ExpandPartsFails(parts: seq<string>, n: nat, min: int, max: int)
    requires n <= |parts| && ExpandParts(parts[..n], min, max).Failure?
    ensures ExpandParts(parts, min, max).Failure?
    decreases |parts|
  {
    if n < |parts| {
      assert parts[..|parts| - 1][..n] == parts[..n];
      ExpandPartsFails(parts[..|parts| - 1], n, min, max);
    } else {
      assert parts[..n] == parts;
    }
  }

  /** The inner loop: one list element's values. */
  method AppendValues(before: seq<int>, lo: int, hi: int, step: int) returns (out: seq<int>)
    requires step >= 1
    ensures out == before + Values(lo, hi, step)
  {
    out := before;
    var v := lo;
    while v <= hi
      invariant out + Values(v, hi, step) == before + Values(lo, hi, step)
      decreases hi - v
    {
      out := out + [v];
      v := v + step;
    }
  }

  /** expandCronField: appends the values of each list element in turn. */
  method ExpandCronField(f: string, min: int, max: int) returns (r: Result<seq<int>>)
    ensures r == Expand(f, min, max)
  {
    if f == "" {
      return Failure;
    }
    var parts := Split(f, ',');
    var out: seq<int> := [];
    for i := 0 to |parts|
      invariant ExpandParts(parts[..i], min, max) == Success(out)
    {
      assert parts[..i + 1][..i] == parts[..i];
      var part := ParsePart(parts[i], min, max);
      if part.Failure? {
        ExpandPartsFails(parts, i + 1, min, max);
        return Failure;
      }
      out := AppendValues(out, part.value.lo, part.value.hi, part.value.step);
    }
    assert parts[..|parts|] == parts;
    r := Success(out);
  }
}
