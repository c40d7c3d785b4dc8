/** The cron compiler preserves meaning, and for exactly which schedules it does. */
module CronTranslation {
  import opened Wrappers
  import opened Text
  import opened CronField
  import opened CronCalendar

  // ---- The condition ----

  predicate PlainItem(s: string) {
    '*' !in s && '-' !in s
  }

  /** A stepped element steps to a second value. */
  predicate StepsOn(item: string, max: int) {
    '/' in item ==> match ParsePart(item, 0, max) case Success(r) => r.lo + r.step <= max case Failure => false
  }

  /** Whether the k-th element of a time field is still an element once the field is compiled. */
  predicate ItemExpressible(item: string, k: nat, max: int) {
    (PlainItem(item) || (k == 0 && HasPrefix(item, "*/"))) && StepsOn(item, max)
  }

  /** Time fields are passed on as text, so all but `*` must be a list of values and stepped values,
      at most the first element being a stepped star, and no step being beyond the field. */
  predicate TimeExpressible(f: string, max: int) {
    var items := Split(f, ',');
    f == "*" || forall k | 0 <= k < |items| :: ItemExpressible(items[k], k, max)
  }

  predicate CoversAll(f: string, min: int, max: int) {
    forall v | min <= v <= max :: Matches(f, min, max, v)
  }

  predicate AllWeekdays(f: string) {
    forall d | 0 <= d <= 6 :: WeekdayMatches(f, d)
  }

  predicate BothDaysRestricted(fields: seq<string>)
    requires |fields| == 5
  {
    fields[2] != "*" && fields[4] != "*"
  }

  predicate OnDate(fields: seq<string>, month: int, dom: int)
    requires |fields| == 5
  {
    Matches(fields[3], 1, 12, month) && Matches(fields[2], 1, 31, dom)
  }

  /** Some date of the calendar has both the month and the day of the month. */
  predicate HasDate(fields: seq<string>)
    requires |fields| == 5
  {
    exists month, dom | 1 <= month <= 12 && 1 <= dom <= DaysIn(month) :: OnDate(fields, month, dom)
  }

  /** The day-of-month field selects every day of the selected months. */
  predicate CoversItsMonths(fields: seq<string>)
    requires |fields| == 5
  {
    forall month, dom | 1 <= month <= 12 && 1 <= dom <= DaysIn(month) ::
      Matches(fields[3], 1, 12, month) ==> OnDate(fields, month, dom)
  }

  /** What a schedule must satisfy for its calendars to mean the same. An inexpressible time field makes
      its lines match nothing, so then the schedule must never fire. With both day fields restricted,
      the line for the weekdays drops the month, and a weekday field that selects every day loses its
      line. */
  predicate Translatable(fields: seq<string>)
    requires |fields| == 5
  {
    if !TimeExpressible(fields[0], 59) || !TimeExpressible(fields[1], 23) then
      !BothDaysRestricted(fields) && !HasDate(fields)
    else
      BothDaysRestricted(fields) ==>
        if AllWeekdays(fields[4]) then CoversItsMonths(fields) else CoversAll(fields[3], 1, 12)
  }

  // ---- Items of a time field ----

  predicate CronText(s: string) {
    forall c | c in s :: IsDigit(c) || c in {'*', '/', '-'}
  }

  lemma AtoiDigits(s: string)
    requires forall c | c in s :: IsDigit(c) || c == '/'
    requires Atoi(s).Some?
    ensures Number(s) && Atoi(s) == Some(DigitsValue(s))
  {
    assert s != "" && s[0] in s;
  }

  lemma PlainItemAgrees(s: string, max: int, v: int)
    requires CronText(s) && PlainItem(s) && ParsePart(s, 0, max).Success? && 0 <= v <= max
    ensures ParseItem(s, max).Some? <==> StepsOn(s, max)
    ensures StepsOn(s, max) ==> (ItemMatches(s, max, v) <==> PartMatches(s, 0, max, v))
  {
    if IndexOf(s, '/') < 0 { PlainValueAgrees(s, max, v); } else { PlainStepAgrees(s, max, v); }
  }

  lemma PlainValueAgrees(s: string, max: int, v: int)
    requires CronText(s) && PlainItem(s) && ParsePart(s, 0, max).Success? && '/' !in s
    ensures ParseItem(s, max).Some? && (ItemMatches(s, max, v) <==> PartMatches(s, 0, max, v))
  {
    assert IndexOf(s, '/') < 0 && IndexOf(s, '-') < 0 && s != "*";
    AtoiDigits(s);
  }

  lemma PlainStepParses(s: string, max: int)
    requires CronText(s) && PlainItem(s) && ParsePart(s, 0, max).Success? && IndexOf(s, '/') >= 0
    ensures var slash := IndexOf(s, '/'); var body, step := s[..slash], s[slash + 1..];
            && Number(body) && Number(step) && DigitsValue(step) >= 1
            && ParsePart(s, 0, max) == Success(Range(DigitsValue(body), max, DigitsValue(step)))
  {
    var slash := IndexOf(s, '/');
    var body, step := s[..slash], s[slash + 1..];
    PlainPiece(s, 0, slash);
    PlainPiece(s, slash + 1, |s|);
    assert s[0..slash] == body && s[slash + 1..|s|] == step;
    StepParts(s, body, step, max);
  }

  lemma PlainPiece(s: string, i: nat, j: nat)
    requires CronText(s) && PlainItem(s) && i <= j <= |s|
    ensures '*' !in s[i..j] && '-' !in s[i..j] && forall c | c in s[i..j] :: IsDigit(c) || c == '/'
  {
    assert forall c | c in s[i..j] :: c in s;
  }

  lemma StepParts(s: string, body: string, step: string, max: int)
    requires IndexOf(s, '/') >= 0 && body == s[..IndexOf(s, '/')] && step == s[IndexOf(s, '/') + 1..]
    requires '*' !in body && '-' !in body && forall c | c in body :: IsDigit(c) || c == '/'
    requires (forall c | c in step :: IsDigit(c) || c == '/') && ParsePart(s, 0, max).Success?
    ensures Number(body) && Number(step) && DigitsValue(step) >= 1
    ensures ParsePart(s, 0, max) == Success(Range(DigitsValue(body), max, DigitsValue(step)))
  {
    assert body != "*" && IndexOf(body, '-') < 0;
    AtoiDigits(body);
    AtoiDigits(step);
  }

  lemma PlainStepAgrees(s: string, max: int, v: int)
    requires CronText(s) && PlainItem(s) && ParsePart(s, 0, max).Success? && 0 <= v <= max && IndexOf(s, '/') >= 0
    ensures ParseItem(s, max).Some? <==> StepsOn(s, max)
    ensures StepsOn(s, max) ==> (ItemMatches(s, max, v) <==> PartMatches(s, 0, max, v))
  {
    PlainStepParses(s, max);
  }

  lemma SpecialItemIsNoItem(s: string, max: int)
    requires !PlainItem(s)
    ensures ParseItem(s, max).None?
  {
    var slash := IndexOf(s, '/');
    if slash >= 0 {
      assert s == s[..slash] + ['/'] + s[slash + 1..];
      var c := if '*' in s then '*' else '-';
      assert c in s[..slash] || c in s[slash + 1..];
    }
  }

  lemma HeadItemAgrees(tail: string, max: int, v: int)
    requires CronText(tail) && ParsePart("*/" + tail, 0, max).Success? && 0 <= v <= max
    ensures ParseItem("0/" + tail, max).Some? <==> StepsOn("*/" + tail, max)
    ensures StepsOn("*/" + tail, max) ==> (ItemMatches("0/" + tail, max, v) <==> PartMatches("*/" + tail, 0, max, v))
  {
    var s, t := "*/" + tail, "0/" + tail;
    assert s[1] == '/' && IndexOf(s, '/') == 1 && s[2..] == tail && s[..1] == "*";
    assert IndexOf(t, '/') == 1 && t[2..] == tail && t[..1] == "0";
    StepIsNumber(tail);
    assert DigitsValue("0") == 0 by { assert "0" == Itoa(0); DigitsValueItoa(0); }
  }

  lemma StepIsNumber(tail: string)
    requires CronText(tail) && Atoi(tail).Some? && Atoi(tail).value >= 1
    ensures Number(tail) && Atoi(tail) == Some(DigitsValue(tail))
  {
    assert tail[0] in tail;
  }

  lemma SplitPushed(a: char, b: char, g: string, sep: char)
    requires a != sep && b != sep
    ensures Split([a, b] + g, sep) == [[a, b] + Split(g, sep)[0]] + Split(g, sep)[1..]
  {
    assert ([a, b] + g)[1..] == [b] + g;
    assert ([b] + g)[1..] == g;
    assert [a] + ([b] + Split(g, sep)[0]) == [a, b] + Split(g, sep)[0];
  }

  lemma ItemsAreCronText(f: string, item: string)
    requires CronChars(f) && item in Split(f, ',')
    ensures CronText(item)
  {
    var items := Split(f, ',');
    var k :| 0 <= k < |items| && items[k] == item;
    JoinSplit(f, ',');
    PieceInJoin(items, ',', k);
    forall c | c in item ensures IsDigit(c) || c in {'*', '/', '-'} {
      assert c in f;
      assert ',' !in item;
    }
  }

  lemma {:induction false} PieceInJoin(parts: seq<string>, sep: char, k: nat)
    requires k < |parts|
    ensures forall c | c in parts[k] :: c in Join(parts, sep)
  {
    if |parts| > 1 && k > 0 { PieceInJoin(parts[1..], sep, k - 1); }
  }

  /** What the compiler does to the list elements of a time field. */
  lemma StepFromZeroItems(f: string)
    requires f != "*" && f != "*/1"
    ensures var items, out := Split(f, ','), Split(StepFromZero(f), ',');
            if HasPrefix(items[0], "*/") then out == ["0/" + items[0][2..]] + items[1..] else out == items
  {
    var items := Split(f, ',');
    JoinSplit(f, ',');
    assert items[0] <= f;
    assert HasPrefix(items[0], "*/") ==> HasPrefix(f, "*/");
    if HasPrefix(f, "*/") {
      var g := f[2..];
      assert f == ['*', '/'] + g;
      SplitPushed('*', '/', g, ',');
      SplitPushed('0', '/', g, ',');
      assert "0/" + g == ['0', '/'] + g;
      assert items[0][2..] == Split(g, ',')[0];
      assert HasPrefix(items[0], "*/");
    }
  }

  lemma StarStepOneParses(max: int)
    requires max >= 0
    ensures ParsePart("*/1", 0, max) == Success(Range(0, max, 1))
  {
    var f := "*/1";
    assert "1" == Itoa(1);
    AtoiItoa(1);
    assert IndexOf(f, '/') == 1 && f[2..] == "1" && f[..1] == "*";
  }

  lemma StarStepOne(max: int, v: int)
    requires 0 <= v <= max
    ensures Matches("*/1", 0, max, v)
  {
    var f := "*/1";
    SplitPlain(f, ',');
    StarStepOneParses(max);
    assert f in Split(f, ',');
    assert PartMatches(f, 0, max, v);
  }

  /** A time field keeps its meaning exactly when it is expressible; otherwise the whole component
      is rejected. */
  lemma TimeFieldMeaning(f: string, max: int, v: int)
    requires ValidField(f, 0, max) && 0 <= v <= max && max >= 1
    ensures if TimeExpressible(f, max) then ComponentMatches(StepFromZero(f), max, v) <==> Matches(f, 0, max, v)
            else !ComponentMatches(StepFromZero(f), max, v)
  {
    if f == "*" {
      StarMatchesAll(0, max, v);
    } else if f == "*/1" {
      StarStepOne(max, v);
      StarStepOneExpressible(max);
    } else {
      TimeListMeaning(f, max, v);
    }
  }

  lemma StarStepOneExpressible(max: int)
    requires max >= 1
    ensures TimeExpressible("*/1", max)
  {
    SplitPlain("*/1", ',');
    StarStepOneParses(max);
  }

  /** A compiled element against the element it comes from. */
  predicate SameItem(item: string, out: string, expressible: bool, max: int, v: int) {
    if expressible then ParseItem(out, max).Some? && (ItemMatches(out, max, v) <==> PartMatches(item, 0, max, v))
    else ParseItem(out, max).None?
  }

  /** The k-th element of the compiled list against the k-th of the source list. */
  lemma ItemMeaning(f: string, k: nat, max: int, v: int)
    requires ValidField(f, 0, max) && 0 <= v <= max && f != "*" && f != "*/1"
    requires k < |Split(f, ',')| == |Split(StepFromZero(f), ',')|
    ensures var item, out := Split(f, ',')[k], Split(StepFromZero(f), ',')[k];
            SameItem(item, out, ItemExpressible(item, k, max), max, v)
  {
    var item := Split(f, ',')[k];
    StepFromZeroItem(f, k);
    ItemParses(f, max, item);
    if k == 0 && HasPrefix(item, "*/") { HeadItemMeaning(item, max, v); } else { OtherItemMeaning(item, max, v); }
  }

  lemma StepFromZeroItem(f: string, k: nat)
    requires f != "*" && f != "*/1" && k < |Split(f, ',')| == |Split(StepFromZero(f), ',')|
    ensures var item := Split(f, ',')[k];
            Split(StepFromZero(f), ',')[k] == if k == 0 && HasPrefix(item, "*/") then "0/" + item[2..] else item
  {
    StepFromZeroItems(f);
  }

  lemma ItemParses(f: string, max: int, item: string)
    requires ValidField(f, 0, max) && item in Split(f, ',')
    ensures CronText(item) && ParsePart(item, 0, max).Success?
  {
    ExpandPartsMembers(Split(f, ','), 0, max, 0);
    ItemsAreCronText(f, item);
  }

  lemma HeadItemMeaning(item: string, max: int, v: int)
    requires CronText(item) && HasPrefix(item, "*/") && ParsePart(item, 0, max).Success? && 0 <= v <= max
    ensures SameItem(item, "0/" + item[2..], StepsOn(item, max), max, v)
  {
    assert item == "*/" + item[2..];
    assert forall c | c in item[2..] :: c in item;
    HeadItemAgrees(item[2..], max, v);
  }

  lemma OtherItemMeaning(item: string, max: int, v: int)
    requires CronText(item) && ParsePart(item, 0, max).Success? && 0 <= v <= max
    ensures SameItem(item, item, PlainItem(item) && StepsOn(item, max), max, v)
  {
    if PlainItem(item) { PlainItemAgrees(item, max, v); } else { SpecialItemIsNoItem(item, max); }
  }

  lemma TimeListMeaning(f: string, max: int, v: int)
    requires ValidField(f, 0, max) && 0 <= v <= max && f != "*" && f != "*/1"
    ensures if TimeExpressible(f, max) then ComponentMatches(StepFromZero(f), max, v) <==> Matches(f, 0, max, v)
            else !ComponentMatches(StepFromZero(f), max, v)
  {
    var items, out := Split(f, ','), Split(StepFromZero(f), ',');
    StepFromZeroItems(f);
    forall k | 0 <= k < |items| ensures SameItem(items[k], out[k], ItemExpressible(items[k], k, max), max, v) {
      ItemMeaning(f, k, max, v);
    }
    NotJustStar(f);
    SameElements(items, out, max, v);
  }

  lemma NotJustStar(f: string)
    requires f != "*" && f != "*/1"
    ensures StepFromZero(f) != "*"
  {
    if HasPrefix(f, "*/") { assert StepFromZero(f)[0] == '0'; }
  }

  lemma SameElements(items: seq<string>, out: seq<string>, max: int, v: int)
    requires |items| == |out|
    requires forall k | 0 <= k < |items| :: SameItem(items[k], out[k], ItemExpressible(items[k], k, max), max, v)
    ensures (forall k | 0 <= k < |items| :: ItemExpressible(items[k], k, max)) <==>
              forall s | s in out :: ParseItem(s, max).Some?
    ensures (forall k | 0 <= k < |items| :: ItemExpressible(items[k], k, max)) ==>
              ((exists s | s in out :: ItemMatches(s, max, v)) <==> exists s | s in items :: PartMatches(s, 0, max, v))
  {
    if k :| 0 <= k < |items| && !ItemExpressible(items[k], k, max) {
      assert out[k] in out;
    } else {
      if s :| s in out && ItemMatches(s, max, v) {
        var k :| 0 <= k < |out| && out[k] == s;
        assert items[k] in items && PartMatches(items[k], 0, max, v);
      }
      if s :| s in items && PartMatches(s, 0, max, v) {
        var k :| 0 <= k < |items| && items[k] == s;
        assert out[k] in out && ItemMatches(out[k], max, v);
      }
    }
  }

  // ---- Lists of numerals ----

  lemma NumeralItem(n: nat, max: int, v: int)
    ensures ParseItem(Itoa(n), max) == Some(Item(n, None))
    ensures ItemMatches(Itoa(n), max, v) <==> v == n
  {
    DigitsValueItoa(n);
    assert '/' !in Itoa(n);
  }

  /** A comma list of numerals matches exactly the numbers it lists. */
  lemma NumeralListMeaning(parts: seq<string>, nums: seq<int>, max: int, v: int)
    requires parts != [] && |parts| == |nums| && forall k | 0 <= k < |nums| :: nums[k] >= 0 && parts[k] == Itoa(nums[k])
    ensures ComponentMatches(Join(parts, ','), max, v) <==> v in nums
    ensures forall c | c in Join(parts, ',') :: IsDigit(c) || c == ','
    ensures Join(parts, ',') != ""
  {
    forall s | s in parts ensures s != "" && AllDigits(s) && ParseItem(s, max).Some? {
      var k :| 0 <= k < |parts| && parts[k] == s;
      NumeralItem(nums[k], max, v);
    }
    SplitJoin(parts, ',');
    JoinChars(parts);
    NoStar(parts);
    forall k | 0 <= k < |nums| ensures ItemMatches(parts[k], max, v) <==> v == nums[k] { NumeralItem(nums[k], max, v); }
    ListMembership(parts, nums, max, v);
  }

  lemma NoStar(parts: seq<string>)
    requires parts != [] && forall s | s in parts :: s != "" && AllDigits(s)
    requires Split(Join(parts, ','), ',') == parts
    ensures Join(parts, ',') != "*" && Join(parts, ',') != ""
  {
    SplitPlain("*", ',');
    SplitPlain("", ',');
    assert parts[0] in parts;
    assert '*' in "*" && !IsDigit('*');
  }

  lemma ListMembership(parts: seq<string>, nums: seq<int>, max: int, v: int)
    requires |parts| == |nums|
    requires forall k | 0 <= k < |nums| :: ItemMatches(parts[k], max, v) <==> v == nums[k]
    ensures (exists s | s in parts :: ItemMatches(s, max, v)) <==> v in nums
  {
    if s :| s in parts && ItemMatches(s, max, v) {
      var k :| 0 <= k < |parts| && parts[k] == s;
      assert nums[k] == v;
    }
    if v in nums {
      var k :| 0 <= k < |nums| && nums[k] == v;
      assert parts[k] in parts && ItemMatches(parts[k], max, v);
    }
  }

  lemma {:induction false} JoinChars(parts: seq<string>)
    requires forall s | s in parts :: AllDigits(s)
    ensures forall c | c in Join(parts, ',') :: IsDigit(c) || c == ','
  {
    if parts != [] { assert parts[0] in parts; }
    if |parts| > 1 { JoinChars(parts[1..]); }
  }

  lemma DateListMeaning(f: string, min: nat, max: int, v: int)
    requires ValidField(f, min, max) && f != "*"
    ensures ComponentMatches(ListOf(f, min, max), max, v) <==> Matches(f, min, max, v)
    ensures forall c | c in ListOf(f, min, max) :: IsDigit(c) || c == ','
  {
    var vals := Expand(f, min, max).value;
    ExpansionInBounds(f, min, max);
    var w := MatchesSomething(f, min, max);
    ExpandIsMatches(f, min, max, w);
    ExpandIsMatches(f, min, max, v);
    var parts := Numerals(vals);
    assert forall k | 0 <= k < |vals| :: vals[k] in vals;
    assert ListOf(f, min, max) == Join(parts, ',');
    NumeralListMeaning(parts, vals, max, v);
  }

  lemma DateFieldMeaning(f: string, min: nat, max: int, v: int)
    requires ValidField(f, min, max) && min <= v <= max
    ensures ComponentMatches(ListOf(f, min, max), max, v) <==> Matches(f, min, max, v)
  {
    if f == "*" { StarMatchesAll(min, max, v); } else { DateListMeaning(f, min, max, v); }
  }

  lemma DateFieldChars(f: string, min: nat, max: int)
    requires ValidField(f, min, max)
    ensures ' ' !in ListOf(f, min, max) && '-' !in ListOf(f, min, max)
  {
    if f != "*" { DateListMeaning(f, min, max, min); }
  }

  // ---- Weekdays ----

  lemma {:induction false} SystemdDaysMembers(days: seq<int>, w: int)
    ensures w in SystemdDays(days) <==> exists d | d in days :: SystemdWeekday(d) == w
  {
    if days != [] {
      var front, last := days[..|days| - 1], days[|days| - 1];
      SystemdDaysMembers(front, w);
      assert days == front + [last];
      assert forall d :: d in days <==> d in front || d == last;
    }
  }

  lemma SelectedWeekday(f: string, dow: int)
    requires Expand(f, 0, 7).Success? && 0 <= dow <= 6
    ensures SystemdWeekday(dow) in SystemdDays(Expand(f, 0, 7).value) <==> WeekdayMatches(f, dow)
  {
    var days := Expand(f, 0, 7).value;
    SystemdDaysMembers(days, SystemdWeekday(dow));
    ExpandIsMatches(f, 0, 7, dow);
    ExpandIsMatches(f, 0, 7, 7);
    ExpandIsMatches(f, 0, 7, 0);
    if d :| d in days && SystemdWeekday(d) == SystemdWeekday(dow) {
      assert d == dow || (dow == 0 && d == 7);
    }
    if WeekdayMatches(f, dow) {
      var d := if Matches(f, 0, 7, dow) then dow else 7;
      assert d in days && SystemdWeekday(d) == SystemdWeekday(dow);
    }
  }

  lemma SevenMeansAll(s: set<int>)
    requires s <= {1, 2, 3, 4, 5, 6, 7}
    ensures |s| < 7 <==> s != {1, 2, 3, 4, 5, 6, 7}
    ensures |s| <= 7
  {
    var all := {1, 2, 3, 4, 5, 6, 7};
    assert |all| == 7;
    assert |all - s| == |all| - |s| by { assert s + (all - s) == all; }
    if s != all { var x :| x in all - s; }
  }

  function DayNumbers(s: set<int>, d: nat): seq<nat> {
    if d == 0 then [] else DayNumbers(s, d - 1) + if d in s then [d] else []
  }

  lemma {:induction false} DayNumbersMembers(s: set<int>, d: nat)
    ensures |WeekdaysUpTo(s, d)| == |DayNumbers(s, d)|
    ensures forall k | 0 <= k < |DayNumbers(s, d)| :: WeekdaysUpTo(s, d)[k] == Itoa(DayNumbers(s, d)[k])
    ensures forall w :: w in DayNumbers(s, d) <==> w in s && 1 <= w <= d
  {
    if d > 0 { DayNumbersMembers(s, d - 1); }
  }

  lemma {:induction false} SystemdDaysBounds(days: seq<int>)
    requires forall d | d in days :: 0 <= d <= 7
    ensures SystemdDays(days) <= {1, 2, 3, 4, 5, 6, 7}
    ensures days != [] ==> SystemdDays(days) != {}
  {
    if days != [] {
      var front, last := days[..|days| - 1], days[|days| - 1];
      assert days == front + [last];
      assert forall d | d in front :: d in days;
      SystemdDaysBounds(front);
      assert last in days && SystemdWeekday(last) in SystemdDays(days);
    }
  }

  lemma SelectedDaysBounds(f: string)
    requires Expand(f, 0, 7).Success?
    ensures SystemdDays(Expand(f, 0, 7).value) <= {1, 2, 3, 4, 5, 6, 7}
    ensures SystemdDays(Expand(f, 0, 7).value) != {}
  {
    ExpansionInBounds(f, 0, 7);
    var v := MatchesSomething(f, 0, 7);
    ExpandIsMatches(f, 0, 7, v);
    var days := Expand(f, 0, 7).value;
    assert forall d | d in days :: 0 <= d <= 7;
    SystemdDaysBounds(days);
  }

  lemma WholeWeek(s: set<int>)
    requires s <= {1, 2, 3, 4, 5, 6, 7}
    ensures s == {1, 2, 3, 4, 5, 6, 7} <==> forall d | 0 <= d <= 6 :: SystemdWeekday(d) in s
  {
    if forall d | 0 <= d <= 6 :: SystemdWeekday(d) in s {
      forall w | w in {1, 2, 3, 4, 5, 6, 7} ensures w in s {
        assert SystemdWeekday(if w == 7 then 0 else w) == w;
      }
    }
  }

  lemma AllSelected(f: string)
    requires Expand(f, 0, 7).Success?
    ensures AllWeekdays(f) <==> SystemdDays(Expand(f, 0, 7).value) == {1, 2, 3, 4, 5, 6, 7}
  {
    var s := SystemdDays(Expand(f, 0, 7).value);
    SelectedDaysBounds(f);
    WholeWeek(s);
    forall d | 0 <= d <= 6 ensures WeekdayMatches(f, d) <==> SystemdWeekday(d) in s { SelectedWeekday(f, d); }
  }

  lemma DayListMeaning(s: set<int>, v: int)
    requires s != {} && s <= {1, 2, 3, 4, 5, 6, 7}
    ensures ComponentMatches(Join(WeekdaysUpTo(s, 7), ','), 7, v) <==> v in s
    ensures forall c | c in Join(WeekdaysUpTo(s, 7), ',') :: IsDigit(c) || c == ','
    ensures Join(WeekdaysUpTo(s, 7), ',') != ""
  {
    var parts, nums := WeekdaysUpTo(s, 7), DayNumbers(s, 7);
    DayNumbersMembers(s, 7);
    var w :| w in s;
    assert w in nums;
    NumeralListMeaning(parts, nums, 7, v);
  }

  /** The weekday prefix is empty exactly for all seven days, and otherwise selects cron's days. */
  lemma WeekdaySpecMeaning(f: string, dow: int)
    requires ValidField(f, 0, 7) && 0 <= dow <= 6
    ensures WeekdaySpec(f) == "" <==> AllWeekdays(f)
    ensures WeekdaySpec(f) != "" ==>
              (ComponentMatches(WeekdaySpec(f), 7, SystemdWeekday(dow)) <==> WeekdayMatches(f, dow))
    ensures ' ' !in WeekdaySpec(f)
  {
    var s := SystemdDays(Expand(f, 0, 7).value);
    SelectedDaysBounds(f);
    SevenMeansAll(s);
    AllSelected(f);
    DayListMeaning(s, SystemdWeekday(dow));
    SelectedWeekday(f, dow);
  }

  // ---- Putting expressions together ----

  lemma DateTimeMeaning(hour: string, minute: string, month: string, dom: string, i: Instant)
    requires ':' !in hour && ':' !in minute && '-' !in month && '-' !in dom
    ensures DateTimeMatches("*-" + month + "-" + dom, hour + ":" + minute + ":00", i) <==>
            && ComponentMatches(month, 12, i.month) && ComponentMatches(dom, 31, i.dom)
            && ComponentMatches(hour, 23, i.hour) && ComponentMatches(minute, 59, i.minute)
  {
    var date, time := "*-" + month + "-" + dom, hour + ":" + minute + ":00";
    SplitPlain(dom, '-');
    SplitCons(month, dom, '-');
    SplitCons("*", month + ['-'] + dom, '-');
    assert date == "*" + ['-'] + (month + ['-'] + dom);
    SplitPlain("00", ':');
    SplitCons(minute, "00", ':');
    SplitCons(hour, minute + [':'] + "00", ':');
    assert time == hour + [':'] + (minute + [':'] + "00");
  }

  lemma TwoWords(a: string, b: string)
    requires ' ' !in a && ' ' !in b
    ensures Split(a + " " + b, ' ') == [a, b]
  {
    SplitPlain(b, ' ');
    SplitCons(a, b, ' ');
    assert a + " " + b == a + [' '] + b;
  }

  lemma ThreeWords(a: string, b: string, c: string)
    requires ' ' !in a && ' ' !in b && ' ' !in c
    ensures Split(a + " " + b + " " + c, ' ') == [a, b, c]
  {
    TwoWords(b, c);
    SplitCons(a, b + " " + c, ' ');
    assert a + " " + b + " " + c == a + [' '] + (b + " " + c);
  }

  lemma TimeFieldChars(f: string, min: int, max: int)
    requires ValidField(f, min, max)
    ensures ' ' !in StepFromZero(f) && ':' !in StepFromZero(f)
  {
    forall c | c in StepFromZero(f) ensures c != ' ' && c != ':' {
      assert HasPrefix(f, "*/") && c in f[2..] ==> c in f;
    }
  }

  predicate TimeMatches(fields: seq<string>, i: Instant)
    requires |fields| == 5
  {
    && TimeExpressible(fields[0], 59) && TimeExpressible(fields[1], 23)
    && Matches(fields[0], 0, 59, i.minute) && Matches(fields[1], 0, 23, i.hour)
  }

  lemma EachValid(fields: seq<string>)
    requires ValidFields(fields)
    ensures ValidField(fields[0], 0, 59) && ValidField(fields[1], 0, 23)
    ensures ValidField(fields[2], 1, 31) && ValidField(fields[3], 1, 12) && ValidField(fields[4], 0, 7)
  {
    assert forall k | 0 <= k < 5 :: ValidField(fields[k], Bounds()[k].0, Bounds()[k].1);
    assert ValidField(fields[0], 0, 59) && ValidField(fields[1], 0, 23) && ValidField(fields[2], 1, 31);
  }

  /** The expressions of a schedule, part by part. */
  lemma CalendarsMeaning(fields: seq<string>, i: Instant)
    requires ValidFields(fields) && Proper(i)
    ensures (exists e | e in CalendarsOf(fields) :: CalendarMatches(e, i)) <==>
            var dateMatches := Matches(fields[3], 1, 12, i.month) && Matches(fields[2], 1, 31, i.dom);
            TimeMatches(fields, i) &&
            if AllWeekdays(fields[4]) then dateMatches
            else if fields[2] != "*" && fields[4] != "*" then WeekdayMatches(fields[4], i.dow) || dateMatches
            else WeekdayMatches(fields[4], i.dow) && dateMatches
  {
    EachValid(fields);
    DateTimeParts(fields, i);
    WeekdaySpecMeaning(fields[4], i.dow);
    Lines(fields, DateSpec(fields[2], fields[3]), TimeSpec(fields[0], fields[1]), WeekdaySpec(fields[4]), i);
  }

  lemma DateTimeParts(fields: seq<string>, i: Instant)
    requires ValidFields(fields) && Proper(i)
    ensures var date, time := DateSpec(fields[2], fields[3]), TimeSpec(fields[0], fields[1]);
            && ' ' !in date && ' ' !in time
            && (DateTimeMatches("*-*-*", time, i) <==> TimeMatches(fields, i))
            && (DateTimeMatches(date, time, i) <==>
                  TimeMatches(fields, i) && Matches(fields[3], 1, 12, i.month) && Matches(fields[2], 1, 31, i.dom))
  {
    EachValid(fields);
    var hour, minute := StepFromZero(fields[1]), StepFromZero(fields[0]);
    TimeMeaning(fields, i);
    DateFieldChars(fields[3], 1, 12);
    DateFieldChars(fields[2], 1, 31);
    DateMeaning(fields, i);
    NoBlanks(hour, minute, ListOf(fields[3], 1, 12), ListOf(fields[2], 1, 31));
    DateTimeMeaning(hour, minute, ListOf(fields[3], 1, 12), ListOf(fields[2], 1, 31), i);
    AnyDate(hour, minute, i);
  }

  lemma NoBlanks(hour: string, minute: string, month: string, dom: string)
    requires ' ' !in hour && ' ' !in minute && ' ' !in month && ' ' !in dom
    ensures ' ' !in "*-" + month + "-" + dom
    ensures ' ' !in hour + ":" + minute + ":00"
  {}

  lemma DateMeaning(fields: seq<string>, i: Instant)
    requires |fields| == 5 && Proper(i) && ValidField(fields[2], 1, 31) && ValidField(fields[3], 1, 12)
    ensures ComponentMatches(ListOf(fields[3], 1, 12), 12, i.month) <==> Matches(fields[3], 1, 12, i.month)
    ensures ComponentMatches(ListOf(fields[2], 1, 31), 31, i.dom) <==> Matches(fields[2], 1, 31, i.dom)
  {
    DateFieldMeaning(fields[3], 1, 12, i.month);
    DateFieldMeaning(fields[2], 1, 31, i.dom);
  }

  /** Which lines come out, in terms of their three parts. */
  lemma Lines(fields: seq<string>, date: string, time: string, days: string, i: Instant)
    requires |fields| == 5 && date == DateSpec(fields[2], fields[3]) && time == TimeSpec(fields[0], fields[1])
    requires days == WeekdaySpec(fields[4])
    requires ' ' !in date && ' ' !in time && ' ' !in days
    ensures (exists e | e in CalendarsOf(fields) :: CalendarMatches(e, i)) <==>
            if days == "" then DateTimeMatches(date, time, i)
            else if fields[2] != "*" && fields[4] != "*" then
              (ComponentMatches(days, 7, SystemdWeekday(i.dow)) && DateTimeMatches("*-*-*", time, i)) ||
              DateTimeMatches(date, time, i)
            else ComponentMatches(days, 7, SystemdWeekday(i.dow)) && DateTimeMatches(date, time, i)
  {
    Assembled(date, time, days, i);
    OneOfTwo(days + " *-*-* " + time, date + " " + time, i);
    var lines := CalendarsOf(fields);
    if |lines| == 1 {
      assert lines[0] in lines;
    }
  }

  lemma OneOfTwo(a: string, b: string, i: Instant)
    ensures (exists e | e in [a, b] :: CalendarMatches(e, i)) <==> CalendarMatches(a, i) || CalendarMatches(b, i)
  {
    assert a in [a, b] && b in [a, b];
  }

  lemma TimeMeaning(fields: seq<string>, i: Instant)
    requires |fields| == 5 && Proper(i) && ValidField(fields[0], 0, 59) && ValidField(fields[1], 0, 23)
    ensures var hour, minute := StepFromZero(fields[1]), StepFromZero(fields[0]);
            && ' ' !in hour && ':' !in hour && ' ' !in minute && ':' !in minute
            && (ComponentMatches(hour, 23, i.hour) && ComponentMatches(minute, 59, i.minute) <==>
                TimeMatches(fields, i))
  {
    TimeFieldMeaning(fields[0], 59, i.minute);
    TimeFieldMeaning(fields[1], 23, i.hour);
    TimeFieldChars(fields[0], 0, 59);
    TimeFieldChars(fields[1], 0, 23);
  }

  lemma Assembled(date: string, time: string, days: string, i: Instant)
    requires ' ' !in date && ' ' !in time && ' ' !in days
    ensures CalendarMatches(date + " " + time, i) <==> DateTimeMatches(date, time, i)
    ensures CalendarMatches(days + " " + date + " " + time, i) <==>
            ComponentMatches(days, 7, SystemdWeekday(i.dow)) && DateTimeMatches(date, time, i)
    ensures CalendarMatches(days + " *-*-* " + time, i) <==>
            ComponentMatches(days, 7, SystemdWeekday(i.dow)) && DateTimeMatches("*-*-*", time, i)
  {
    TwoWords(date, time);
    ThreeWords(days, date, time);
    ThreeWords(days, "*-*-*", time);
    assert days + " " + "*-*-*" + " " + time == days + " *-*-* " + time;
  }

  lemma AnyDate(hour: string, minute: string, i: Instant)
    requires ':' !in hour && ':' !in minute
    ensures DateTimeMatches("*-*-*", hour + ":" + minute + ":00", i) <==>
            ComponentMatches(hour, 23, i.hour) && ComponentMatches(minute, 59, i.minute)
  {
    DateTimeMeaning(hour, minute, "*", "*", i);
    assert "*-" + "*" + "-" + "*" == "*-*-*";
  }

  // ---- The theorem ----

  lemma StarDay(fields: seq<string>, dow: int)
    requires |fields| == 5 && fields[4] == "*" && 0 <= dow <= 6
    ensures AllWeekdays(fields[4])
  {
    forall d | 0 <= d <= 6 ensures WeekdayMatches("*", d) { StarMatchesAll(0, 7, d); }
  }

  lemma TranslationPreservesMeaning(fields: seq<string>, i: Instant)
    requires ValidFields(fields) && Translatable(fields) && Proper(i)
    ensures (exists e | e in CalendarsOf(fields) :: CalendarMatches(e, i)) <==> CronMatches(fields, i)
  {
    CalendarsMeaning(fields, i);
    if fields[4] == "*" { StarDay(fields, i.dow); }
    assert RealDate(i.month, i.dom);
    if AllWeekdays(fields[4]) { assert WeekdayMatches(fields[4], i.dow); }
    assert OnDate(fields, i.month, i.dom) <==> Matches(fields[3], 1, 12, i.month) && Matches(fields[2], 1, 31, i.dom);
  }

  /** A time, a month and a day of the week that an accepted schedule selects. */
  lemma SomeMoment(fields: seq<string>) returns (minute: int, hour: int, month: int, dow: int)
    requires ValidFields(fields)
    ensures Matches(fields[0], 0, 59, minute) && 0 <= minute <= 59
    ensures Matches(fields[1], 0, 23, hour) && 0 <= hour <= 23
    ensures Matches(fields[3], 1, 12, month) && 1 <= month <= 12
    ensures WeekdayMatches(fields[4], dow) && 0 <= dow <= 6
  {
    EachValid(fields);
    minute := SomeValue(fields[0], 0, 59);
    hour := SomeValue(fields[1], 0, 23);
    month := SomeValue(fields[3], 1, 12);
    dow := SomeWeekday(fields[4]);
  }

  lemma SomeValue(f: string, min: int, max: int) returns (v: int)
    requires ValidField(f, min, max)
    ensures Matches(f, min, max, v) && min <= v <= max
  {
    v := MatchesSomething(f, min, max);
    ExpandIsMatches(f, min, max, v);
  }

  lemma SomeWeekday(f: string) returns (dow: int)
    requires ValidField(f, 0, 7)
    ensures WeekdayMatches(f, dow) && 0 <= dow <= 6
  {
    dow := SomeValue(f, 0, 7);
    if dow == 7 { dow := 0; }
  }

  /** An instant of some year at which an untranslatable schedule and its calendars differ. */
  lemma UntranslatableShows(fields: seq<string>) returns (i: Instant)
    requires ValidFields(fields) && !Translatable(fields)
    ensures Proper(i)
    ensures !((exists e | e in CalendarsOf(fields) :: CalendarMatches(e, i)) <==> CronMatches(fields, i))
  {
    var minute, hour, selected, dow := SomeMoment(fields);
    var month, dom := DifferingDate(fields, selected);
    i := Instant(minute, hour, dom, month, dow);
    CalendarsMeaning(fields, i);
  }

  /** What a date does to the two sides, at a time and on a day of the week the schedule selects. */
  predicate DateDiffers(fields: seq<string>, month: int, dom: int)
    requires |fields| == 5
  {
    var expressible := TimeExpressible(fields[0], 59) && TimeExpressible(fields[1], 23);
    var inMonth := Matches(fields[3], 1, 12, month);
    if BothDaysRestricted(fields) then
      inMonth != (expressible && if AllWeekdays(fields[4]) then OnDate(fields, month, dom) else true)
    else !expressible && OnDate(fields, month, dom)
  }

  lemma DifferingDate(fields: seq<string>, selected: int) returns (month: int, dom: int)
    requires |fields| == 5 && !Translatable(fields) && 1 <= selected <= 12 && Matches(fields[3], 1, 12, selected)
    ensures RealDate(month, dom) && DateDiffers(fields, month, dom)
  {
    month, dom := selected, 1;
    if !TimeExpressible(fields[0], 59) || !TimeExpressible(fields[1], 23) {
      if !BothDaysRestricted(fields) {
        month, dom :| 1 <= month <= 12 && 1 <= dom <= DaysIn(month) && OnDate(fields, month, dom);
      }
    } else if AllWeekdays(fields[4]) {
      month, dom :|
        && 1 <= month <= 12 && 1 <= dom <= DaysIn(month)
        && Matches(fields[3], 1, 12, month) && !OnDate(fields, month, dom);
    } else {
      month :| 1 <= month <= 12 && !Matches(fields[3], 1, 12, month);
    }
  }

  /** For an accepted schedule, the OnCalendar lines fire at exactly the instants of the cron schedule,
      on all dates the calendar has, if and only if the schedule is translatable. */
  lemma TranslationTheorem(schedule: string)
    requires ValidFields(Fields(schedule))
    ensures (forall i | Proper(i) ::
               (exists e | e in CronToCalendars(schedule) :: CalendarMatches(e, i)) <==>
               CronMatches(Fields(schedule), i))
            <==> Translatable(Fields(schedule))
  {
    var fields := Fields(schedule);
    if Translatable(fields) {
      forall i | Proper(i)
        ensures (exists e | e in CronToCalendars(schedule) :: CalendarMatches(e, i)) <==> CronMatches(fields, i)
      {
        TranslationPreservesMeaning(fields, i);
      }
    } else {
      var i := UntranslatableShows(fields);
    }
  }
}
