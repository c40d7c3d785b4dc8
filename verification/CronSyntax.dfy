/** The written form of a cron field, and what it selects: one grammar in which every accepted field can
    be read, with its meaning given element by element. */
module CronSyntax {
  import opened Wrappers
  import opened Text
  import opened CronField
  import CronCalendar

  /** What an element selects from: everything, the values from one on (that one alone, without a step),
      or a range. Numbers are kept as they are written. */
  datatype Base = Star | From(a: string) | Span(a: string, b: string)

  datatype Element = Element(base: Base, step: Option<string>)

  predicate Numeral(s: string) {
    s != "" && AllDigits(s)
  }

  /** The upper end of a range may have a minus sign, as in `0--0`. */
  predicate Signed(s: string) {
    s != "" && s[0] == '-' && Numeral(s[1..])
  }

  predicate Written(e: Element) {
    && (match e.base
        case Star => true
        case From(a) => Numeral(a)
        case Span(a, b) => Numeral(a) && (Numeral(b) || Signed(b)))
    && (e.step.Some? ==> Numeral(e.step.value))
  }

  function BaseText(b: Base): string {
    match b
    case Star => "*"
    case From(a) => a
    case Span(a, b) => a + "-" + b
  }

  function ElementText(e: Element): string {
    BaseText(e.base) + match e.step case None => "" case Some(s) => "/" + s
  }

  function Texts(es: seq<Element>): seq<string> {
    seq(|es|, i requires 0 <= i < |es| => ElementText(es[i]))
  }

  function FieldText(es: seq<Element>): string {
    Join(Texts(es), ',')
  }

  // ---- Meaning ----

  function Least(e: Element, min: int): int
    requires Written(e)
  {
    match e.base
    case Star => min
    case From(a) => DigitsValue(a)
    case Span(a, _) => DigitsValue(a)
  }

  function Greatest(e: Element, max: int): int
    requires Written(e)
  {
    match e.base
    case Star => max
    case From(a) => if e.step.Some? then max else DigitsValue(a)
    case Span(_, b) => if Signed(b) then 0 - DigitsValue(b[1..]) else DigitsValue(b)
  }

  function Every(e: Element): int
    requires Written(e)
  {
    if e.step.Some? then DigitsValue(e.step.value) else 1
  }

  /** Within the field, not descending, and with a step that a 64-bit integer can be. */
  predicate Acceptable(e: Element, min: int, max: int)
    requires Written(e)
  {
    min <= Least(e, min) <= Greatest(e, max) <= max && 1 <= Every(e) <= MAX_INT
  }

  predicate Selects(e: Element, min: int, max: int, v: int)
    requires Written(e)
  {
    && Acceptable(e, min, max)
    && Least(e, min) <= v <= Greatest(e, max) && (v - Least(e, min)) % Every(e) == 0
  }

  // ---- One element ----

  lemma NumeralPlain(s: string)
    requires Numeral(s)
    ensures '-' !in s && '/' !in s && ',' !in s && s != "*" && s[0] != '+'
  {
    assert s[0] in s;
    assert forall c | c in s :: IsDigit(c);
  }

  lemma AtoiNumeral(s: string)
    requires Numeral(s)
    ensures Atoi(s) == if DigitsValue(s) <= MAX_INT then Some(DigitsValue(s)) else None
  {
    NumeralPlain(s);
  }

  lemma AtoiSigned(s: string)
    requires Signed(s)
    ensures Atoi(s) == if DigitsValue(s[1..]) <= MAX_INT + 1 then Some(0 - DigitsValue(s[1..])) else None
    ensures '/' !in s && ',' !in s
  {
    NumeralPlain(s[1..]);
    assert s == ['-'] + s[1..];
  }

  lemma BasePlain(b: Base, step: Option<string>)
    requires Written(Element(b, step))
    ensures '/' !in BaseText(b) && ',' !in BaseText(b)
  {
    match b {
      case Star =>
      case From(a) => NumeralPlain(a);
      case Span(a, b) =>
        NumeralPlain(a);
        if Signed(b) { AtoiSigned(b); } else { NumeralPlain(b); }
    }
  }

  lemma StepReads(e: Element)
    requires Written(e)
    ensures IndexOf(ElementText(e), '/') == if e.step.Some? then |BaseText(e.base)| else -1
    ensures ParseStep(ElementText(e)) == if 1 <= Every(e) <= MAX_INT then Success(Every(e)) else Failure
    ensures e.step.None? ==> ElementText(e) == BaseText(e.base)
    ensures e.step.Some? ==> ElementText(e)[..|BaseText(e.base)|] == BaseText(e.base)
  {
    var t, body := ElementText(e), BaseText(e.base);
    BasePlain(e.base, e.step);
    match e.step {
      case None => assert t == body;
      case Some(s) =>
        assert t == body + "/" + s && t[..|body|] == body && t[|body| + 1..] == s;
        IndexOfAt(t, '/', |body|);
        AtoiNumeral(s);
    }
  }

  lemma SpanReads(x: string, y: string, min: int, max: int, step: Option<string>)
    requires Written(Element(Span(x, y), step)) && 0 <= min && max <= MAX_INT
    ensures var e, r := Element(Span(x, y), step), ParseBounds(x + "-" + y, min, max, step.Some?);
            if r.Success? then r.value == (Least(e, min), Greatest(e, max)) else !Acceptable(e, min, max)
  {
    NumeralPlain(x);
    AtoiNumeral(x);
    if Signed(y) { AtoiSigned(y); } else { AtoiNumeral(y); }
    var t := x + "-" + y;
    assert t[..|x|] == x && t[|x| + 1..] == y && t[|x|] == '-';
    IndexOfAt(t, '-', |x|);
    assert t != "*";
  }

  lemma BoundsRead(b: Base, min: int, max: int, step: Option<string>)
    requires Written(Element(b, step)) && 0 <= min && max <= MAX_INT
    ensures var e, r := Element(b, step), ParseBounds(BaseText(b), min, max, step.Some?);
            if r.Success? then r.value == (Least(e, min), Greatest(e, max)) else !Acceptable(e, min, max)
  {
    match b {
      case Star =>
      case From(a) =>
        NumeralPlain(a);
        AtoiNumeral(a);
      case Span(x, y) => SpanReads(x, y, min, max, step);
    }
  }

  /** One element, as it is read. */
  lemma ElementReads(e: Element, min: int, max: int)
    requires Written(e) && 0 <= min && max <= MAX_INT
    ensures ParsePart(ElementText(e), min, max) ==
            if Acceptable(e, min, max) then Success(Range(Least(e, min), Greatest(e, max), Every(e))) else Failure
  {
    StepReads(e);
    BoundsRead(e.base, min, max, e.step);
  }

  /** What a part selects, once it is read. */
  lemma PartReads(part: string, min: int, max: int, r: Range, v: int)
    requires ParsePart(part, min, max) == Success(r)
    ensures PartMatches(part, min, max, v) <==> r.lo <= v <= r.hi && (v - r.lo) % r.step == 0
  {}

  lemma ElementMatches(e: Element, min: int, max: int, v: int)
    requires Written(e) && 0 <= min && max <= MAX_INT
    ensures PartMatches(ElementText(e), min, max, v) <==> Selects(e, min, max, v)
  {
    ElementReads(e, min, max);
    if Acceptable(e, min, max) {
      PartReads(ElementText(e), min, max, Range(Least(e, min), Greatest(e, max), Every(e)), v);
    }
  }

  // ---- A field ----

  lemma FieldSplits(es: seq<Element>)
    requires es != [] && forall e | e in es :: Written(e)
    ensures Split(FieldText(es), ',') == Texts(es) && FieldText(es) != ""
  {
    forall i | 0 <= i < |es| ensures ',' !in Texts(es)[i] && Texts(es)[i] != "" {
      assert es[i] in es;
      BasePlain(es[i].base, es[i].step);
      if es[i].step.Some? { NumeralPlain(es[i].step.value); }
    }
    assert forall p | p in Texts(es) :: ',' !in p;
    SplitJoin(Texts(es), ',');
    assert Texts(es)[0] != "";
    SplitPlain("", ',');
  }

  lemma PartsExpandSnoc(front: seq<string>, e: Element, min: int, max: int)
    requires Written(e) && 0 <= min && max <= MAX_INT
    ensures ExpandParts(front + [ElementText(e)], min, max).Success? <==>
            ExpandParts(front, min, max).Success? && Acceptable(e, min, max)
  {
    assert (front + [ElementText(e)])[..|front|] == front;
    ElementReads(e, min, max);
  }

  lemma {:induction false} PartsExpand(es: seq<Element>, min: int, max: int)
    requires (forall e | e in es :: Written(e)) && 0 <= min && max <= MAX_INT
    ensures ExpandParts(Texts(es), min, max).Success? <==> forall e | e in es :: Acceptable(e, min, max)
  {
    if es != [] {
      var front, last := es[..|es| - 1], es[|es| - 1];
      assert es == front + [last] && Texts(es) == Texts(front) + [ElementText(last)];
      PartsExpand(front, min, max);
      PartsExpandSnoc(Texts(front), last, min, max);
    }
  }

  lemma PartsMatch(es: seq<Element>, min: int, max: int, v: int)
    requires (forall e | e in es :: Written(e)) && 0 <= min && max <= MAX_INT
    ensures (exists part | part in Texts(es) :: PartMatches(part, min, max, v)) <==>
            exists e | e in es :: Selects(e, min, max, v)
  {
    forall i | 0 <= i < |es| ensures PartMatches(Texts(es)[i], min, max, v) <==> Selects(es[i], min, max, v) {
      assert es[i] in es;
      ElementMatches(es[i], min, max, v);
    }
    if e :| e in es && Selects(e, min, max, v) {
      var i :| 0 <= i < |es| && es[i] == e;
      assert Texts(es)[i] in Texts(es);
    }
    if part :| part in Texts(es) && PartMatches(part, min, max, v) {
      var i :| 0 <= i < |es| && Texts(es)[i] == part;
      assert es[i] in es;
    }
  }

  /** A written field is accepted if and only if each of its elements is within bounds, ascends and steps on;
      it matches exactly what one of them selects. */
  lemma FieldMeaning(es: seq<Element>, min: int, max: int, v: int)
    requires es != [] && (forall e | e in es :: Written(e)) && 0 <= min && max <= MAX_INT
    ensures Expand(FieldText(es), min, max).Success? <==> forall e | e in es :: Acceptable(e, min, max)
    ensures Matches(FieldText(es), min, max, v) <==> exists e | e in es :: Selects(e, min, max, v)
  {
    FieldSplits(es);
    PartsExpand(es, min, max);
    PartsMatch(es, min, max, v);
  }

  /** The expansion of a written field lists exactly what its elements select. */
  lemma ExpansionMeaning(es: seq<Element>, min: int, max: int, v: int)
    requires es != [] && (forall e | e in es :: Written(e)) && 0 <= min && max <= MAX_INT
    requires forall e | e in es :: Acceptable(e, min, max)
    ensures Expand(FieldText(es), min, max).Success?
    ensures v in Expand(FieldText(es), min, max).value <==> exists e | e in es :: Selects(e, min, max, v)
  {
    FieldMeaning(es, min, max, v);
    ExpandIsMatches(FieldText(es), min, max, v);
  }

  // ---- Every accepted field is written so ----

  predicate CronText(s: string) {
    forall c | c in s :: IsDigit(c) || c in {'*', '/', ',', '-'}
  }

  lemma AtoiIsNumeral(s: string)
    requires Atoi(s).Some? && CronText(s)
    ensures Numeral(s) || (Signed(s) && Atoi(s).value <= 0)
  {
    assert s[0] in s;
  }

  lemma SpanIsWritten(body: string, dash: nat)
    requires CronText(body) && dash < |body| && body[dash] == '-' && '-' !in body[..dash]
    requires Atoi(body[..dash]).Some? && Atoi(body[dash + 1..]).Some?
    ensures var b := Span(body[..dash], body[dash + 1..]); Written(Element(b, None)) && BaseText(b) == body
  {
    AtoiIsNumeral(body[..dash]);
    AtoiIsNumeral(body[dash + 1..]);
    assert body == body[..dash] + "-" + body[dash + 1..];
  }

  lemma FromIsWritten(body: string)
    requires CronText(body) && '-' !in body && Atoi(body).Some?
    ensures Written(Element(From(body), None))
  {
    AtoiIsNumeral(body);
  }

  lemma BoundsAreWritten(body: string, min: int, max: int, hasStep: bool) returns (b: Base)
    requires CronText(body) && ParseBounds(body, min, max, hasStep).Success?
    ensures Written(Element(b, None)) && BaseText(b) == body
  {
    var dash := IndexOf(body, '-');
    if body == "*" {
      b := Star;
    } else if dash >= 0 {
      assert Atoi(body[..dash]).Some? && Atoi(body[dash + 1..]).Some?;
      SpanIsWritten(body, dash);
      b := Span(body[..dash], body[dash + 1..]);
    } else {
      FromIsWritten(body);
      b := From(body);
    }
  }

  lemma StepIsWritten(part: string, slash: nat)
    requires CronText(part) && IndexOf(part, '/') == slash && ParseStep(part).Success?
    ensures Numeral(part[slash + 1..]) && CronText(part[..slash]) && part == part[..slash] + "/" + part[slash + 1..]
  {
    AtoiIsNumeral(part[slash + 1..]);
  }

  lemma PartParses(part: string, min: int, max: int)
    requires ParsePart(part, min, max).Success?
    ensures ParseStep(part).Success?
    ensures var slash := IndexOf(part, '/');
            ParseBounds(if slash < 0 then part else part[..slash], min, max, slash >= 0).Success?
  {}

  lemma PartIsWritten(part: string, min: int, max: int) returns (e: Element)
    requires CronText(part) && ParsePart(part, min, max).Success?
    ensures Written(e) && ElementText(e) == part
  {
    PartParses(part, min, max);
    var slash := IndexOf(part, '/');
    if slash < 0 {
      var b := BoundsAreWritten(part, min, max, false);
      e := Element(b, None);
    } else {
      StepIsWritten(part, slash);
      var b := BoundsAreWritten(part[..slash], min, max, true);
      e := WithStep(b, part[slash + 1..]);
    }
  }

  lemma WithStep(b: Base, s: string) returns (e: Element)
    requires Written(Element(b, None)) && Numeral(s)
    ensures Written(e) && ElementText(e) == BaseText(b) + "/" + s
  {
    e := Element(b, Some(s));
    assert BaseText(b) + ("/" + s) == BaseText(b) + "/" + s;
  }

  lemma TextsSnoc(front: seq<Element>, e: Element)
    ensures Texts(front + [e]) == Texts(front) + [ElementText(e)]
  {}

  lemma {:induction false} PartsAreWritten(parts: seq<string>, min: int, max: int) returns (es: seq<Element>)
    requires (forall p | p in parts :: CronText(p)) && ExpandParts(parts, min, max).Success?
    ensures (forall e | e in es :: Written(e)) && Texts(es) == parts
  {
    es := [];
    if parts != [] {
      var front, last := parts[..|parts| - 1], parts[|parts| - 1];
      assert parts == front + [last];
      es := PartsAreWritten(front, min, max);
      var e := PartIsWritten(last, min, max);
      TextsSnoc(es, e);
      es := es + [e];
    }
  }

  lemma {:induction false} SplitChars(f: string, sep: char)
    requires CronText(f)
    ensures forall p | p in Split(f, sep) :: CronText(p)
  {
    if f != "" {
      assert f == [f[0]] + f[1..] && f[0] in f;
      SplitChars(f[1..], sep);
      var rest := Split(f[1..], sep);
      assert rest[0] in rest && forall p | p in rest[1..] :: p in rest;
    }
  }

  /** Every field that the validation accepts is the text of elements, and so means what they select. */
  lemma AcceptedIsWritten(f: string, min: int, max: int) returns (es: seq<Element>)
    requires CronCalendar.ValidField(f, min, max)
    ensures es != [] && (forall e | e in es :: Written(e)) && FieldText(es) == f
  {
    var parts := Split(f, ',');
    SplitChars(f, ',');
    es := PartsAreWritten(parts, min, max);
    JoinSplit(f, ',');
  }

  lemma DigitsAreCronText(s: string)
    requires AllDigits(s)
    ensures CronText(s)
  {}

  lemma BaseIsCronText(b: Base)
    requires Written(Element(b, None))
    ensures CronText(BaseText(b))
  {
    match b {
      case Star =>
      case From(a) => DigitsAreCronText(a);
      case Span(x, y) =>
        DigitsAreCronText(x);
        if Signed(y) { DigitsAreCronText(y[1..]); } else { DigitsAreCronText(y); }
    }
  }

  lemma ElementIsCronText(e: Element)
    requires Written(e)
    ensures CronText(ElementText(e))
  {
    BaseIsCronText(e.base);
    if e.step.Some? { DigitsAreCronText(e.step.value); }
  }

  lemma {:induction false} JoinIsCronText(parts: seq<string>)
    requires forall p | p in parts :: CronText(p)
    ensures CronText(Join(parts, ','))
  {
    if |parts| > 1 {
      assert parts[0] in parts && forall p | p in parts[1..] :: p in parts;
      JoinIsCronText(parts[1..]);
    } else if |parts| == 1 {
      assert parts[0] in parts;
    }
  }

  /** The text spells these elements, all of them acceptable. */
  predicate Spells(f: string, es: seq<Element>, min: int, max: int) {
    es != [] && (forall e | e in es :: Written(e) && Acceptable(e, min, max)) && FieldText(es) == f
  }

  ghost predicate Accepts(f: string, min: int, max: int) {
    exists es :: Spells(f, es, min, max)
  }

  /** The fields that the validation accepts are the texts of acceptable elements. */
  lemma AcceptedExactly(f: string, min: int, max: int)
    requires 0 <= min && max <= MAX_INT
    ensures CronCalendar.ValidField(f, min, max) <==> Accepts(f, min, max)
  {
    if CronCalendar.ValidField(f, min, max) {
      var es := AcceptedIsWritten(f, min, max);
      FieldMeaning(es, min, max, min);
      assert Spells(f, es, min, max);
    }
    if Accepts(f, min, max) {
      var es :| Spells(f, es, min, max);
      FieldMeaning(es, min, max, min);
      FieldSplits(es);
      forall e | e in es { ElementIsCronText(e); }
      forall p | p in Texts(es) ensures CronText(p) {
        var i :| 0 <= i < |es| && Texts(es)[i] == p;
        assert es[i] in es;
      }
      JoinIsCronText(Texts(es));
    }
  }

  lemma FieldBounds(fields: seq<string>)
    ensures CronCalendar.ValidFields(fields) <==>
            && |fields| == 5
            && CronCalendar.ValidField(fields[0], 0, 59) && CronCalendar.ValidField(fields[1], 0, 23)
            && CronCalendar.ValidField(fields[2], 1, 31) && CronCalendar.ValidField(fields[3], 1, 12)
            && CronCalendar.ValidField(fields[4], 0, 7)
  {
    var b := CronCalendar.Bounds();
    assert b[0] == (0, 59) && b[1] == (0, 23) && b[2] == (1, 31) && b[3] == (1, 12) && b[4] == (0, 7);
  }

  /** The schedules that the validation accepts: minute, hour, day of the month, month and day of the week, in
      this order, where 7 is Sunday too. */
  lemma ScheduleAccepted(fields: seq<string>)
    ensures CronCalendar.ValidFields(fields) <==>
            && |fields| == 5 && Accepts(fields[0], 0, 59) && Accepts(fields[1], 0, 23)
            && Accepts(fields[2], 1, 31) && Accepts(fields[3], 1, 12) && Accepts(fields[4], 0, 7)
  {
    FieldBounds(fields);
    if |fields| == 5 {
      AcceptedExactly(fields[0], 0, 59);
      AcceptedExactly(fields[1], 0, 23);
      AcceptedExactly(fields[2], 1, 31);
      AcceptedExactly(fields[3], 1, 12);
      AcceptedExactly(fields[4], 0, 7);
    }
  }

  // ---- Weekdays ----

  lemma {:induction false} OneWeekday(d: int, n: nat)
    requires 1 <= d
    ensures CronCalendar.WeekdaysUpTo({d}, n) == if d <= n then [Itoa(d)] else []
  {
    if n > 0 { OneWeekday(d, n - 1); }
  }

  lemma OnePart(part: string, min: int, max: int)
    requires part != "" && ',' !in part && ParsePart(part, min, max).Success?
    ensures var r := ParsePart(part, min, max).value; Expand(part, min, max) == Success(Values(r.lo, r.hi, r.step))
  {
    var r := ParsePart(part, min, max).value;
    SplitPlain(part, ',');
    assert [part][..0] == [] && ExpandParts([], min, max) == Success([]);
    assert [] + Values(r.lo, r.hi, r.step) == Values(r.lo, r.hi, r.step);
  }

  lemma ValuesOfOne(d: int, step: int)
    requires step >= 1
    ensures Values(d, d, step) == [d]
  {
    assert Values(d + step, d, step) == [];
  }

  lemma NumberExpands(d: nat, min: nat, max: int)
    requires min <= d <= max <= MAX_INT
    ensures Expand(Itoa(d), min, max) == Success([d])
  {
    var e := Element(From(Itoa(d)), None);
    DigitsValueItoa(d);
    NumeralPlain(Itoa(d));
    assert ElementText(e) == Itoa(d);
    ElementReads(e, min, max);
    OnePart(Itoa(d), min, max);
    assert Least(e, min) == Greatest(e, max) == d && Every(e) == 1;
    assert ParsePart(Itoa(d), min, max) == Success(Range(d, d, 1));
    ValuesOfOne(d, 1);
  }

  /** A single weekday is written in systemd's count: Sunday, cron's 0 and 7, is 7 there. */
  lemma WeekdayNumber(d: nat)
    requires d <= 7
    ensures CronCalendar.WeekdaySpec(Itoa(d)) == Itoa(if d == 0 then 7 else d)
  {
    NumberExpands(d, 0, 7);
    var n := if d == 0 then 7 else d;
    assert [d][..0] == [];
    assert CronCalendar.SystemdDays([d]) == {n};
    OneWeekday(n, 7);
  }
}
