/** The cron schedule and systemd calendar languages, and the compiler between them. */
module CronCalendar {
  import opened Wrappers
  import opened Text
  import opened CronField

  /** A moment as both languages see it; `dow` counts from 0 = Sunday, as cron does. */
  datatype Instant = Instant(minute: int, hour: int, dom: int, month: int, dow: int)

  /** The days a month has in the years in which it has most. */
  function DaysIn(month: int): int {
    if month == 2 then 29 else if month == 4 || month == 6 || month == 9 || month == 11 then 30 else 31
  }

  predicate RealDate(month: int, dom: int) {
    1 <= month <= 12 && 1 <= dom <= DaysIn(month)
  }

  /** A moment of some year. A date falls on every day of the week in one year or another. */
  predicate Proper(i: Instant) {
    0 <= i.minute <= 59 && 0 <= i.hour <= 23 && RealDate(i.month, i.dom) && 0 <= i.dow <= 6
  }

  // ---- cron ----

  /** cronFieldRE. */
  predicate CronChars(f: string) {
    f != "" && forall c | c in f :: IsDigit(c) || c in {'*', '/', ',', '-'}
  }

  function Bounds(): seq<(int, int)> {
    [(0, 59), (0, 23), (1, 31), (1, 12), (0, 7)]
  }

  predicate ValidField(f: string, min: int, max: int) {
    CronChars(f) && Expand(f, min, max).Success?
  }

  /** The five fields of an accepted schedule. */
  predicate ValidFields(fields: seq<string>) {
    |fields| == 5 && forall i | 0 <= i < 5 :: ValidField(fields[i], Bounds()[i].0, Bounds()[i].1)
  }

  /** Sunday is 0 and also 7. */
  predicate WeekdayMatches(f: string, dow: int) {
    Matches(f, 0, 7, dow) || (dow == 0 && Matches(f, 0, 7, 7))
  }

  /** When a cron schedule fires: the two day fields are alternatives when both are restricted. */
  predicate CronMatches(fields: seq<string>, i: Instant)
    requires |fields| == 5
  {
    && Matches(fields[0], 0, 59, i.minute)
    && Matches(fields[1], 0, 23, i.hour)
    && Matches(fields[3], 1, 12, i.month)
    && (if fields[2] != "*" && fields[4] != "*"
        then Matches(fields[2], 1, 31, i.dom) || WeekdayMatches(fields[4], i.dow)
        else Matches(fields[2], 1, 31, i.dom) && WeekdayMatches(fields[4], i.dow))
  }

  // ---- systemd ----

  /** One item of a calendar component: a value, with a repetition it stands for itself and every
      later value that many apart. */
  datatype Item = Item(start: nat, every: Option<nat>)

  predicate Number(s: string) {
    s != "" && AllDigits(s)
  }

  /** systemd refuses a repetition that does not occur once within the component, whose last value is
      `max`; so `0/60` is no item of the minutes. */
  function ParseItem(s: string, max: int): Option<Item> {
    var slash := IndexOf(s, '/');
    if slash < 0 then
      if Number(s) then Some(Item(DigitsValue(s), None)) else None
    else if Number(s[..slash]) && Number(s[slash + 1..]) then
      var start, every := DigitsValue(s[..slash]), DigitsValue(s[slash + 1..]);
      if every >= 1 && start + every <= max then Some(Item(start, Some(every))) else None
    else
      None
  }

  predicate ItemMatches(s: string, max: int, v: int) {
    match ParseItem(s, max)
    case None => false
    case Some(Item(start, None)) => v == start
    case Some(Item(start, Some(every))) => every >= 1 && v >= start && (v - start) % every == 0
  }

  /** A component is `*` or a comma list of items; anything else is no component at all. */
  predicate ValidComponent(c: string, max: int) {
    c == "*" || forall s | s in Split(c, ',') :: ParseItem(s, max).Some?
  }

  predicate ComponentMatches(c: string, max: int, v: int) {
    ValidComponent(c, max) && (c == "*" || exists s | s in Split(c, ',') :: ItemMatches(s, max, v))
  }

  /** systemd counts weekdays from 1 = Monday to 7 = Sunday. */
  function SystemdWeekday(dow: int): int {
    if dow == 0 then 7 else dow
  }

  predicate DateTimeMatches(date: string, time: string, i: Instant) {
    var d, t := Split(date, '-'), Split(time, ':');
    && |d| == 3 && d[0] == "*" && ComponentMatches(d[1], 12, i.month) && ComponentMatches(d[2], 31, i.dom)
    && |t| == 3 && ComponentMatches(t[0], 23, i.hour) && ComponentMatches(t[1], 59, i.minute) && t[2] == "00"
  }

  /** An OnCalendar expression: an optional weekday list, a date, a time. All parts must match. */
  predicate CalendarMatches(expr: string, i: Instant) {
    var words := Split(expr, ' ');
    if |words| == 2 then DateTimeMatches(words[0], words[1], i)
    else |words| == 3 && ComponentMatches(words[0], 7, SystemdWeekday(i.dow)) && DateTimeMatches(words[1], words[2], i)
  }

  // ---- The compiler ----

  /** Time fields keep cron's step syntax, rebased to 0. */
  function StepFromZero(f: string): string {
    if f == "*" || f == "*/1" then "*"
    else if HasPrefix(f, "*/") then "0/" + f[2..]
    else f
  }

  function Numerals(vals: seq<int>): seq<string>
    requires forall v | v in vals :: v >= 0
  {
    seq(|vals|, i requires 0 <= i < |vals| => assert vals[i] in vals; Itoa(vals[i]))
  }

  lemma ExpansionInBounds(f: string, min: int, max: int)
    requires Expand(f, min, max).Success?
    ensures forall v | v in Expand(f, min, max).value :: min <= v <= max
  {
    forall v | v in Expand(f, min, max).value ensures min <= v <= max { ExpandIsMatches(f, min, max, v); }
  }

  /** Date fields become explicit lists. */
  function ListOf(f: string, min: nat, max: int): string {
    if f == "*" then "*"
    else match Expand(f, min, max)
      case Failure => f
      case Success(vals) =>
        ExpansionInBounds(f, min, max);
        Join(Numerals(vals), ',')
  }

  /** The numerals of the systemd weekdays 1 to `d` that are in `days`. */
  function WeekdaysUpTo(days: set<int>, d: nat): seq<string> {
    if d == 0 then [] else WeekdaysUpTo(days, d - 1) + if d in days then [Itoa(d)] else []
  }

  function SystemdDays(days: seq<int>): set<int> {
    if days == [] then {} else SystemdDays(days[..|days| - 1]) + {SystemdWeekday(days[|days| - 1])}
  }

  function WeekdaySpec(dow: string): string {
    match Expand(dow, 0, 7)
    case Failure => ""
    case Success(days) =>
      var s := SystemdDays(days);
      if |s| < 7 then Join(WeekdaysUpTo(s, 7), ',') else ""
  }

  function DateSpec(dom: string, month: string): string {
    "*-" + ListOf(month, 1, 12) + "-" + ListOf(dom, 1, 31)
  }

  function TimeSpec(minute: string, hour: string): string {
    StepFromZero(hour) + ":" + StepFromZero(minute) + ":00"
  }

  function CalendarsOf(fields: seq<string>): seq<string>
    requires |fields| == 5
  {
    var dom, dow := fields[2], fields[4];
    var date, time, days := DateSpec(dom, fields[3]), TimeSpec(fields[0], fields[1]), WeekdaySpec(dow);
    if days == "" then [date + " " + time]
    else if dom != "*" && dow != "*" then [days + " *-*-* " + time, date + " " + time]
    else [days + " " + date + " " + time]
  }

  function CronToCalendars(cron: string): seq<string> {
    if |Fields(cron)| != 5 then [cron] else CalendarsOf(Fields(cron))
  }

  // ---- As the program runs ----

  /** validateCronSchedule: true where the program returns no error. */
  method ValidateCronSchedule(schedule: string) returns (ok: bool)
    ensures ok <==> ValidFields(Fields(schedule))
  {
    var fields := Fields(schedule);
    if |fields| != 5 {
      return false;
    }
    for i := 0 to 5
      invariant forall j | 0 <= j < i :: ValidField(fields[j], Bounds()[j].0, Bounds()[j].1)
    {
      if !CronChars(fields[i]) {
        return false;
      }
      var r := ExpandCronField(fields[i], Bounds()[i].0, Bounds()[i].1);
      if r.Failure? {
        return false;
      }
    }
    ok := true;
  }

  method ListDateField(f: string, min: nat, max: int) returns (s: string)
    ensures s == ListOf(f, min, max)
  {
    if f == "*" {
      return "*";
    }
    var r := ExpandCronField(f, min, max);
    if r.Failure? {
      return f;
    }
    var vals := r.value;
    ExpansionInBounds(f, min, max);
    var parts := new string[|vals|];
    for i := 0 to |vals|
      invariant forall j | 0 <= j < i :: parts[j] == Numerals(vals)[j]
    {
      assert vals[i] in vals;
      parts[i] := Itoa(vals[i]);
    }
    assert parts[..] == Numerals(vals);
    s := Join(parts[..], ',');
  }

  method SelectDays(days: seq<int>) returns (selected: set<int>)
    ensures selected == SystemdDays(days)
  {
    selected := {};
    for i := 0 to |days|
      invariant selected == SystemdDays(days[..i])
    {
      assert days[..i + 1][..i] == days[..i];
      selected := selected + {if days[i] == 0 then 7 else days[i]};
    }
    assert days[..|days|] == days;
  }

  method NumberDays(selected: set<int>) returns (parts: seq<string>)
    ensures parts == WeekdaysUpTo(selected, 7)
  {
    parts := [];
    for d := 1 to 8
      invariant parts == WeekdaysUpTo(selected, d - 1)
    {
      if d in selected {
        parts := parts + [Itoa(d)];
      }
    }
  }

  method ListWeekdays(dow: string) returns (s: string)
    ensures s == WeekdaySpec(dow)
  {
    s := "";
    var r := ExpandCronField(dow, 0, 7);
    if r.Success? {
      var selected := SelectDays(r.value);
      if |selected| < 7 {
        var parts := NumberDays(selected);
        s := Join(parts, ',');
      }
    }
  }

  /** cronToCalendars. */
  method Compile(cron: string) returns (calendars: seq<string>)
    ensures calendars == CronToCalendars(cron)
  {
    var fields := Fields(cron);
    if |fields| != 5 {
      return [cron];
    }
    var dom, dow := fields[2], fields[4];
    var time := StepFromZero(fields[1]) + ":" + StepFromZero(fields[0]) + ":00";
    var months := ListDateField(fields[3], 1, 12);
    var days := ListDateField(dom, 1, 31);
    var date := "*-" + months + "-" + days;
    var weekdays := ListWeekdays(dow);
    if weekdays == "" {
      calendars := [date + " " + time];
    } else if dom != "*" && dow != "*" {
      calendars := [weekdays + " *-*-* " + time, date + " " + time];
    } else {
      calendars := [weekdays + " " + date + " " + time];
    }
  }
}
