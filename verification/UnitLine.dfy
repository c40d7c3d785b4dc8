/** One "Directive=name=value" line of a systemd unit file, and the unit-file parser that reads it. */
module UnitLine {
  import opened Wrappers
  import Text

  predicate Control(c: char) {
    c < ' ' || c == '\U{7f}'
  }

  /** The characters that force a value into quotes. */
  predicate NeedsQuotes(c: char, escapeControls: bool) {
    (escapeControls && Control(c)) || Text.IsSpace(c) || c in {'"', '\\', '%'}
  }

  function HexDigit(n: nat): char
    requires n < 16
  {
    if n < 10 then '0' + n as char else 'a' + (n - 10) as char
  }

  /** How a character is written inside the quotes. */
  function Escape(c: char, escapeControls: bool): (e: string)
    ensures e != ""
  {
    if c in {'"', '\\'} then ['\\', c]
    else if c == '%' then "%%"
    else if escapeControls && Control(c) then
      match c
      case '\n' => "\\n"
      case '\t' => "\\t"
      case '\r' => "\\r"
      case _ => ['\\', 'x', HexDigit(c as int / 16), HexDigit(c as int % 16)]
    else [c]
  }

  function Escaped(value: string, escapeControls: bool): string {
    if value == "" then "" else Escape(value[0], escapeControls) + Escaped(value[1..], escapeControls)
  }

  predicate Refused(value: string, escapeControls: bool) {
    !escapeControls && exists c | c in value :: Control(c)
  }

  predicate Quoted(value: string, escapeControls: bool) {
    exists c | c in value :: NeedsQuotes(c, escapeControls)
  }

  /** The rendered line; control characters are refused unless they may be escaped. */
  function Line(directive: string, name: string, value: string, escapeControls: bool): Result<string> {
    if Refused(value, escapeControls) then Failure
    else if Quoted(value, escapeControls) then
      Success(directive + "=\"" + name + "=" + Escaped(value, escapeControls) + "\"\n")
    else
      Success(directive + "=" + name + "=" + value + "\n")
  }

  // ---- As the program runs ----

  /** The scan for a character that may not stand in the value at all. */
  method ScanControls(value: string, escapeControls: bool) returns (refused: bool)
    ensures refused == Refused(value, escapeControls)
  {
    if !escapeControls {
      for i := 0 to |value|
        invariant forall c | c in value[..i] :: !Control(c)
      {
        if Control(value[i]) {
          return true;
        }
        assert value[..i + 1] == value[..i] + [value[i]];
      }
      assert value[..|value|] == value;
    }
    refused := false;
  }

  /** The builder loop. */
  method WriteEscaped(start: string, value: string, escapeControls: bool) returns (b: string)
    ensures b == start + Escaped(value, escapeControls)
  {
    b := start;
    for i := 0 to |value|
      invariant b + Escaped(value[i..], escapeControls) == start + Escaped(value, escapeControls)
    {
      EscapedAt(b, value, i, escapeControls);
      b := b + Escape(value[i], escapeControls);
    }
    assert value[|value|..] == "";
    assert b + "" == b;
  }

  lemma EscapedAt(b: string, value: string, i: nat, escapeControls: bool)
    requires i < |value|
    ensures b + Escaped(value[i..], escapeControls) ==
            b + Escape(value[i], escapeControls) + Escaped(value[i + 1..], escapeControls)
  {
    assert value[i..][1..] == value[i + 1..];
    Regroup(b, Escape(value[i], escapeControls), Escaped(value[i + 1..], escapeControls));
  }

  /** unitAssignmentLine. */
  method UnitAssignmentLine(directive: string, name: string, value: string, escapeControls: bool)
      returns (line: Result<string>)
    ensures line == Line(directive, name, value, escapeControls)
  {
    var refused := ScanControls(value, escapeControls);
    if refused {
      return Failure;
    }
    var at := 0;
    while at < |value| && !NeedsQuotes(value[at], escapeControls)
      invariant at <= |value|
      invariant forall c | c in value[..at] :: !NeedsQuotes(c, escapeControls)
    {
      assert value[..at + 1] == value[..at] + [value[at]];
      at := at + 1;
    }
    assert value[..|value|] == value;
    if at == |value| {
      return Success(directive + "=" + name + "=" + value + "\n");
    }
    var b := WriteEscaped(directive + "=\"" + name + "=", value, escapeControls);
    line := Success(b + "\"\n");
  }

  // ---- The unit-file parser ----

  function HexValue(c: char): Option<nat> {
    if '0' <= c <= '9' then Some(c as int - '0' as int)
    else if 'a' <= c <= 'f' then Some(c as int - 'a' as int + 10)
    else None
  }

  /** What the characters behind a backslash stand for, and how many they are. With `cEscapes` the
      C escapes count; without, the next character stands for itself. */
  function Unescape(s: string, cEscapes: bool): (r: Option<(char, nat)>)
    ensures r.Some? ==> 1 <= r.value.1 <= |s|
  {
    if s == "" then None
    else if !cEscapes || s[0] in {'"', '\\'} then Some((s[0], 1))
    else
      match s[0]
      case 'n' => Some(('\n', 1))
      case 't' => Some(('\t', 1))
      case 'r' => Some(('\r', 1))
      case 'x' =>
        (if |s| < 3 then None
         else match (HexValue(s[1]), HexValue(s[2]))
           case (Some(hi), Some(lo)) => Some(((hi * 16 + lo) as char, 3))
           case _ => None)
      case _ => None
  }

  function Pending(word: Option<string>): string {
    if word.Some? then word.value else ""
  }

  /** The words of a line: blanks separate them, double quotes group, "%%" is a percent sign and any
      other specifier is refused. */
  function Words(s: string, inQuote: bool, word: Option<string>, cEscapes: bool): Option<seq<string>>
    decreases |s|
  {
    if s == "" then
      if inQuote then None else Some(if word.Some? then [word.value] else [])
    else if s[0] == '"' then
      Words(s[1..], !inQuote, Some(Pending(word)), cEscapes)
    else if s[0] == '\\' && inQuote then
      match Unescape(s[1..], cEscapes)
      case Some((c, n)) => Words(s[1 + n..], inQuote, Some(Pending(word) + [c]), cEscapes)
      case None => None
    else if s[0] == '%' then
      if |s| < 2 || s[1] != '%' then None else Words(s[2..], inQuote, Some(Pending(word) + "%"), cEscapes)
    else if !inQuote && s[0] in {' ', '\t'} then
      match Words(s[1..], inQuote, None, cEscapes)
      case Some(more) => Some((if word.Some? then [word.value] else []) + more)
      case None => None
    else
      Words(s[1..], inQuote, Some(Pending(word) + [s[0]]), cEscapes)
  }

  /** The name and the value a line assigns, if it holds exactly one assignment. */
  function ParseLine(line: string, directive: string, cEscapes: bool): Option<(string, string)> {
    var start := |directive| + 1;
    if !(directive + "=" <= line) || |line| <= start || line[|line| - 1] != '\n' then None
    else
      match Words(line[start..|line| - 1], false, None, cEscapes)
      case None => None
      case Some(words) =>
        if |words| != 1 then None
        else
          var cut := Text.IndexOf(words[0], '=');
          if cut == -1 then None else Some((words[0][..cut], words[0][cut + 1..]))
  }

  // ---- Reading back what was rendered ----

  /** The characters of environment variable names and of annotation keys. */
  predicate NameChar(c: char) {
    'a' <= c <= 'z' || 'A' <= c <= 'Z' || '0' <= c <= '9' || c in {'_', '-', '.', '/'}
  }

  predicate IsName(name: string) {
    forall i | 0 <= i < |name| :: NameChar(name[i])
  }

  /** Characters the parser takes as they are, whatever its state. */
  predicate Inert(s: string) {
    forall i | 0 <= i < |s| :: s[i] !in {'"', '\\', '%', ' ', '\t'}
  }

  lemma {:induction false} WordsOfInert(s: string, rest: string, inQuote: bool, word: string, cEscapes: bool)
    requires Inert(s)
    ensures Words(s + rest, inQuote, Some(word), cEscapes) == Words(rest, inQuote, Some(word + s), cEscapes)
  {
    if s == "" {
      assert s + rest == rest && word + s == word;
    } else {
      assert (s + rest)[1..] == s[1..] + rest;
      WordsOfInert(s[1..], rest, inQuote, word + [s[0]], cEscapes);
      assert word + [s[0]] + s[1..] == word + s;
    }
  }

  lemma HexRoundTrip(n: nat)
    requires n < 16
    ensures HexValue(HexDigit(n)) == Some(n)
  {}

  lemma UnescapeControl(c: char, rest: string)
    requires Control(c) && c !in {'\n', '\t', '\r'}
    ensures Unescape(Escape(c, true)[1..] + rest, true) == Some((c, 3))
  {
    HexRoundTrip(c as int / 16);
    HexRoundTrip(c as int % 16);
    assert c as int / 16 * 16 + c as int % 16 == c as int;
  }

  /** Inside quotes, an escaped character is read as that character. */
  lemma WordsOfEscape(c: char, rest: string, word: string, escapeControls: bool)
    ensures Words(Escape(c, escapeControls) + rest, true, Some(word), escapeControls) ==
            Words(rest, true, Some(word + [c]), escapeControls)
  {
    var e := Escape(c, escapeControls);
    assert (e + rest)[|e|..] == rest;
    assert (e + rest)[1..] == e[1..] + rest;
    if escapeControls && Control(c) && c !in {'\n', '\t', '\r'} {
      UnescapeControl(c, rest);
    }
  }

  lemma Regroup(a: string, b: string, c: string)
    ensures a + b + c == a + (b + c)
  {}

  lemma {:induction false} WordsOfEscaped(value: string, rest: string, word: string, escapeControls: bool)
    ensures Words(Escaped(value, escapeControls) + rest, true, Some(word), escapeControls) ==
            Words(rest, true, Some(word + value), escapeControls)
  {
    if value == "" {
      assert Escaped(value, escapeControls) + rest == rest && word + value == word;
    } else {
      var c, tail := value[0], Escaped(value[1..], escapeControls) + rest;
      Regroup(Escape(c, escapeControls), Escaped(value[1..], escapeControls), rest);
      WordsOfEscape(c, tail, word, escapeControls);
      WordsOfEscaped(value[1..], rest, word + [c], escapeControls);
      assert word + [c] + value[1..] == word + value;
    }
  }

  lemma CutAtName(name: string, value: string)
    requires IsName(name)
    ensures var w := name + "=" + value;
            Text.IndexOf(w, '=') == |name| && w[..|name|] == name && w[|name| + 1..] == value
  {
    var w := name + "=" + value;
    assert w[..|name|] == name;
    Text.IndexOfAt(w, '=', |name|);
  }

  lemma NoName(name: string)
    requires IsName(name)
    ensures Inert(name + "=")
  {}

  lemma PlainWord(name: string, value: string, escapeControls: bool)
    requires IsName(name) && !Quoted(value, escapeControls)
    ensures Words(name + "=" + value, false, None, escapeControls) == Some([name + "=" + value])
  {
    var w := name + "=" + value;
    assert Inert(value) by {
      assert forall i | 0 <= i < |value| :: value[i] in value;
    }
    NoName(name);
    assert |w| > 0;
    assert Words(w, false, None, escapeControls) == Words(w, false, Some(""), escapeControls);
    WordsOfInert(w, "", false, "", escapeControls);
    assert w + "" == w && "" + w == w;
  }

  lemma QuotedWord(name: string, value: string, escapeControls: bool)
    requires IsName(name)
    ensures Words("\"" + (name + "=" + (Escaped(value, escapeControls) + "\"")), false, None, escapeControls) ==
            Some([name + "=" + value])
  {
    NoName(name);
    var inner := Escaped(value, escapeControls) + "\"";
    var s := "\"" + (name + "=" + inner);
    assert s[1..] == name + "=" + inner;
    assert Words(s, false, None, escapeControls) == Words(name + "=" + inner, true, Some(""), escapeControls);
    WordsOfInert(name + "=", inner, true, "", escapeControls);
    assert "" + (name + "=") == name + "=";
    WordsOfEscaped(value, "\"", name + "=", escapeControls);
  }

  lemma ParseOfBody(directive: string, body: string, cEscapes: bool)
    ensures ParseLine(directive + "=" + body + "\n", directive, cEscapes) ==
            match Words(body, false, None, cEscapes)
            case None => None
            case Some(words) =>
              if |words| != 1 || Text.IndexOf(words[0], '=') == -1 then None
              else Some((words[0][..Text.IndexOf(words[0], '=')], words[0][Text.IndexOf(words[0], '=') + 1..]))
  {
    var line := directive + "=" + body + "\n";
    assert line[|directive| + 1..|line| - 1] == body;
  }

  lemma PlainReadsBack(directive: string, name: string, value: string, escapeControls: bool)
    requires IsName(name) && !Quoted(value, escapeControls)
    ensures ParseLine(directive + "=" + name + "=" + value + "\n", directive, escapeControls) == Some((name, value))
  {
    CutAtName(name, value);
    PlainWord(name, value, escapeControls);
    ParseOfBody(directive, name + "=" + value, escapeControls);
    assert directive + "=" + (name + "=" + value) + "\n" == directive + "=" + name + "=" + value + "\n";
  }

  lemma QuotedReadsBack(directive: string, name: string, value: string, escapeControls: bool)
    requires IsName(name)
    ensures ParseLine(directive + "=\"" + name + "=" + Escaped(value, escapeControls) + "\"\n",
                      directive, escapeControls)
            == Some((name, value))
  {
    var e := Escaped(value, escapeControls);
    CutAtName(name, value);
    QuotedWord(name, value, escapeControls);
    ParseOfBody(directive, "\"" + (name + "=" + (e + "\"")), escapeControls);
    QuotedShape(directive, name, e);
  }

  lemma QuotedShape(directive: string, name: string, e: string)
    ensures directive + "=" + ("\"" + (name + "=" + (e + "\""))) + "\n" == directive + "=\"" + name + "=" + e + "\"\n"
  {
    assert "=\"" == "=" + "\"";
    assert "\"\n" == "\"" + "\n";
  }

  /** A line is refused exactly for a control character that may not be escaped; every other line reads
      back as the name and the value it was rendered from. */
  lemma LineReadsBack(directive: string, name: string, value: string, escapeControls: bool)
    requires IsName(name)
    ensures match Line(directive, name, value, escapeControls)
            case Failure => !escapeControls && exists c | c in value :: c < ' ' || c == '\U{7f}'
            case Success(line) =>
              && (!escapeControls ==> forall c | c in value :: ' ' <= c && c != '\U{7f}')
              && ParseLine(line, directive, escapeControls) == Some((name, value))
  {
    if !Refused(value, escapeControls) {
      if Quoted(value, escapeControls) {
        QuotedReadsBack(directive, name, value, escapeControls);
      } else {
        PlainReadsBack(directive, name, value, escapeControls);
      }
    }
  }

  lemma {:induction false} EscapedHasNoNewline(value: string, escapeControls: bool)
    requires !Refused(value, escapeControls)
    ensures '\n' !in Escaped(value, escapeControls)
  {
    if value != "" {
      assert value[0] in value;
      assert forall c | c in value[1..] :: c in value;
      EscapedHasNoNewline(value[1..], escapeControls);
    }
  }

  /** A rendered line has exactly one newline, at its end: no value can open a second directive. */
  lemma OneLine(directive: string, name: string, value: string, escapeControls: bool)
    requires '\n' !in directive && IsName(name)
    requires Line(directive, name, value, escapeControls).Success?
    ensures var line := Line(directive, name, value, escapeControls).value;
            line != "" && line[|line| - 1] == '\n' && '\n' !in line[..|line| - 1]
  {
    var line := Line(directive, name, value, escapeControls).value;
    assert '\n' !in name;
    if Quoted(value, escapeControls) {
      EscapedHasNoNewline(value, escapeControls);
      assert line[..|line| - 1] == directive + "=\"" + name + "=" + Escaped(value, escapeControls) + "\"";
    } else {
      assert '\n' !in value by {
        assert NeedsQuotes('\n', escapeControls);
      }
      assert line[..|line| - 1] == directive + "=" + name + "=" + value;
    }
  }

  /** The value stands as it is exactly when nothing in it means something to the unit-file parser: no blank,
      no quote, backslash or percent sign, and no control character if those may be escaped. */
  lemma BareExactly(directive: string, name: string, value: string, escapeControls: bool)
    requires IsName(name) && Line(directive, name, value, escapeControls).Success?
    ensures Line(directive, name, value, escapeControls).value == directive + "=" + name + "=" + value + "\n" <==>
            forall c | c in value ::
              !Text.IsSpace(c) && c !in {'"', '\\', '%'} && (escapeControls ==> ' ' <= c && c != '\U{7f}')
  {
    if Quoted(value, escapeControls) {
      var line := Line(directive, name, value, escapeControls).value;
      assert line[|directive| + 1] == '"';
      assert (directive + "=" + name + "=" + value + "\n")[|directive| + 1] == (name + "=")[0];
      var c :| c in value && NeedsQuotes(c, escapeControls);
    }
  }
}
