/** The few functions of Go's `strings` and `strconv` packages that the modelled code is built on,
    with the round trips the codecs rest on. */
module Text {
  import opened Wrappers

  /** strings.Split(s, sep) for a one-character separator. */
  function Split(s: string, sep: char): (parts: seq<string>)
    ensures |parts| >= 1
    ensures forall p | p in parts :: sep !in p
  {
    if s == "" then
      [""]
    else
      var rest := Split(s[1..], sep);
      if s[0] == sep then [""] + rest else [[s[0]] + rest[0]] + rest[1..]
  }

  /** strings.Join(parts, sep) for a one-character separator. */
  function Join(parts: seq<string>, sep: char): string {
    if parts == [] then ""
    else if |parts| == 1 then parts[0]
    else parts[0] + [sep] + Join(parts[1..], sep)
  }

  lemma {:induction false} SplitPlain(s: string, sep: char)
    requires sep !in s
    ensures Split(s, sep) == [s]
  {
    if s != "" {
      SplitPlain(s[1..], sep);
      assert [s[0]] + s[1..] == s;
    }
  }

  lemma {:induction false} SplitCons(head: string, tail: string, sep: char)
    requires sep !in head
    ensures Split(head + [sep] + tail, sep) == [head] + Split(tail, sep)
  {
    var s := head + [sep] + tail;
    if head == "" {
      assert s[1..] == tail;
    } else {
      assert s[1..] == head[1..] + [sep] + tail;
      SplitCons(head[1..], tail, sep);
      assert [head[0]] + head[1..] == head;
    }
  }

  lemma SplitUnfold(s: string, sep: char)
    requires s != ""
    ensures Split(s, sep) == if s[0] == sep then [""] + Split(s[1..], sep)
                             else [[s[0]] + Split(s[1..], sep)[0]] + Split(s[1..], sep)[1..]
  {}

  /** Splitting at a separator in the middle. */
  lemma {:induction false} SplitAcross(a: string, b: string, sep: char)
    ensures Split(a + [sep] + b, sep) == Split(a, sep) + Split(b, sep)
  {
    if a == "" {
      assert ([sep] + b)[1..] == b;
      assert a + [sep] + b == [sep] + b;
    } else {
      SplitAcross(a[1..], b, sep);
      SplitAcrossStep(a, b, sep);
    }
  }

  lemma SplitAcrossStep(a: string, b: string, sep: char)
    requires a != "" && Split(a[1..] + [sep] + b, sep) == Split(a[1..], sep) + Split(b, sep)
    ensures Split(a + [sep] + b, sep) == Split(a, sep) + Split(b, sep)
  {
    var s := a + [sep] + b;
    assert s[0] == a[0] && s[1..] == a[1..] + [sep] + b;
    SplitUnfold(s, sep);
    SplitUnfold(a, sep);
    PrependFirst(a[0], Split(a[1..], sep), Split(b, sep));
  }

  lemma PrependFirst(c: char, first: seq<string>, tail: seq<string>)
    requires first != []
    ensures [[c] + (first + tail)[0]] + (first + tail)[1..] == ([[c] + first[0]] + first[1..]) + tail
    ensures [""] + (first + tail) == ([""] + first) + tail
  {
    assert (first + tail)[1..] == first[1..] + tail;
  }

  /** Splitting undoes joining, for pieces that do not contain the separator. */
  lemma {:induction false} SplitJoin(parts: seq<string>, sep: char)
    requires parts != []
    requires forall p | p in parts :: sep !in p
    ensures Split(Join(parts, sep), sep) == parts
  {
    if |parts| == 1 {
      SplitPlain(parts[0], sep);
    } else {
      SplitJoin(parts[1..], sep);
      SplitCons(parts[0], Join(parts[1..], sep), sep);
    }
  }

  lemma JoinPushFront(c: char, parts: seq<string>, sep: char)
    requires parts != []
    ensures Join([[c] + parts[0]] + parts[1..], sep) == [c] + Join(parts, sep)
  {
    assert ([[c] + parts[0]] + parts[1..])[1..] == parts[1..];
  }

  /** Joining undoes splitting. */
  lemma {:induction false} JoinSplit(s: string, sep: char)
    ensures Join(Split(s, sep), sep) == s
  {
    if s != "" {
      JoinSplit(s[1..], sep);
      var rest := Split(s[1..], sep);
      if s[0] == sep {
        assert ([""] + rest)[1..] == rest;
      } else {
        JoinPushFront(s[0], rest, sep);
      }
    }
  }

  predicate IsDigit(c: char) {
    '0' <= c <= '9'
  }

  predicate AllDigits(s: string) {
    forall c | c in s :: IsDigit(c)
  }

  function DigitsValue(s: string): nat
    requires AllDigits(s)
  {
    if s == "" then 0
    else assert IsDigit(s[|s| - 1]); DigitsValue(s[..|s| - 1]) * 10 + (s[|s| - 1] - '0') as int
  }

  /** The bound of Go's 64-bit int, which strconv.Atoi does not exceed. */
  const MAX_INT: int := 0x7fff_ffff_ffff_ffff

  /** strconv.Atoi: an optional sign, at least one decimal digit, within 64 bits. */
  function Atoi(s: string): (r: Option<int>) {
    var signed := s != "" && s[0] in {'+', '-'};
    var digits := if signed then s[1..] else s;
    if digits == "" || !AllDigits(digits) then
      None
    else
      var magnitude: int := DigitsValue(digits);
      if s[0] == '-' then
        if magnitude <= MAX_INT + 1 then Some(-magnitude) else None
      else
        if magnitude <= MAX_INT then Some(magnitude) else None
  }

  /** strconv.Itoa on a non-negative value. */
  function Itoa(n: nat): (s: string)
    ensures s != "" && AllDigits(s)
  {
    var digit := ('0' as int + n % 10) as char;
    if n < 10 then [digit] else Itoa(n / 10) + [digit]
  }

  lemma {:induction false} DigitsValueItoa(n: nat)
    ensures DigitsValue(Itoa(n)) == n
  {
    var s := Itoa(n);
    if n < 10 {
      assert s[..0] == "";
    } else {
      DigitsValueItoa(n / 10);
      assert s[..|s| - 1] == Itoa(n / 10);
    }
  }

  /** Reading back a rendered number gives the number. */
  lemma AtoiItoa(n: nat)
    requires n <= MAX_INT
    ensures Atoi(Itoa(n)) == Some(n)
  {
    DigitsValueItoa(n);
    assert IsDigit(Itoa(n)[0]);
  }

  /** strings.HasPrefix. */
  predicate HasPrefix(s: string, prefix: string) {
    prefix <= s
  }

  /** strings.IndexByte: the first position of `c`, or -1. */
  function IndexOf(s: string, c: char): (r: int)
    ensures -1 <= r < |s|
    ensures r == -1 ==> c !in s
    ensures r >= 0 ==> s[r] == c && c !in s[..r]
  {
    if s == "" then -1
    else if s[0] == c then 0
    else
      var r := IndexOf(s[1..], c);
      assert s == [s[0]] + s[1..];
      assert r >= 0 ==> s[..r + 1] == [s[0]] + s[1..][..r];
      if r == -1 then -1 else r + 1
  }

  lemma {:induction false} IndexOfAt(s: string, c: char, k: nat)
    requires k < |s| && s[k] == c && c !in s[..k]
    ensures IndexOf(s, c) == k
  {
    if k > 0 {
      assert s[0] == s[..k][0];
      assert s[..k] == [s[0]] + s[1..][..k - 1];
      IndexOfAt(s[1..], c, k - 1);
    }
  }

  /** The characters strings.Fields splits at. */
  predicate IsSpace(c: char) {
    c in {' ', '\t', '\n', '\U{b}', '\U{c}', '\r',
          '\U{85}', '\U{a0}', '\U{1680}', '\U{2028}', '\U{2029}', '\U{202f}', '\U{205f}', '\U{3000}'}
    || '\U{2000}' <= c <= '\U{200a}'
  }

  /** strings.Fields, the pending word held in `word`. */
  function FieldsFrom(s: string, word: string): seq<string> {
    if s == "" then (if word == "" then [] else [word])
    else if IsSpace(s[0]) then (if word == "" then [] else [word]) + FieldsFrom(s[1..], "")
    else FieldsFrom(s[1..], word + [s[0]])
  }

  function Fields(s: string): seq<string> {
    FieldsFrom(s, "")
  }

  /** A word: something, without blanks. */
  predicate IsWord(s: string) {
    s != "" && forall c | c in s :: !IsSpace(c)
  }

  lemma {:induction false} FieldsPastWord(word: string, tail: string, pending: string)
    requires forall c | c in word :: !IsSpace(c)
    ensures FieldsFrom(word + tail, pending) == FieldsFrom(tail, pending + word)
  {
    if word == "" {
      assert word + tail == tail && pending + word == pending;
    } else {
      assert word[0] in word && forall c | c in word[1..] :: c in word;
      assert (word + tail)[1..] == word[1..] + tail;
      FieldsPastWord(word[1..], tail, pending + [word[0]]);
      assert pending + [word[0]] + word[1..] == pending + word;
    }
  }

  /** Words with blanks between them are read back. */
  lemma {:induction false} FieldsOfWords(words: seq<string>)
    requires forall w | w in words :: IsWord(w)
    ensures Fields(Join(words, ' ')) == words
  {
    if |words| == 1 {
      assert IsWord(words[0]);
      FieldsPastWord(words[0], "", "");
      assert words[0] + "" == words[0] && "" + words[0] == words[0];
    } else if |words| > 1 {
      var tail := Join(words[1..], ' ');
      assert IsWord(words[0]) && forall w | w in words[1..] :: w in words;
      FieldsOfWords(words[1..]);
      FieldsPastWord(words[0], " " + tail, "");
      assert Join(words, ' ') == words[0] + (" " + tail) && "" + words[0] == words[0];
      assert (" " + tail)[1..] == tail;
      assert IsSpace(' ');
    }
  }
}
