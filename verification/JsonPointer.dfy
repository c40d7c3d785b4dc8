/** JSON Pointer (RFC 6901) as patch paths use it. */
module JsonPointer {
  import opened Wrappers
  import opened Text

  /** One segment with ~1 and ~0 resolved; any other use of ~ is an error. */
  function Unescape(s: string): Result<string> {
    if s == "" then
      Success("")
    else if s[0] != '~' then
      var rest :- Unescape(s[1..]);
      Success([s[0]] + rest)
    else if |s| == 1 || s[1] !in {'0', '1'} then
      Failure
    else
      var rest :- Unescape(s[2..]);
      Success([if s[1] == '0' then '~' else '/'] + rest)
  }

  function UnescapeAll(parts: seq<string>): Result<seq<string>> {
    if parts == [] then
      Success([])
    else
      var front :- UnescapeAll(parts[..|parts| - 1]);
      var last :- Unescape(parts[|parts| - 1]);
      Success(front + [last])
  }

  /** The segments of a path; none for the empty path, which names the whole document. */
  function ParsePath(path: string): Result<seq<string>> {
    if path == "" then Success([])
    else if path[0] != '/' then Failure
    else UnescapeAll(Split(path[1..], '/'))
  }

  /** RFC 6901, section 3: the text of a reference token. */
  function Escape(token: string): string {
    if token == "" then ""
    else (if token[0] == '~' then "~0" else if token[0] == '/' then "~1" else [token[0]]) + Escape(token[1..])
  }

  /** RFC 6901, section 3: the text of a pointer, each token behind a slash. */
  function Render(tokens: seq<string>): string {
    if tokens == [] then "" else ['/'] + Escape(tokens[0]) + Render(tokens[1..])
  }

  // ---- Parsing and rendering are inverse ----

  lemma {:induction false} UnescapeEscape(token: string)
    ensures '/' !in Escape(token)
    ensures Unescape(Escape(token)) == Success(token)
  {
    if token != "" {
      var rest := Escape(token[1..]);
      UnescapeEscape(token[1..]);
      var e := Escape(token);
      assert token == [token[0]] + token[1..];
      if token[0] in {'~', '/'} {
        assert e[2..] == rest;
      } else {
        assert e[1..] == rest;
      }
    }
  }

  lemma {:induction false} EscapeUnescape(s: string)
    requires '/' !in s && Unescape(s).Success?
    ensures Escape(Unescape(s).value) == s
  {
    if s != "" {
      if s[0] != '~' {
        EscapeUnescape(s[1..]);
        var rest := Unescape(s[1..]).value;
        assert ([s[0]] + rest)[1..] == rest;
        assert s == [s[0]] + s[1..];
      } else {
        EscapeUnescape(s[2..]);
        var rest := Unescape(s[2..]).value;
        var c := if s[1] == '0' then '~' else '/';
        assert ([c] + rest)[1..] == rest;
        assert s == [s[0], s[1]] + s[2..];
      }
    }
  }

  function Escaped(tokens: seq<string>): seq<string> {
    seq(|tokens|, i requires 0 <= i < |tokens| => Escape(tokens[i]))
  }

  lemma {:induction false} RenderIsJoin(tokens: seq<string>)
    requires tokens != []
    ensures Render(tokens) == ['/'] + Join(Escaped(tokens), '/')
  {
    var e := Escaped(tokens);
    if |tokens| > 1 {
      RenderIsJoin(tokens[1..]);
      assert e[1..] == Escaped(tokens[1..]);
    } else {
      assert Render(tokens[1..]) == "";
    }
  }

  lemma {:induction false} UnescapeAllEscaped(tokens: seq<string>)
    ensures UnescapeAll(Escaped(tokens)) == Success(tokens)
  {
    if tokens != [] {
      var front, last := tokens[..|tokens| - 1], tokens[|tokens| - 1];
      UnescapeAllEscaped(front);
      UnescapeEscape(last);
      assert Escaped(tokens)[..|tokens| - 1] == Escaped(front);
      assert tokens == front + [last];
    }
  }

  lemma {:induction false} EscapedUnescapeAll(parts: seq<string>)
    requires (forall p | p in parts :: '/' !in p) && UnescapeAll(parts).Success?
    ensures Escaped(UnescapeAll(parts).value) == parts
  {
    if parts != [] {
      var front, last := parts[..|parts| - 1], parts[|parts| - 1];
      EscapedUnescapeAll(front);
      EscapeUnescape(last);
      var tokens := UnescapeAll(front).value;
      assert |Escaped(tokens)| == |front|;
      assert forall i | 0 <= i < |front| :: Escaped(tokens)[i] == front[i];
      assert parts == front + [last];
    }
  }

  /** A path parses to exactly the tokens whose RFC 6901 rendering it is. */
  lemma ParsePathInvertsRender(path: string, tokens: seq<string>)
    ensures ParsePath(path) == Success(tokens) <==> path == Render(tokens)
  {
    if path == Render(tokens) && tokens != [] {
      RenderIsJoin(tokens);
      var e := Escaped(tokens);
      forall p | p in e ensures '/' !in p {
        var i :| 0 <= i < |e| && e[i] == p;
        UnescapeEscape(tokens[i]);
      }
      SplitJoin(e, '/');
      assert path[1..] == Join(e, '/');
      UnescapeAllEscaped(tokens);
    }
    if ParsePath(path) == Success(tokens) && path != "" {
      var parts := Split(path[1..], '/');
      EscapedUnescapeAll(parts);
      JoinSplit(path[1..], '/');
      assert |tokens| == |Escaped(tokens)| == |parts|;
      RenderIsJoin(tokens);
      assert path == [path[0]] + path[1..];
    }
  }

  // ---- Tokens without escapes ----

  predicate PlainToken(k: string) {
    '/' !in k && '~' !in k
  }

  lemma {:induction false} PlainEscape(k: string)
    requires PlainToken(k)
    ensures Escape(k) == k
  {
    if k != "" {
      PlainEscape(k[1..]);
      assert k == [k[0]] + k[1..];
    }
  }

  lemma PlainRender(k: string, rest: seq<string>)
    requires PlainToken(k)
    ensures Render([k] + rest) == "/" + k + Render(rest)
  {
    PlainEscape(k);
    assert ([k] + rest)[1..] == rest;
  }

  lemma PathOf(k: string)
    requires PlainToken(k)
    ensures ParsePath("/" + k) == Success([k])
  {
    PlainRender(k, []);
    assert [k] + [] == [k] && "/" + k + "" == "/" + k;
    ParsePathInvertsRender("/" + k, [k]);
  }

  lemma NestedPathOf(k: string, f: string)
    requires PlainToken(k) && PlainToken(f)
    ensures ParsePath("/" + k + "/" + f) == Success([k, f])
  {
    PlainRender(k, [f]);
    PlainRender(f, []);
    assert [k] + [f] == [k, f] && [f] + [] == [f];
    assert "/" + k + "/" + f == "/" + k + ("/" + f + "");
    ParsePathInvertsRender("/" + k + "/" + f, [k, f]);
  }

  function Prepend(b: string, r: Result<string>): Result<string> {
    if r.Success? then Success(b + r.value) else Failure
  }

  lemma PrependAssoc(b: string, c: char, r: Result<string>)
    ensures Prepend(b + [c], r) == Prepend(b, Prepend([c], r))
  {
    if r.Success? { assert (b + [c]) + r.value == b + ([c] + r.value); }
  }

  lemma PrependNothing(r: Result<string>)
    ensures Prepend("", r) == r
  {
    if r.Success? { assert "" + r.value == r.value; }
  }

  method UnescapeSegment(s: string) returns (r: Result<string>)
    ensures r == Unescape(s)
  {
    var b, i := "", 0;
    assert s[0..] == s;
    PrependNothing(Unescape(s));
    while i < |s|
      invariant 0 <= i <= |s|
      invariant Prepend(b, Unescape(s[i..])) == Unescape(s)
    {
      var rest := s[i..];
      assert rest[1..] == s[i + 1..];
      if s[i] != '~' {
        PrependAssoc(b, s[i], Unescape(s[i + 1..]));
        b := b + [s[i]];
        i := i + 1;
        continue;
      }
      if i + 1 >= |s| {
        return Failure;
      }
      assert rest[2..] == s[i + 2..];
      i := i + 1;
      if s[i] !in {'0', '1'} {
        return Failure;
      }
      var c := if s[i] == '0' then '~' else '/';
      PrependAssoc(b, c, Unescape(s[i + 1..]));
      b := b + [c];
      i := i + 1;
    }
    assert b + "" == b;
    r := Success(b);
  }

  method Parse(path: string) returns (r: Result<seq<string>>)
    ensures r == ParsePath(path)
  {
    if path == "" {
      return Success([]);
    }
    if path[0] != '/' {
      return Failure;
    }
    var raw := Split(path[1..], '/');
    var segs: seq<string> := [];
    for i := 0 to |raw|
      invariant UnescapeAll(raw[..i]) == Success(segs)
    {
      assert raw[..i + 1][..i] == raw[..i];
      var s := UnescapeSegment(raw[i]);
      if s.Failure? {
        UnescapeAllFails(raw, i + 1);
        return Failure;
      }
      segs := segs + [s.value];
    }
    assert raw[..|raw|] == raw;
    r := Success(segs);
  }

  lemma {:induction false} UnescapeAllFails(parts: seq<string>, n: nat)
    requires n <= |parts| && UnescapeAll(parts[..n]).Failure?
    ensures UnescapeAll(parts).Failure?
    decreases |parts|
  {
    if n < |parts| {
      assert parts[..|parts| - 1][..n] == parts[..n];
      UnescapeAllFails(parts[..|parts| - 1], n);
    } else {
      assert parts[..n] == parts;
    }
  }
}
