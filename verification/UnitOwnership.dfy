/** Whose unit files a deploy may delete, told from the lines of the files. */
module UnitOwnership {
  import opened Text
  import opened UnitFiles

  /** The text has the line, as a whole line, at position `i`. */
  predicate LineAt(content: string, line: string, i: nat) {
    && i + |line| <= |content| && content[i..i + |line|] == line
    && (i == 0 || content[i - 1] == '\n')
    && (i + |line| == |content| || content[i + |line|] == '\n')
  }

  ghost predicate HasLine(content: string, line: string) {
    exists i :: LineAt(content, line, i)
  }

  lemma LineMoves(c: char, content: string, line: string, i: nat)
    requires i > 0
    ensures LineAt([c] + content, line, i + 1) <==> LineAt(content, line, i)
  {
    var longer := [c] + content;
    if i + |line| <= |content| { assert longer[i + 1..i + 1 + |line|] == content[i..i + |line|]; }
  }

  lemma LineMovesFirst(c: char, content: string, line: string)
    ensures LineAt([c] + content, line, 1) <==> c == '\n' && LineAt(content, line, 0)
  {
    var longer := [c] + content;
    if |line| <= |content| { assert longer[1..1 + |line|] == content[..|line|]; }
  }

  lemma StartsWithLine(content: string, line: string)
    requires content != ""
    ensures LineAt(content, line, 0) && line != "" ==> line[0] == content[0]
  {
    if LineAt(content, line, 0) && line != "" { assert content[..|line|][0] == content[0]; }
  }

  lemma {:induction false} FirstLine(content: string, line: string)
    requires '\n' !in line
    ensures Split(content, '\n')[0] == line <==> LineAt(content, line, 0)
  {
    if content != "" {
      var c, tail := content[0], content[1..];
      if c == '\n' {
        StartsWithLine(content, line);
      } else if line != "" && line[0] == c {
        FirstLine(tail, line[1..]);
        FirstLineStep(c, tail, line[1..]);
        assert line == [c] + line[1..] && content == [c] + tail;
      } else {
        StartsWithLine(content, line);
      }
    }
  }

  lemma FirstLineStep(c: char, tail: string, line: string)
    requires c != '\n'
    ensures LineAt([c] + tail, [c] + line, 0) <==> LineAt(tail, line, 0)
  {
    var content, whole := [c] + tail, [c] + line;
    if |line| <= |tail| {
      assert content[..|whole|] == [c] + tail[..|line|];
      assert [c] + tail[..|line|] == [c] + line ==> tail[..|line|] == line by {
        if [c] + tail[..|line|] == [c] + line { assert ([c] + tail[..|line|])[1..] == ([c] + line)[1..]; }
      }
    }
  }

  lemma {:induction false} LaterLine(content: string, line: string)
    requires '\n' !in line
    ensures line in Split(content, '\n')[1..] <==> exists i: nat :: i > 0 && LineAt(content, line, i)
  {
    if content != "" {
      var c, tail := content[0], content[1..];
      assert content == [c] + tail;
      LaterLine(tail, line);
      FirstLine(tail, line);
      LineMovesFirst(c, tail, line);
      forall i: nat | i > 0 { LineMoves(c, tail, line, i); }
      var rest := Split(tail, '\n');
      assert rest == [rest[0]] + rest[1..];
      if i: nat :| i > 0 && LineAt(content, line, i) {
        if i > 1 { assert LineAt(tail, line, i - 1) by { LineMoves(c, tail, line, i - 1); } }
      }
      if line in Split(content, '\n')[1..] {
        if c == '\n' && line == rest[0] {
          assert LineAt(content, line, 1);
        } else {
          var i: nat :| i > 0 && LineAt(tail, line, i);
          assert LineAt(content, line, i + 1);
        }
      }
    }
  }

  /** A text has a line exactly when the line stands in it between newlines or the ends of the text; so a name
      is not taken for a longer one that it begins. */
  lemma LinesAreWhole(content: string, line: string)
    requires '\n' !in line
    ensures line in Split(content, '\n') <==> HasLine(content, line)
  {
    FirstLine(content, line);
    LaterLine(content, line);
    var lines := Split(content, '\n');
    assert lines == [lines[0]] + lines[1..];
  }

  // ---- What a deploy removes ----

  /** Of the files that are not rendered, a deploy removes exactly those that have all three lines, and it
      leaves the others as they are. */
  lemma DeployRemoves(dir: Files, ns: string, pod: string, files: Files, n: string)
    requires n in dir && n !in files
    ensures n !in Deployed(dir, ns, pod, files) <==>
            && "Label=app.kubernetes.io/managed-by=q8s" in Split(dir[n], '\n')
            && "Label=io.kubernetes.pod.namespace=" + ns in Split(dir[n], '\n')
            && "Label=io.kubernetes.pod.name=" + pod in Split(dir[n], '\n')
    ensures n in Deployed(dir, ns, pod, files) ==> Deployed(dir, ns, pod, files)[n] == dir[n]
  {
    DeployConverges(dir, ns, pod, files);
  }

  /** Every line of this kind names `value`. */
  predicate OnlyNames(content: string, key: string, value: string) {
    forall line | line in Split(content, '\n') && HasPrefix(line, key) :: line == key + value
  }

  /** A unit of the pod `pod` in `ns`: its lines name no other. */
  predicate UnitOf(content: string, ns: string, pod: string) {
    && OnlyNames(content, "Label=io.kubernetes.pod.namespace=", ns)
    && OnlyNames(content, "Label=io.kubernetes.pod.name=", pod)
  }

  lemma NamesAnother(key: string, a: string, b: string)
    ensures HasPrefix(key + a, key) && (key + a == key + b ==> a == b)
  {
    assert (key + a)[|key|..] == a && (key + b)[|key|..] == b;
  }

  /** A deploy for one pod leaves the units of every other pod alone. */
  lemma OtherPodsUnitStays(dir: Files, ns: string, pod: string, files: Files, n: string, ns': string, pod': string)
    requires n in dir && n !in files && UnitOf(dir[n], ns', pod') && (ns != ns' || pod != pod')
    ensures n in Deployed(dir, ns, pod, files) && Deployed(dir, ns, pod, files)[n] == dir[n]
  {
    DeployRemoves(dir, ns, pod, files, n);
    NamesAnother("Label=io.kubernetes.pod.namespace=", ns, ns');
    NamesAnother("Label=io.kubernetes.pod.name=", pod, pod');
  }

  /** One deploy: for which pod, and the files rendered for it. */
  datatype Deploy = Deploy(ns: string, pod: string, files: Files)

  function DeployAll(dir: Files, deploys: seq<Deploy>): Files {
    if deploys == [] then dir
    else
      var d := deploys[|deploys| - 1];
      Deployed(DeployAll(dir, deploys[..|deploys| - 1]), d.ns, d.pod, d.files)
  }

  /** Over any run of deploys for other pods a unit stays as it is. */
  lemma {:induction false} UnitsStayApart(dir: Files, deploys: seq<Deploy>, n: string, ns: string, pod: string)
    requires n in dir && UnitOf(dir[n], ns, pod)
    requires forall d | d in deploys :: n !in d.files && (d.ns != ns || d.pod != pod)
    ensures n in DeployAll(dir, deploys) && DeployAll(dir, deploys)[n] == dir[n]
  {
    if deploys != [] {
      var front, d := deploys[..|deploys| - 1], deploys[|deploys| - 1];
      UnitsStayApart(dir, front, n, ns, pod);
      assert d in deploys;
      OtherPodsUnitStays(DeployAll(dir, front), d.ns, d.pod, d.files, n, ns, pod);
    }
  }

  /** The line by which a rendered unit is recognised. */
  lemma HashLineIsWritten(content: string, hash: string -> string)
    requires EndsLine(content) && '\n' !in hash(content)
    ensures "Label=q8s.io/template-hash=" + hash(content) in Split(WithTemplateHash(content, hash), '\n')
  {
    LabelledLines(content, hash);
  }
}
