/** Deploying rendered quadlet files into a directory: unchanged files are left alone by their template
    hash, stale files of the same pod are removed by their ownership labels. */
module UnitFiles {
  import opened Wrappers
  import opened Text

  const HASH_PREFIX := "Label=q8s.io/template-hash="
  const MANAGED := "Label=app.kubernetes.io/managed-by=q8s"

  function Lines(content: string): seq<string> {
    Split(content, '\n')
  }

  // ---- The template hash ----

  /** strings.Index(s, "\n\n["): where the main section ends. */
  function SectionBreak(s: string): (r: int)
    ensures -1 <= r && (r >= 0 ==> r + 2 < |s| && s[r] == '\n' && s[r + 1] == '\n' && s[r + 2] == '[')
  {
    if |s| < 3 then -1
    else if s[0] == '\n' && s[1] == '\n' && s[2] == '[' then 0
    else
      var r := SectionBreak(s[1..]);
      if r < 0 then -1 else r + 1
  }

  function HashLine(hash: string): string {
    HASH_PREFIX + hash
  }

  /** withTemplateHash: adds the label line to the main section, or at the end when there is no other
      section. `hash` stands for the truncated SHA-256 digest in hexadecimal. */
  function WithTemplateHash(content: string, hash: string -> string): string {
    WithLine(content, HashLine(hash(content)))
  }

  function WithLine(content: string, line: string): string {
    var i := SectionBreak(content);
    if i >= 0 then content[..i + 1] + line + "\n" + content[i + 1..] else content + line + "\n"
  }

  /** The value of the first template-hash line; empty when there is none. */
  function FirstHash(lines: seq<string>): string {
    if lines == [] then ""
    else if HasPrefix(lines[0], HASH_PREFIX) then lines[0][|HASH_PREFIX|..]
    else FirstHash(lines[1..])
  }

  function TemplateHash(content: string): string {
    FirstHash(Lines(content))
  }

  /** The lines in front of which the label line is put: those of the main section. */
  function MainSection(content: string): seq<string> {
    var i := SectionBreak(content);
    if i >= 0 then Lines(content[..i])
    else if content == "" then []
    else Lines(content[..|content| - 1])
  }

  /** The label line is a line of its own: there is another section, or the text ends in a newline. */
  predicate EndsLine(content: string) {
    SectionBreak(content) >= 0 || content == "" || content[|content| - 1] == '\n'
  }

  predicate HasHashLine(lines: seq<string>) {
    exists line | line in lines :: HasPrefix(line, HASH_PREFIX)
  }

  lemma {:induction false} FirstHashConcat(a: seq<string>, b: seq<string>)
    ensures FirstHash(a + b) == if HasHashLine(a) then FirstHash(a) else FirstHash(b)
  {
    if a == [] {
      assert a + b == b;
    } else {
      assert (a + b)[1..] == a[1..] + b;
      FirstHashConcat(a[1..], b);
      assert HasHashLine(a) <==> HasPrefix(a[0], HASH_PREFIX) || HasHashLine(a[1..]) by {
        assert a == [a[0]] + a[1..];
      }
    }
  }

  lemma HashLineReads(hash: string, rest: seq<string>)
    ensures FirstHash([HashLine(hash)] + rest) == hash
  {
    assert HashLine(hash)[|HASH_PREFIX|..] == hash;
  }

  lemma InsertedLine(head: string, line: string, tail: string)
    requires '\n' !in line
    ensures Lines(head + "\n" + line + "\n" + tail) == Lines(head) + ([line] + Lines(tail))
  {
    SplitAcross(head, line + ['\n'] + tail, '\n');
    SplitCons(line, tail, '\n');
    assert head + "\n" + line + "\n" + tail == head + ['\n'] + (line + ['\n'] + tail);
  }

  /** What follows the label line. */
  function AfterLabel(content: string): string {
    var i := SectionBreak(content);
    if i >= 0 then content[i + 1..] else ""
  }

  /** The text in front of the label line, without its final newline. */
  function BeforeLabel(content: string): string
    requires content != ""
  {
    var i := SectionBreak(content);
    if i >= 0 then content[..i] else content[..|content| - 1]
  }

  lemma WithLineText(content: string, line: string)
    requires EndsLine(content) && content != ""
    ensures WithLine(content, line) == BeforeLabel(content) + "\n" + line + "\n" + AfterLabel(content)
  {
    var i := SectionBreak(content);
    if i >= 0 {
      assert content[..i + 1] == content[..i] + "\n";
    } else {
      assert content == content[..|content| - 1] + "\n";
      assert WithLine(content, line) + "" == WithLine(content, line);
    }
  }

  /** The lines of a labelled unit. */
  lemma LabelledLines(content: string, hash: string -> string)
    requires EndsLine(content) && '\n' !in hash(content)
    ensures Lines(WithTemplateHash(content, hash)) ==
            MainSection(content) + ([HashLine(hash(content))] + Lines(AfterLabel(content)))
  {
    var line := HashLine(hash(content));
    NewlineFree(hash(content));
    if content == "" {
      SplitCons(line, "", '\n');
      assert WithTemplateHash(content, hash) == line + ['\n'] + "";
    } else {
      WithLineText(content, line);
      InsertedLine(BeforeLabel(content), line, AfterLabel(content));
    }
  }

  lemma NewlineFree(hash: string)
    requires '\n' !in hash
    ensures '\n' !in HashLine(hash)
  {}

  /** The hash a rendered unit is recognised by: that of its source, unless the main section has a hash
      line of its own. */
  function EffectiveHash(source: string, hash: string -> string): string {
    if HasHashLine(MainSection(source)) then FirstHash(MainSection(source)) else hash(source)
  }

  lemma RenderedHash(content: string, hash: string -> string)
    requires EndsLine(content) && '\n' !in hash(content)
    ensures TemplateHash(WithTemplateHash(content, hash)) == EffectiveHash(content, hash)
  {
    LabelledLines(content, hash);
    var rest := Lines(AfterLabel(content));
    FirstHashConcat(MainSection(content), [HashLine(hash(content))] + rest);
    HashLineReads(hash(content), rest);
  }

  /** The hash read back from a labelled unit is that of its source exactly when the main section has no
      other hash line in front. */
  lemma HashReadBack(content: string, hash: string -> string)
    requires EndsLine(content) && '\n' !in hash(content)
    ensures TemplateHash(WithTemplateHash(content, hash)) == hash(content) <==>
            !HasHashLine(MainSection(content)) || FirstHash(MainSection(content)) == hash(content)
  {
    RenderedHash(content, hash);
  }

  // ---- Deploying ----

  type Files = map<string, string>

  /** sameTemplateHash: the file is there with the same, non-empty hash. */
  predicate SameTemplateHash(dir: Files, name: string, content: string) {
    TemplateHash(content) != "" && name in dir && TemplateHash(dir[name]) == TemplateHash(content)
  }

  function Changed(dir: Files, files: Files): set<string> {
    set n | n in files && !SameTemplateHash(dir, n, files[n])
  }

  function Written(dir: Files, files: Files): Files {
    map n | n in dir.Keys + files.Keys :: if n in Changed(dir, files) then files[n] else dir[n]
  }

  predicate OwnedBy(content: string, ns: string, pod: string) {
    && MANAGED in Lines(content)
    && "Label=io.kubernetes.pod.namespace=" + ns in Lines(content)
    && "Label=io.kubernetes.pod.name=" + pod in Lines(content)
  }

  predicate Stale(dir: Files, ns: string, pod: string, keep: set<string>, n: string)
    requires n in dir
  {
    n !in keep && OwnedBy(dir[n], ns, pod)
  }

  function Cleaned(dir: Files, ns: string, pod: string, keep: set<string>): Files {
    map n | n in dir && !Stale(dir, ns, pod, keep, n) :: dir[n]
  }

  function Deployed(dir: Files, ns: string, pod: string, files: Files): Files {
    Cleaned(Written(dir, files), ns, pod, files.Keys)
  }

  class Directory {
    var files: Files

    /** writeQuadletFilesTracked: writes what is not there with the same hash; returns what it wrote. */
    method WriteTracked(rendered: Files) returns (changed: set<string>)
      modifies this
      ensures changed == Changed(old(files), rendered)
      ensures files == Written(old(files), rendered)
    {
      changed := {};
      var names := rendered.Keys;
      while names != {}
        invariant names <= rendered.Keys
        invariant changed == Changed(old(files), rendered) - names
        invariant files == map n | n in old(files).Keys + changed :: if n in changed then rendered[n] else old(files)[n]
        decreases names
      {
        var name :| name in names;
        assert name in files <==> name in old(files);
        if !SameTemplateHash(files, name, rendered[name]) {
          files := files[name := rendered[name]];
          changed := changed + {name};
        }
        names := names - {name};
      }
    }

    /** removeStaleOwnedUnits: goes through the directory's entries and removes the pod's stale files. */
    method RemoveStale(ns: string, pod: string, keep: set<string>) returns (removed: bool)
      modifies this
      ensures files == Cleaned(old(files), ns, pod, keep)
      ensures removed <==> files != old(files)
    {
      removed := false;
      var entries := files.Keys;
      while entries != {}
        invariant entries <= old(files).Keys
        invariant files ==
                  map n | n in old(files) && (n in entries || !Stale(old(files), ns, pod, keep, n)) :: old(files)[n]
        invariant removed <==> files != old(files)
        decreases entries
      {
        var name :| name in entries;
        if name !in keep && OwnedBy(files[name], ns, pod) {
          files := files - {name};
          removed := true;
        }
        entries := entries - {name};
      }
    }

    /** deployPodFiles, up to the systemd calls. */
    method DeployPodFiles(ns: string, pod: string, rendered: Files) returns (changed: set<string>, removed: bool)
      modifies this
      ensures files == Deployed(old(files), ns, pod, rendered)
      ensures changed == Changed(old(files), rendered)
      ensures removed <==> Written(old(files), rendered) != files
    {
      changed := WriteTracked(rendered);
      removed := RemoveStale(ns, pod, rendered.Keys);
    }
  }

  // ---- Convergence ----

  /** A unit whose hash can be read back: rendered from `source`, with no hash line of its own. */
  ghost predicate RenderedFrom(content: string, source: string, hash: string -> string) {
    && EndsLine(source)
    && '\n' !in hash(source) && hash(source) != ""
    && !HasHashLine(MainSection(source))
    && content == WithTemplateHash(source, hash)
  }

  /** Every rendered file with a hash has a source; every hashed file already in its place was rendered
      by q8s too, from a content whose hash does not collide with the new one. Nothing is asked of
      files without a hash. */
  ghost predicate Trusted(dir: Files, files: Files, sources: Files, previous: Files, hash: string -> string) {
    forall n | n in files && TemplateHash(files[n]) != "" ::
      && n in sources && RenderedFrom(files[n], sources[n], hash)
      && (n in dir && TemplateHash(dir[n]) != "" ==>
            && n in previous && RenderedFrom(dir[n], previous[n], hash)
            && (hash(previous[n]) == hash(sources[n]) ==> previous[n] == sources[n]))
  }

  lemma SkippedIsSame(dir: Files, files: Files, sources: Files, previous: Files, hash: string -> string, n: string)
    requires Trusted(dir, files, sources, previous, hash) && n in files
    ensures SameTemplateHash(dir, n, files[n]) ==> dir[n] == files[n]
  {
    if SameTemplateHash(dir, n, files[n]) {
      HashReadBack(sources[n], hash);
      HashReadBack(previous[n], hash);
    }
  }

  /** After a deploy for a pod the files outside the rendered names that carry all three ownership lines
      of the pod are gone and every other one is untouched; and the rendered names hold the rendered
      content if and only if no file that is recognised by its hash had another content. */
  lemma DeployConverges(dir: Files, ns: string, pod: string, files: Files)
    ensures var after := Deployed(dir, ns, pod, files);
            && (forall n | n in dir && n !in files ::
                  n !in after <==>
                  (&& "Label=app.kubernetes.io/managed-by=q8s" in Lines(dir[n])
                   && "Label=io.kubernetes.pod.namespace=" + ns in Lines(dir[n])
                   && "Label=io.kubernetes.pod.name=" + pod in Lines(dir[n])))
            && (forall n | n !in files && n in after :: n in dir && after[n] == dir[n])
            && (forall n | n in files ::
                  n in after && after[n] == if SameTemplateHash(dir, n, files[n]) then dir[n] else files[n])
            && ((forall n | n in files :: after[n] == files[n]) <==>
                (forall n | n in files && SameTemplateHash(dir, n, files[n]) :: dir[n] == files[n]))
  {
    var written := Written(dir, files);
    assert forall n | n in files :: written[n] == if SameTemplateHash(dir, n, files[n]) then dir[n] else files[n];
    assert forall n | n in dir && n !in files :: written[n] == dir[n];
  }

  /** Units rendered without a hash line of their own converge, if hashes do not collide. */
  lemma RenderedFilesConverge(dir: Files, ns: string, pod: string, files: Files, sources: Files, previous: Files,
                              hash: string -> string)
    requires Trusted(dir, files, sources, previous, hash)
    ensures forall n | n in files :: n in Deployed(dir, ns, pod, files) && Deployed(dir, ns, pod, files)[n] == files[n]
  {
    forall n | n in files && SameTemplateHash(dir, n, files[n]) ensures dir[n] == files[n] {
      SkippedIsSame(dir, files, sources, previous, hash, n);
    }
    DeployConverges(dir, ns, pod, files);
  }

  /** One file, from the source it was last rendered from to the one it is rendered from now: the new
      content is deployed if and only if the two are told apart by the hashes they are recognised by, or
      are the same. */
  lemma OwnHashLabelSticks(dir: Files, ns: string, pod: string, files: Files, n: string, previous: string,
                           source: string, hash: string -> string)
    requires EndsLine(previous) && EndsLine(source) && '\n' !in hash(previous) && '\n' !in hash(source)
    requires n in dir && dir[n] == WithTemplateHash(previous, hash)
    requires n in files && files[n] == WithTemplateHash(source, hash)
    ensures n in Deployed(dir, ns, pod, files)
    ensures var effective := EffectiveHash(source, hash);
            var recognised := effective != "" && effective == EffectiveHash(previous, hash);
            && (n in Changed(dir, files) <==> !recognised)
            && Deployed(dir, ns, pod, files)[n] == (if recognised then dir[n] else files[n])
            && (Deployed(dir, ns, pod, files)[n] == files[n] <==> (recognised ==> dir[n] == files[n]))
  {
    RenderedHash(previous, hash);
    RenderedHash(source, hash);
    DeployConverges(dir, ns, pod, files);
  }

  // ---- A container with a label q8s.io/template-hash ----

  /** Lines as the renderer writes them. */
  function LinesText(lines: seq<string>): string {
    if lines == [] then "" else lines[0] + "\n" + LinesText(lines[1..])
  }

  /** A unit of several sections, as a container's always is: the first one, here with all its lines, and
      the others. */
  function Unit(lines: seq<string>, others: string): string {
    LinesText(lines) + "\n[" + others
  }

  predicate PlainLines(lines: seq<string>) {
    lines != [] && forall line | line in lines :: line != "" && '\n' !in line
  }

  lemma {:induction false} BreakBehind(line: string, tail: string)
    requires '\n' !in line
    ensures SectionBreak(line + tail) == if SectionBreak(tail) < 0 then -1 else |line| + SectionBreak(tail)
  {
    if line == "" {
      assert line + tail == tail;
    } else {
      assert (line + tail)[1..] == line[1..] + tail;
      BreakBehind(line[1..], tail);
    }
  }

  /** A line ends the first section if and only if an empty line and a bracket follow. */
  lemma BreakAtNewline(tail: string)
    ensures SectionBreak("\n" + tail) == if HasPrefix(tail, "\n[") then 0
            else if SectionBreak(tail) < 0 then -1 else 1 + SectionBreak(tail)
  {
    assert ("\n" + tail)[1..] == tail;
  }

  lemma {:induction false} UnitBreak(lines: seq<string>, others: string)
    requires PlainLines(lines)
    ensures SectionBreak(Unit(lines, others)) == |LinesText(lines)| - 1
  {
    var line, tail := lines[0], LinesText(lines[1..]) + "\n[" + others;
    assert Unit(lines, others) == line + ("\n" + tail);
    BreakBehind(line, "\n" + tail);
    BreakAtNewline(tail);
    if |lines| > 1 {
      assert lines[1] in lines && forall l | l in lines[1..] :: l in lines;
      UnitBreak(lines[1..], others);
      assert tail[0] == lines[1][0] != '\n';
    } else {
      assert tail == "\n[" + others;
    }
  }

  lemma {:induction false} LinesTextIsJoin(lines: seq<string>)
    requires lines != []
    ensures |LinesText(lines)| > 0 && LinesText(lines)[..|LinesText(lines)| - 1] == Join(lines, '\n')
  {
    if |lines| > 1 {
      LinesTextIsJoin(lines[1..]);
    } else {
      assert LinesText(lines[1..]) == "";
    }
  }

  /** The main section of a unit is its first section. */
  lemma UnitMain(lines: seq<string>, others: string)
    requires PlainLines(lines)
    ensures EndsLine(Unit(lines, others)) && MainSection(Unit(lines, others)) == lines
  {
    UnitBreak(lines, others);
    LinesTextIsJoin(lines);
    assert Unit(lines, others)[..|LinesText(lines)| - 1] == LinesText(lines)[..|LinesText(lines)| - 1];
    SplitJoin(lines, '\n');
  }

  lemma MainTellsApart(previous: string, source: string, hash: string -> string)
    requires EndsLine(previous) && EndsLine(source) && '\n' !in hash(previous) && '\n' !in hash(source)
    requires |MainSection(previous)| == |MainSection(source)| && MainSection(previous) != MainSection(source)
    ensures WithTemplateHash(previous, hash) != WithTemplateHash(source, hash)
  {
    LabelledLines(previous, hash);
    LabelledLines(source, hash);
    var n := |MainSection(source)|;
    assert Lines(WithTemplateHash(previous, hash))[..n] == MainSection(previous);
    assert Lines(WithTemplateHash(source, hash))[..n] == MainSection(source);
  }

  lemma OwnLineSticks(dir: Files, ns: string, pod: string, files: Files, n: string, previous: string, source: string,
                      hash: string -> string)
    requires EndsLine(previous) && EndsLine(source) && '\n' !in hash(previous) && '\n' !in hash(source)
    requires n in dir && dir[n] == WithTemplateHash(previous, hash)
    requires n in files && files[n] == WithTemplateHash(source, hash)
    requires HasHashLine(MainSection(previous)) && HasHashLine(MainSection(source))
    requires FirstHash(MainSection(previous)) == FirstHash(MainSection(source)) != ""
    ensures n !in Changed(dir, files) && n in Deployed(dir, ns, pod, files)
    ensures Deployed(dir, ns, pod, files)[n] == dir[n]
  {
    OwnHashLabelSticks(dir, ns, pod, files, n, previous, source, hash);
  }

  /** Whatever else changes in the first section of a container or behind it, in front of the label or
      behind the label: while the label stays, the old unit counts as up to date and stays. */
  lemma LabelledContainerSticks(dir: Files, ns: string, pod: string, files: Files, n: string, lines: seq<string>,
                                others: string, lines': seq<string>, others': string, hash: string -> string)
    requires PlainLines(lines) && PlainLines(lines') && HasHashLine(lines) && HasHashLine(lines')
    requires FirstHash(lines) == FirstHash(lines') != ""
    requires '\n' !in hash(Unit(lines, others)) && '\n' !in hash(Unit(lines', others'))
    requires n in dir && dir[n] == WithTemplateHash(Unit(lines, others), hash)
    requires n in files && files[n] == WithTemplateHash(Unit(lines', others'), hash)
    ensures n !in Changed(dir, files) && n in Deployed(dir, ns, pod, files)
    ensures Deployed(dir, ns, pod, files)[n] == dir[n]
  {
    UnitMain(lines, others);
    UnitMain(lines', others');
    OwnLineSticks(dir, ns, pod, files, n, Unit(lines, others), Unit(lines', others'), hash);
  }

  /** Units of as many lines in the first section, but not the same ones, are different files. */
  lemma UnitsDiffer(lines: seq<string>, others: string, lines': seq<string>, others': string, hash: string -> string)
    requires PlainLines(lines) && PlainLines(lines') && |lines| == |lines'| && lines != lines'
    requires '\n' !in hash(Unit(lines, others)) && '\n' !in hash(Unit(lines', others'))
    ensures WithTemplateHash(Unit(lines, others), hash) != WithTemplateHash(Unit(lines', others'), hash)
  {
    UnitMain(lines, others);
    UnitMain(lines', others');
    MainTellsApart(Unit(lines, others), Unit(lines', others'), hash);
  }

  /** So a container's new image is not deployed. */
  lemma NewImageIsNotDeployed(dir: Files, ns: string, pod: string, files: Files, n: string, image: string,
                              image': string, rest: seq<string>, others: string, hash: string -> string)
    requires image != image' && '\n' !in image && '\n' !in image' && PlainLines(rest)
    requires HasHashLine(rest) && FirstHash(rest) != ""
    requires var before, after := Unit(Container(image, rest), others), Unit(Container(image', rest), others);
             && '\n' !in hash(before) && '\n' !in hash(after)
             && n in dir && dir[n] == WithTemplateHash(before, hash)
             && n in files && files[n] == WithTemplateHash(after, hash)
    ensures n in Deployed(dir, ns, pod, files) && Deployed(dir, ns, pod, files)[n] != files[n]
  {
    ContainerHash(image, rest);
    ContainerHash(image', rest);
    assert Container(image, rest)[1][|"Image="|..] == image && Container(image', rest)[1][|"Image="|..] == image';
    LabelledContainerSticks(dir, ns, pod, files, n, Container(image, rest), others,
                            Container(image', rest), others, hash);
    UnitsDiffer(Container(image, rest), others, Container(image', rest), others, hash);
  }

  /** The first section of a container unit. */
  function Container(image: string, rest: seq<string>): seq<string> {
    ["[Container]", "Image=" + image] + rest
  }

  lemma ContainerHash(image: string, rest: seq<string>)
    requires PlainLines(rest) && HasHashLine(rest) && '\n' !in image
    ensures PlainLines(Container(image, rest)) && HasHashLine(Container(image, rest))
    ensures FirstHash(Container(image, rest)) == FirstHash(rest)
  {
    var head := ["[Container]", "Image=" + image];
    assert "[Container]"[0] != HASH_PREFIX[0] && ("Image=" + image)[0] != HASH_PREFIX[0];
    assert !HasHashLine(head);
    FirstHashConcat(head, rest);
    var line :| line in rest && HasPrefix(line, HASH_PREFIX);
    assert line in Container(image, rest);
  }

  /** Deploying the same files again leaves the directory as it is, whether or not the first deploy
      converged: nothing is removed, and what is written is exactly the files without a hash (networks,
      timers, volumes), with the content they already have. */
  lemma SecondDeployIsNoOp(dir: Files, ns: string, pod: string, files: Files)
    ensures var after := Deployed(dir, ns, pod, files);
            && (forall n :: n in Changed(after, files) <==> n in files && TemplateHash(files[n]) == "")
            && Written(after, files) == after && Deployed(after, ns, pod, files) == after
  {
    var after := Deployed(dir, ns, pod, files);
    DeployConverges(dir, ns, pod, files);
    forall n | n in files ensures TemplateHash(files[n]) != "" ==> SameTemplateHash(after, n, files[n]) {}
    NothingToDo(after, ns, pod, files);
  }

  /** Every rendered file is in place, and recognised if it can be. */
  predicate InPlace(dir: Files, files: Files) {
    forall n | n in files ::
      n in dir && if TemplateHash(files[n]) == "" then dir[n] == files[n] else SameTemplateHash(dir, n, files[n])
  }

  lemma NothingToWrite(dir: Files, files: Files)
    requires InPlace(dir, files)
    ensures forall n :: n in Changed(dir, files) <==> n in files && TemplateHash(files[n]) == ""
    ensures Written(dir, files) == dir
  {}

  lemma NothingToDo(dir: Files, ns: string, pod: string, files: Files)
    requires InPlace(dir, files)
    requires forall n | n in dir && n !in files :: !OwnedBy(dir[n], ns, pod)
    ensures forall n :: n in Changed(dir, files) <==> n in files && TemplateHash(files[n]) == ""
    ensures Written(dir, files) == dir && Deployed(dir, ns, pod, files) == dir
  {
    NothingToWrite(dir, files);
    assert forall n | n in dir :: !Stale(dir, ns, pod, files.Keys, n);
  }
}
