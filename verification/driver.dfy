/** The git driver: construction, `HeadRev`, `Pull`, `Clone`,
    `SpecialFiles` and `AutoGeneratedFilePatterns`, with every command the
    driver would issue recorded in a trace. */
module Driver {
  import opened Wrappers
  import opened Text
  import opened Paths
  import opened Matchers
  import opened Glob
  import opened Refs
  import opened Runner

  /** A result together with the commands issued to compute it, in order. */
  datatype Traced<T> = Traced(result: T, commands: seq<Command>)

  // ---------------------------------------------------------------------
  // Construction

  /** The fields present in a decoded configuration blob. */
  datatype Fields = Fields(detectRef: Option<bool>, ref: Option<string>)

  /** `newGit`: `blob` is None for a nil blob, otherwise the outcome of
      decoding it. Fields the blob leaves out keep their zero values. */
  function NewGit(blob: Option<Result<Fields>>): (r: Result<Config>)
    ensures blob.None? ==> r == Ok(Defaults)
    ensures blob.Some? && blob.value.Err? ==> r == Err(blob.value.msg)
    ensures blob.Some? && blob.value.Ok? ==> r.Ok?
    ensures blob.Some? && blob.value.Ok? && blob.value.value.ref.None? ==> r.value.ref == []
    ensures blob.Some? && blob.value.Ok? && blob.value.value.detectRef.None? ==> !r.value.detectRef
    ensures blob.Some? && blob.value.Ok? && blob.value.value.ref.Some? ==> r.value.ref == blob.value.value.ref.value
    ensures blob.Some? && blob.value.Ok? && blob.value.value.detectRef.Some? ==>
      r.value.detectRef == blob.value.value.detectRef.value
  {
    match blob
    case None => Ok(Defaults)
    case Some(Err(msg)) => Err(msg)
    case Some(Ok(Fields(detect, ref))) =>
      Ok(Config(
        match detect case Some(b) => b case None => false,
        match ref case Some(s) => s case None => []))
  }

  /** A blob that carries both fields builds exactly that configuration. */
  lemma NewGitRoundTrip(cfg: Config)
    ensures NewGit(Some(Ok(Fields(Some(cfg.detectRef), Some(cfg.ref))))) == Ok(cfg)
  {
  }

  // ---------------------------------------------------------------------
  // Commands and their argument strings

  /** The fetch refspec that force-updates the tracking ref of `ref`. */
  function FetchRefspec(ref: string): (spec: string)
    ensures spec == "+" + ref + ":remotes/" + ResetTarget(ref)
  {
    "+" + ref + ":remotes/origin/" + ref
  }

  /** The tracking ref that the reset moves the work tree to. */
  function ResetTarget(ref: string): (target: string)
    ensures target == "origin/" + ref
    ensures |target| > |ref| && target[|target| - |ref|..] == ref
  {
    "origin/" + ref
  }

  /** A refspec read back as (force, source, destination), splitting at the
      first colon. */
  datatype Refspec = Refspec(force: bool, src: string, dst: string)

  /** Index of the first colon in `s`, or |s|. */
  function ColonIndex(s: string): (i: nat)
    ensures i <= |s|
    ensures i < |s| ==> s[i] == ':'
    ensures forall k :: 0 <= k < i ==> s[k] != ':'
  {
    if |s| == 0 || s[0] == ':' then 0 else 1 + ColonIndex(s[1..])
  }

  /** Reads a refspec: an optional leading `+`, then source and
      destination separated by the first colon. */
  function ParseRefspec(spec: string): Option<Refspec> {
    var force := |spec| > 0 && spec[0] == '+';
    var body := if force then spec[1..] else spec;
    var i := ColonIndex(body);
    if i == |body| then None else Some(Refspec(force, body[..i], body[i + 1..]))
  }

  /** The first colon of `a + [':'] + b` is the one after `a` when `a` has
      none. */
  lemma {:induction false} ColonAfter(a: string, b: string)
    requires ':' !in a
    ensures ColonIndex(a + [':'] + b) == |a|
    decreases |a|
  {
    if |a| > 0 {
      assert (a + [':'] + b)[1..] == a[1..] + [':'] + b;
      ColonAfter(a[1..], b);
    }
  }

  /** A forced refspec whose source has no colon reads back as written. */
  lemma ParseForcedRefspec(src: string, dst: string)
    requires ':' !in src
    ensures ParseRefspec(['+'] + src + [':'] + dst) == Some(Refspec(true, src, dst))
  {
    var spec := ['+'] + src + [':'] + dst;
    assert spec[1..] == src + [':'] + dst;
    ColonAfter(src, dst);
    assert (src + [':'] + dst)[..|src|] == src;
    assert (src + [':'] + dst)[|src| + 1..] == dst;
  }

  /** Branch names cannot contain a colon, and for those the fetch refspec
      reads back as a forced update of `remotes/origin/<ref>` from `<ref>`:
      the reset target names that same tracking ref. */
  lemma FetchRefspecRoundTrip(ref: string)
    requires ':' !in ref
    ensures ParseRefspec(FetchRefspec(ref)) == Some(Refspec(true, ref, "remotes/" + ResetTarget(ref)))
  {
    var dst := "remotes/" + ResetTarget(ref);
    assert dst == "remotes/origin/" + ref;
    assert FetchRefspec(ref) == ['+'] + ref + [':'] + dst;
    ParseForcedRefspec(ref, dst);
  }

  // ---------------------------------------------------------------------
  // HeadRev and ref detection

  /** `HeadRev`: the trimmed standard output of `git rev-parse HEAD`.
      Failing to create the pipe, start or read gives an empty value; a
      failed wait still returns the trimmed output along with the error. */
  function HeadRev(dir: string, oracle: Oracle): (r: Reply)
    ensures r.err == oracle(RevParseHead(dir)).failure
    ensures r.err in {Some(Pipe), Some(Start), Some(Read)} ==> r.value == []
    ensures r.err in {None, Some(Wait)} ==> r.value == TrimSpace(oracle(RevParseHead(dir)).output)
    ensures r.value == [] || (!IsSpace(r.value[0]) && !IsSpace(r.value[|r.value| - 1]))
  {
    var out := oracle(RevParseHead(dir));
    match out.failure
    case Some(Pipe) => Reply([], out.failure)
    case Some(Start) => Reply([], out.failure)
    case Some(Read) => Reply([], out.failure)
    case Some(Wait) => Reply(TrimSpace(out.output), out.failure)
    case None => Reply(TrimSpace(out.output), None)
  }

  /** `headBranchDetector.detectRef`: the head branch named in the output of
      `git remote show origin`, or "". Since `run` never reports an error,
      the output of a failed invocation is searched as well. */
  function DetectRef(dir: string, oracle: Oracle): (branch: string)
    ensures branch == HeadBranch(oracle(RemoteShow(dir)).output)
  {
    var out := Run(RemoteShow(dir), oracle);
    if out.err.Some? then [] else HeadBranch(out.value)
  }

  /** The driver's `targetRef`, with the head-branch detector, and the
      commands the detector issues. The remote is inspected exactly when no
      explicit ref is set and detection is on. */
  function ResolveRef(cfg: Config, dir: string, oracle: Oracle): (r: Traced<string>)
    ensures r.result != []
    ensures cfg.ref != [] ==> r.result == cfg.ref
    ensures cfg.ref == [] && !cfg.detectRef ==> r.result == DefaultRef
    ensures cfg.ref == [] && cfg.detectRef ==>
      r.result == if DetectRef(dir, oracle) == [] then DefaultRef else DetectRef(dir, oracle)
    ensures r.commands == (if cfg.ref == [] && cfg.detectRef then [RemoteShow(dir)] else [])
  {
    var detect := (d: string) => DetectRef(d, oracle);
    Traced(TargetRef(cfg, detect, dir), if cfg.ref == [] && cfg.detectRef then [RemoteShow(dir)] else [])
  }

  // ---------------------------------------------------------------------
  // Pull and Clone

  /** `Pull`: resolve the ref, fetch it into its tracking ref, hard-reset to
      that, and report the head revision. The error checks after fetch and
      reset never fire, so the reply is always `HeadRev`'s. */
  function Pull(cfg: Config, dir: string, oracle: Oracle): (r: Traced<Reply>)
    ensures r.result == HeadRev(dir, oracle)
    ensures var ref := ResolveRef(cfg, dir, oracle).result;
      r.commands == ResolveRef(cfg, dir, oracle).commands
        + [Fetch(dir, FetchRefspec(ref)), Reset(dir, ResetTarget(ref)), RevParseHead(dir)]
  {
    var ref := ResolveRef(cfg, dir, oracle);
    var fetch := Fetch(dir, FetchRefspec(ref.result));
    var fetched := Run(fetch, oracle);
    if fetched.err.Some? then
      Traced(Reply([], fetched.err), ref.commands + [fetch])
    else
      var reset := Reset(dir, ResetTarget(ref.result));
      var wasReset := Run(reset, oracle);
      if wasReset.err.Some? then
        Traced(Reply([], wasReset.err), ref.commands + [fetch, reset])
      else
        Traced(HeadRev(dir, oracle), ref.commands + [fetch, reset, RevParseHead(dir)])
  }

  /** `Clone`: a shallow clone of `url` into the last element of `dir`, run
      from its parent; if that fails nothing else runs, otherwise the
      result is `Pull`'s. */
  function Clone(cfg: Config, dir: string, url: string, oracle: Oracle): (r: Traced<Reply>)
    ensures |r.commands| >= 1
    ensures r.commands[0] == CloneRepo(Split(dir).0, url, Split(dir).1)
    ensures oracle(r.commands[0]).failure.Some? ==>
      r == Traced(Reply([], oracle(r.commands[0]).failure), [r.commands[0]])
    ensures oracle(r.commands[0]).failure.None? ==>
      r.result == Pull(cfg, dir, oracle).result && r.commands == [r.commands[0]] + Pull(cfg, dir, oracle).commands
  {
    var (parent, leaf) := Split(dir);
    var clone := CloneRepo(parent, url, leaf);
    var out := oracle(clone);
    if out.failure.Some? then
      Traced(Reply([], out.failure), [clone])
    else
      var pulled := Pull(cfg, dir, oracle);
      Traced(pulled.result, [clone] + pulled.commands)
  }

  /** Failure isolation: the outcomes of fetch and reset never reach the
      caller. Two worlds that agree on the remote's description and on the
      head revision give the same reply and the same commands. */
  lemma PullIgnoresFetchAndReset(cfg: Config, dir: string, o1: Oracle, o2: Oracle)
    requires o1(RemoteShow(dir)) == o2(RemoteShow(dir))
    requires o1(RevParseHead(dir)) == o2(RevParseHead(dir))
    ensures Pull(cfg, dir, o1) == Pull(cfg, dir, o2)
  {
    var d1 := (d: string) => DetectRef(d, o1);
    var d2 := (d: string) => DetectRef(d, o2);
    TargetRefDependsOnDetection(cfg, d1, d2, dir);
  }

  /** The last three commands of a pull are the fetch, the reset and the
      revision query, all for the same resolved ref, with exactly these
      command lines. */
  lemma PullProtocol(cfg: Config, dir: string, oracle: Oracle)
    ensures var cmds := Pull(cfg, dir, oracle).commands;
      var ref := ResolveRef(cfg, dir, oracle).result;
      var n := |cmds|;
      && n >= 3
      && Argv(cmds[n - 3]) == ["git", "fetch", "--prune", "--no-tags", "--depth", "1", "origin", FetchRefspec(ref)]
      && Argv(cmds[n - 2]) == ["git", "reset", "--hard", "origin/" + ref]
      && Argv(cmds[n - 1]) == ["git", "rev-parse", "HEAD"]
  {
    var ref := ResolveRef(cfg, dir, oracle).result;
    var cmds := Pull(cfg, dir, oracle).commands;
    var n := |cmds|;
    assert n >= 3 && cmds[n - 3] == Fetch(dir, FetchRefspec(ref)) && cmds[n - 2] == Reset(dir, ResetTarget(ref))
      && cmds[n - 1] == RevParseHead(dir) by {
      var pre := ResolveRef(cfg, dir, oracle).commands;
      var tail := [Fetch(dir, FetchRefspec(ref)), Reset(dir, ResetTarget(ref)), RevParseHead(dir)];
      assert cmds == pre + tail;
      assert forall k :: 0 <= k < 3 ==> cmds[|pre| + k] == tail[k];
    }
  }

  /** Every command of a pull runs in the directory being pulled. */
  lemma PullStaysInDir(cfg: Config, dir: string, oracle: Oracle)
    ensures var cmds := Pull(cfg, dir, oracle).commands;
      forall k :: 0 <= k < |cmds| ==> WorkDir(cmds[k]) == dir
  {
    var cmds := Pull(cfg, dir, oracle).commands;
    var ref := ResolveRef(cfg, dir, oracle).result;
    var f := Fetch(dir, FetchRefspec(ref));
    var r := Reset(dir, ResetTarget(ref));
    if cfg.ref == [] && cfg.detectRef {
      assert cmds == [RemoteShow(dir), f, r, RevParseHead(dir)];
    } else {
      assert cmds == [f, r, RevParseHead(dir)];
    }
  }

  /** A successful clone returns what `HeadRev` reports right after it. */
  lemma CloneReportsHeadRev(cfg: Config, dir: string, url: string, oracle: Oracle)
    requires oracle(CloneRepo(Split(dir).0, url, Split(dir).1)).failure.None?
    ensures Clone(cfg, dir, url, oracle).result == HeadRev(dir, oracle)
  {
  }

  /** The clone runs in the parent directory and names the last path
      element: joining the two gives back `dir`. */
  lemma CloneTargetsLastElement(cfg: Config, dir: string, url: string, oracle: Oracle)
    ensures var c := Clone(cfg, dir, url, oracle).commands[0];
      c.CloneRepo? && WorkDir(c) + c.leaf == dir && Separator !in c.leaf
      && Argv(c) == ["git", "clone", "--depth", "1", url, c.leaf]
  {
  }

  // ---------------------------------------------------------------------
  // Files excluded from analysis

  /** The version-control metadata directory. */
  const MetadataDir := ".git"

  /** `SpecialFiles`: the metadata directory alone, whatever the
      configuration. */
  function SpecialFiles(cfg: Config): (files: seq<string>)
    ensures |files| == 1 && MetadataDir in files
  {
    [MetadataDir]
  }

  /** The patterns one attributes line contributes: one when the line
      marks a path as generated, none otherwise. */
  function LinePatterns(line: string): (ps: seq<string>)
    ensures |ps| <= 1
    ensures |ps| == 1 <==> GeneratedPath(line).Some?
    ensures |ps| == 1 ==> StarsGuarded(ps[0])
    ensures GeneratedPath(line).Some? ==> ps == [ToRegex(GeneratedPath(line).value)]
  {
    match GeneratedPath(line)
    case Some(path) => [ToRegex(path)]
    case None => []
  }

  /** `f` applied to each line, the results appended in order. */
  function EachLine(lines: seq<string>, f: string -> seq<string>): seq<string> {
    if |lines| == 0 then []
    else EachLine(lines[..|lines| - 1], f) + f(lines[|lines| - 1])
  }

  /** Appending lines appends their results. */
  lemma {:induction false} EachLineAppend(a: seq<string>, b: seq<string>, f: string -> seq<string>)
    ensures EachLine(a + b, f) == EachLine(a, f) + EachLine(b, f)
    decreases |b|
  {
    if |b| == 0 {
      assert a + b == a;
    } else {
      var ab := a + b;
      var b' := b[..|b| - 1];
      assert ab[..|ab| - 1] == a + b';
      assert ab[|ab| - 1] == b[|b| - 1];
      EachLineAppend(a, b', f);
      var x, y, z := EachLine(a, f), EachLine(b', f), f(b[|b| - 1]);
      assert (x + y) + z == x + (y + z);
    }
  }

  /** The patterns of a sequence of lines, appended in file order. */
  function Patterns(lines: seq<string>): seq<string> {
    EachLine(lines, LinePatterns)
  }

  /** Each line contributes at most one pattern. */
  lemma {:induction false} PatternsBounded(lines: seq<string>)
    ensures |Patterns(lines)| <= |lines|
    decreases |lines|
  {
    if |lines| > 0 {
      PatternsBounded(lines[..|lines| - 1]);
    }
  }

  /** A file in which no line marks a generated path yields no pattern. */
  lemma {:induction false} PatternsOfPlainFile(lines: seq<string>)
    ensures (forall i :: 0 <= i < |lines| ==> GeneratedPath(lines[i]).None?) ==> Patterns(lines) == []
    decreases |lines|
  {
    if |lines| > 0 {
      var init := lines[..|lines| - 1];
      assert forall i :: 0 <= i < |init| ==> init[i] == lines[i];
      PatternsOfPlainFile(init);
    }
  }

  /** Every pattern is in regular-expression form: each `*` follows a `.`. */
  lemma {:induction false} PatternsGuarded(lines: seq<string>)
    ensures forall k :: 0 <= k < |Patterns(lines)| ==> StarsGuarded(Patterns(lines)[k])
    decreases |lines|
  {
    if |lines| > 0 {
      var init := lines[..|lines| - 1];
      PatternsGuarded(init);
      var l := LinePatterns(lines[|lines| - 1]);
      assert Patterns(lines) == Patterns(init) + l;
      assert forall k :: 0 <= k < |l| ==> StarsGuarded(l[k]);
    }
  }

  /** `AutoGeneratedFilePatterns`: `attrs` is the attributes file as lines,
      None when it cannot be opened. */
  function AutoGeneratedFilePatterns(cfg: Config, attrs: Option<seq<string>>): (ps: seq<string>)
    ensures attrs.None? ==> ps == []
    ensures attrs.Some? ==> ps == Patterns(attrs.value)
    ensures attrs.Some? ==> |ps| <= |attrs.value|
    ensures attrs.Some? && (forall i :: 0 <= i < |attrs.value| ==> GeneratedPath(attrs.value[i]).None?) ==> ps == []
    ensures forall k :: 0 <= k < |ps| ==> StarsGuarded(ps[k])
  {
    match attrs
    case None => []
    case Some(lines) =>
      PatternsBounded(lines);
      PatternsGuarded(lines);
      PatternsOfPlainFile(lines);
      Patterns(lines)
  }

  /** Patterns of consecutive chunks of a file concatenate: each line is
      handled on its own and in order. */
  lemma PatternsAppend(a: seq<string>, b: seq<string>)
    ensures Patterns(a + b) == Patterns(a) + Patterns(b)
  {
    EachLineAppend(a, b, LinePatterns);
  }

  /** A single line contributes its own patterns. */
  lemma PatternsOfLine(line: string)
    ensures Patterns([line]) == LinePatterns(line)
  {
    assert [line][..0] == [];
    assert EachLine([line], LinePatterns) == EachLine([], LinePatterns) + LinePatterns(line);
  }

  /** No deduplication: a repeated generated line yields its pattern twice. */
  lemma PatternsKeepDuplicates(lines: seq<string>, line: string)
    requires GeneratedPath(line).Some?
    ensures var ps := Patterns(lines + [line, line]);
      |ps| == |Patterns(lines)| + 2 && ps[|ps| - 1] == ps[|ps| - 2]
  {
    PatternsAppend(lines, [line, line]);
    PatternsAppend([line], [line]);
    PatternsOfLine(line);
    assert [line] + [line] == [line, line];
  }

  /** A line `<path> linguist-generated=true` yields the rewrite of the
      whole path. */
  lemma EntryPattern(path: string)
    requires path != [] && '\n' !in path
    ensures LinePatterns(path + GeneratedMarker) == [ToRegex(path)]
  {
    var line := path + GeneratedMarker + [];
    assert line == path + GeneratedMarker;
    GeneratedPathOfEntry(path, []);
  }
}
