/** The `diff` command of `render.rs`: render everything, bring the mirrors up to date without
    forcing, and print a coloured unified diff of every rendered file against its copy in the
    mirror. The diff algorithm and the file reads are the `DiffHost`; printing is the list of
    styled lines the command emits. */
module Diff {
  import opened Outcomes
  import opened Text
  import opened Paths
  import opened Schema
  import opened Render
  import opened Cache

  /** How a printed line is painted. */
  datatype Style = Bold | Red | Green | Cyan | Plain

  /** Reading a mirror copy: its text, a missing file, or another failure. */
  datatype ReadResult = Contents(text: string) | NotFound | ReadFailed(error: Error)

  /** `read` reads a file of the cache; `unified` is the line-based unified diff with the
      given old and new header labels, of the given old and new texts. */
  datatype DiffHost = DiffHost(
    read: Path -> ReadResult,
    unified: (string, string, string, string) -> string)

  /** What the diff printed, and how it ended. */
  datatype Report = Report(lines: seq<(Style, string)>, status: Result<()>)

  /** The whole command: the git commands of the cache update, the mirrors afterwards, the
      printed lines and the outcome. */
  datatype DiffRun = DiffRun(cmds: seq<Cmd>, mirrors: Mirrors, lines: seq<(Style, string)>, status: Result<()>)

  /** The classifier of the print loop: the first two lines are the header; after them a line
      is painted by its first character. */
  function Classify(i: nat, line: string): (s: Style)
    ensures i < 2 ==> s == Bold
    ensures s == Bold <==> i < 2
    ensures s == Red <==> i >= 2 && |line| > 0 && line[0] == '-'
    ensures s == Green <==> i >= 2 && |line| > 0 && line[0] == '+'
    ensures s == Cyan <==> i >= 2 && |line| > 0 && line[0] == '@'
    ensures s == Plain <==> i >= 2 && (|line| == 0 || (line[0] != '-' && line[0] != '+' && line[0] != '@'))
  {
    if i < 2 then Bold
    else if |line| == 0 then Plain
    else if line[0] == '-' then Red
    else if line[0] == '+' then Green
    else if line[0] == '@' then Cyan
    else Plain
  }

  /** The lines of a diff text: its trailing newlines trimmed, then split at each newline. An
      empty diff has no lines. */
  function DiffLines(diff: string): (ls: seq<string>)
    ensures ls == [] <==> diff == ""
    ensures forall i :: 0 <= i < |ls| ==> '\n' !in ls[i]
  {
    if diff == "" then [] else Split(TrimEnd(diff, '\n'), '\n')
  }

  /** Printing the lines with newlines between them gives back the diff, less its trailing
      newlines. */
  lemma DiffLinesRoundTrip(diff: string)
    requires diff != ""
    ensures JoinWith(DiffLines(diff), '\n') == TrimEnd(diff, '\n')
  {
    JoinSplit(TrimEnd(diff, '\n'), '\n');
  }

  /** A diff ending in a newline prints exactly its lines: joining them and adding that
      newline gives the diff back when it ends in a single one. */
  lemma DiffLinesSingleNewline(diff: string)
    requires |diff| >= 2 && diff[|diff| - 1] == '\n' && diff[|diff| - 2] != '\n'
    ensures JoinWith(DiffLines(diff), '\n') + "\n" == diff
  {
    DiffLinesRoundTrip(diff);
    assert TrailingCount(diff[..|diff| - 1], '\n') == 0;
    assert TrimEnd(diff, '\n') == diff[..|diff| - 1];
  }

  /** Each line is printed unchanged, with the classifier's style, or plain once colours are
      off. */
  function Styled(lines: seq<string>, noColor: bool): (r: seq<(Style, string)>)
    ensures |r| == |lines|
    ensures forall i :: 0 <= i < |lines| ==> r[i].1 == lines[i]
    ensures forall i :: 0 <= i < |lines| ==> r[i].0 == if noColor then Plain else Classify(i, lines[i])
  {
    seq(|lines|, i requires 0 <= i < |lines| => (if noColor then Plain else Classify(i, lines[i]), lines[i]))
  }

  /** With colours on, the first two lines of every file's diff are the bold header and no
      later line is bold; with colours off nothing is painted. */
  lemma StyledHeader(lines: seq<string>, noColor: bool)
    ensures var r := Styled(lines, noColor);
      && (!noColor ==> forall i :: 0 <= i < |r| ==> (r[i].0 == Bold <==> i < 2))
      && (noColor ==> forall i :: 0 <= i < |r| ==> r[i].0 == Plain)
  {
  }

  /** The old side of a file's diff: the mirror copy under the rendered path's label, or the
      empty `/dev/null` when the copy does not exist; any other read failure is an error. */
  function Baseline(read: ReadResult, path: Path, cachePath: Path): (r: Result<(string, string)>)
    ensures r.Err? <==> read.ReadFailed?
    ensures read.NotFound? ==> r == Ok(("/dev/null", ""))
    ensures read.Contents? ==> r == Ok((Display(path), read.text))
    ensures read.ReadFailed? ==>
      r == Err(Error("reading " + Display(cachePath), [read.error.message] + read.error.causes))
  {
    match read
    case Contents(c) => Ok((Display(path), c))
    case NotFound => Ok(("/dev/null", ""))
    case ReadFailed(e) => WithContext(Err(e), "reading " + Display(cachePath))
  }

  /** The diff text of one rendered file against its copy below the cache directory. */
  function FileDiff(dh: DiffHost, cacheDir: Path, path: Path, art: Artifact): Result<string> {
    var cachePath := Join(cacheDir, path);
    var base :- Baseline(dh.read(cachePath), path, cachePath);
    Ok(dh.unified(base.0, Display(path), base.1, art.contents))
  }

  /** The print loop over the rendered files in map order, stopping at the first file whose
      copy cannot be read; what was printed before stays printed. */
  function DiffFiles(dh: DiffHost, cacheDir: Path, m: Rendered, noColor: bool): (r: Report)
    decreases |m|
  {
    if |m| == 0 then Report([], Ok(()))
    else
      match FileDiff(dh, cacheDir, m[0].0, m[0].1)
      case Err(e) => Report([], Err(e))
      case Ok(d) =>
        var rest := DiffFiles(dh, cacheDir, m[1..], noColor);
        Report(Styled(DiffLines(d), noColor) + rest.lines, rest.status)
  }

  /** `diff`: render first, then find the cache directory, then run the unforced cache
      update, then compare. A failure of any stage stops the command before the next one. */
  function DiffCmd(eng: Engine, host: Host, dh: DiffHost, config: string, cfg: Config, fork: ForkArgs,
                   noColor: bool, ms: Mirrors): (r: DiffRun)
    ensures DoRender(eng, config, cfg).Err? ==> r == DiffRun([], ms, [], Err(DoRender(eng, config, cfg).error))
    ensures DoRender(eng, config, cfg).Ok? && CacheDir(config).Err? ==>
      r == DiffRun([], ms, [], Err(CacheDir(config).error))
    ensures DoRender(eng, config, cfg).Ok? && CacheDir(config).Ok? ==>
      var p := DoUpdateCache(host, cfg, CacheDir(config).value, fork, false, ms);
      && r.cmds == p.cmds && r.mirrors == p.mirrors
      && (p.status.Err? ==> r.lines == [] && r.status == p.status)
      && (p.status.Ok? ==>
            var rep := DiffFiles(dh, CacheDir(config).value, DoRender(eng, config, cfg).value, noColor);
            r.lines == rep.lines && r.status == rep.status)
  {
    match DoRender(eng, config, cfg)
    case Err(e) => DiffRun([], ms, [], Err(e))
    case Ok(m) =>
      match CacheDir(config)
      case Err(e) => DiffRun([], ms, [], Err(e))
      case Ok(dir) =>
        var p := DoUpdateCache(host, cfg, dir, fork, false, ms);
        if p.status.Err? then DiffRun(p.cmds, p.mirrors, [], p.status)
        else
          var rep := DiffFiles(dh, dir, m, noColor);
          DiffRun(p.cmds, p.mirrors, rep.lines, rep.status)
  }

  /** The loop over `a + b` prints what the loop over `a` prints, then, if that got through,
      what the loop over `b` prints. */
  lemma {:induction false} DiffFilesConcat(dh: DiffHost, cacheDir: Path, a: Rendered, b: Rendered, noColor: bool)
    ensures DiffFiles(dh, cacheDir, a + b, noColor) ==
      var p := DiffFiles(dh, cacheDir, a, noColor);
      if p.status.Err? then p
      else
        var q := DiffFiles(dh, cacheDir, b, noColor);
        Report(p.lines + q.lines, q.status)
    decreases |a|
  {
    if |a| == 0 {
      assert a + b == b;
    } else {
      assert (a + b)[0] == a[0];
      assert (a + b)[1..] == a[1..] + b;
      DiffFilesConcat(dh, cacheDir, a[1..], b, noColor);
      match FileDiff(dh, cacheDir, a[0].0, a[0].1)
      case Err(_) =>
      case Ok(d) =>
        var p := DiffFiles(dh, cacheDir, a[1..], noColor);
        if p.status.Ok? {
          ConcatAssoc(Styled(DiffLines(d), noColor), p.lines, DiffFiles(dh, cacheDir, b, noColor).lines);
        }
    }
  }

  /** A file whose diff is empty prints nothing. */
  lemma UnchangedPrintsNothing(dh: DiffHost, cacheDir: Path, path: Path, art: Artifact, rest: Rendered, noColor: bool)
    requires FileDiff(dh, cacheDir, path, art) == Ok("")
    ensures DiffFiles(dh, cacheDir, [(path, art)] + rest, noColor) == DiffFiles(dh, cacheDir, rest, noColor)
  {
    var m := [(path, art)] + rest;
    assert m[0] == (path, art) && m[1..] == rest;
    assert Styled([], noColor) == [];
  }

  /** A file missing from the mirror is diffed as new: against `/dev/null` and the empty text. */
  lemma MissingIsNew(dh: DiffHost, cacheDir: Path, path: Path, art: Artifact)
    requires dh.read(Join(cacheDir, path)) == NotFound
    ensures FileDiff(dh, cacheDir, path, art) == Ok(dh.unified("/dev/null", Display(path), "", art.contents))
  {
  }

  /** When every file compares equal to its copy — the diff engine gives the empty diff — the
      command prints nothing and succeeds. */
  lemma {:induction false} AllUnchangedSilent(dh: DiffHost, cacheDir: Path, m: Rendered, noColor: bool)
    requires forall i :: 0 <= i < |m| ==> FileDiff(dh, cacheDir, m[i].0, m[i].1) == Ok("")
    ensures DiffFiles(dh, cacheDir, m, noColor) == Report([], Ok(()))
    decreases |m|
  {
    if |m| > 0 {
      assert forall i :: 0 <= i < |m[1..]| ==> m[1..][i] == m[i + 1];
      AllUnchangedSilent(dh, cacheDir, m[1..], noColor);
      UnchangedPrintsNothing(dh, cacheDir, m[0].0, m[0].1, m[1..], noColor);
      assert m == [(m[0].0, m[0].1)] + m[1..];
    }
  }

  /** A copy that cannot be read stops the loop with "reading <cache path>" when the files
      before it could be read; the diffs of those files stay printed. */
  lemma {:induction false} ReadFailureStops(dh: DiffHost, cacheDir: Path, m: Rendered, noColor: bool, j: nat)
    requires j < |m|
    requires forall i :: 0 <= i < j ==> !dh.read(Join(cacheDir, m[i].0)).ReadFailed?
    requires dh.read(Join(cacheDir, m[j].0)).ReadFailed?
    ensures var e := dh.read(Join(cacheDir, m[j].0)).error;
      DiffFiles(dh, cacheDir, m, noColor).status
        == Err(Error("reading " + Display(Join(cacheDir, m[j].0)), [e.message] + e.causes))
    decreases j
  {
    if j > 0 {
      assert forall i :: 0 <= i < |m[1..]| ==> m[1..][i] == m[i + 1];
      ReadFailureStops(dh, cacheDir, m[1..], noColor, j - 1);
    }
  }

  /** The diff does not force the cache update: when every repo's mirror is present with a
      current stamp, it issues no git command at all and changes no mirror. */
  lemma DiffOnSettledCache(eng: Engine, host: Host, dh: DiffHost, config: string, cfg: Config, fork: ForkArgs,
                           noColor: bool, ms: Mirrors)
    requires CacheDir(config).Ok? && Settled(ms, fork, CacheDir(config).value, cfg.repos)
    ensures var r := DiffCmd(eng, host, dh, config, cfg, fork, noColor, ms);
      && r.cmds == [] && r.mirrors == ms
      && (DoRender(eng, config, cfg).Ok? ==>
            r.lines == DiffFiles(dh, CacheDir(config).value, DoRender(eng, config, cfg).value, noColor).lines)
  {
    SettledSkips(host, fork, CacheDir(config).value, cfg.repos, ms);
  }
}
