/** The git mirror synchroniser of `cache.rs`. Every repo has a working clone below the cache
    directory and a stamp file naming the ref it was last synchronised to; a pass clones
    missing mirrors, skips mirrors whose stamp is current and younger than an hour, and
    otherwise checks out the fork branch or the default branch and rewrites the stamp.

    Git and the file system are the `Host`: it answers, for each command, whether it could be
    started and whether it exited successfully, and whether a stamp write worked. The pass
    keeps the mirrors' state itself and records the commands it issues. */
module Cache {
  import opened Outcomes
  import opened Text
  import opened Paths
  import opened Schema

  /** The branch name every mirror's default branch is renamed to. */
  const DefaultBranchName: string := "DEFAULT"

  /** A stamp younger than this many seconds is current. */
  const FreshSeconds: int := 3600

  /** The `--fork-regex`, `--fork-replacement` and `--fork-branch` options, which are given
      all together or not at all: `rewrite` is the regex replacement applied to a repo URL. */
  datatype ForkArgs = NoFork | Fork(rewrite: string -> string, branch: string)

  /** What a mirror has checked out: its default branch, or a detached fetched fork head. */
  datatype Head = DefaultHead | FetchHead(url: string, branch: string)

  /** The stamp file of a mirror: absent, unreadable for another reason, or holding contents
      whose age in seconds the clock reports (or fails to). */
  datatype Stamp = NoStamp | Unreadable(error: Error) | Stamped(contents: string, age: Result<int>)

  datatype Mirror = Mirror(stamp: Stamp, head: Head)

  /** The mirrors present on disk, by directory. */
  type Mirrors = map<Path, Mirror>

  /** A `git` invocation: its arguments and its working directory. */
  datatype Cmd = Cmd(args: seq<string>, dir: Option<Path>)

  /** `status` starts a command and reports whether it exited with success; `write` writes a
      stamp file. */
  datatype Host = Host(status: Cmd -> Result<bool>, write: (Path, string) -> Result<()>)

  /** What a pass did: the commands issued in order, the mirrors afterwards, and how it ended.
      After a failure the mirror being worked on keeps the state it had before the failed
      step. */
  datatype Pass = Pass(cmds: seq<Cmd>, mirrors: Mirrors, status: Result<()>)

  /** The result of a checkout step: commands issued and the head reached. */
  datatype Step = Step(cmds: seq<Cmd>, result: Result<Head>)

  /** The command line shown in messages: the program and its arguments, space-separated. */
  function Desc(c: Cmd): string {
    "git " + JoinWith(c.args, ' ')
  }

  /** `run_command`: a command that cannot be started fails with "running '<desc>'" over
      the cause, and one that exits unsuccessfully fails with "command failed: '<desc>'". */
  function RunCommand(host: Host, c: Cmd): (r: Result<()>)
    ensures r.Ok? <==> host.status(c) == Ok(true)
    ensures host.status(c) == Ok(false) ==> r == Fail("command failed: '" + Desc(c) + "'")
    ensures host.status(c).Err? ==>
      r == Err(Error("running '" + Desc(c) + "'", [host.status(c).error.message] + host.status(c).error.causes))
  {
    match host.status(c)
    case Err(e) => WithContext(Err(e), "running '" + Desc(c) + "'")
    case Ok(success) => if success then Ok(()) else Fail("command failed: '" + Desc(c) + "'")
  }

  function MirrorPath(cacheDir: Path, name: string): Path {
    Join(cacheDir, Parse(name))
  }

  /** `mirror.join(".git/tmpl8-stamp")`: the relative path has the two name components
      `ParseTwoNames` gives it. */
  function StampPath(mirror: Path): Path {
    Join(mirror, [Normal(".git"), Normal("tmpl8-stamp")])
  }

  function CloneCmd(url: string, mirror: Path): Cmd {
    Cmd(["clone", "--depth=1", url, Display(mirror)], None)
  }

  function RenameCmd(mirror: Path): Cmd {
    Cmd(["branch", "-m", DefaultBranchName], Some(mirror))
  }

  function FetchCmd(url: string, branch: string, mirror: Path): Cmd {
    Cmd(["fetch", "--depth", "1", url, branch], Some(mirror))
  }

  function DetachCmd(mirror: Path): Cmd {
    Cmd(["-c", "advice.detachedHead=false", "checkout", "FETCH_HEAD"], Some(mirror))
  }

  function CheckoutDefaultCmd(mirror: Path): Cmd {
    Cmd(["checkout", DefaultBranchName], Some(mirror))
  }

  function PullCmd(mirror: Path): Cmd {
    Cmd(["pull"], Some(mirror))
  }

  predicate IsFetch(c: Cmd) {
    |c.args| > 0 && c.args[0] == "fetch"
  }

  predicate IsClone(c: Cmd) {
    |c.args| > 0 && c.args[0] == "clone"
  }

  /** A command the pass got past: it exited with success, or it is the fork fetch, whose
      unsuccessful exit only selects the fallback. */
  predicate GotPast(host: Host, c: Cmd) {
    host.status(c) == Ok(true) || (IsFetch(c) && host.status(c) == Ok(false))
  }

  /** The error a command that stopped the pass leaves: a start failure wrapped with the
      command line (or "running git fetch" for the fetch), or "command failed" for an
      unsuccessful exit. */
  function FailureOf(host: Host, c: Cmd): Error {
    match host.status(c)
    case Err(e) => Error(if IsFetch(c) then "running git fetch" else "running '" + Desc(c) + "'", [e.message] + e.causes)
    case Ok(_) => Error("command failed: '" + Desc(c) + "'", [])
  }

  /** How a run of commands ends: every command before the last was got past, all of them
      were when the run succeeded, and a last command that was not got past is the run's
      error. */
  predicate Halts(host: Host, cmds: seq<Cmd>, status: Result<()>) {
    && (forall i :: 0 <= i < |cmds| - 1 ==> GotPast(host, cmds[i]))
    && (status.Ok? ==> forall i :: 0 <= i < |cmds| ==> GotPast(host, cmds[i]))
    && (|cmds| > 0 && !GotPast(host, cmds[|cmds| - 1]) ==> status == Err(FailureOf(host, cmds[|cmds| - 1])))
  }

  /** A successful run followed by another run ends as the second one does. */
  lemma HaltsConcat(host: Host, a: seq<Cmd>, b: seq<Cmd>, status: Result<()>)
    requires Halts(host, a, Ok(())) && Halts(host, b, status)
    ensures Halts(host, a + b, status)
  {
    assert forall i :: |a| <= i < |a + b| ==> (a + b)[i] == b[i - |a|];
    if |b| == 0 {
      assert a + b == a;
    }
  }

  function Status<T>(r: Result<T>): Result<()> {
    match r
    case Ok(_) => Ok(())
    case Err(e) => Err(e)
  }

  /** The fork branch could be fetched. */
  predicate Fetched(host: Host, fork: ForkArgs, url: string, mirror: Path) {
    fork.Fork? && host.status(FetchCmd(fork.rewrite(url), fork.branch, mirror)) == Ok(true)
  }

  /** The identity of the ref a mirror should have: the rewritten URL and the fork branch on
      one line, or the default-branch sentinel, which has no newline. */
  function Identity(fork: ForkArgs, url: string): (ident: string)
    ensures fork.NoFork? ==> ident == DefaultBranchName
    ensures fork.Fork? ==> ident == fork.rewrite(url) + " " + fork.branch + "\n"
  {
    match fork
    case NoFork => DefaultBranchName
    case Fork(rewrite, branch) => rewrite(url) + " " + branch + "\n"
  }

  /** A fork identity is never the sentinel, whatever the URL and branch: the sentinel does not
      end in a newline. */
  lemma IdentityDistinct(rewrite: string -> string, branch: string, url: string, url': string)
    ensures Identity(Fork(rewrite, branch), url) != Identity(NoFork, url')
  {
    var f := Identity(Fork(rewrite, branch), url);
    assert f[|f| - 1] == '\n';
    assert DefaultBranchName[|DefaultBranchName| - 1] == 'T';
  }

  /** The stamp is current: it names the wanted identity and is less than an hour old. A
      negative age, from a clock that went backwards, is not current. */
  predicate Current(stamp: Stamp, ident: string) {
    && stamp.Stamped?
    && stamp.contents == ident
    && stamp.age.Ok?
    && 0 <= stamp.age.value < FreshSeconds
  }

  /** The decision of `do_update_cache` for a present mirror: sync unless the stamp is
      current and the pass is not forced. A missing stamp means sync; any other read failure
      is an error, and so is failing to read the age of a stamp that matches. */
  function NeedsSync(stamp: Stamp, ident: string, force: bool, stampPath: Path): (r: Result<bool>)
    ensures r == Ok(false) <==> Current(stamp, ident) && !force
    ensures r.Err? <==> stamp.Unreadable? || (stamp.Stamped? && stamp.contents == ident && stamp.age.Err?)
    ensures stamp.Unreadable? ==>
      r == Err(Error("reading " + Display(stampPath), [stamp.error.message] + stamp.error.causes))
    ensures stamp.Stamped? && stamp.contents == ident && stamp.age.Err? ==>
      r == Err(Error("statting " + Display(stampPath), [stamp.age.error.message] + stamp.age.error.causes))
  {
    match stamp
    case NoStamp => Ok(true)
    case Unreadable(e) => WithContext(Err(e), "reading " + Display(stampPath))
    case Stamped(contents, age) =>
      if contents != ident then Ok(true)
      else
        match age
        case Err(e) => WithContext(Err(e), "statting " + Display(stampPath))
        case Ok(a) => Ok(!((0 <= a < FreshSeconds) && !force))
  }

  /** Clone a missing mirror with depth 1 and rename its branch to the sentinel. */
  function CloneIfMissing(host: Host, mirror: Path, url: string, ms: Mirrors): (r: Pass)
    ensures mirror in ms ==> r == Pass([], ms, Ok(()))
    ensures mirror !in ms ==> 1 <= |r.cmds| <= 2 && r.cmds[0] == CloneCmd(url, mirror)
    ensures r.status.Ok? ==> mirror in r.mirrors
    ensures mirror !in ms && r.status.Ok? ==>
      r.cmds == [CloneCmd(url, mirror), RenameCmd(mirror)] && r.mirrors == ms[mirror := Mirror(NoStamp, DefaultHead)]
    ensures mirror !in ms && |r.cmds| == 2 ==> r.cmds[1] == RenameCmd(mirror)
  {
    if mirror in ms then Pass([], ms, Ok(()))
    else
      var clone := CloneCmd(url, mirror);
      match RunCommand(host, clone)
      case Err(e) => Pass([clone], ms, Err(e))
      case Ok(_) =>
        var rename := RenameCmd(mirror);
        Pass([clone, rename], ms[mirror := Mirror(NoStamp, DefaultHead)], RunCommand(host, rename))
  }

  /** The fallback: check out the sentinel branch and pull. */
  function CheckoutDefault(host: Host, mirror: Path): (r: Step)
    ensures 1 <= |r.cmds| <= 2 && r.cmds[0] == CheckoutDefaultCmd(mirror)
    ensures |r.cmds| == 2 ==> r.cmds[1] == PullCmd(mirror)
    ensures r.result.Ok? ==> r.cmds == [CheckoutDefaultCmd(mirror), PullCmd(mirror)] && r.result.value == DefaultHead
  {
    var co := CheckoutDefaultCmd(mirror);
    match RunCommand(host, co)
    case Err(e) => Step([co], Err(e))
    case Ok(_) =>
      var pull := PullCmd(mirror);
      match RunCommand(host, pull)
      case Err(e) => Step([co, pull], Err(e))
      case Ok(_) => Step([co, pull], Ok(DefaultHead))
  }

  /** The commands that clone a missing mirror. */
  function CloneCmds(url: string, mirror: Path, ms: Mirrors): seq<Cmd> {
    if mirror in ms then [] else [CloneCmd(url, mirror), RenameCmd(mirror)]
  }

  /** The checkout the pass expects after a successful sync. */
  function SyncedHead(host: Host, fork: ForkArgs, url: string, mirror: Path): Head {
    if Fetched(host, fork, url, mirror) then FetchHead(fork.rewrite(url), fork.branch) else DefaultHead
  }

  /** The commands a successful sync issues, after any clone. */
  function SyncCmds(host: Host, fork: ForkArgs, url: string, mirror: Path): seq<Cmd> {
    match fork
    case NoFork => [CheckoutDefaultCmd(mirror), PullCmd(mirror)]
    case Fork(rewrite, branch) =>
      [FetchCmd(rewrite(url), branch, mirror)]
        + if Fetched(host, fork, url, mirror) then [DetachCmd(mirror)]
          else [CheckoutDefaultCmd(mirror), PullCmd(mirror)]
  }

  /** Bring the checkout up to date: detach at the fork branch if it can be fetched, else
      fall back to the default branch. Only failing to start the fetch is an error. */
  function Checkout(host: Host, fork: ForkArgs, url: string, mirror: Path): (r: Step)
    ensures 1 <= |r.cmds| <= 3
    ensures r.result.Ok? ==>
      r.result.value == SyncedHead(host, fork, url, mirror) && r.cmds == SyncCmds(host, fork, url, mirror)
  {
    match fork
    case NoFork => CheckoutDefault(host, mirror)
    case Fork(rewrite, branch) =>
      var fetch := FetchCmd(rewrite(url), branch, mirror);
      match host.status(fetch)
      case Err(e) => Step([fetch], WithContext(Err(e), "running git fetch"))
      case Ok(success) =>
        if success then
          var detach := DetachCmd(mirror);
          match RunCommand(host, detach)
          case Err(e) => Step([fetch, detach], Err(e))
          case Ok(_) => Step([fetch, detach], Ok(FetchHead(rewrite(url), branch)))
        else
          var d := CheckoutDefault(host, mirror);
          Step([fetch] + d.cmds, d.result)
  }

  /** The sync of a present mirror: bring its checkout up to date, then write the identity
      to the stamp, which resets its age. */
  function UpdateCheckout(host: Host, fork: ForkArgs, url: string, mirror: Path, ms: Mirrors): (r: Pass)
    requires mirror in ms
    ensures |r.cmds| >= 1
    ensures r.status.Ok? ==>
      && r.cmds == SyncCmds(host, fork, url, mirror)
      && r.mirrors == ms[mirror := Mirror(Stamped(Identity(fork, url), Ok(0)), SyncedHead(host, fork, url, mirror))]
  {
    var stampPath := StampPath(mirror);
    var ident := Identity(fork, url);
    var co := Checkout(host, fork, url, mirror);
    match co.result
    case Err(e) => Pass(co.cmds, ms, Err(e))
    case Ok(head) =>
      match WithContext(host.write(stampPath, ident), "writing " + Display(stampPath))
      case Err(e) => Pass(co.cmds, ms[mirror := Mirror(ms[mirror].stamp, head)], Err(e))
      case Ok(_) => Pass(co.cmds, ms[mirror := Mirror(Stamped(ident, Ok(0)), head)], Ok(()))
  }

  /** Everything `do_update_cache` does for a repo once its mirror is present. */
  function Refresh(host: Host, fork: ForkArgs, force: bool, url: string, mirror: Path, ms: Mirrors): (r: Pass)
    requires mirror in ms
    ensures (r.cmds == [] && r.status.Ok?) <==> Current(ms[mirror].stamp, Identity(fork, url)) && !force
    ensures r.cmds == [] && r.status.Ok? ==> r.mirrors == ms
    ensures r.cmds != [] && r.status.Ok? ==>
      && r.cmds == SyncCmds(host, fork, url, mirror)
      && r.mirrors == ms[mirror := Mirror(Stamped(Identity(fork, url), Ok(0)), SyncedHead(host, fork, url, mirror))]
    ensures r.status.Ok? ==> mirror in r.mirrors && Current(r.mirrors[mirror].stamp, Identity(fork, url))
  {
    match NeedsSync(ms[mirror].stamp, Identity(fork, url), force, StampPath(mirror))
    case Err(e) => Pass([], ms, Err(e))
    case Ok(sync) =>
      if sync then UpdateCheckout(host, fork, url, mirror, ms) else Pass([], ms, Ok(()))
  }

  lemma CloneHalts(host: Host, mirror: Path, url: string, ms: Mirrors)
    ensures var r := CloneIfMissing(host, mirror, url, ms); Halts(host, r.cmds, r.status)
  {
  }

  lemma CheckoutDefaultHalts(host: Host, mirror: Path)
    ensures var r := CheckoutDefault(host, mirror); Halts(host, r.cmds, Status(r.result))
  {
  }

  /** The checkout step stops at its first failing command, and issues only commands run in
      the mirror, so never a clone. */
  lemma CheckoutHalts(host: Host, fork: ForkArgs, url: string, mirror: Path)
    ensures var r := Checkout(host, fork, url, mirror);
      && Halts(host, r.cmds, Status(r.result))
      && forall i :: 0 <= i < |r.cmds| ==> r.cmds[i].dir == Some(mirror) && !IsClone(r.cmds[i])
  {
    CheckoutDefaultHalts(host, mirror);
    if fork.Fork? {
      var fetch := FetchCmd(fork.rewrite(url), fork.branch, mirror);
      if host.status(fetch) == Ok(false) {
        var d := CheckoutDefault(host, mirror);
        HaltsConcat(host, [fetch], d.cmds, Status(d.result));
      }
    }
  }

  lemma RefreshHalts(host: Host, fork: ForkArgs, force: bool, url: string, mirror: Path, ms: Mirrors)
    requires mirror in ms
    ensures var r := Refresh(host, fork, force, url, mirror, ms);
      && Halts(host, r.cmds, r.status)
      && forall i :: 0 <= i < |r.cmds| ==> r.cmds[i].dir == Some(mirror) && !IsClone(r.cmds[i])
  {
    CheckoutHalts(host, fork, url, mirror);
  }

  /** One iteration of the loop of `do_update_cache`, for the repo `name`. */
  function SyncRepo(host: Host, fork: ForkArgs, force: bool, cacheDir: Path, name: string, repo: Repo, ms: Mirrors): (r: Pass)
    ensures r.status.Ok? ==> MirrorPath(cacheDir, name) in r.mirrors
  {
    var mirror := MirrorPath(cacheDir, name);
    var cl := CloneIfMissing(host, mirror, repo.url, ms);
    if cl.status.Err? then cl
    else
      var rf := Refresh(host, fork, force, repo.url, mirror, cl.mirrors);
      Pass(cl.cmds + rf.cmds, rf.mirrors, rf.status)
  }

  /** The loop of `do_update_cache`: repos in name order, stopping at the first failure. */
  function UpdatePass(host: Host, fork: ForkArgs, force: bool, cacheDir: Path, repos: seq<(string, Repo)>, ms: Mirrors): (r: Pass)
    decreases |repos|
  {
    if |repos| == 0 then Pass([], ms, Ok(()))
    else
      var p := SyncRepo(host, fork, force, cacheDir, repos[0].0, repos[0].1, ms);
      if p.status.Err? then p
      else
        var rest := UpdatePass(host, fork, force, cacheDir, repos[1..], p.mirrors);
        Pass(p.cmds + rest.cmds, rest.mirrors, rest.status)
  }

  /** `do_update_cache`. */
  function DoUpdateCache(host: Host, cfg: Config, cacheDir: Path, fork: ForkArgs, force: bool, ms: Mirrors): Pass {
    UpdatePass(host, fork, force, cacheDir, cfg.repos, ms)
  }

  /** `cache_dir`: the `.cache` directory next to the config file. */
  function CacheDir(config: string): (r: Result<Path>)
    ensures r.Ok? <==> config != "" && Parse(config) != [RootDir]
    ensures r.Err? ==> r == Fail("getting parent of " + config)
    ensures r.Ok? ==> var c := Parse(config); r.value == c[..|c| - 1] + [Normal(".cache")]
  {
    match Parent(Parse(config))
    case None => Fail("getting parent of " + config)
    case Some(dir) => Ok(Join(dir, [Normal(".cache")]))
  }

  /** `update_cache`: a forced pass over all repos. A successful one checked out every repo,
      and leaves every repo with distinct mirror directories settled. */
  function UpdateCache(host: Host, config: string, cfg: Config, fork: ForkArgs, ms: Mirrors): (r: Pass)
    ensures CacheDir(config).Err? ==> r == Pass([], ms, Err(CacheDir(config).error))
    ensures CacheDir(config).Ok? && r.status.Ok? ==> |r.cmds| >= 2 * |cfg.repos|
    ensures CacheDir(config).Ok? && r.status.Ok? && DistinctMirrors(CacheDir(config).value, cfg.repos) ==>
      Settled(r.mirrors, fork, CacheDir(config).value, cfg.repos)
  {
    match CacheDir(config)
    case Err(e) => Pass([], ms, Err(e))
    case Ok(dir) =>
      var p := DoUpdateCache(host, cfg, dir, fork, true, ms);
      if p.status.Ok? then
        ForcedPassSyncsAll(host, fork, dir, cfg.repos, ms);
        if DistinctMirrors(dir, cfg.repos) then
          UpdatePassSettles(host, fork, true, dir, cfg.repos, ms);
          p
        else p
      else p
  }

  /** A repo is skipped, with no command issued and nothing changed, exactly when its mirror
      is present, its stamp is current and the pass is not forced. */
  lemma SyncRepoSkips(host: Host, fork: ForkArgs, force: bool, cacheDir: Path, name: string, repo: Repo, ms: Mirrors)
    ensures var r := SyncRepo(host, fork, force, cacheDir, name, repo, ms);
      var mirror := MirrorPath(cacheDir, name);
      (r.cmds == [] && r.status.Ok?)
        <==> mirror in ms && Current(ms[mirror].stamp, Identity(fork, repo.url)) && !force
    ensures var r := SyncRepo(host, fork, force, cacheDir, name, repo, ms);
      r.cmds == [] && r.status.Ok? ==> r.mirrors == ms
  {
    var mirror := MirrorPath(cacheDir, name);
    var cl := CloneIfMissing(host, mirror, repo.url, ms);
    if mirror in ms {
      assert cl == Pass([], ms, Ok(()));
      var rf := Refresh(host, fork, force, repo.url, mirror, ms);
      assert [] + rf.cmds == rf.cmds;
    }
  }

  /** The clone commands of a repo followed by commands that are not clones: a clone comes
      first exactly when there were clone commands, the rename follows it, and no clone
      comes later. */
  lemma ClonePrefix(pre: seq<Cmd>, rest: seq<Cmd>, url: string, mirror: Path)
    requires pre == [] || pre == [CloneCmd(url, mirror)] || pre == [CloneCmd(url, mirror), RenameCmd(mirror)]
    requires forall i :: 0 <= i < |rest| ==> !IsClone(rest[i])
    ensures var s := pre + rest;
      && (pre != [] <==> |s| > 0 && IsClone(s[0]))
      && (pre != [] ==> s[0] == CloneCmd(url, mirror))
      && (|pre| == 2 ==> s[1] == RenameCmd(mirror))
      && (forall i :: 0 < i < |s| ==> !IsClone(s[i]))
  {
    var s := pre + rest;
    assert forall i :: |pre| <= i < |s| ==> s[i] == rest[i - |pre|];
    if pre == [] {
      assert s == rest;
    }
  }

  /** A clone with depth 1 is issued first exactly when the mirror directory is missing,
      followed by the branch rename once the clone worked; no clone is issued later for the
      same repo. */
  lemma SyncRepoClones(host: Host, fork: ForkArgs, force: bool, cacheDir: Path, name: string, repo: Repo, ms: Mirrors)
    ensures var r := SyncRepo(host, fork, force, cacheDir, name, repo, ms);
      var mirror := MirrorPath(cacheDir, name);
      && (mirror !in ms <==> |r.cmds| > 0 && IsClone(r.cmds[0]))
      && (mirror !in ms ==> r.cmds[0] == CloneCmd(repo.url, mirror))
      && (mirror !in ms && |r.cmds| > 1 ==> r.cmds[1] == RenameCmd(mirror))
      && (forall i :: 0 < i < |r.cmds| ==> !IsClone(r.cmds[i]))
  {
    var mirror := MirrorPath(cacheDir, name);
    var cl := CloneIfMissing(host, mirror, repo.url, ms);
    if cl.status.Err? {
      ClonePrefix(cl.cmds, [], repo.url, mirror);
      assert cl.cmds + [] == cl.cmds;
    } else {
      var rf := Refresh(host, fork, force, repo.url, mirror, cl.mirrors);
      RefreshHalts(host, fork, force, repo.url, mirror, cl.mirrors);
      ClonePrefix(cl.cmds, rf.cmds, repo.url, mirror);
    }
  }

  /** The commands of a repo end as `Halts` says: every command but the last was got past,
      and a last command that was not is the error of the pass. */
  lemma SyncRepoHalts(host: Host, fork: ForkArgs, force: bool, cacheDir: Path, name: string, repo: Repo, ms: Mirrors)
    ensures var r := SyncRepo(host, fork, force, cacheDir, name, repo, ms);
      Halts(host, r.cmds, r.status)
  {
    var mirror := MirrorPath(cacheDir, name);
    var cl := CloneIfMissing(host, mirror, repo.url, ms);
    if cl.status.Ok? {
      var rf := Refresh(host, fork, force, repo.url, mirror, cl.mirrors);
      CloneHalts(host, mirror, repo.url, ms);
      RefreshHalts(host, fork, force, repo.url, mirror, cl.mirrors);
      HaltsConcat(host, cl.cmds, rf.cmds, rf.status);
    }
  }

  /** A sync that happened and succeeded issued, after any clone, the commands of its path,
      and left the identity in the stamp with age 0 and the head of that path checked out;
      nothing but this repo's mirror changed. */
  lemma SyncRepoSyncs(host: Host, fork: ForkArgs, force: bool, cacheDir: Path, name: string, repo: Repo, ms: Mirrors)
    requires SyncRepo(host, fork, force, cacheDir, name, repo, ms).status.Ok?
    requires var mirror := MirrorPath(cacheDir, name);
      !(mirror in ms && Current(ms[mirror].stamp, Identity(fork, repo.url)) && !force)
    ensures var r := SyncRepo(host, fork, force, cacheDir, name, repo, ms);
      var mirror := MirrorPath(cacheDir, name);
      && r.cmds == CloneCmds(repo.url, mirror, ms) + SyncCmds(host, fork, repo.url, mirror)
      && r.mirrors == ms[mirror := Mirror(Stamped(Identity(fork, repo.url), Ok(0)), SyncedHead(host, fork, repo.url, mirror))]
  {
    var mirror := MirrorPath(cacheDir, name);
    var url := repo.url;
    var cl := CloneIfMissing(host, mirror, url, ms);
    var m := Mirror(Stamped(Identity(fork, url), Ok(0)), SyncedHead(host, fork, url, mirror));
    assert cl.status.Ok? && cl.cmds == CloneCmds(url, mirror, ms) && mirror in cl.mirrors
      && !(Current(cl.mirrors[mirror].stamp, Identity(fork, url)) && !force)
      && cl.mirrors[mirror := m] == ms[mirror := m] by {
      if mirror !in ms {
        assert ms[mirror := Mirror(NoStamp, DefaultHead)][mirror := m] == ms[mirror := m];
      }
    }
    RefreshSyncs(host, fork, force, url, mirror, cl.mirrors);
  }

  /** The sync of a present mirror whose stamp is not current, or that is forced. */
  lemma RefreshSyncs(host: Host, fork: ForkArgs, force: bool, url: string, mirror: Path, ms: Mirrors)
    requires mirror in ms && !(Current(ms[mirror].stamp, Identity(fork, url)) && !force)
    ensures var rf := Refresh(host, fork, force, url, mirror, ms);
      rf.status.Ok? ==>
        && rf.cmds == SyncCmds(host, fork, url, mirror)
        && rf.mirrors == ms[mirror := Mirror(Stamped(Identity(fork, url), Ok(0)), SyncedHead(host, fork, url, mirror))]
  {
  }

  /** The path choice: the fork path — fetch and detached checkout of `FETCH_HEAD`, no
      default checkout, no pull — exactly when the fork branch could be fetched; otherwise
      the default checkout and the pull, after the failed fetch when a fork is configured. */
  lemma SyncPathChoice(host: Host, fork: ForkArgs, url: string, mirror: Path, ms: Mirrors)
    ensures var cmds := CloneCmds(url, mirror, ms) + SyncCmds(host, fork, url, mirror);
      && (DetachCmd(mirror) in cmds <==> Fetched(host, fork, url, mirror))
      && (PullCmd(mirror) in cmds <==> !Fetched(host, fork, url, mirror))
      && (CheckoutDefaultCmd(mirror) in cmds <==> !Fetched(host, fork, url, mirror))
      && (fork.Fork? <==> exists i :: 0 <= i < |cmds| && IsFetch(cmds[i]))
  {
    var cmds := CloneCmds(url, mirror, ms) + SyncCmds(host, fork, url, mirror);
    if fork.Fork? {
      assert IsFetch(cmds[|CloneCmds(url, mirror, ms)|]);
    } else {
      assert forall i :: 0 <= i < |cmds| ==> !IsFetch(cmds[i]);
    }
  }

  /** When the fork branch cannot be fetched the mirror ends up on the default branch, yet
      its stamp records the fork identity, which is not the sentinel. */
  lemma FallbackStampsFork(host: Host, rewrite: string -> string, branch: string, force: bool, cacheDir: Path, name: string, repo: Repo, ms: Mirrors)
    requires var mirror := MirrorPath(cacheDir, name);
      host.status(FetchCmd(rewrite(repo.url), branch, mirror)) == Ok(false)
    requires SyncRepo(host, Fork(rewrite, branch), force, cacheDir, name, repo, ms).status.Ok?
    requires var mirror := MirrorPath(cacheDir, name);
      !(mirror in ms && Current(ms[mirror].stamp, Identity(Fork(rewrite, branch), repo.url)) && !force)
    ensures var r := SyncRepo(host, Fork(rewrite, branch), force, cacheDir, name, repo, ms);
      var m := r.mirrors[MirrorPath(cacheDir, name)];
      && m.head == DefaultHead
      && m.stamp == Stamped(rewrite(repo.url) + " " + branch + "\n", Ok(0))
      && m.stamp.contents != DefaultBranchName
  {
    SyncRepoSyncs(host, Fork(rewrite, branch), force, cacheDir, name, repo, ms);
    IdentityDistinct(rewrite, branch, repo.url, repo.url);
  }

  /** The mirror of `q` is the same before and after: present in both or in neither, and
      unchanged when present. */
  predicate Unchanged(ms: Mirrors, ms': Mirrors, q: Path) {
    (q in ms <==> q in ms') && (q in ms ==> ms[q] == ms'[q])
  }

  /** Working on a repo touches no mirror but its own. */
  lemma SyncRepoFrame(host: Host, fork: ForkArgs, force: bool, cacheDir: Path, name: string, repo: Repo, ms: Mirrors, q: Path)
    requires q != MirrorPath(cacheDir, name)
    ensures Unchanged(ms, SyncRepo(host, fork, force, cacheDir, name, repo, ms).mirrors, q)
  {
    var mirror := MirrorPath(cacheDir, name);
    var cl := CloneIfMissing(host, mirror, repo.url, ms);
    assert Unchanged(ms, cl.mirrors, q);
    if cl.status.Ok? {
      RefreshFrame(host, fork, force, repo.url, mirror, cl.mirrors, q);
    }
  }

  lemma RefreshFrame(host: Host, fork: ForkArgs, force: bool, url: string, mirror: Path, ms: Mirrors, q: Path)
    requires mirror in ms && q != mirror
    ensures Unchanged(ms, Refresh(host, fork, force, url, mirror, ms).mirrors, q)
  {
  }

  /** A repo that was worked on successfully has its mirror present with a current stamp. */
  lemma SyncRepoCurrent(host: Host, fork: ForkArgs, force: bool, cacheDir: Path, name: string, repo: Repo, ms: Mirrors)
    requires SyncRepo(host, fork, force, cacheDir, name, repo, ms).status.Ok?
    ensures var r := SyncRepo(host, fork, force, cacheDir, name, repo, ms);
      var mirror := MirrorPath(cacheDir, name);
      mirror in r.mirrors && Current(r.mirrors[mirror].stamp, Identity(fork, repo.url))
  {
  }

  /** A forced sync that succeeded issued at least the two commands of a checkout. */
  lemma SyncRepoForced(host: Host, fork: ForkArgs, cacheDir: Path, name: string, repo: Repo, ms: Mirrors)
    requires SyncRepo(host, fork, true, cacheDir, name, repo, ms).status.Ok?
    ensures |SyncRepo(host, fork, true, cacheDir, name, repo, ms).cmds| >= 2
  {
    SyncRepoSyncs(host, fork, true, cacheDir, name, repo, ms);
  }

  /** The mirror directories of the repos, in order. */
  function Targets(cacheDir: Path, repos: seq<(string, Repo)>): (ts: seq<Path>)
    ensures |ts| == |repos|
    ensures forall i :: 0 <= i < |repos| ==> ts[i] == MirrorPath(cacheDir, repos[i].0)
  {
    seq(|repos|, i requires 0 <= i < |repos| => MirrorPath(cacheDir, repos[i].0))
  }

  /** No two repos share a mirror directory. */
  predicate DistinctMirrors(cacheDir: Path, repos: seq<(string, Repo)>) {
    forall i, j :: 0 <= i < j < |repos| ==> MirrorPath(cacheDir, repos[i].0) != MirrorPath(cacheDir, repos[j].0)
  }

  /** Repo names that are distinct plain names give distinct mirror directories. */
  lemma DistinctNamesDistinctMirrors(cacheDir: Path, repos: seq<(string, Repo)>)
    requires forall i :: 0 <= i < |repos| ==> ValidName(repos[i].0)
    requires forall i, j :: 0 <= i < j < |repos| ==> repos[i].0 != repos[j].0
    ensures DistinctMirrors(cacheDir, repos)
  {
    forall i, j | 0 <= i < j < |repos|
      ensures MirrorPath(cacheDir, repos[i].0) != MirrorPath(cacheDir, repos[j].0)
    {
      var a, b := MirrorPath(cacheDir, repos[i].0), MirrorPath(cacheDir, repos[j].0);
      ParseName(repos[i].0);
      ParseName(repos[j].0);
      assert a[|a| - 1] == Normal(repos[i].0);
      assert b[|b| - 1] == Normal(repos[j].0);
    }
  }

  /** Every repo's mirror is present with a current stamp. */
  predicate Settled(ms: Mirrors, fork: ForkArgs, cacheDir: Path, repos: seq<(string, Repo)>) {
    forall i :: 0 <= i < |repos| ==>
      var mirror := MirrorPath(cacheDir, repos[i].0);
      mirror in ms && Current(ms[mirror].stamp, Identity(fork, repos[i].1.url))
  }

  /** The pass over `a + b` is the pass over `a`, then, if that succeeded, the pass over `b`
      from the mirrors it left. */
  lemma {:induction false} UpdatePassConcat(host: Host, fork: ForkArgs, force: bool, cacheDir: Path,
                                            a: seq<(string, Repo)>, b: seq<(string, Repo)>, ms: Mirrors)
    ensures UpdatePass(host, fork, force, cacheDir, a + b, ms) ==
      var p := UpdatePass(host, fork, force, cacheDir, a, ms);
      if p.status.Err? then p
      else
        var q := UpdatePass(host, fork, force, cacheDir, b, p.mirrors);
        Pass(p.cmds + q.cmds, q.mirrors, q.status)
    decreases |a|
  {
    if |a| == 0 {
      assert a + b == b;
      assert [] + UpdatePass(host, fork, force, cacheDir, b, ms).cmds == UpdatePass(host, fork, force, cacheDir, b, ms).cmds;
    } else {
      assert (a + b)[0] == a[0];
      assert (a + b)[1..] == a[1..] + b;
      var s := SyncRepo(host, fork, force, cacheDir, a[0].0, a[0].1, ms);
      if s.status.Ok? {
        UpdatePassConcat(host, fork, force, cacheDir, a[1..], b, s.mirrors);
        var p := UpdatePass(host, fork, force, cacheDir, a[1..], s.mirrors);
        if p.status.Ok? {
          var q := UpdatePass(host, fork, force, cacheDir, b, p.mirrors);
          ConcatAssoc(s.cmds, p.cmds, q.cmds);
        }
      }
    }
  }

  /** The commands of a whole pass end as `Halts` says. */
  lemma {:induction false} UpdatePassHalts(host: Host, fork: ForkArgs, force: bool, cacheDir: Path, repos: seq<(string, Repo)>, ms: Mirrors)
    ensures var r := UpdatePass(host, fork, force, cacheDir, repos, ms);
      Halts(host, r.cmds, r.status)
    decreases |repos|
  {
    if |repos| > 0 {
      var s := SyncRepo(host, fork, force, cacheDir, repos[0].0, repos[0].1, ms);
      SyncRepoHalts(host, fork, force, cacheDir, repos[0].0, repos[0].1, ms);
      if s.status.Ok? {
        var rest := UpdatePass(host, fork, force, cacheDir, repos[1..], s.mirrors);
        UpdatePassHalts(host, fork, force, cacheDir, repos[1..], s.mirrors);
        HaltsConcat(host, s.cmds, rest.cmds, rest.status);
      }
    }
  }

  /** A pass touches no mirror but those of its repos. */
  lemma {:induction false} UpdatePassFrame(host: Host, fork: ForkArgs, force: bool, cacheDir: Path, repos: seq<(string, Repo)>, ms: Mirrors, q: Path)
    requires q !in Targets(cacheDir, repos)
    ensures Unchanged(ms, UpdatePass(host, fork, force, cacheDir, repos, ms).mirrors, q)
    decreases |repos|
  {
    if |repos| > 0 {
      var s := SyncRepo(host, fork, force, cacheDir, repos[0].0, repos[0].1, ms);
      assert Targets(cacheDir, repos)[0] == MirrorPath(cacheDir, repos[0].0);
      SyncRepoFrame(host, fork, force, cacheDir, repos[0].0, repos[0].1, ms, q);
      if s.status.Ok? {
        assert forall i :: 0 <= i < |repos| - 1 ==> Targets(cacheDir, repos[1..])[i] == Targets(cacheDir, repos)[i + 1];
        UpdatePassFrame(host, fork, force, cacheDir, repos[1..], s.mirrors, q);
      }
    }
  }

  /** After a successful pass over repos with distinct mirrors, every repo is settled. */
  lemma {:induction false} UpdatePassSettles(host: Host, fork: ForkArgs, force: bool, cacheDir: Path, repos: seq<(string, Repo)>, ms: Mirrors)
    requires DistinctMirrors(cacheDir, repos)
    ensures var r := UpdatePass(host, fork, force, cacheDir, repos, ms);
      r.status.Ok? ==> Settled(r.mirrors, fork, cacheDir, repos)
    decreases |repos|
  {
    if |repos| > 0 {
      var s := SyncRepo(host, fork, force, cacheDir, repos[0].0, repos[0].1, ms);
      if s.status.Ok? {
        var t := repos[1..];
        var rest := UpdatePass(host, fork, force, cacheDir, t, s.mirrors);
        assert UpdatePass(host, fork, force, cacheDir, repos, ms) == Pass(s.cmds + rest.cmds, rest.mirrors, rest.status);
        if rest.status.Ok? {
          var m0 := MirrorPath(cacheDir, repos[0].0);
          SyncRepoCurrent(host, fork, force, cacheDir, repos[0].0, repos[0].1, ms);
          DistinctTail(cacheDir, repos);
          UpdatePassSettles(host, fork, force, cacheDir, t, s.mirrors);
          UpdatePassFrame(host, fork, force, cacheDir, t, s.mirrors, m0);
          SettledCons(s.mirrors, rest.mirrors, fork, cacheDir, repos);
        }
      }
    }
  }

  /** The first repo's mirror is not among the others', which are distinct too. */
  lemma DistinctTail(cacheDir: Path, repos: seq<(string, Repo)>)
    requires |repos| > 0 && DistinctMirrors(cacheDir, repos)
    ensures DistinctMirrors(cacheDir, repos[1..])
    ensures MirrorPath(cacheDir, repos[0].0) !in Targets(cacheDir, repos[1..])
  {
    var t := repos[1..];
    assert forall i :: 0 <= i < |t| ==> t[i] == repos[i + 1];
    forall i | 0 <= i < |t| ensures Targets(cacheDir, t)[i] != MirrorPath(cacheDir, repos[0].0) {
      assert MirrorPath(cacheDir, repos[0].0) != MirrorPath(cacheDir, repos[i + 1].0);
    }
  }

  lemma SettledCons(ms: Mirrors, ms': Mirrors, fork: ForkArgs, cacheDir: Path, repos: seq<(string, Repo)>)
    requires |repos| > 0 && Settled(ms', fork, cacheDir, repos[1..])
    requires var m0 := MirrorPath(cacheDir, repos[0].0);
      m0 in ms && Current(ms[m0].stamp, Identity(fork, repos[0].1.url)) && Unchanged(ms, ms', m0)
    ensures Settled(ms', fork, cacheDir, repos)
  {
    assert forall i :: 1 <= i < |repos| ==> repos[i] == repos[1..][i - 1];
  }

  /** A pass that is not forced, over settled repos, issues no command and changes nothing,
      whatever git would answer. */
  lemma {:induction false} SettledSkips(host: Host, fork: ForkArgs, cacheDir: Path, repos: seq<(string, Repo)>, ms: Mirrors)
    requires Settled(ms, fork, cacheDir, repos)
    ensures UpdatePass(host, fork, false, cacheDir, repos, ms) == Pass([], ms, Ok(()))
    decreases |repos|
  {
    if |repos| > 0 {
      SyncRepoSkips(host, fork, false, cacheDir, repos[0].0, repos[0].1, ms);
      var t := repos[1..];
      assert forall i :: 0 <= i < |t| ==> t[i] == repos[i + 1];
      SettledSkips(host, fork, cacheDir, t, ms);
    }
  }

  /** Running the unforced pass right after a successful one, with any answers from git,
      does nothing: the stamps just written are current. */
  lemma UpdatePassTwice(host: Host, host': Host, fork: ForkArgs, force: bool, cacheDir: Path, repos: seq<(string, Repo)>, ms: Mirrors)
    requires DistinctMirrors(cacheDir, repos)
    ensures var r := UpdatePass(host, fork, force, cacheDir, repos, ms);
      r.status.Ok? ==> UpdatePass(host', fork, false, cacheDir, repos, r.mirrors) == Pass([], r.mirrors, Ok(()))
  {
    var r := UpdatePass(host, fork, force, cacheDir, repos, ms);
    UpdatePassSettles(host, fork, force, cacheDir, repos, ms);
    if r.status.Ok? {
      SettledSkips(host', fork, cacheDir, repos, r.mirrors);
    }
  }

  /** A successful forced pass checked out every repo: at least two commands per repo. */
  lemma {:induction false} ForcedPassSyncsAll(host: Host, fork: ForkArgs, cacheDir: Path, repos: seq<(string, Repo)>, ms: Mirrors)
    ensures var r := UpdatePass(host, fork, true, cacheDir, repos, ms);
      r.status.Ok? ==> |r.cmds| >= 2 * |repos|
    decreases |repos|
  {
    if |repos| > 0 {
      var s := SyncRepo(host, fork, true, cacheDir, repos[0].0, repos[0].1, ms);
      if s.status.Ok? {
        SyncRepoForced(host, fork, cacheDir, repos[0].0, repos[0].1, ms);
        ForcedPassSyncsAll(host, fork, cacheDir, repos[1..], s.mirrors);
      }
    }
  }

  /** The age window: a matching stamp is current from 0 up to but not including 3600
      seconds; younger (negative) and older stamps are synced, and so is every stamp when
      forced. */
  lemma FreshnessWindow(ident: string, age: int, force: bool, stampPath: Path)
    ensures NeedsSync(Stamped(ident, Ok(age)), ident, force, stampPath) == Ok(force || age < 0 || age >= 3600)
  {
  }

  lemma FreshnessExamples(ident: string, stampPath: Path)
    ensures NeedsSync(Stamped(ident, Ok(3599)), ident, false, stampPath) == Ok(false)
    ensures NeedsSync(Stamped(ident, Ok(3600)), ident, false, stampPath) == Ok(true)
    ensures NeedsSync(Stamped(ident, Ok(-1)), ident, false, stampPath) == Ok(true)
    ensures NeedsSync(Stamped(ident, Ok(0)), ident, true, stampPath) == Ok(true)
  {
    FreshnessWindow(ident, 3599, false, stampPath);
    FreshnessWindow(ident, 3600, false, stampPath);
    FreshnessWindow(ident, -1, false, stampPath);
    FreshnessWindow(ident, 0, true, stampPath);
  }
}
