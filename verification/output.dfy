/** The `render` command of `render.rs`: check the `--repo` filter, render everything, and
    write the selected outputs under the output directory, making executable outputs
    executable where the umask allowed reading or writing. */
module Output {
  import opened Outcomes
  import opened Paths
  import opened SortedMap
  import opened Schema
  import opened Mode
  import opened Render

  /** The file-system operations a run attempts, in order. `Store` is the directory creation,
      removal of an old file and write of the new one; `Chmod` sets a new mode. */
  datatype FsOp = Store(target: Path, dir: Path, contents: string) | Chmod(target: Path, mode: bv32)

  /** The file system as the writer sees it: `store` performs a `Store` (its failures carry
      their own context), `stat` reports the mode of a written file, `chmod` sets one. */
  datatype Fs = Fs(
    store: (Path, Path, string) -> Result<()>,
    stat: Path -> Result<bv32>,
    chmod: (Path, bv32) -> Result<()>)

  /** What a run did: the operations attempted, and how it ended. */
  datatype Run = Run(ops: seq<FsOp>, status: Result<()>)

  /** Every mode a run sets is the `+x` update of the mode the written file had. */
  predicate ChmodsArePlusX(fs: Fs, ops: seq<FsOp>) {
    forall i :: 0 <= i < |ops| && ops[i].Chmod? ==>
      fs.stat(ops[i].target).Ok? && ops[i].mode == PlusX(fs.stat(ops[i].target).value)
  }

  /** Every step of writing `art` to `target` works: the target has a parent, the store
      succeeds, and for an executable artifact the stat and the `+x` chmod succeed too. */
  predicate WriteWorks(fs: Fs, target: Path, art: Artifact) {
    && Parent(target).Some?
    && fs.store(target, Parent(target).value, art.contents).Ok?
    && (art.executable ==> fs.stat(target).Ok? && fs.chmod(target, PlusX(fs.stat(target).value)).Ok?)
  }

  /** `RenderedTemplate::write`. */
  function WriteArtifact(fs: Fs, target: Path, art: Artifact): (r: Run)
    ensures r.status.Ok? <==> WriteWorks(fs, target, art)
    ensures Parent(target).Some? && fs.store(target, Parent(target).value, art.contents).Err? ==>
      r.status == Err(fs.store(target, Parent(target).value, art.contents).error)
    ensures
      && Parent(target).Some? && fs.store(target, Parent(target).value, art.contents).Ok?
      && art.executable && fs.stat(target).Err?
      ==> r.status.Err? && r.status.error.message == "statting file " + Display(target)
    ensures
      && Parent(target).Some? && fs.store(target, Parent(target).value, art.contents).Ok?
      && art.executable && fs.stat(target).Ok? && fs.chmod(target, PlusX(fs.stat(target).value)).Err?
      ==> r.status.Err? && r.status.error.message == "setting " + Display(target) + " executable"
    ensures Parent(target).None? <==> r.ops == []
    ensures Parent(target).None? ==> r.status == Fail("getting parent of " + Display(target))
    ensures Parent(target).Some? ==>
      && 1 <= |r.ops| <= 2
      && r.ops[0] == Store(target, Parent(target).value, art.contents)
      && (fs.store(target, Parent(target).value, art.contents).Err? ==> r.status.Err?)
    ensures |r.ops| == 2 <==>
      Parent(target).Some? && fs.store(target, Parent(target).value, art.contents).Ok?
      && art.executable && fs.stat(target).Ok?
    ensures |r.ops| == 2 ==> r.ops[1] == Chmod(target, PlusX(fs.stat(target).value))
    ensures ChmodsArePlusX(fs, r.ops)
    ensures r.status.Ok? ==> |r.ops| == (if art.executable then 2 else 1)
  {
    match Parent(target)
    case None => Run([], Fail("getting parent of " + Display(target)))
    case Some(dir) =>
      var store := Store(target, dir, art.contents);
      var stored := fs.store(target, dir, art.contents);
      if stored.Err? then Run([store], Err(stored.error))
      else if !art.executable then Run([store], Ok(()))
      else
        match WithContext(fs.stat(target), "statting file " + Display(target))
        case Err(e) => Run([store], Err(e))
        case Ok(mode) =>
          var newMode := PlusX(mode);
          Run([store, Chmod(target, newMode)],
              WithContext(fs.chmod(target, newMode), "setting " + Display(target) + " executable"))
  }

  /** The entries the `--repo` filter lets through, with the repo component stripped; with
      no filter, all of them. */
  function Selected(m: Rendered, base: Option<Path>): seq<(Path, Artifact)>
    decreases |m|
  {
    if |m| == 0 then []
    else
      var rest := Selected(m[1..], base);
      match base
      case None => [m[0]] + rest
      case Some(b) =>
        match StripPrefix(m[0].0, b)
        case None => rest
        case Some(p) => [(p, m[0].1)] + rest
  }

  /** Without a filter every entry is written, in map order. */
  lemma {:induction false} SelectedAll(m: Rendered)
    ensures Selected(m, None) == m
    decreases |m|
  {
    if |m| > 0 {
      SelectedAll(m[1..]);
    }
  }

  /** With a filter, exactly the entries under the repo are written, at their path below it. */
  lemma {:induction false} SelectedUnder(m: Rendered, b: Path, p: Path, a: Artifact)
    ensures (p, a) in Selected(m, Some(b)) <==> (b + p, a) in m
    decreases |m|
  {
    if |m| > 0 {
      SelectedUnder(m[1..], b, p, a);
      assert m == [m[0]] + m[1..];
      if m[0] == (b + p, a) {
        assert (b + p)[..|b|] == b && (b + p)[|b|..] == p;
      }
      match StripPrefix(m[0].0, b)
      case None =>
      case Some(q) =>
        if (p, a) == (q, m[0].1) {
          assert m[0] == (b + p, a);
        }
    }
  }

  /** The writes a run performs for selected entries: target below the output directory,
      and contents. */
  function Placements(sel: seq<(Path, Artifact)>, output: Path): (ps: seq<(Path, string)>)
    ensures |ps| == |sel|
    ensures forall i :: 0 <= i < |sel| ==> ps[i] == (Join(output, sel[i].0), sel[i].1.contents)
  {
    seq(|sel|, i requires 0 <= i < |sel| => (Join(output, sel[i].0), sel[i].1.contents))
  }

  /** The `Store` operations of a trace. */
  function Stores(ops: seq<FsOp>): seq<(Path, string)>
    decreases |ops|
  {
    if |ops| == 0 then []
    else (if ops[0].Store? then [(ops[0].target, ops[0].contents)] else []) + Stores(ops[1..])
  }

  lemma {:induction false} StoresConcat(a: seq<FsOp>, b: seq<FsOp>)
    ensures Stores(a + b) == Stores(a) + Stores(b)
    decreases |a|
  {
    if |a| == 0 {
      assert a + b == b;
    } else {
      var h := if a[0].Store? then [(a[0].target, a[0].contents)] else [];
      assert (a + b)[0] == a[0];
      assert (a + b)[1..] == a[1..] + b;
      StoresConcat(a[1..], b);
      assert Stores(a + b) == h + Stores(a[1..] + b);
      assert Stores(a) == h + Stores(a[1..]);
    }
  }

  /** Every selected entry can be written at its target below `output`. */
  predicate AllWritable(fs: Fs, sel: seq<(Path, Artifact)>, output: Path) {
    forall i :: 0 <= i < |sel| ==> WriteWorks(fs, Join(output, sel[i].0), sel[i].1)
  }

  /** The write loop of `render`: write each selected entry below `output`, stopping at the
      first failure. */
  function WriteAll(fs: Fs, sel: seq<(Path, Artifact)>, output: Path): (r: Run)
    ensures ChmodsArePlusX(fs, r.ops)
    decreases |sel|
  {
    if |sel| == 0 then Run([], Ok(()))
    else
      var w := WriteArtifact(fs, Join(output, sel[0].0), sel[0].1);
      if w.status.Err? then w
      else
        var rest := WriteAll(fs, sel[1..], output);
        assert forall i :: |w.ops| <= i < |w.ops + rest.ops| ==> (w.ops + rest.ops)[i] == rest.ops[i - |w.ops|];
        Run(w.ops + rest.ops, rest.status)
  }

  /** The write loop succeeds exactly when every selected entry can be written at its
      target below the output directory. */
  lemma {:induction false} WriteAllSucceeds(fs: Fs, sel: seq<(Path, Artifact)>, output: Path)
    ensures WriteAll(fs, sel, output).status.Ok? <==> AllWritable(fs, sel, output)
    decreases |sel|
  {
    if |sel| > 0 {
      var t := sel[1..];
      WriteAllSucceeds(fs, t, output);
      var w := WriteArtifact(fs, Join(output, sel[0].0), sel[0].1);
      var r := WriteAll(fs, sel, output);
      if w.status.Err? {
        assert r.status.Err?;
        assert !WriteWorks(fs, Join(output, sel[0].0), sel[0].1);
      } else {
        assert r.status == WriteAll(fs, t, output).status;
        if AllWritable(fs, t, output) {
          forall i | 0 <= i < |sel| ensures WriteWorks(fs, Join(output, sel[i].0), sel[i].1) {
            if i > 0 {
              var e := t[i - 1];
              assert sel[i] == e;
              assert WriteWorks(fs, Join(output, e.0), e.1);
            }
          }
        } else {
          var i :| 0 <= i < |t| && !WriteWorks(fs, Join(output, t[i].0), t[i].1);
          assert sel[i + 1] == t[i];
        }
      }
    }
  }

  /** Writing one artifact stores it once, unless its target has no parent. */
  lemma StoresOfWrite(fs: Fs, target: Path, art: Artifact)
    ensures Stores(WriteArtifact(fs, target, art).ops)
         == if Parent(target).None? then [] else [(target, art.contents)]
  {
    var ops := WriteArtifact(fs, target, art).ops;
    if |ops| == 1 {
      assert ops[1..] == [];
    } else if |ops| == 2 {
      assert ops[1].Chmod?;
      assert ops[1..][1..] == [];
      assert Stores(ops[1..]) == [];
    }
  }

  lemma PlacementsCons(sel: seq<(Path, Artifact)>, output: Path)
    requires |sel| > 0
    ensures Placements(sel, output)
         == [(Join(output, sel[0].0), sel[0].1.contents)] + Placements(sel[1..], output)
  {
  }

  /** Writes happen in the order of the entries and stop at the first failure: the stores
      performed are a prefix of the placements of the entries, all of them when the run
      succeeds. */
  lemma {:induction false} WriteAllStores(fs: Fs, sel: seq<(Path, Artifact)>, output: Path)
    ensures var r := WriteAll(fs, sel, output);
      var ps := Placements(sel, output);
      && |Stores(r.ops)| <= |ps|
      && ps[..|Stores(r.ops)|] == Stores(r.ops)
      && (r.status.Ok? ==> Stores(r.ops) == ps)
    decreases |sel|
  {
    if |sel| > 0 {
      var target := Join(output, sel[0].0);
      var w := WriteArtifact(fs, target, sel[0].1);
      var head := (target, sel[0].1.contents);
      var ps := Placements(sel, output);
      StoresOfWrite(fs, target, sel[0].1);
      PlacementsCons(sel, output);
      if w.status.Ok? {
        var rest := WriteAll(fs, sel[1..], output);
        WriteAllStores(fs, sel[1..], output);
        StoresConcat(w.ops, rest.ops);
        var n := |Stores(rest.ops)|;
        assert Stores(WriteAll(fs, sel, output).ops) == [head] + Stores(rest.ops);
        assert ps[..n + 1] == [head] + Placements(sel[1..], output)[..n];
      } else {
        assert WriteAll(fs, sel, output) == w;
      }
    }
  }

  /** `render`: an unknown `--repo` fails before anything is rendered; a failed render
      writes nothing; otherwise the selected entries are written in map order. */
  function RenderCmd(eng: Engine, fs: Fs, config: string, cfg: Config, repo: Option<string>, output: string): (r: Run)
    ensures repo.Some? && !HasKey(cfg.repos, repo.value) ==> r == Run([], Fail("no such repo: " + repo.value))
    ensures (repo.None? || HasKey(cfg.repos, repo.value)) && DoRender(eng, config, cfg).Err? ==>
      r == Run([], Err(DoRender(eng, config, cfg).error))
    ensures ChmodsArePlusX(fs, r.ops)
  {
    if repo.Some? && !HasKey(cfg.repos, repo.value) then Run([], Fail("no such repo: " + repo.value))
    else
      match DoRender(eng, config, cfg)
      case Err(e) => Run([], Err(e))
      case Ok(m) =>
        var base := if repo.Some? then Some(Parse(repo.value)) else None;
        WriteAll(fs, Selected(m, base), Parse(output))
  }

  /** A successful `render --repo r` wrote exactly the rendered files of repo `r`, each at
      its path below `r` joined onto the output directory, in map order. */
  lemma RenderRepoWrites(eng: Engine, fs: Fs, config: string, cfg: Config, r: string, output: string)
    ensures var run := RenderCmd(eng, fs, config, cfg, Some(r), output);
      run.status.Ok? ==>
        && DoRender(eng, config, cfg).Ok?
        && var sel := Selected(DoRender(eng, config, cfg).value, Some(Parse(r)));
        && Stores(run.ops) == Placements(sel, Parse(output))
        && forall p, a :: (p, a) in sel <==> (Parse(r) + p, a) in DoRender(eng, config, cfg).value
  {
    if RenderCmd(eng, fs, config, cfg, Some(r), output).status.Ok? {
      var m := DoRender(eng, config, cfg).value;
      var sel := Selected(m, Some(Parse(r)));
      WriteAllStores(fs, sel, Parse(output));
      forall p, a ensures (p, a) in sel <==> (Parse(r) + p, a) in m {
        SelectedUnder(m, Parse(r), p, a);
      }
    }
  }

  /** A successful `render` without `--repo` wrote every rendered file, in map order. */
  lemma RenderAllWrites(eng: Engine, fs: Fs, config: string, cfg: Config, output: string)
    ensures var run := RenderCmd(eng, fs, config, cfg, None, output);
      run.status.Ok? ==>
        && DoRender(eng, config, cfg).Ok?
        && Stores(run.ops) == Placements(DoRender(eng, config, cfg).value, Parse(output))
  {
    if RenderCmd(eng, fs, config, cfg, None, output).status.Ok? {
      var m := DoRender(eng, config, cfg).value;
      SelectedAll(m);
      WriteAllStores(fs, m, Parse(output));
    }
  }

  /** `render` succeeds exactly when the `--repo` name is known, rendering succeeds, and
      every selected entry can be written at its target below the output directory. */
  lemma RenderCmdSucceeds(eng: Engine, fs: Fs, config: string, cfg: Config, repo: Option<string>, output: string)
    ensures RenderCmd(eng, fs, config, cfg, repo, output).status.Ok? <==>
      && (repo.None? || HasKey(cfg.repos, repo.value))
      && DoRender(eng, config, cfg).Ok?
      && var sel := Selected(DoRender(eng, config, cfg).value, if repo.Some? then Some(Parse(repo.value)) else None);
      AllWritable(fs, sel, Parse(output))
  {
    var d := DoRender(eng, config, cfg);
    var known := repo.None? || HasKey(cfg.repos, repo.value);
    if known && d.Ok? {
      var base := if repo.Some? then Some(Parse(repo.value)) else None;
      var sel := Selected(d.value, base);
      assert RenderCmd(eng, fs, config, cfg, repo, output) == WriteAll(fs, sel, Parse(output));
      WriteAllSucceeds(fs, sel, Parse(output));
    } else {
      assert RenderCmd(eng, fs, config, cfg, repo, output).status.Err?;
    }
  }
}
