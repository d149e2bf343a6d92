/** The configuration documents: the main config, one sidecar config per template, and the
    variable overlays, with the lookups the renderer needs. */
module Schema {
  import opened Outcomes
  import opened Order
  import opened Paths
  import opened SortedMap

  /** A YAML value, kept opaque: variables are replaced whole, never merged. */
  datatype Value =
    | Null
    | Bool(b: bool)
    | Number(n: int)
    | Str(s: string)
    | Sequence(items: seq<Value>)
    | Mapping(entries: seq<(Value, Value)>)

  /** A `vars` overlay. */
  type Vars = map<string, Value>

  /** A template-engine context: variable names to values. */
  type Context = map<string, Value>

  datatype Repo = Repo(url: string, vars: Vars)

  /** `repos` is a `BTreeMap`, so it is kept as entries in increasing name order. */
  datatype Config = Config(repos: seq<(string, Repo)>, templates: seq<string>, vars: Vars)

  datatype File = File(repo: string, path: string, vars: Vars)

  datatype TemplateConfig = TemplateConfig(files: seq<File>, vars: Vars)

  /** Repo names are the unique keys of an ordered map. */
  predicate ValidConfig(cfg: Config) {
    Sorted(cfg.repos, StrLess)
  }

  /** `File::repo`: the repo stored under the file's repo name, or a named lookup error. */
  function FileRepo(f: File, cfg: Config): (r: Result<Repo>)
    ensures r.Ok? <==> HasKey(cfg.repos, f.repo)
    ensures r.Ok? ==> (f.repo, r.value) in cfg.repos
    ensures r.Err? ==> r == Fail("no such repo: " + f.repo)
  {
    match Get(cfg.repos, f.repo)
    case Some(repo) => Ok(repo)
    case None => Fail("no such repo: " + f.repo)
  }

  /** In a valid config the repo found is the one stored under that name. */
  lemma FileRepoUnique(f: File, cfg: Config, i: nat)
    requires ValidConfig(cfg)
    requires i < |cfg.repos| && cfg.repos[i].0 == f.repo
    ensures FileRepo(f, cfg) == Ok(cfg.repos[i].1)
  {
    StrLessIsStrictTotalOrder();
    var r := FileRepo(f, cfg);
    var j :| 0 <= j < |cfg.repos| && cfg.repos[j] == (f.repo, r.value);
    assert forall a, b :: 0 <= a < b < |cfg.repos| ==> cfg.repos[a].0 != cfg.repos[b].0;
  }

  /** `File::path()`, the raw buffer: the repo name with the file's path pushed onto it. */
  function FilePathBuf(f: File): string {
    PushStr(f.repo, f.path)
  }

  /** The map key of a file's output, i.e. the components of `File::path()`. */
  function FileKey(f: File): (k: Path)
    ensures k == Join(Parse(f.repo), Parse(f.path))
  {
    PushStrComponents(f.repo, f.path);
    Parse(FilePathBuf(f))
  }

  /** A relative file path lands under its repo: the key is the repo's components followed by
      the path's, and stripping the repo gives the path's components back. */
  lemma FileKeyUnderRepo(f: File)
    requires f.repo != ""
    requires f.path == "" || f.path[0] != '/'
    ensures FileKey(f) == Parse(f.repo) + DropCur(Parse(f.path))
    ensures StripPrefix(FileKey(f), Parse(f.repo)) == Some(DropCur(Parse(f.path)))
  {
    var k := FileKey(f);
    var r := Parse(f.repo);
    assert k[..|r|] == r;
    assert k[|r|..] == DropCur(Parse(f.path));
  }

  /** An absolute file path replaces the repo name, as `PathBuf::push` does. */
  lemma FileKeyOfAbsolutePath(f: File)
    requires |f.path| > 0 && f.path[0] == '/'
    ensures FileKey(f) == Parse(f.path)
    ensures FileKey(f)[0] == RootDir
  {
  }

  /** `tera::Context::extend`: keys of `other` are inserted, replacing existing ones. */
  function Extend(ctx: Context, other: Context): (r: Context)
    ensures r.Keys == ctx.Keys + other.Keys
    ensures forall k :: k in other ==> r[k] == other[k]
    ensures forall k :: k in ctx && k !in other ==> r[k] == ctx[k]
  {
    ctx + other
  }

  /** Overlays applied lowest first: each layer extends the result of the ones below it. */
  function Overlay(layers: seq<Context>): Context
    decreases |layers|
  {
    if |layers| == 0 then map[]
    else Extend(Overlay(layers[..|layers| - 1]), layers[|layers| - 1])
  }

  /** Reference reading of the precedence rule: the value from the highest layer that has
      the key. */
  function Lookup(layers: seq<Context>, k: string): Option<Value>
    decreases |layers|
  {
    if |layers| == 0 then None
    else if k in layers[|layers| - 1] then Some(layers[|layers| - 1][k])
    else Lookup(layers[..|layers| - 1], k)
  }

  /** Overlaying agrees with the precedence rule for every key. */
  lemma {:induction false} OverlayPrecedence(layers: seq<Context>, k: string)
    ensures k in Overlay(layers) <==> Lookup(layers, k).Some?
    ensures k in Overlay(layers) ==> Lookup(layers, k) == Some(Overlay(layers)[k])
    decreases |layers|
  {
    if |layers| > 0 {
      OverlayPrecedence(layers[..|layers| - 1], k);
    }
  }

  /** The four layers of a rendered file: `File.vars` over `Repo.vars` over
      `TemplateConfig.vars` over `Config.vars`, built by successive `extend`s. */
  lemma FileContextPrecedence(global: Context, tmpl: Context, repo: Context, file: Context, k: string)
    ensures Extend(Extend(Extend(global, tmpl), repo), file) == Overlay([global, tmpl, repo, file])
    ensures var ctx := Extend(Extend(Extend(global, tmpl), repo), file);
      && (k in file ==> k in ctx && ctx[k] == file[k])
      && (k !in file && k in repo ==> k in ctx && ctx[k] == repo[k])
      && (k !in file && k !in repo && k in tmpl ==> k in ctx && ctx[k] == tmpl[k])
      && (k !in file && k !in repo && k !in tmpl && k in global ==> k in ctx && ctx[k] == global[k])
      && (k !in file && k !in repo && k !in tmpl && k !in global ==> k !in ctx)
  {
    var l1, l2, l3, l4 := [global], [global, tmpl], [global, tmpl, repo], [global, tmpl, repo, file];
    assert Overlay(l1) == global by {
      assert l1[..0] == [];
      assert Overlay(l1) == Extend(map[], global);
    }
    assert Overlay(l2) == Extend(global, tmpl) by {
      assert l2[..1] == l1;
    }
    assert Overlay(l3) == Extend(Extend(global, tmpl), repo) by {
      assert l3[..2] == l2;
    }
    assert l4[..3] == l3;
  }
}
