/** The render pipeline of `render.rs`: locating templates and their sidecar configs,
    rendering one output file, and `do_render`, which renders every file of every template
    into one ordered map and refuses a second producer for the same output path. */
module Render {
  import opened Outcomes
  import opened Paths
  import opened SortedMap
  import opened Schema
  import opened Cleanup
  import opened Mode
  import opened Collect

  /** `RenderedTemplate`: cleaned-up output and whether it should be executable. */
  datatype Artifact = Artifact(contents: string, executable: bool)

  /** `BTreeMap<PathBuf, RenderedTemplate>`, by output path in `Path` order. */
  type Rendered = seq<(Path, Artifact)>

  /** The engines the pipeline drives. `addTemplates` is Tera's `add_template_files`, and
      `render` renders a registered template by name; `parseTemplateConfig` reads and parses
      a sidecar config; `toContext` is `Vars::to_context`; `templateMode` is the permission
      mode `fs::metadata` reports for a template name. */
  datatype Engine = Engine(
    addTemplates: seq<(Path, string)> -> Result<()>,
    parseTemplateConfig: Path -> Result<TemplateConfig>,
    toContext: Vars -> Result<Context>,
    render: (string, Context) -> Result<string>,
    templateMode: string -> Result<bv32>)

  /** The last component of a join of well-formed paths, when it is a name, is a valid one. */
  lemma JoinLastName(base: Path, rest: Path)
    requires WellFormed(base) && WellFormed(rest)
    ensures var j := Join(base, rest);
      |j| > 0 && j[|j| - 1].Normal? ==> ValidName(j[|j| - 1].name)
  {
  }

  /** `template_path`: templates are named relative to the directory of the config file; an
      absolute name stands on its own. */
  function TemplatePath(config: string, template: string): (r: Result<Path>)
    ensures r.Ok? <==> config != "" && Parse(config) != [RootDir]
    ensures r.Err? ==> r == Fail("path " + config + " has no parent")
    ensures r.Ok? && |template| > 0 && template[0] == '/' ==> r.value == Parse(template)
    ensures r.Ok? && (|template| == 0 || template[0] != '/') ==>
      var c := Parse(config);
      r.value == if |c| == 1 then Parse(template) else c[..|c| - 1] + DropCur(Parse(template))
    ensures r.Ok? ==> |r.value| > 0 && r.value[|r.value| - 1].Normal? ==>
      ValidName(r.value[|r.value| - 1].name)
  {
    var c := Parse(config);
    match Parent(c)
    case None => Fail("path " + config + " has no parent")
    case Some(dir) =>
      assert WellFormed(dir) by {
        assert forall i :: 0 <= i < |dir| ==> dir[i] == c[i];
      }
      JoinLastName(dir, Parse(template));
      Ok(Join(dir, Parse(template)))
  }

  /** `template_config_path`: the sidecar `<stem>.yaml` next to the template. It exists exactly
      when the config has a parent and the resolved template path ends in a name; the sidecar
      then sits in the template's directory and is named by the template's stem. */
  function TemplateConfigPath(config: string, template: string): (r: Result<Path>)
    ensures r.Ok? <==>
      && config != "" && Parse(config) != [RootDir]
      && var tp := TemplatePath(config, template).value; |tp| > 0 && tp[|tp| - 1].Normal?
    ensures r.Ok? ==> var tp := TemplatePath(config, template).value;
      && r.value == tp[..|tp| - 1] + [Normal(Stem(tp[|tp| - 1].name) + ".yaml")]
      && Parent(r.value) == Parent(tp)
      && FileName(r.value) == Some(Stem(tp[|tp| - 1].name) + ".yaml")
    ensures (config == "" || Parse(config) == [RootDir]) ==> r == Fail("path " + config + " has no parent")
    ensures config != "" && Parse(config) != [RootDir] && !r.Ok? ==>
      var tp := TemplatePath(config, template).value;
      r == Fail("path " + Display(tp) + (if |tp| == 0 || tp[|tp| - 1] == RootDir then " has no parent" else " has no filename"))
  {
    var path :- TemplatePath(config, template);
    Sidecar(path)
  }

  /** The sidecar of a template path: its file name's stem with `.yaml`, in its directory. */
  function Sidecar(tp: Path): (r: Result<Path>)
    requires |tp| > 0 && tp[|tp| - 1].Normal? ==> ValidName(tp[|tp| - 1].name)
    ensures r.Ok? <==> |tp| > 0 && tp[|tp| - 1].Normal?
    ensures r.Ok? ==> r.value == tp[..|tp| - 1] + [Normal(Stem(tp[|tp| - 1].name) + ".yaml")]
    ensures |tp| == 0 || tp[|tp| - 1] == RootDir ==> r == Fail("path " + Display(tp) + " has no parent")
    ensures |tp| > 0 && tp[|tp| - 1] != RootDir && !tp[|tp| - 1].Normal? ==>
      r == Fail("path " + Display(tp) + " has no filename")
  {
    match Parent(tp)
    case None => Fail("path " + Display(tp) + " has no parent")
    case Some(dir) =>
      match FileStem(tp)
      case None => Fail("path " + Display(tp) + " has no filename")
      case Some(stem) =>
        StemOfValidName(tp[|tp| - 1].name);
        ExtendedName(stem, ".yaml");
        ParseName(stem + ".yaml");
        Ok(Join(dir, Parse(stem + ".yaml")))
  }

  /** A template `<base>.<ext>` has its sidecar `<base>.yaml` in the same directory. */
  lemma SidecarOfTemplate(config: string, template: string, dir: Path, base: string, ext: string)
    requires ValidName(base) && '.' !in ext && ValidName(base + "." + ext)
    ensures TemplatePath(config, template) == Ok(dir + [Normal(base + "." + ext)]) ==>
      TemplateConfigPath(config, template) == Ok(dir + [Normal(base + ".yaml")])
  {
    var tp := dir + [Normal(base + "." + ext)];
    if TemplatePath(config, template) == Ok(tp) {
      assert tp[..|tp| - 1] == dir;
      StemDropsExtension(base, ext);
    }
  }

  /** `RenderedTemplate::new`: render, clean up newlines, and take the executable flag from
      the template's mode. */
  function RenderedTemplateNew(eng: Engine, template: string, ctx: Context): (r: Result<Artifact>)
    ensures r.Ok? <==> eng.render(template, ctx).Ok? && eng.templateMode(template).Ok?
    ensures eng.render(template, ctx).Err? ==> r == Err(eng.render(template, ctx).error)
    ensures eng.render(template, ctx).Ok? && eng.templateMode(template).Err? ==>
      r.Err? && r.error.message == "statting " + template
    ensures r.Ok? ==>
      var out := eng.render(template, ctx).value;
      && NoTripleNewline(r.value.contents)
      && !EndsWithTwoNewlines(r.value.contents)
      && Strip(r.value.contents) == Strip(out)
      && |r.value.contents| <= |out|
      && (r.value.executable <==> eng.templateMode(template).value & 0x49 != 0)
  {
    var out :- eng.render(template, ctx);
    var mode :- WithContext(eng.templateMode(template), "statting " + template);
    Ok(Artifact(Clean(out), IsExecutable(mode)))
  }

  /** The context a file is rendered with: `File.vars` over `Repo.vars` over the template
      context (itself `TemplateConfig.vars` over `Config.vars`). */
  function FileContext(ctx: Context, repoCtx: Context, fileCtx: Context): Context {
    Extend(Extend(ctx, repoCtx), fileCtx)
  }

  /** Rendering one file of a template, with the error contexts of `do_render`. */
  function RenderJob(eng: Engine, cfg: Config, template: string, ctx: Context, f: File): (r: Result<Artifact>)
    ensures !HasKey(cfg.repos, f.repo) ==> r == Fail("no such repo: " + f.repo)
    ensures r.Ok? ==>
      var repo := FileRepo(f, cfg).value;
      && HasKey(cfg.repos, f.repo)
      && eng.toContext(repo.vars).Ok? && eng.toContext(f.vars).Ok?
      && r == RenderedTemplateNew(eng, template,
                FileContext(ctx, eng.toContext(repo.vars).value, eng.toContext(f.vars).value))
    ensures HasKey(cfg.repos, f.repo) ==>
      var repoCtx := eng.toContext(FileRepo(f, cfg).value.vars);
      var fileCtx := eng.toContext(f.vars);
      && (repoCtx.Err? ==> r == Err(repoCtx.error))
      && (repoCtx.Ok? && fileCtx.Err? ==> r == Err(fileCtx.error))
      && (repoCtx.Ok? && fileCtx.Ok? ==>
            var a := RenderedTemplateNew(eng, template, FileContext(ctx, repoCtx.value, fileCtx.value));
            a.Err? ==> r.Err? && r.error.message == "rendering " + FilePathBuf(f))
  {
    var repo :- FileRepo(f, cfg);
    var repoCtx :- eng.toContext(repo.vars);
    var fileCtx :- eng.toContext(f.vars);
    WithContext(RenderedTemplateNew(eng, template, FileContext(ctx, repoCtx, fileCtx)),
                "rendering " + FilePathBuf(f))
  }

  /** A file of a template as a job of the accumulation: keyed by the components of
      `File::path()`, named by its text. */
  function FileJob(eng: Engine, cfg: Config, template: string, ctx: Context, f: File): Job<Path, Artifact> {
    Job(FileKey(f), FilePathBuf(f), RenderJob(eng, cfg, template, ctx, f))
  }

  function FileJobs(eng: Engine, cfg: Config, template: string, ctx: Context, files: seq<File>): (js: seq<Job<Path, Artifact>>)
    ensures |js| == |files|
    ensures forall i :: 0 <= i < |files| ==> js[i] == FileJob(eng, cfg, template, ctx, files[i])
  {
    seq(|files|, i requires 0 <= i < |files| => FileJob(eng, cfg, template, ctx, files[i]))
  }

  /** The per-template set-up of `do_render`: the sidecar config and the template context. */
  function TemplateSetup(eng: Engine, config: string, ctx: Context, template: string): (r: Result<(TemplateConfig, Context)>)
    ensures var sidecar := TemplateConfigPath(config, template);
      r.Ok? <==>
        && sidecar.Ok?
        && eng.parseTemplateConfig(sidecar.value).Ok?
        && eng.toContext(eng.parseTemplateConfig(sidecar.value).value.vars).Ok?
    ensures TemplateConfigPath(config, template).Err? ==> r == Err(TemplateConfigPath(config, template).error)
    ensures var sidecar := TemplateConfigPath(config, template);
      sidecar.Ok? && eng.parseTemplateConfig(sidecar.value).Err? ==>
        r == Err(eng.parseTemplateConfig(sidecar.value).error)
    ensures var sidecar := TemplateConfigPath(config, template);
      && sidecar.Ok? && eng.parseTemplateConfig(sidecar.value).Ok?
      && eng.toContext(eng.parseTemplateConfig(sidecar.value).value.vars).Err? ==>
        r == Err(eng.toContext(eng.parseTemplateConfig(sidecar.value).value.vars).error)
    ensures r.Ok? ==>
      && TemplateConfigPath(config, template).Ok?
      && eng.parseTemplateConfig(TemplateConfigPath(config, template).value) == Ok(r.value.0)
      && eng.toContext(r.value.0.vars).Ok?
      && r.value.1 == Extend(ctx, eng.toContext(r.value.0.vars).value)
  {
    var configFile :- TemplateConfigPath(config, template);
    var tc :- eng.parseTemplateConfig(configFile);
    var tmplCtx :- eng.toContext(tc.vars);
    Ok((tc, Extend(ctx, tmplCtx)))
  }

  /** The loop of `do_render` over the configured templates, in order: set the template up,
      then render its files into the map. */
  function RenderTemplates(eng: Engine, config: string, cfg: Config, ctx: Context, templates: seq<string>, acc: Rendered): Result<Rendered>
    decreases |templates|
  {
    if |templates| == 0 then Ok(acc)
    else
      var setup :- TemplateSetup(eng, config, ctx, templates[0]);
      var acc' :- InsertAll(FileJobs(eng, cfg, templates[0], setup.1, setup.0.files), acc, PathLess);
      RenderTemplates(eng, config, cfg, ctx, templates[1..], acc')
  }

  /** Reference reading of the templates: every file job of every template, in order, or the
      first template whose set-up fails. */
  function TemplateJobs(eng: Engine, config: string, cfg: Config, ctx: Context, templates: seq<string>): Result<seq<Job<Path, Artifact>>>
    decreases |templates|
  {
    if |templates| == 0 then Ok([])
    else
      var setup :- TemplateSetup(eng, config, ctx, templates[0]);
      var rest :- TemplateJobs(eng, config, cfg, ctx, templates[1..]);
      Ok(FileJobs(eng, cfg, templates[0], setup.1, setup.0.files) + rest)
  }

  /** The job list forms exactly when every template's set-up succeeds. */
  lemma {:induction false} TemplateJobsSetups(eng: Engine, config: string, cfg: Config, ctx: Context, templates: seq<string>)
    ensures TemplateJobs(eng, config, cfg, ctx, templates).Ok? <==>
      forall i :: 0 <= i < |templates| ==> TemplateSetup(eng, config, ctx, templates[i]).Ok?
    decreases |templates|
  {
    if |templates| > 0 {
      var t := templates[1..];
      var setup := TemplateSetup(eng, config, ctx, templates[0]);
      var rest := TemplateJobs(eng, config, cfg, ctx, t);
      TemplateJobsSetups(eng, config, cfg, ctx, t);
      if setup.Ok? && rest.Ok? {
        forall i | 0 <= i < |templates| ensures TemplateSetup(eng, config, ctx, templates[i]).Ok? {
          if i > 0 {
            assert templates[i] == t[i - 1];
          }
        }
      } else if setup.Ok? {
        var i :| 0 <= i < |t| && !TemplateSetup(eng, config, ctx, t[i]).Ok?;
        assert templates[i + 1] == t[i];
      }
    }
  }

  /** The template loop runs the reference job list: a successful run had every set-up
      succeed, and once every set-up succeeds the loop is the accumulation of all jobs. */
  lemma {:induction false} RenderTemplatesRunsJobs(eng: Engine, config: string, cfg: Config, ctx: Context, templates: seq<string>, acc: Rendered)
    ensures RenderTemplates(eng, config, cfg, ctx, templates, acc).Ok? ==>
      TemplateJobs(eng, config, cfg, ctx, templates).Ok?
    ensures TemplateJobs(eng, config, cfg, ctx, templates).Ok? ==>
      RenderTemplates(eng, config, cfg, ctx, templates, acc)
        == InsertAll(TemplateJobs(eng, config, cfg, ctx, templates).value, acc, PathLess)
    decreases |templates|
  {
    if |templates| > 0 {
      var setup := TemplateSetup(eng, config, ctx, templates[0]);
      if setup.Ok? {
        var js := FileJobs(eng, cfg, templates[0], setup.value.1, setup.value.0.files);
        var first := InsertAll(js, acc, PathLess);
        var rest := TemplateJobs(eng, config, cfg, ctx, templates[1..]);
        if first.Ok? {
          RenderTemplatesRunsJobs(eng, config, cfg, ctx, templates[1..], first.value);
        }
        if rest.Ok? {
          InsertAllConcat(js, rest.value, acc, PathLess);
        }
      }
    }
  }

  /** One template as registered with the engine: its resolved path, named by the template. */
  function TemplateEntry(config: string, template: string): Result<(Path, string)> {
    var p :- TemplatePath(config, template);
    Ok((p, template))
  }

  function Registration(config: string): string -> Result<(Path, string)> {
    t => TemplateEntry(config, t)
  }

  /** The template paths registered with the engine, each with its name; the first path
      that cannot be formed is the error. */
  function TemplatePaths(config: string, templates: seq<string>): (r: Result<seq<(Path, string)>>)
    ensures r.Ok? <==> |templates| == 0 || (config != "" && Parse(config) != [RootDir])
    ensures r.Err? ==> r == Fail("path " + config + " has no parent")
    ensures r.Ok? ==> |r.value| == |templates|
  {
    CollectAllSpec(Registration(config), templates);
    CollectAll(Registration(config), templates)
  }

  /** Each registered template is its name paired with the name's resolved path, in the
      order of the configuration. */
  lemma TemplatePathsEntries(config: string, templates: seq<string>)
    ensures var r := TemplatePaths(config, templates);
      r.Ok? ==> forall i :: 0 <= i < |templates| ==>
        r.value[i] == (TemplatePath(config, templates[i]).value, templates[i])
  {
    CollectAllSpec(Registration(config), templates);
  }

  /** `do_render`. */
  function DoRender(eng: Engine, config: string, cfg: Config): Result<Rendered> {
    var paths :- TemplatePaths(config, cfg.templates);
    var added :- WithContext(eng.addTemplates(paths), "parsing templates");
    var ctx :- eng.toContext(cfg.vars);
    RenderTemplates(eng, config, cfg, ctx, cfg.templates, [])
  }

  /** Reference reading of a whole run: the jobs of all templates, once the templates are
      registered and the global context is built. */
  function Plan(eng: Engine, config: string, cfg: Config): Result<seq<Job<Path, Artifact>>> {
    var paths :- TemplatePaths(config, cfg.templates);
    var added :- WithContext(eng.addTemplates(paths), "parsing templates");
    var ctx :- eng.toContext(cfg.vars);
    TemplateJobs(eng, config, cfg, ctx, cfg.templates)
  }

  /** `do_render` runs the plan: a successful run had a plan, and with a plan the run is the
      accumulation of its jobs into an empty map. */
  lemma DoRenderRunsPlan(eng: Engine, config: string, cfg: Config)
    ensures DoRender(eng, config, cfg).Ok? ==> Plan(eng, config, cfg).Ok?
    ensures Plan(eng, config, cfg).Ok? ==>
      DoRender(eng, config, cfg) == InsertAll(Plan(eng, config, cfg).value, [], PathLess)
  {
    var paths := TemplatePaths(config, cfg.templates);
    if paths.Ok? {
      var added := WithContext(eng.addTemplates(paths.value), "parsing templates");
      var ctx := eng.toContext(cfg.vars);
      if added.Ok? && ctx.Ok? {
        RenderTemplatesRunsJobs(eng, config, cfg, ctx.value, cfg.templates, []);
      }
    }
  }

  /** `do_render` succeeds exactly when the plan can be formed, every file renders, and no
      two files share an output path; the map it returns is sorted by path, has one entry
      per file, and every path maps to what its file rendered. */
  lemma DoRenderSpec(eng: Engine, config: string, cfg: Config)
    ensures var r := DoRender(eng, config, cfg);
      var plan := Plan(eng, config, cfg);
      && (r.Ok? <==> plan.Ok? && Outputs(plan.value).Ok? && DistinctKeys(Outputs(plan.value).value))
      && (r.Ok? ==>
            var out := Outputs(plan.value).value;
            && Sorted(r.value, PathLess)
            && |r.value| == |out| == |plan.value|
            && KeySet(r.value) == KeySet(out)
            && forall k :: Get(r.value, k) == Get(out, k))
  {
    var plan := Plan(eng, config, cfg);
    DoRenderRunsPlan(eng, config, cfg);
    if plan.Ok? {
      var js := plan.value;
      PathLessIsStrictTotalOrder();
      InsertAllSpec(js, [], PathLess);
      OutputsSpec(js);
      if Outputs(js).Ok? {
        assert [] + Outputs(js).value == Outputs(js).value;
      }
    }
  }

  /** Two files of a run with the same output path make the run fail. */
  lemma DuplicateOutputFails(eng: Engine, config: string, cfg: Config, i: nat, j: nat)
    ensures var plan := Plan(eng, config, cfg);
      plan.Ok? && i < j < |plan.value| && plan.value[i].key == plan.value[j].key ==>
        DoRender(eng, config, cfg).Err?
  {
    var plan := Plan(eng, config, cfg);
    if plan.Ok? && i < j < |plan.value| && plan.value[i].key == plan.value[j].key {
      var js := plan.value;
      DoRenderSpec(eng, config, cfg);
      OutputsSpec(js);
      if Outputs(js).Ok? {
        var out := Outputs(js).value;
        DistinctKeysPairwise(out);
        assert out[i].0 == out[j].0;
      }
    }
  }

  /** The files before position `j` rendered, with distinct paths, and so did file `j`, to a
      path one of them has. */
  predicate SecondProducer(js: seq<Job<Path, Artifact>>, j: nat) {
    && j < |js|
    && (forall i :: 0 <= i <= j ==> js[i].result.Ok?)
    && (forall i, i' :: 0 <= i < i' < j ==> js[i].key != js[i'].key)
    && (exists i :: 0 <= i < j && js[i].key == js[j].key)
  }

  /** The error names the second producer: when file `j` is the first to render to a path
      an earlier file has, `do_render` fails with "multiple attempts to write to <path of
      file j>". */
  lemma DuplicateOutputMessage(eng: Engine, config: string, cfg: Config, j: nat)
    ensures var plan := Plan(eng, config, cfg);
      plan.Ok? && SecondProducer(plan.value, j) ==>
        DoRender(eng, config, cfg) == Fail("multiple attempts to write to " + plan.value[j].name)
  {
    var plan := Plan(eng, config, cfg);
    if plan.Ok? && SecondProducer(plan.value, j) {
      DoRenderRunsPlan(eng, config, cfg);
      InsertAllDuplicate(plan.value, [], PathLess, j);
    }
  }
}
