# tmpl8 in Dafny

A model of the core of `tmpl8`, a tool that renders a set of Tera templates into many git
repositories at once.

A YAML config names three things:
- the repositories (a map from repo name to URL plus variables);
- the templates;
- global variables.

Every template has a sidecar `<stem>.yaml` config. It lists the files that template renders into, each with its repo, its path inside the repo, and more variables.

The model covers four commands:
- `render` renders every file and writes it below an output directory, optionally restricted to one repo. Executable templates yield executable files.
- `diff` renders, brings a cache of git mirrors up to date, and prints a coloured unified diff of each rendered file against the mirror's copy.
- `update-cache` forces every mirror up to date: clone if missing, fetch a fork branch or fall back to the default branch, then write a stamp.
- `github-matrix` lists the GitHub repos with the `https://github.com/` prefix removed.

Modules follow the program's structure:

- `Outcomes`: `anyhow`-style results, with an outermost message and a chain of causes, and collecting a sequence of results into a result of a sequence.
- `Order`, `SortedMap`: `BTreeMap` as a list of entries kept in key order.
- `Text`: `split`, `join` and `trim_end_matches`.
- `Paths`: `std::path` on Unix as component sequences, covering:
  - `components`, `push` and `join`;
  - `parent`, `file_stem` and `strip_prefix`;
  - ordering and display.
- `Schema`: the config documents, `File::repo`, `File::path`, and the variable precedence.
- `Cleanup`: the two newline-collapsing regex passes of `RenderedTemplate::new`.
- `Mode`: the executable test and the `+x` update of permission bits.
- `Collect`: the accumulate-or-fail loop of `do_render` over its output jobs.
- `Render`: template paths, sidecar paths, rendering one file, and `do_render`.
- `Output`: `RenderedTemplate::write` and the `render` command with its `--repo` filter.
- `Cache`: `run_command`, `cache_dir`, `do_update_cache` and `update_cache` over a map of mirrors.
- `Diff`: the `diff` command, covering the baseline, line splitting and line styles.
- `GitHub`: the repo matrix.

The outside world is passed in as function-valued fields of datatypes:
- `Render.Engine`: Tera, YAML parsing, `to_context`, and the stat of a template.
- `Output.Fs`: directory creation, removal, write, stat and chmod.
- `Cache.Host`: starting `git` commands and writing stamps.
- `Diff.DiffHost`: cache reads and the unified-diff algorithm.

Each function field returns what the real call would. Every property is proved for all behaviours of these engines.

## Model

| member | source | states |
|---|---|---|
| Order.StrLessIsStrictTotalOrder | tmpl8/src/schema.rs:26 | the byte-wise string order of the repo map is irreflexive, transitive and total |
| SortedMap.InsertKeys | tmpl8/src/render.rs:120 | `insert` adds exactly its key; the map grows by one entry exactly when the key was new |
| SortedMap.InsertGet | tmpl8/src/render.rs:120 | after `insert`, the key maps to the new value and every other key maps to what it did before |
| SortedMap.InsertSorted | tmpl8/src/render.rs:106-120 | inserting into a map sorted by a strict total order keeps it sorted |
| SortedMap.SortedDistinct | tmpl8/src/render.rs:106 | a map sorted by a strict total order never holds a key twice |
| Text.TrimEnd | tmpl8/src/render.rs:81 | `trim_end_matches`: the result is a prefix of the input, does not end with the character, and only that character was removed |
| Text.JoinSplit | tmpl8/src/render.rs:81 | joining the pieces of a split with the separator gives back the text |
| Text.SplitJoin | tmpl8/src/render.rs:81 | splitting a join of separator-free pieces gives back the pieces |
| Paths.PushStrComponents | tmpl8/src/schema.rs:91-95 | the components of a buffer after `push` are the joined components of both parts; an absolute argument replaces the buffer |
| Paths.DisplayRoundTrip | tmpl8/src/render.rs:74-77 | parsing the printed form of a well-formed path gives back its components |
| Paths.Parent | tmpl8/src/render.rs:190-195 | `parent` exists exactly for a non-empty path that does not end at the root, and adding the last component back restores the path |
| Paths.StemDropsExtension | tmpl8/src/render.rs:202-206 | the stem of `<base>.<ext>` with no dot in `ext` is `base` |
| Paths.StripPrefix | tmpl8/src/render.rs:41-44 | `strip_prefix` succeeds exactly when the base's components begin the path, and the base followed by the rest is the path |
| Paths.PathLessIsStrictTotalOrder | tmpl8/src/render.rs:95-106 | the component-wise order of the output map keys is a strict total order |
| Schema.FileRepo | tmpl8/src/schema.rs:85-89 | the lookup succeeds exactly when the repo name is a key of `repos`, and yields an entry stored under that name; otherwise it fails with "no such repo: <name>" |
| Schema.FileRepoUnique | tmpl8/src/schema.rs:85-89 | in a config whose repo names are ordered keys, the repo found is the one stored under the name |
| Schema.FileKey | tmpl8/src/schema.rs:91-95 | the output key of a file is its repo's components joined with its path's |
| Schema.FileKeyUnderRepo | tmpl8/src/schema.rs:91-95 | a relative file path lands below its repo: stripping the repo's components gives back the path's |
| Schema.FileKeyOfAbsolutePath | tmpl8/src/schema.rs:91-95 | an absolute file path replaces the repo name entirely |
| Schema.Extend | tmpl8/src/render.rs:109-116 | `Context::extend` keeps all keys of both; the extension's values win |
| Schema.OverlayPrecedence | tmpl8/src/schema.rs:36-57 | layering overlays gives each key the value of the highest layer that defines it, and a key exactly when some layer defines it |
| Schema.FileContextPrecedence | tmpl8/src/render.rs:105-116 | a file's context takes each variable from the file, else the repo, else the template config, else the global vars |
| Cleanup.CollapseRuns | tmpl8/src/render.rs:138-139 | the first regex pass leaves no three newlines in a row, drops only newlines, and never lengthens the text |
| Cleanup.TrimTrailing | tmpl8/src/render.rs:140-141 | the second regex pass leaves at most one trailing newline, drops only newlines, keeps the first pass's guarantee, and leaves text without a double trailing newline alone |
| Cleanup.Clean | tmpl8/src/render.rs:137-141 | the clean-up yields text with no triple newline and no double trailing newline, with the same non-newline characters in order |
| Cleanup.CollapseRunsFixesClean | tmpl8/src/render.rs:138-139 | text without a triple newline is left unchanged by the first pass |
| Cleanup.CleanFixesClean | tmpl8/src/render.rs:137-141 | already clean text is returned unchanged |
| Cleanup.CleanIdempotent | tmpl8/src/render.rs:137-141 | cleaning twice equals cleaning once |
| Cleanup.CleanRuns | tmpl8/src/render.rs:137-141 | between two lines, three or more newlines become one blank line, and two or more trailing newlines become one |
| Cleanup.TrimRun | tmpl8/src/render.rs:140-141 | a trailing run of two or more newlines after other text becomes a single newline |
| Cleanup.CollapseBlank | tmpl8/src/render.rs:138-139 | a leading run of three or more newlines before text shrinks to two |
| Cleanup.CollapseLine | tmpl8/src/render.rs:138-139 | a character followed by two or more newlines keeps exactly two |
| Cleanup.CleanExample | tmpl8/src/render.rs:137-141 | `"a\n\n\n\nb\n\n\n"` cleans to `"a\n\nb\n"` |
| Mode.IsExecutable | tmpl8/src/render.rs:147 | a mode is executable exactly when the owner, group or other execute bit is set |
| Mode.GrantClassSpec | tmpl8/src/render.rs:172-176 | one loop step sets the class's execute bit exactly when it was set or the class's read or write bit was, and changes no other bit |
| Mode.PlusX | tmpl8/src/render.rs:171-176 | after the loop each class is executable exactly when it was executable, readable or writable; all non-execute bits are unchanged |
| Mode.PlusXIdempotent | tmpl8/src/render.rs:171-176 | applying the `+x` update twice is applying it once |
| Mode.PlusXMakesExecutable | tmpl8/src/render.rs:171-176 | a file with any permission bit set is executable after the update |
| Collect.OutputsSpec | tmpl8/src/render.rs:112-122 | the reference reading of the file loop succeeds exactly when every file renders, and lists each file's key and artifact in order |
| Collect.InsertAllConcat | tmpl8/src/render.rs:107-124 | running the loop over two runs of files one after the other equals running it over their concatenation |
| Collect.InsertAllSpec | tmpl8/src/render.rs:118-122 | the loop succeeds exactly when every file renders and no output key repeats or is already present; the result is sorted, one entry per file, each key mapped to its file's artifact |
| Collect.InsertAllDuplicate | tmpl8/src/render.rs:120-121 | the first file whose key was already produced makes the loop fail with "multiple attempts to write to <that file's path>" |
| Collect.InsertAllJobError | tmpl8/src/render.rs:118-119 | the first file that fails to render, before any duplicate, makes the loop fail with that file's error |
| Render.TemplatePath | tmpl8/src/render.rs:190-195 | a template is resolved relative to the config's directory, or stands alone when absolute; this fails exactly when the config has no parent, with "path <config> has no parent" |
| Render.TemplateConfigPath | tmpl8/src/render.rs:197-208 | the sidecar path exists exactly when the config has a parent and the resolved template path ends in a name; it is then `<stem>.yaml` in the template's own directory; otherwise the error is "path <config> has no parent", or for the resolved path "has no parent" / "has no filename" |
| Render.Sidecar | tmpl8/src/render.rs:198-207 | for a path ending in a name, the sidecar is `<stem>.yaml` in the same directory; otherwise it fails with the "has no parent" or "has no filename" message, whichever applies |
| Render.SidecarOfTemplate | tmpl8/src/render.rs:197-208 | the template `<base>.<ext>` has its sidecar `<base>.yaml` next to it |
| Render.RenderedTemplateNew | tmpl8/src/render.rs:134-149 | fails with the render error, or with "statting <template>"; on success the contents are the clean-up of the output and the file is executable exactly when the template's mode has an execute bit |
| Render.RenderJob | tmpl8/src/render.rs:112-119 | an unknown repo fails with "no such repo"; context errors pass through; a render failure is wrapped in "rendering <file path>"; on success the file is rendered with its layered context |
| Render.TemplateSetup | tmpl8/src/render.rs:108-110 | a template's set-up succeeds exactly when its sidecar path forms, the sidecar parses and its variables convert; each of those errors passes through unwrapped, in that order; on success the template context is the global context extended with the sidecar's variables |
| Render.TemplateJobsSetups | tmpl8/src/render.rs:107-110 | the job list of a run forms exactly when the set-up of every configured template succeeds |
| Outcomes.CollectAllSpec | tmpl8/src/render.rs:99-101 | collecting results succeeds exactly when every element does, then keeps each element's value in place; a failure is the error of an element that failed |
| Render.TemplatePaths | tmpl8/src/render.rs:97-101 | one registered entry per template; this fails exactly when there is a template and the config has no parent, with "path <config> has no parent" |
| Render.TemplatePathsEntries | tmpl8/src/render.rs:97-101 | the registered templates are each name's resolved path paired with the name, in configuration order |
| Render.RenderTemplatesRunsJobs | tmpl8/src/render.rs:107-124 | the per-template loop succeeds only when every set-up does, and is then the accumulation of all templates' file jobs in order |
| Render.DoRenderRunsPlan | tmpl8/src/render.rs:95-126 | `do_render` succeeds only when its plan of jobs forms, and is then the accumulation of that plan into an empty map |
| Render.DoRenderSpec | tmpl8/src/render.rs:95-126 | `do_render` succeeds exactly when the plan forms, every file renders and no two files share an output path; the map is then sorted, has one entry per file, and maps each path to its file's artifact |
| Render.DuplicateOutputFails | tmpl8/src/render.rs:120-122 | two files with the same output path make `do_render` fail |
| Render.DuplicateOutputMessage | tmpl8/src/render.rs:120-122 | the failure names the second file to produce a path already produced |
| Output.WriteArtifact | tmpl8/src/render.rs:151-181 | a write succeeds exactly when the target has a parent, the store works and, for an executable artifact, the stat and the `+x` chmod work; the errors are "getting parent of <target>", the store's own error, "statting file <target>" and "setting <target> executable"; it stores first, then sets the `+x` update of the stat-ed mode only for an executable artifact |
| Output.StoresOfWrite | tmpl8/src/render.rs:151-165 | writing an artifact stores it exactly once, unless its target has no parent |
| Output.SelectedAll | tmpl8/src/render.rs:39-47 | without `--repo`, every rendered entry is written, in map order |
| Output.SelectedUnder | tmpl8/src/render.rs:40-45 | with `--repo`, an entry is written at a path exactly when the repo's components followed by that path is a rendered key with that artifact |
| Output.WriteAllStores | tmpl8/src/render.rs:39-47 | the stores performed are a prefix of the selected entries' placements below the output directory, in order, and all of them on success |
| Output.WriteAllSucceeds | tmpl8/src/render.rs:39-47 | the write loop succeeds exactly when every selected entry can be written at its target below the output directory |
| Output.RenderCmd | tmpl8/src/render.rs:31-49 | an unknown `--repo` fails with "no such repo" before rendering; a render failure writes nothing; every mode set is the `+x` update of the written file's mode |
| Output.RenderCmdSucceeds | tmpl8/src/render.rs:31-49 | `render` succeeds exactly when the `--repo` name is known, rendering succeeds, and every selected entry can be written |
| Output.RenderRepoWrites | tmpl8/src/render.rs:33-47 | a successful `render --repo r` wrote exactly the rendered files under `r`, at their path below `r` joined onto the output directory, in map order |
| Output.RenderAllWrites | tmpl8/src/render.rs:39-47 | a successful `render` without `--repo` wrote every rendered file under the output directory, in map order |
| Cache.RunCommand | tmpl8/src/cache.rs:147-163 | succeeds exactly when the command starts and exits with success; an unsuccessful exit fails with "command failed: '<git args>'"; a start failure is wrapped in "running '<git args>'" |
| Cache.Identity | tmpl8/src/cache.rs:59-68 | without a fork the identity is `DEFAULT`; with one it is the rewritten URL, a space, the branch and a newline |
| Cache.IdentityDistinct | tmpl8/src/cache.rs:59-68 | a fork identity never equals the `DEFAULT` sentinel |
| Cache.NeedsSync | tmpl8/src/cache.rs:72-88 | a present mirror is skipped exactly when its stamp matches the identity, is between 0 and 3599 seconds old, and the pass is not forced; an unreadable stamp fails with "reading <stamp>", and an unstat-able matching stamp fails with "statting <stamp>" |
| Cache.FreshnessWindow | tmpl8/src/cache.rs:78-83 | a matching stamp of age `a` is synced exactly when forced or `a` lies outside `0..3600` |
| Cache.FreshnessExamples | tmpl8/src/cache.rs:78-83 | ages 3599, 3600, -1, and 0 when forced, decide skip, sync, sync and sync |
| Cache.CloneIfMissing | tmpl8/src/cache.rs:41-57 | a present mirror is left alone; a missing one is cloned with depth 1 and its branch renamed to `DEFAULT`, after which it is present |
| Cache.CheckoutDefault | tmpl8/src/cache.rs:117-131 | the fallback checks out `DEFAULT` and then pulls, and only a completed pull reaches the default head |
| Cache.Checkout | tmpl8/src/cache.rs:90-131 | a successful checkout issued its path's commands and reached its path's head: the fetched fork branch, or the default branch |
| Cache.CheckoutHalts | tmpl8/src/cache.rs:90-131 | the checkout stops at its first failing command, treats an unsuccessful fetch as a choice, runs every command in the mirror, and never clones |
| Cache.UpdateCheckout | tmpl8/src/cache.rs:90-135 | a successful sync issued its path's commands, wrote the identity to the stamp with age 0, and checked out its path's head |
| Cache.Refresh | tmpl8/src/cache.rs:70-135 | a present mirror is skipped with no command exactly when its stamp is current and the pass is not forced; otherwise a successful refresh re-stamps it; either way success leaves a current stamp |
| Cache.RefreshHalts | tmpl8/src/cache.rs:70-135 | the commands of a refresh stop at the first failure and all run in the mirror |
| Cache.SyncRepo | tmpl8/src/cache.rs:40-136 | after a successful iteration for a repo, its mirror directory is present |
| Cache.SyncRepoSkips | tmpl8/src/cache.rs:41-83 | a repo is skipped with no command and no change exactly when its mirror is present, its stamp current and the pass unforced |
| Cache.SyncRepoClones | tmpl8/src/cache.rs:41-57 | the first command is a clone exactly when the mirror is missing; the rename follows it; no clone comes later |
| Cache.SyncRepoHalts | tmpl8/src/cache.rs:40-136 | every command but the last was got past, and a last command that failed is the error of the iteration |
| Cache.SyncRepoSyncs | tmpl8/src/cache.rs:41-135 | a sync that ran and succeeded issued the clone commands, then its path's commands, and set only this mirror to the identity stamp with age 0 and its path's head |
| Cache.SyncPathChoice | tmpl8/src/cache.rs:90-131 | the detached `FETCH_HEAD` checkout is issued exactly when the fork branch was fetched; the `DEFAULT` checkout and the pull exactly when it was not; a fetch exactly when a fork is configured |
| Cache.FallbackStampsFork | tmpl8/src/cache.rs:117-135 | when the fork fetch fails, the mirror ends on the default branch, but its stamp records the fork identity, not `DEFAULT` |
| Cache.SyncRepoFrame | tmpl8/src/cache.rs:40-136 | an iteration changes no mirror but its own repo's |
| Cache.SyncRepoCurrent | tmpl8/src/cache.rs:70-135 | after a successful iteration the repo's stamp is current |
| Cache.SyncRepoForced | tmpl8/src/cache.rs:81-83 | a forced iteration that succeeded issued at least the two commands of a checkout |
| Cache.DistinctNamesDistinctMirrors | tmpl8/src/cache.rs:42 | distinct plain repo names give distinct mirror directories |
| Cache.UpdatePassConcat | tmpl8/src/cache.rs:40-137 | the pass over two runs of repos is the first pass followed, if it succeeded, by the second |
| Cache.UpdatePassHalts | tmpl8/src/cache.rs:40-137 | the commands of a whole pass stop at the first failure, which is the pass's error |
| Cache.UpdatePassFrame | tmpl8/src/cache.rs:40-137 | a pass changes no mirror outside its repos' directories |
| Cache.UpdatePassSettles | tmpl8/src/cache.rs:40-137 | after a successful pass over repos with distinct mirrors, every repo's mirror is present with a current stamp |
| Cache.SettledSkips | tmpl8/src/cache.rs:72-83 | an unforced pass over settled repos issues no command and changes nothing |
| Cache.UpdatePassTwice | tmpl8/src/cache.rs:40-137 | an unforced pass right after a successful pass does nothing, whatever git answers |
| Cache.ForcedPassSyncsAll | tmpl8/src/cache.rs:81-83 | a successful forced pass issued at least two commands per repo |
| Cache.CacheDir | tmpl8/src/cache.rs:140-145 | the cache is `.cache` next to the config; this fails exactly when the config has no parent, with "getting parent of <config>" |
| Cache.UpdateCache | tmpl8/src/cache.rs:29-32 | a missing cache directory fails before any command; a successful forced pass checked out every repo and settled every repo with a distinct mirror |
| Diff.Classify | tmpl8/src/render.rs:81-89 | the first two lines are bold; after them `-` is red, `+` green, `@` cyan, and any other line (including an empty one) is plain |
| Diff.DiffLines | tmpl8/src/render.rs:81 | an empty diff has no lines, any other has at least one, and no line holds a newline |
| Diff.DiffLinesRoundTrip | tmpl8/src/render.rs:81 | the lines joined by newlines give back the diff less its trailing newlines |
| Diff.DiffLinesSingleNewline | tmpl8/src/render.rs:81 | a diff ending in exactly one newline is its lines, each followed by a newline |
| Diff.Styled | tmpl8/src/render.rs:60-89 | each line is printed unchanged, in the classifier's style, or plain when colour is off |
| Diff.StyledHeader | tmpl8/src/render.rs:81-89 | with colour on, the first two lines of each file's diff are bold and no later line is |
| Diff.Baseline | tmpl8/src/render.rs:64-73 | a missing copy is diffed as `/dev/null` with empty text; a copy is labelled with the rendered path; any other read failure is wrapped in "reading <cache path>" |
| Diff.DiffCmd | tmpl8/src/render.rs:51-93 | rendering fails first; then the cache directory; then the unforced cache update's commands run; a failure of any stage prints nothing; otherwise the file loop's lines and outcome are the command's |
| Diff.DiffFilesConcat | tmpl8/src/render.rs:63-90 | the loop over two runs of files prints the first run's lines and then, if it got through, the second's |
| Diff.UnchangedPrintsNothing | tmpl8/src/render.rs:78-80 | a file with an empty diff prints nothing |
| Diff.MissingIsNew | tmpl8/src/render.rs:65-77 | a file missing from the mirror is diffed against `/dev/null` and the empty text |
| Diff.AllUnchangedSilent | tmpl8/src/render.rs:63-92 | when every file's diff is empty nothing is printed and the command succeeds |
| Diff.ReadFailureStops | tmpl8/src/render.rs:70-72 | the first unreadable copy stops the loop with "reading <cache path>" over the read error |
| Diff.DiffOnSettledCache | tmpl8/src/render.rs:56-58 | `diff` does not force the update: with every mirror present and current it issues no git command and changes no mirror |
| GitHub.FindFrom | tmpl8/src/github.rs:39 | the search finds the first occurrence of the pattern at or after the start, or reports that there is none |
| GitHub.ReplacePrefix | tmpl8/src/github.rs:38-39 | `replacen(prefix, "", 1)` on a string that starts with the prefix removes exactly the prefix |
| GitHub.Matrix | tmpl8/src/github.rs:32-41 | the matrix has no more entries than there are repos |
| GitHub.MatrixMember | tmpl8/src/github.rs:34-40 | a string is in the matrix exactly when the GitHub prefix followed by it is some repo's URL |
| GitHub.RepoInMatrix | tmpl8/src/github.rs:38-39 | every repo on GitHub appears in the matrix as its URL less the prefix |
| GitHub.MatrixConcat | tmpl8/src/github.rs:34-40 | the matrix keeps the repo order: the matrix of two runs of repos is the concatenation of their matrices |
| GitHub.NonGitHubIgnored | tmpl8/src/github.rs:33-38 | a repo hosted elsewhere contributes nothing, wherever it stands |
| GitHub.MatrixAllGitHub | tmpl8/src/github.rs:34-40 | when every repo is on GitHub, the matrix is their URLs less the prefix, one per repo, in repo order |

## Left out

- Reading and parsing YAML (`Parseable::parse`, serde defaults, `deny_unknown_fields`) is left out. The parsed `Config` is an input, and sidecar configs come from the engine's `parseTemplateConfig`.
- The Tera engine, `Vars::to_context`, the `similar` unified-diff algorithm and the regex engine are not modelled. They are function-valued engine fields. The two regex passes are defined directly (`Cleanup`), as the leftmost-greedy replacement they perform.
- The file system and git are not modelled; `Output.Fs`, `Cache.Host` and `Diff.DiffHost` stand in. The model does not cover:
  - `create_dir_all`, `remove_file` and `write` are one `store` step, which reports its own errors;
  - the mirror state after a failed command (a failed clone is not recorded as present);
  - git's own effect on the work tree.
- The clock is not modelled. A stamp's age in seconds is an input, and a stamp written during a pass has age 0.
- Cache.NeedsSync: the age is an unbounded integer. The `i64` subtraction of two timestamps cannot overflow for real clocks, so its wrap-around is not modelled.
- Stamp contents are compared as strings, not byte vectors.
- The fork options (`--fork-regex`, `--fork-replacement`, `--fork-branch`) are all-or-nothing (`Cache.ForkArgs`). A regex without a branch or a replacement panics at the `unwrap`s, and that panic is not modelled. The regex rewrite itself is a function field.
- Every path the model prints is printed in its canonical component form (`Paths.Display`). This covers:
  - the rendered keys in diff labels;
  - the output targets in write messages;
  - the template and sidecar paths;
  - the cache, mirror and stamp paths.

  The program prints the raw buffer (`to_string_lossy` or `display`), which can differ in redundant separators or `.` components: for repo `r` and file path `a//b.txt` the program prints `r/a//b.txt` and the model `r/a/b.txt`. Messages naming a `File::path()` (`rendering …`, `multiple attempts to write to …`) and the config path keep the raw text.
- The `stderr` helper (`dup` of file descriptor 2) and the redirection of git's output are left out. The failure of that `dup` is not modelled.
- Terminal colour is modelled as a style per printed line. `yansi::disable` is global state, modelled by painting every line plain. `println!` is the list of printed lines.
- `get_matrix`'s JSON output (`serde_json`, `--pretty`) is left out. The matrix is the list of strings it serialises.
- `main.rs` (argument parsing and dispatch) is not part of this model.
- The renderer's `fs::metadata(template)` stats the template by its name as given, relative to the process's working directory, not the resolved template path. The model follows the code: `Engine.templateMode` is queried with the name.
- The fork fallback writes the fork identity to the stamp, even though the mirror is on the default branch. The model follows the code (`Cache.FallbackStampsFork`).
- A `run_command` failure message names the program and its arguments only, not the working directory. The model follows the code (`Cache.RunCommand`).
