# Autobuilder scaffolder, store and API — a Dafny model

Autobuilder generates a project from a template directory. `TemplateRenderer`
walks the template tree. It renders every segment of each entry's relative
path as a Jinja template against a variable map. It creates a directory for
each directory entry. For each file entry it creates the parent directory,
renders the file's content, removes a trailing `.j2` from the file name and
writes the result. Variables are strict: an unbound name is an error. A
missing template directory is an error reported before anything is written.
Around the renderer sit an in-memory store of catalog items, bundles and
deployments, and a small HTTP API. The API sanitises a project name into the
template variables and refuses deployments of unknown bundles.

The model is split into modules:

- `Results` (`results.dfy`): `Option`, `Result` and `Outcome` (pass or fail with an error).
- `Paths` (`paths.dfy`): pathlib's path joining, `.suffix` and the `.j2` stripping.
- `Templating` (`templating.dfy`): the `{{ name }}` placeholder language, its
  strict and lenient undefined-variable policies and the environment settings.
  Line breaks are normalised to `\n` when a template is compiled, as Jinja's
  lexer does.
- `FileSystems` (`filesystem.dfy`): the output filesystem. It is a map from
  paths (sequences of names) to directories or file contents. It has
  `mkdir(parents=True, exist_ok=True)` and `write_text` as functions, and a
  `FileSystem` class whose methods update the map in place. A path is looked
  up one component at a time from the root, as the operating system does:
  the first component that is a file gives NotADirectoryError and the first
  missing one FileNotFoundError, both reported for the requested path
  (`Reach`). A real directory tree is well formed (every entry hangs below a
  directory), and the methods that change it keep and require that.
- `Renderer` (`renderer.dfy`): the specification of a scaffold run and
  `TemplateRenderer`. The run is specified as a fold of per-entry steps over
  the walk. `TemplateRenderer.Scaffold` is a loop over the walk, proved equal
  to that fold.
- `Store` (`store.dfy`): `InMemoryStore`. Each Python dict is a `map` together
  with its keys in insertion order.
- `Api` (`api.dfy`): the endpoints of `autoappbuilder/api/app.py`, with
  requests already parsed into their fields.

A scaffold run stops at the first failing entry and does not roll back.
Directories and files written by earlier entries stay, and a file's parent
directory is created before its content is rendered (`FailureIsSticky`,
`EarlierOutputSurvives`, `ParentMadeBeforeContentRendered`). A run that
succeeds can be repeated on its own output and gives the same filesystem
(`ScaffoldIsRepeatable`).

Path rendering follows pathlib. Rendered segments are joined with `/`, so a
value containing `/` adds components, an empty value disappears, and a value
starting with `/` discards the output directory (`AbsolutePartLeavesOutDir`).
A value `..` (or `d/..`) is a second way out: the operating system resolves
it, so the entry lands above the output directory or on another entry's
file. The model keeps `..` as a name and does not follow it (see "Left
out"). The API's name sanitiser only replaces `-` and spaces, so a project
name keeps its leading `/`, and names such as `/etc`, `..` or `d/..` reach
the template variables unchanged (`PathLikeNamesSurvive`). The segment count is preserved when
every rendered segment is a plain name (`DestinationOfPlainParts`).

Templates are read in two ways. The walk starts at
`templates_root / template_name`, where an absolute name replaces the
templates root. Jinja's loader reads each file below `templates_root` under
the name `template_name/rel`: it drops empty pieces (so a leading `/` is
ignored), refuses a `..` piece, and fails with TemplateNotFound when no file
is there (`JobFor`, `Load`). For a relative name without `..` both start at
the same directory (`LoaderReadsWalkedEntry`). An absolute name walks one
tree and loads from another (`AbsoluteNameLoadsElsewhere`). A name with a
`..` piece loads nothing (`ParentPieceRefused`).

Further details of the code that the model follows:

- The marker is `.j2`, recognised through pathlib's `suffix`, so a file named just
  `.j2` keeps its name.
- The walk order is whatever `rglob` yields. Here it is the parameter `walk`,
  which lists every entry of the template tree at least once; the proofs do
  not need the entries to be distinct.
- Name sanitisation is part of the API layer (`Api.Sanitize`).

## Model

| member | source | states |
|---|---|---|
| Paths.Parent | autoappbuilder/generator/renderer.py:39 | the parent of a nonempty path is a prefix one component shorter |
| Paths.JoinParts | autoappbuilder/generator/renderer.py:30 | `Path(*parts)` is absolute exactly when one of the parts starts with `/` |
| Paths.Destination | autoappbuilder/generator/renderer.py:31 | `out_dir / rendered_rel` lies below `out_dir` unless one of the rendered parts is absolute |
| Paths.PlainSegmentComponents | autoappbuilder/generator/renderer.py:17 | a plain template name is exactly one path component below the templates root |
| Paths.JoinPlainParts | autoappbuilder/generator/renderer.py:30 | `Path(*parts)` of plain names is the relative path of those names in order |
| Paths.DestinationOfPlainParts | autoappbuilder/generator/renderer.py:30-31 | with plain rendered names the destination is `out_dir` followed by the names in order, one component per segment |
| Paths.AbsolutePartLeavesOutDir | autoappbuilder/generator/renderer.py:30-31 | for any `out_dir` and parts, a part starting with `/` makes the join absolute and discards `out_dir` and every earlier part |
| Paths.LastDot | autoappbuilder/generator/renderer.py:42 | finds the last `.` of a name, or reports that there is none |
| Paths.Suffix | autoappbuilder/generator/renderer.py:42 | the suffix is empty or a proper ending of the name that starts with its last dot and has a character after it; a dot inside the name always yields one |
| Paths.MarkerSuffixIff | autoappbuilder/generator/renderer.py:42 | pathlib's suffix is `.j2` exactly when the name ends in `.j2` with something before it |
| Paths.StripMarker | autoappbuilder/generator/renderer.py:41-43 | exactly one `.j2` is removed from the last name; the parent and the component count are kept, and a name without the marker is unchanged |
| Paths.StripMarkerExamples | autoappbuilder/generator/renderer.py:41-43 | `a.txt.j2` becomes `a.txt`, `a.j2.j2` becomes `a.j2`, while `a.txt` and `.j2` are kept |
| Templating.FindClose | autoappbuilder/generator/renderer.py:29 | finds the first `}}` at or after a position, or reports that there is none |
| Templating.Compile | autoappbuilder/generator/renderer.py:38 | loading a template can fail only with a syntax error; text without carriage returns is lexed unchanged when trailing newlines are kept |
| Templating.Render | autoappbuilder/generator/renderer.py:29 | `from_string(s).render(**ctx)` fails only with a syntax error, or under the strict policy with an unbound name |
| Templating.StrictEvalIff | autoappbuilder/generator/renderer.py:11 | strict rendering succeeds exactly when every referenced variable is bound; otherwise it fails with an unbound referenced name |
| Templating.StrictRenderIff | autoappbuilder/generator/renderer.py:11 | with StrictUndefined a template renders exactly when it compiles and binds all its variables; once compiled, a failure names an unbound variable |
| Templating.LenientEvalSucceeds | autoappbuilder/generator/renderer.py:11 | without StrictUndefined evaluation never fails, which is what the strict setting changes |
| Templating.StrictnessMatters | autoappbuilder/generator/renderer.py:11 | an unbound placeholder prints empty under Jinja's default and is an error under the renderer's setting |
| Templating.EvalReadsOnlyVars | autoappbuilder/generator/renderer.py:29 | the rendering depends only on the variables the template refers to |
| Templating.EvalAppend | autoappbuilder/generator/renderer.py:45 | rendering a concatenation concatenates the renderings, and the first failure wins |
| Templating.LexPlainText | autoappbuilder/generator/renderer.py:29 | text without `{{` lexes to its own characters, one literal each |
| Templating.PlainTextRendersToItself | autoappbuilder/generator/renderer.py:12 | with keep_trailing_newline, text without `{{` and without carriage returns renders to itself, trailing newline included |
| Templating.RenderKeepsAppendedText | autoappbuilder/generator/renderer.py:12 | text without `{` or carriage returns appended to a template, such as a final newline, is kept in the output unless it completes a `\r\n` |
| Templating.PlaceholderRender | autoappbuilder/generator/renderer.py:11-13 | `{{ n }}` prints the bound value unescaped; an unbound name is an error under the strict policy and empty otherwise |
| FileSystems.Reach | autoappbuilder/generator/renderer.py:34 | the operating system's lookup reaches a path exactly when every prefix is a directory; it stops at a file with ENOTDIR and at a missing entry with ENOENT |
| FileSystems.AfterMakeDirs | autoappbuilder/generator/renderer.py:34 | on success every prefix of the path is a directory, old entries are kept and only directories on the path are added; failure means a file is in the way |
| FileSystems.MakeDirsSucceedsIff | autoappbuilder/generator/renderer.py:34 | `mkdir(parents=True, exist_ok=True)` succeeds exactly when no prefix of the path is a file |
| FileSystems.MakeDirsKeepsWellFormed | autoappbuilder/generator/renderer.py:34 | making directories keeps every entry's parent a directory |
| FileSystems.MakeDirsOverlay | autoappbuilder/generator/renderer.py:34 | a successful mkdir adds a directory for each prefix of the path and nothing else |
| FileSystems.MakeDirsErrorNamesPath | autoappbuilder/generator/renderer.py:34 | on a well-formed tree a failing mkdir reports the requested path: FileExistsError when it is a file, NotADirectoryError when a file is on the way |
| FileSystems.MakeDirsNoop | autoappbuilder/generator/renderer.py:34 | where every prefix of the path is already a directory, mkdir succeeds and changes nothing |
| FileSystems.MakeDirsIdempotent | autoappbuilder/generator/renderer.py:33-35 | making the same directories again succeeds and changes nothing |
| FileSystems.AfterWriteText | autoappbuilder/generator/renderer.py:45 | a write succeeds exactly when every ancestor is a directory and the target is not; the target then holds the text, overwriting a file, and nothing else changes |
| FileSystems.WriteSucceedsIff | autoappbuilder/generator/renderer.py:45 | on a well-formed tree a write succeeds exactly when the parent is a directory and the target is not |
| FileSystems.WriteErrorNamesPath | autoappbuilder/generator/renderer.py:45 | on a well-formed tree a failing write reports the requested path: NotADirectoryError for a file on the way, FileNotFoundError for a missing parent, IsADirectoryError for a directory |
| FileSystems.FileOnTheWay | autoappbuilder/generator/renderer.py:39-45 | with a file `a`, both `mkdir` and `write_text` of `a/b/c` fail with NotADirectoryError for `a/b/c` |
| FileSystems.WriteKeepsWellFormed | autoappbuilder/generator/renderer.py:45 | writing a file keeps every entry's parent a directory |
| FileSystems.FileSystem.MakeDirs | autoappbuilder/generator/renderer.py:34 | tries `os.mkdir` and makes the parent first when a directory on the way is missing, on a well-formed tree, with the new state or error of `AfterMakeDirs`; the tree stays well formed |
| FileSystems.FileSystem.WriteText | autoappbuilder/generator/renderer.py:45 | writes in place, with the new state or error of `AfterWriteText` |
| Renderer.JobFor | autoappbuilder/generator/renderer.py:17 | the walk starts at `templates_root / template_name`: below the templates root for a relative name, at the name itself for an absolute one |
| Renderer.Load | autoappbuilder/generator/renderer.py:38 | `get_template` fails with TemplateNotFound exactly when the name has a `..` piece or no file lies there below the templates root |
| Renderer.LoaderReadsWalkedEntry | autoappbuilder/generator/renderer.py:17-38 | for a relative name without `..` the loader reads the very file the walk found |
| Renderer.AbsoluteNameLoadsElsewhere | autoappbuilder/generator/renderer.py:17-38 | for an absolute name the walk starts at the name itself while the loader reads below the templates root, a different path |
| Renderer.ParentPieceRefused | autoappbuilder/generator/renderer.py:38 | a template name with a `..` piece makes every file load fail with TemplateNotFound |
| Renderer.RenderParts | autoappbuilder/generator/renderer.py:27-29 | a rendered path has one name per segment |
| Renderer.RenderPartsMeaning | autoappbuilder/generator/renderer.py:27-29 | path rendering succeeds exactly when each segment renders alone; it keeps count and order, and otherwise reports the first failing segment |
| Renderer.RenderPartsFailureSticks | autoappbuilder/generator/renderer.py:28-29 | once a segment fails, later segments do not change the result |
| Renderer.PlainPathRendersToItself | autoappbuilder/generator/renderer.py:27-29 | a relative path with no placeholders renders to itself |
| Renderer.PassingStepPlan | autoappbuilder/generator/renderer.py:33-45 | a successful entry made its destination directory, or rendered the template the loader found under the unrendered name and wrote it to the marker-stripped destination after making the parent |
| Renderer.StepKeepsKinds | autoappbuilder/generator/renderer.py:33-45 | an entry never removes a path or turns a directory into a file, and keeps the filesystem well formed |
| Renderer.FailedStepOnlyAddsDirectories | autoappbuilder/generator/renderer.py:33-45 | a failing entry leaves existing entries alone and may only have added directories |
| Renderer.ParentMadeBeforeContentRendered | autoappbuilder/generator/renderer.py:38-45 | content that refers to an unbound variable fails the entry after its parent directory has already been created |
| Renderer.StepsKeepKinds | autoappbuilder/generator/renderer.py:23-45 | the whole walk only adds to the filesystem and keeps it well formed |
| Renderer.EarlierOutputSurvives | autoappbuilder/generator/renderer.py:23-45 | whatever the first entries created is still there, of the same kind, after the rest of the walk |
| Renderer.FailureIsSticky | autoappbuilder/generator/renderer.py:23 | after the first failing entry the run is over: its filesystem and error are final |
| Renderer.EachStepOfPassingRun | autoappbuilder/generator/renderer.py:23 | in a successful run every prefix of the walk succeeds and each entry succeeds in the state its predecessors left |
| Renderer.NextStep | autoappbuilder/generator/renderer.py:23 | while no entry has failed, handling one more entry of the walk is one more step |
| Renderer.PassingRunBindsEveryVariable | autoappbuilder/generator/renderer.py:29 | a successful strict run means every segment and every file content of the walk had all its variables bound |
| Renderer.ScaffoldComplete | autoappbuilder/generator/renderer.py:23-45 | after a successful run every directory entry's destination is a directory and every file entry's target is a file |
| Renderer.PassingStepChangesOnlyItsTarget | autoappbuilder/generator/renderer.py:41-45 | a successful entry changes no existing path other than its own file target |
| Renderer.UntargetedEntrySurvives | autoappbuilder/generator/renderer.py:23-45 | an entry no later file targets keeps its value to the end of the walk |
| Renderer.LastWriterWins | autoappbuilder/generator/renderer.py:38-45 | a file that no later entry overwrites holds exactly its own rendered template at the end |
| Renderer.PassingFileStepWrites | autoappbuilder/generator/renderer.py:38-45 | a file entry that succeeds leaves its rendered template, loaded under the unrendered name, at its target |
| Renderer.StepMonotone | autoappbuilder/generator/renderer.py:33-45 | an entry that succeeded also succeeds on any filesystem extending its result |
| Renderer.StepOverlay | autoappbuilder/generator/renderer.py:33-45 | a successful entry overlays its directories and file on the filesystem |
| Renderer.StepsOverlay | autoappbuilder/generator/renderer.py:23-45 | a successful run overlays the combined effect of its entries on the filesystem |
| Renderer.SecondRunPasses | autoappbuilder/generator/renderer.py:23-45 | running the walk again on the output of a successful run succeeds |
| Renderer.ScaffoldIsRepeatable | autoappbuilder/generator/renderer.py:16-45 | scaffolding again into the output of a successful scaffold succeeds and leaves the same filesystem |
| Renderer.StepsRepeatable | autoappbuilder/generator/renderer.py:23-45 | walking again over the output of a successful walk succeeds and leaves the same filesystem |
| Renderer.ReadmeNamesPlain | autoappbuilder/generator/renderer.py:28-29 | `README.md` and `README.md.j2` are plain names without placeholders |
| Renderer.ReadmeNames | autoappbuilder/generator/renderer.py:41-43 | `README.md` and `README.md.j2` both end up as `README.md` once the marker is stripped |
| Renderer.PlainFileTarget | autoappbuilder/generator/renderer.py:30-43 | a file whose path has no placeholders is written under the same relative path, marker stripped |
| Renderer.PlainFileScaffolded | autoappbuilder/generator/renderer.py:23-45 | after a successful scaffold a file entry whose path has no placeholders is a file at the same place under the output directory, marker stripped |
| Renderer.ReadmeScaffolded | tests/test_generator.py:8-9 | a top-level `README.md` or `README.md.j2` template yields `out/README.md` after a successful scaffold |
| Renderer.TemplateRenderer.constructor | autoappbuilder/generator/renderer.py:7-14 | the renderer keeps its templates root and uses strict undefined variables with trailing newlines kept |
| Renderer.TemplateRenderer.RenderPath | autoappbuilder/generator/renderer.py:27-29 | the list built segment by segment is the segment-wise rendering, or its first error |
| Renderer.TemplateRenderer.ScaffoldEntry | autoappbuilder/generator/renderer.py:24-45 | one loop iteration changes the filesystem and reports exactly as the specified step does |
| Renderer.TemplateRenderer.ScaffoldWalk | autoappbuilder/generator/renderer.py:23-45 | the loop handles entries in walk order until one fails, with exactly the filesystem and outcome of the specified run |
| Renderer.TemplateRenderer.Scaffold | autoappbuilder/generator/renderer.py:16-45 | on a well-formed output tree the loop yields the specified run of the job for the template name; a missing template directory fails with the FileNotFoundError (TemplateDirMissing) and leaves the filesystem untouched |
| Store.Values | autoappbuilder/utils/store.py:22 | `list(d.values())` has one entry per key of the key order |
| Store.ValuesAt | autoappbuilder/utils/store.py:22 | each position of the listing holds the value of the key at that position |
| Store.RecordKeepsOrder | autoappbuilder/utils/store.py:18 | `d[k] = v` keeps a valid key order; a new key's value comes last, an existing key's value is replaced in place |
| Store.RecordKeepsKeyed | autoappbuilder/utils/store.py:17-18 | storing a record under its own id keeps every record under its own id, and a new record is listed last |
| Store.ListedIdsAreKeys | autoappbuilder/api/app.py:41 | when records sit under their own ids, the ids of the listing are exactly the keys |
| Store.OrderLength | autoappbuilder/utils/store.py:22 | the listing has as many entries as the dict has keys |
| Store.InMemoryStore.constructor | autoappbuilder/utils/store.py:5-10 | a fresh store has the single `tmpl-python-basic` catalog item and no bundles or deployments |
| Store.InMemoryStore.ListCatalog | autoappbuilder/utils/store.py:12-13 | returns the catalog as stored |
| Store.InMemoryStore.CreateBundle | autoappbuilder/utils/store.py:15-19 | stores and returns `{id, name, meta or {}}` under its id; a new id is listed last; only the bundles change |
| Store.InMemoryStore.ListBundles | autoappbuilder/utils/store.py:21-22 | lists every stored bundle once, in insertion order, with ids equal to the keys |
| Store.InMemoryStore.CreateDeployment | autoappbuilder/utils/store.py:24-28 | stores and returns `{id, bundle_id, target, "created"}` without checking the bundle; only the deployments change |
| Store.InMemoryStore.ListDeployments | autoappbuilder/utils/store.py:30-31 | lists every stored deployment once, in insertion order, with ids equal to the keys |
| Api.Replace | autoappbuilder/api/app.py:50 | `str.replace` of one character changes exactly the occurrences of that character and keeps the length |
| Api.ReplaceRemoves | autoappbuilder/api/app.py:50 | after the replacement the character is gone and no other character appears or disappears |
| Api.Sanitize | autoappbuilder/api/app.py:50 | every `-` and space becomes `_` and every other character and the length are kept |
| Api.SanitizeIdempotent | autoappbuilder/api/app.py:50 | sanitising a sanitised name changes nothing |
| Api.CleanNameUnchanged | autoappbuilder/api/app.py:50 | a name without `-` or spaces is unchanged |
| Api.PathLikeNamesSurvive | autoappbuilder/api/app.py:50 | the names `..`, `d/..` and `/etc` pass the sanitiser unchanged |
| Api.SanitizedIsIdentifier | autoappbuilder/api/app.py:50-51 | a name of letters, digits, `_`, `-` and spaces, not starting with a digit, becomes an identifier |
| Api.ScaffoldPlaceholders | autoappbuilder/api/app.py:51 | the context binds exactly `project_name` and `package_name` to the sanitised name; any other placeholder is unbound in the model |
| Api.BundleAddedKeepsReferences | autoappbuilder/api/app.py:31-33 | adding a bundle keeps every deployment's bundle present |
| Api.DeploymentAddedKeepsReferences | autoappbuilder/api/app.py:41-43 | recording a deployment of an existing bundle keeps every deployment's bundle present |
| Api.Catalog | autoappbuilder/api/app.py:23-25 | `GET /catalog` returns the store's catalog as its items |
| Api.ListBundles | autoappbuilder/api/app.py:27-29 | `GET /bundles` returns the store's bundle listing |
| Api.CreateBundle | autoappbuilder/api/app.py:31-33 | `POST /bundles` stores the bundle and keeps every deployment pointing at an existing bundle |
| Api.ListDeployments | autoappbuilder/api/app.py:35-37 | `GET /deployments` returns the store's deployment listing |
| Api.CreateDeployment | autoappbuilder/api/app.py:39-43 | an unknown bundle id gives 404 "bundle not found" and adds nothing; a known one records and returns a "created" deployment; every deployment keeps referring to an existing bundle |
| Api.Scaffold | autoappbuilder/api/app.py:45-53 | on a well-formed output tree, scaffolds the requested template, `python_basic` by default (`TemplateOf`), unchecked, with the sanitised name in both variables (`ScaffoldContext`); it answers `ok` with the output directory, or fails with the renderer's error |

## Left out

- Jinja beyond variable lookup is not modelled: blocks, comments, filters, attribute access and whitespace control. `{%` and `{#` are treated as plain text. A `{{ }}` must hold a bare identifier, and anything else inside it is a syntax error. `true`, `false`, `none` and their capitalised forms are Jinja constants (`{{ none }}` prints `None`); here they are variable names looked up in the context. `{{ not }}` and the other keywords are syntax errors in Jinja and variable names here. Jinja accepts non-ASCII identifiers; `IsName` accepts ASCII letters, digits and `_` only. The context is `Dict[str, Any]` and Jinja prints `str(value)`; here every value is already a string. Jinja binds its default globals (`range`, `dict`, `lipsum`, `cycler`, `joiner`, `namespace`) and `self` in every template, so under StrictUndefined `{{ range }}` prints the object's text and does not fail; the model has no globals, and these names are unbound unless the context binds them. Line-break normalisation is modelled; Jinja's template cache is not.
- Autoescaping is not modelled as an option. Values are inserted verbatim, which is what `autoescape=False` gives.
- The template tree is a separate, read-only snapshot of the filesystem. An output directory inside the templates directory (or the other way round) is not modelled.
- The order of `rglob` is a parameter, and the model does not compute it. Symbolic links, `resolve()` and the `//` root are not modelled. A `..` in the walked directory is kept as a name and not resolved against the parent; the loader's refusal of `..` is modelled.
- The output filesystem does not resolve `.` and `..`: the map keeps them as ordinary names, while the operating system follows them. `mkdir` of `out/d/..` makes `out/d` and nothing named `..`, a rendered `..` leads above the output directory, and two paths that differ only by a `d/..` name the same file. A name that marker stripping turns into `.` or `..` (`..j2`, `...j2`) makes `write_text` fail in Python, while the model writes a file of that name.
- Paths.Destination: "below `out_dir`" holds for the path as written. A rendered part `..` keeps `outDir` as a prefix of the destination while the file lands outside it, because `..` is not resolved.
- Renderer.PassingStepChangesOnlyItsTarget: "other than its own target" compares paths as written, so an entry reached through `d/..` counts as untouched although it is the same file as the target.
- Renderer.UntargetedEntrySurvives: a later write counts as targeting an entry only when the paths are equal as written; a later write to the same file through `..` is not seen.
- Renderer.LastWriterWins: "no later entry writes to the same destination" compares paths as written; a later write that reaches the same file through `..` would overwrite it.
- The loader's TemplateNotFound carries the name's pieces rather than the name as a string.
- Real filesystem failures other than the kind clashes modelled (permissions, disk full, races with other processes) are not modelled. Neither is UTF-8 encoding of the written text.
- `uuid4` is replaced by an id supplied by the caller. Because a repeated id is allowed, the model also covers the overwrite that a uuid collision would cause.
- Bundle metadata is the sequence of the JSON object's entries in their order, with string values. The source accepts any JSON value, and the model does not enforce unique keys.
- `list_catalog` returns the store's own list object, so a caller could change it. That aliasing is not modelled.
- Api.Scaffold: the response's `out` is the output path itself, not its string form. The request's `out` is taken as already resolved, because `resolve()` depends on the process's working directory.
- Api.Scaffold: the templates root is a parameter. The source derives it from the location of the module file.
- FastAPI and pydantic request parsing, HTTP status codes other than the 404, the module-level `db` global, and the CLI front end `autoappbuilder/generator/cli.py` are not modelled.
