/**
 * `TemplateRenderer.scaffold`: walk a template tree and materialise each
 * entry under the output directory.  `Step` is what one entry does to the
 * filesystem, `Steps` the walk with fail-fast propagation, `ScaffoldRun`
 * the whole call; the class at the end runs them imperatively.
 */
module Renderer {
  import opened Results
  import opened Paths
  import opened Templating
  import opened FileSystems

  datatype ScaffoldError =
    | TemplateDirMissing(name: string)   // the FileNotFoundError raised before the walk
    | TemplateNotFound(template: Path)   // the template loader has no file under that name
    | RenderFailed(renderError: RenderError)
    | IoFailed(ioError: FsError)

  /** The environment the renderer builds: strict undefined names, trailing newlines kept, no escaping. */
  const RendererEnvironment := Environment(Strict, true)

  /**
   * What one scaffold call works with: the environment, the tree the
   * templates are read from, the directory the walk starts at, the loader's
   * search path and the template name's pieces it puts in front of every
   * entry, the output directory and the variables.
   */
  datatype Job = Job(env: Environment, templates: Fs, root: Path, searchPath: Path, prefix: Path,
                     outDir: Path, ctx: Context)

  /**
   * The job of `scaffold(template_name, out_dir, context)` on a renderer over
   * `templatesRoot`.  The walk starts at `templates_root / template_name`,
   * which an absolute name replaces; the loader looks templates up below
   * `templates_root` under `template_name/rel`.  For a relative name both
   * views start at the same directory.
   */
  function JobFor(env: Environment, templates: Fs, templatesRoot: Path, templateName: string,
                  outDir: Path, ctx: Context): (job: Job)
    ensures !IsAbsolute(templateName) ==> job.root == job.searchPath + job.prefix
    ensures IsAbsolute(templateName) ==> job.root == job.prefix
    ensures job.searchPath == templatesRoot
  {
    assert [templateName][..0] == [];
    assert [] + Components(templateName) == Components(templateName);
    assert JoinParts([templateName]) == Joined(IsAbsolute(templateName), Components(templateName));
    Job(env, templates, Destination(templatesRoot, [templateName]), templatesRoot, Components(templateName),
        outDir, ctx)
  }

  /**
   * `env.get_template(str(Path(template_name) / rel))` through a
   * `FileSystemLoader` over the search path: the name is split at '/',
   * empty and "." pieces are dropped, a ".." piece is refused, and the
   * pieces must name a file below the search path.
   */
  function Load(job: Job, rel: Path): (r: Result<string, ScaffoldError>)
    ensures r.Failure? <==> ".." in job.prefix + rel || !IsFile(job.templates, job.searchPath + job.prefix + rel)
    ensures r.Failure? ==> r.error == TemplateNotFound(job.prefix + rel)
  {
    var name := job.prefix + rel;
    assert job.searchPath + name == job.searchPath + job.prefix + rel;
    if ".." in name || !IsFile(job.templates, job.searchPath + name) then Failure(TemplateNotFound(name))
    else Success(job.templates[job.searchPath + name].content)
  }

  /**
   * For a relative template name without ".." the loader reads exactly the
   * entry the walk found.
   */
  lemma LoaderReadsWalkedEntry(env: Environment, templates: Fs, templatesRoot: Path, templateName: string,
                               outDir: Path, ctx: Context, rel: Path)
    requires !IsAbsolute(templateName) && ".." !in Components(templateName) + rel
    requires IsFile(templates, Destination(templatesRoot, [templateName]) + rel)
    ensures var job := JobFor(env, templates, templatesRoot, templateName, outDir, ctx);
      Load(job, rel) == Success(templates[job.root + rel].content)
  {
    var job := JobFor(env, templates, templatesRoot, templateName, outDir, ctx);
    assert job.searchPath + job.prefix + rel == job.root + rel;
    assert ".." !in job.prefix + rel;
    assert job.templates == templates && job.root == Destination(templatesRoot, [templateName]);
    var name := job.prefix + rel;
    assert job.searchPath + name == job.root + rel;
    assert Load(job, rel) == Success(templates[job.searchPath + name].content);
  }

  /**
   * An absolute template name is walked at its own place, outside the
   * templates root, while the loader still reads below the templates root:
   * the file it loads is not the entry that was walked.
   */
  lemma AbsoluteNameLoadsElsewhere(env: Environment, templates: Fs, templatesRoot: Path, templateName: string,
                                   outDir: Path, ctx: Context, rel: Path)
    requires IsAbsolute(templateName) && templatesRoot != []
    ensures var job := JobFor(env, templates, templatesRoot, templateName, outDir, ctx);
      && job.root == Components(templateName)
      && job.searchPath + job.prefix + rel != job.root + rel
  {
    var job := JobFor(env, templates, templatesRoot, templateName, outDir, ctx);
    assert |job.searchPath + job.prefix + rel| > |job.root + rel|;
  }

  /** A template name with a ".." piece has no template the loader will load. */
  lemma ParentPieceRefused(job: Job, rel: Path)
    requires ".." in job.prefix
    ensures Load(job, rel) == Failure(TemplateNotFound(job.prefix + rel))
  {
    assert ".." in job.prefix + rel;
  }

  /** The filesystem after some entries, and whether an error stopped the walk. */
  datatype Run = Run(fs: Fs, outcome: Outcome<ScaffoldError>)

  /**
   * Each name of a relative path rendered on its own, stopping at the first
   * failure; a success has one rendered name per segment.
   */
  function RenderParts(env: Environment, rel: Path, ctx: Context): (r: Result<seq<string>, RenderError>)
    ensures r.Success? ==> |r.value| == |rel|
  {
    if |rel| == 0 then Success([])
    else
      match RenderParts(env, rel[..|rel| - 1], ctx)
      case Failure(e) => Failure(e)
      case Success(done) =>
        match Render(env, rel[|rel| - 1], ctx)
        case Failure(e) => Failure(e)
        case Success(s) => Success(done + [s])
  }

  /**
   * Path rendering is segment-wise: it succeeds when every segment renders,
   * keeps the number and order of the segments, and otherwise reports the
   * error of the first segment that fails.
   */
  lemma {:induction false} RenderPartsMeaning(env: Environment, rel: Path, ctx: Context)
    ensures RenderParts(env, rel, ctx).Success? <==> forall i :: 0 <= i < |rel| ==> Render(env, rel[i], ctx).Success?
    ensures RenderParts(env, rel, ctx).Success? ==>
      |RenderParts(env, rel, ctx).value| == |rel| &&
      forall i :: 0 <= i < |rel| ==> RenderParts(env, rel, ctx).value[i] == Render(env, rel[i], ctx).value
    ensures RenderParts(env, rel, ctx).Failure? ==>
      exists i :: 0 <= i < |rel| && Render(env, rel[i], ctx) == Failure(RenderParts(env, rel, ctx).error) &&
        forall k :: 0 <= k < i ==> Render(env, rel[k], ctx).Success?
  {
    if |rel| > 0 {
      var init := rel[..|rel| - 1];
      RenderPartsMeaning(env, init, ctx);
      assert forall i :: 0 <= i < |init| ==> init[i] == rel[i];
      match RenderParts(env, init, ctx)
      case Failure(e) =>
        var i :| 0 <= i < |init| && Render(env, init[i], ctx) == Failure(e) &&
          forall k :: 0 <= k < i ==> Render(env, init[k], ctx).Success?;
        assert Render(env, rel[i], ctx) == Failure(e);
      case Success(done) =>
    }
  }

  lemma {:induction false} RenderPartsFailureSticks(env: Environment, rel: Path, ctx: Context, i: nat)
    requires i <= |rel| && RenderParts(env, rel[..i], ctx).Failure?
    ensures RenderParts(env, rel, ctx) == RenderParts(env, rel[..i], ctx)
    decreases |rel|
  {
    if i < |rel| {
      var init := rel[..|rel| - 1];
      assert init[..i] == rel[..i];
      RenderPartsFailureSticks(env, init, ctx, i);
    } else {
      assert rel[..i] == rel;
    }
  }

  /** Every listed entry lies in the template tree. */
  predicate InTree(job: Job, walk: seq<Path>) {
    forall i :: 0 <= i < |walk| ==> job.root + walk[i] in job.templates
  }

  /**
   * `root.rglob("*")` as relative paths: every listed path is a proper
   * descendant of the root, and every descendant is listed.
   */
  predicate IsWalk(templates: Fs, root: Path, walk: seq<Path>) {
    && (forall i :: 0 <= i < |walk| ==> walk[i] != [] && root + walk[i] in templates)
    && (forall p :: p in templates && |p| > |root| && p[..|root|] == root ==> p[|root|..] in walk)
  }

  /**
   * One entry of the walk.  Its path is rendered segment by segment and
   * joined under the output directory.  A directory is made with its
   * parents.  A file's template is loaded by its unrendered name (a missing
   * template and syntax errors surface here), its parent directory is made,
   * the marker is stripped from the destination, the content is rendered
   * (undefined names surface here, after the parent exists) and written.
   */
  function Step(job: Job, fs: Fs, rel: Path): Run
    requires job.root + rel in job.templates
  {
    match RenderParts(job.env, rel, job.ctx)
    case Failure(e) => Run(fs, Fail(RenderFailed(e)))
    case Success(parts) =>
      var dst := Destination(job.outDir, parts);
      match job.templates[job.root + rel]
      case Directory =>
        (match AfterMakeDirs(fs, dst)
         case Failure(e) => Run(fs, Fail(IoFailed(e)))
         case Success(made) => Run(made, Pass))
      case File(_) =>
        match Load(job, rel)
        case Failure(e) => Run(fs, Fail(e))
        case Success(source) =>
        match Compile(job.env, source)
        case Failure(e) => Run(fs, Fail(RenderFailed(e)))
        case Success(tokens) =>
          match AfterMakeDirs(fs, Parent(dst))
          case Failure(e) => Run(fs, Fail(IoFailed(e)))
          case Success(made) =>
            match Eval(tokens, job.ctx, job.env.undefined)
            case Failure(e) => Run(made, Fail(RenderFailed(e)))
            case Success(text) =>
              match AfterWriteText(made, StripMarker(dst), text)
              case Failure(e) => Run(made, Fail(IoFailed(e)))
              case Success(written) => Run(written, Pass)
  }

  /** The entries in walk order; the first failure ends the walk and is the outcome. */
  function Steps(job: Job, fs: Fs, walk: seq<Path>): Run
    requires InTree(job, walk)
  {
    if |walk| == 0 then Run(fs, Pass)
    else
      var before := Steps(job, fs, walk[..|walk| - 1]);
      if before.outcome.Fail? then before
      else Step(job, before.fs, walk[|walk| - 1])
  }

  /** The whole call: a missing template directory fails before anything is written. */
  function ScaffoldRun(job: Job, templateName: string, fs: Fs, walk: seq<Path>): Run
    requires InTree(job, walk)
  {
    if !IsDir(job.templates, job.root) then Run(fs, Fail(TemplateDirMissing(templateName)))
    else Steps(job, fs, walk)
  }

  /** What an entry amounts to once all its rendering has succeeded. */
  datatype Plan = MakeDir(dst: Path) | WriteFile(target: Path, text: string)

  function PlanOf(job: Job, rel: Path): Option<Plan>
    requires job.root + rel in job.templates
  {
    match RenderParts(job.env, rel, job.ctx)
    case Failure(_) => None
    case Success(parts) =>
      var dst := Destination(job.outDir, parts);
      match job.templates[job.root + rel]
      case Directory => Some(MakeDir(dst))
      case File(_) =>
        match Load(job, rel)
        case Failure(_) => None
        case Success(source) =>
        match Compile(job.env, source)
        case Failure(_) => None
        case Success(tokens) =>
          match Eval(tokens, job.ctx, job.env.undefined)
          case Failure(_) => None
          case Success(text) => Some(WriteFile(StripMarker(dst), text))
  }

  /** The entries a plan puts in place. */
  function PlanEffect(plan: Plan): map<Path, Node> {
    match plan
    case MakeDir(dst) => PrefixDirs(dst)
    case WriteFile(target, text) => PrefixDirs(Parent(target))[target := File(text)]
  }

  /**
   * A step that succeeds carried out its plan: a directory entry made its
   * destination, a file entry wrote the rendered content of the template at
   * its unrendered source path to the destination with the marker stripped,
   * after making the parent.
   */
  lemma PassingStepPlan(job: Job, fs: Fs, rel: Path)
    requires job.root + rel in job.templates
    requires Step(job, fs, rel).outcome.Pass?
    ensures PlanOf(job, rel).Some?
    ensures PlanOf(job, rel).value.MakeDir? ==>
      AfterMakeDirs(fs, PlanOf(job, rel).value.dst) == Success(Step(job, fs, rel).fs)
    ensures PlanOf(job, rel).value.WriteFile? ==>
      var target := PlanOf(job, rel).value.target;
      && job.templates[job.root + rel].File?
      && Load(job, rel).Success?
      && Render(job.env, Load(job, rel).value, job.ctx) == Success(PlanOf(job, rel).value.text)
      && AfterMakeDirs(fs, Parent(target)).Success?
      && AfterWriteText(AfterMakeDirs(fs, Parent(target)).value, target, PlanOf(job, rel).value.text)
           == Success(Step(job, fs, rel).fs)
  {
    assert RenderParts(job.env, rel, job.ctx).Success?;
    var dst := Destination(job.outDir, RenderParts(job.env, rel, job.ctx).value);
    if job.templates[job.root + rel].File? {
      assert Load(job, rel).Success?;
      var source := Load(job, rel).value;
      assert Compile(job.env, source).Success?;
      var tokens := Compile(job.env, source).value;
      assert AfterMakeDirs(fs, Parent(dst)).Success?;
      assert Eval(tokens, job.ctx, job.env.undefined).Success?;
      var text := Eval(tokens, job.ctx, job.env.undefined).value;
      assert PlanOf(job, rel) == Some(WriteFile(StripMarker(dst), text));
      assert Parent(StripMarker(dst)) == Parent(dst);
    } else {
      assert PlanOf(job, rel) == Some(MakeDir(dst));
    }
  }

  /** Where a file entry writes, once its path renders. */
  function FileTarget(job: Job, rel: Path): Option<Path>
    requires job.root + rel in job.templates
  {
    match RenderParts(job.env, rel, job.ctx)
    case Failure(_) => None
    case Success(parts) =>
      if job.templates[job.root + rel].File? then Some(StripMarker(Destination(job.outDir, parts))) else None
  }

  lemma KindLeTrans(a: Fs, b: Fs, c: Fs)
    requires KindLe(a, b) && KindLe(b, c)
    ensures KindLe(a, c)
  {
  }

  /**
   * A step never removes an entry and never turns a directory into a file
   * or back; it keeps the filesystem well formed.
   */
  lemma StepKeepsKinds(job: Job, fs: Fs, rel: Path)
    requires job.root + rel in job.templates
    ensures KindLe(fs, Step(job, fs, rel).fs)
    ensures WellFormed(fs) ==> WellFormed(Step(job, fs, rel).fs)
  {
    match RenderParts(job.env, rel, job.ctx)
    case Failure(_) =>
    case Success(parts) =>
      var dst := Destination(job.outDir, parts);
      match job.templates[job.root + rel]
      case Directory =>
        if AfterMakeDirs(fs, dst).Success? && WellFormed(fs) {
          MakeDirsKeepsWellFormed(fs, dst);
        }
      case File(_) =>
        if Load(job, rel).Success? && Compile(job.env, Load(job, rel).value).Success? {
          var tokens := Compile(job.env, Load(job, rel).value).value;
          FileWriteKeepsKinds(fs, dst, Eval(tokens, job.ctx, job.env.undefined));
        }
  }

  /** Making a file's parent and writing the rendered text (if any) only adds entries or overwrites files. */
  lemma FileWriteKeepsKinds(fs: Fs, dst: Path, text: Result<string, RenderError>)
    ensures var after :=
      match AfterMakeDirs(fs, Parent(dst))
      case Failure(_) => fs
      case Success(made) =>
        match text
        case Failure(_) => made
        case Success(t) =>
          match AfterWriteText(made, StripMarker(dst), t)
          case Failure(_) => made
          case Success(written) => written;
      KindLe(fs, after) && (WellFormed(fs) ==> WellFormed(after))
  {
    if AfterMakeDirs(fs, Parent(dst)).Success? {
      var made := AfterMakeDirs(fs, Parent(dst)).value;
      if WellFormed(fs) {
        MakeDirsKeepsWellFormed(fs, Parent(dst));
      }
      if text.Success? && AfterWriteText(made, StripMarker(dst), text.value).Success? {
        var written := AfterWriteText(made, StripMarker(dst), text.value).value;
        assert KindLe(made, written);
        KindLeTrans(fs, made, written);
        if WellFormed(fs) {
          WriteKeepsWellFormed(made, StripMarker(dst), text.value);
        }
      }
    }
  }

  /**
   * A step that fails leaves every existing entry exactly as it was; the
   * only thing it may leave behind is the parent directories of a file
   * whose content then failed to render or to be written.
   */
  lemma FailedStepOnlyAddsDirectories(job: Job, fs: Fs, rel: Path)
    requires job.root + rel in job.templates
    requires Step(job, fs, rel).outcome.Fail?
    ensures forall q :: q in fs ==> q in Step(job, fs, rel).fs && Step(job, fs, rel).fs[q] == fs[q]
    ensures forall q :: q in Step(job, fs, rel).fs && q !in fs ==> Step(job, fs, rel).fs[q] == Directory
  {
    if RenderParts(job.env, rel, job.ctx).Success? && job.templates[job.root + rel].File? {
      var dst := Destination(job.outDir, RenderParts(job.env, rel, job.ctx).value);
      if Load(job, rel).Success? && Compile(job.env, Load(job, rel).value).Success?
         && AfterMakeDirs(fs, Parent(dst)).Success? {
        assert Step(job, fs, rel).fs == AfterMakeDirs(fs, Parent(dst)).value;
      } else {
        assert Step(job, fs, rel).fs == fs;
      }
    }
  }

  /**
   * The parent directory of a file is made before its content is rendered:
   * when the content names an unbound variable, the call fails and the
   * parent stays created.
   */
  lemma ParentMadeBeforeContentRendered(job: Job, fs: Fs, rel: Path, n: string)
    requires job.root + rel in job.templates && job.templates[job.root + rel].File?
    requires job.env.undefined == Strict
    requires RenderParts(job.env, rel, job.ctx).Success?
    requires Load(job, rel).Success? && Compile(job.env, Load(job, rel).value).Success?
    requires n in Vars(Compile(job.env, Load(job, rel).value).value) && n !in job.ctx
    requires AfterMakeDirs(fs, Parent(Destination(job.outDir, RenderParts(job.env, rel, job.ctx).value))).Success?
    ensures Step(job, fs, rel).outcome.Fail? && Step(job, fs, rel).outcome.error.RenderFailed?
    ensures IsDir(Step(job, fs, rel).fs, Parent(Destination(job.outDir, RenderParts(job.env, rel, job.ctx).value)))
  {
    StrictEvalIff(Compile(job.env, Load(job, rel).value).value, job.ctx);
  }

  lemma {:induction false} StepsKeepKinds(job: Job, fs: Fs, walk: seq<Path>)
    requires InTree(job, walk)
    ensures KindLe(fs, Steps(job, fs, walk).fs)
    ensures WellFormed(fs) ==> WellFormed(Steps(job, fs, walk).fs)
  {
    if |walk| > 0 {
      var init := walk[..|walk| - 1];
      StepsKeepKinds(job, fs, init);
      var before := Steps(job, fs, init);
      if before.outcome.Pass? {
        StepKeepsKinds(job, before.fs, walk[|walk| - 1]);
        KindLeTrans(fs, before.fs, Steps(job, fs, walk).fs);
      }
    }
  }

  /**
   * No atomicity: whatever the first `k` entries created is still there,
   * with the same kind, when the walk ends, whether or not a later entry
   * failed.
   */
  lemma {:induction false} EarlierOutputSurvives(job: Job, fs: Fs, walk: seq<Path>, k: nat)
    requires InTree(job, walk) && k <= |walk|
    ensures KindLe(Steps(job, fs, walk[..k]).fs, Steps(job, fs, walk).fs)
  {
    if k == |walk| {
      assert walk[..k] == walk;
    } else {
      var init := walk[..|walk| - 1];
      assert init[..k] == walk[..k];
      EarlierOutputSurvives(job, fs, init, k);
      var before := Steps(job, fs, init);
      if before.outcome.Pass? {
        StepKeepsKinds(job, before.fs, walk[|walk| - 1]);
        KindLeTrans(Steps(job, fs, walk[..k]).fs, before.fs, Steps(job, fs, walk).fs);
      }
    }
  }

  /** Fail-fast: once an entry fails, the walk ends with that result. */
  lemma {:induction false} FailureIsSticky(job: Job, fs: Fs, walk: seq<Path>, k: nat)
    requires InTree(job, walk) && k <= |walk|
    requires Steps(job, fs, walk[..k]).outcome.Fail?
    ensures Steps(job, fs, walk) == Steps(job, fs, walk[..k])
  {
    if k == |walk| {
      assert walk[..k] == walk;
    } else {
      var init := walk[..|walk| - 1];
      assert init[..k] == walk[..k];
      FailureIsSticky(job, fs, init, k);
    }
  }

  /** One more entry of a walk that has not failed yet is one more step. */
  lemma NextStep(job: Job, fs: Fs, walk: seq<Path>, i: nat)
    requires InTree(job, walk) && i < |walk|
    requires Steps(job, fs, walk[..i]).outcome.Pass?
    ensures Steps(job, fs, walk[..i + 1]) == Step(job, Steps(job, fs, walk[..i]).fs, walk[i])
  {
    assert walk[..i + 1][..i] == walk[..i];
  }

  /** In a successful walk every entry succeeded, in order. */
  lemma EachStepOfPassingRun(job: Job, fs: Fs, walk: seq<Path>, i: nat)
    requires InTree(job, walk) && i < |walk|
    requires Steps(job, fs, walk).outcome.Pass?
    ensures Steps(job, fs, walk[..i]).outcome.Pass?
    ensures Steps(job, fs, walk[..i + 1]) == Step(job, Steps(job, fs, walk[..i]).fs, walk[i])
    ensures Steps(job, fs, walk[..i + 1]).outcome.Pass?
  {
    if Steps(job, fs, walk[..i]).outcome.Fail? {
      FailureIsSticky(job, fs, walk, i);
    }
    assert walk[..i + 1][..i] == walk[..i];
    if Steps(job, fs, walk[..i + 1]).outcome.Fail? {
      FailureIsSticky(job, fs, walk, i + 1);
    }
  }

  /**
   * Strict binding: a scaffold that succeeds under a strict environment
   * bound every variable named by any segment of any entry's path and by
   * any file's content.
   */
  lemma PassingRunBindsEveryVariable(job: Job, templateName: string, fs: Fs, walk: seq<Path>, i: nat)
    requires InTree(job, walk) && i < |walk| && job.env.undefined == Strict
    requires ScaffoldRun(job, templateName, fs, walk).outcome.Pass?
    ensures forall j :: 0 <= j < |walk[i]| ==> FullyBound(job.env, walk[i][j], job.ctx)
    ensures job.templates[job.root + walk[i]].File? ==>
      Load(job, walk[i]).Success? && FullyBound(job.env, Load(job, walk[i]).value, job.ctx)
  {
    EachStepOfPassingRun(job, fs, walk, i);
    var rel := walk[i];
    PassingStepPlan(job, Steps(job, fs, walk[..i]).fs, rel);
    RenderPartsMeaning(job.env, rel, job.ctx);
    forall j | 0 <= j < |rel| ensures FullyBound(job.env, rel[j], job.ctx) {
      StrictRenderIff(job.env, rel[j], job.ctx);
    }
    if job.templates[job.root + rel].File? {
      StrictRenderIff(job.env, Load(job, rel).value, job.ctx);
    }
  }

  /**
   * Completeness: after a successful scaffold every directory entry has its
   * rendered destination as a directory and every file entry has its
   * destination, marker stripped, as a file.
   */
  lemma ScaffoldComplete(job: Job, templateName: string, fs: Fs, walk: seq<Path>, i: nat)
    requires InTree(job, walk) && i < |walk|
    requires ScaffoldRun(job, templateName, fs, walk).outcome.Pass?
    ensures PlanOf(job, walk[i]).Some?
    ensures PlanOf(job, walk[i]).value.MakeDir? ==>
      IsDir(ScaffoldRun(job, templateName, fs, walk).fs, PlanOf(job, walk[i]).value.dst)
    ensures PlanOf(job, walk[i]).value.WriteFile? ==>
      IsFile(ScaffoldRun(job, templateName, fs, walk).fs, PlanOf(job, walk[i]).value.target)
  {
    EachStepOfPassingRun(job, fs, walk, i);
    var before := Steps(job, fs, walk[..i]).fs;
    PassingStepPlan(job, before, walk[i]);
    EarlierOutputSurvives(job, fs, walk, i + 1);
  }

  lemma PassingStepChangesOnlyItsTarget(job: Job, fs: Fs, rel: Path, q: Path)
    requires job.root + rel in job.templates
    requires Step(job, fs, rel).outcome.Pass?
    requires q in fs && FileTarget(job, rel) != Some(q)
    ensures q in Step(job, fs, rel).fs && Step(job, fs, rel).fs[q] == fs[q]
  {
    PassingStepPlan(job, fs, rel);
  }

  lemma {:induction false} UntargetedEntrySurvives(job: Job, fs: Fs, walk: seq<Path>, i: nat, m: nat, q: Path)
    requires InTree(job, walk) && i <= m <= |walk|
    requires Steps(job, fs, walk).outcome.Pass?
    requires q in Steps(job, fs, walk[..i]).fs
    requires forall j :: i <= j < |walk| ==> FileTarget(job, walk[j]) != Some(q)
    ensures q in Steps(job, fs, walk[..m]).fs
    ensures Steps(job, fs, walk[..m]).fs[q] == Steps(job, fs, walk[..i]).fs[q]
    decreases m
  {
    if m > i {
      UntargetedEntrySurvives(job, fs, walk, i, m - 1, q);
      EachStepOfPassingRun(job, fs, walk, m - 1);
      PassingStepChangesOnlyItsTarget(job, Steps(job, fs, walk[..m - 1]).fs, walk[m - 1], q);
    }
  }

  /**
   * Files are overwritten unconditionally: the content left at a file
   * entry's destination is exactly its rendered template when no later
   * entry writes to the same destination.
   */
  lemma LastWriterWins(job: Job, templateName: string, fs: Fs, walk: seq<Path>, i: nat)
    requires InTree(job, walk) && i < |walk|
    requires ScaffoldRun(job, templateName, fs, walk).outcome.Pass?
    requires job.templates[job.root + walk[i]].File?
    requires forall j :: i < j < |walk| ==> FileTarget(job, walk[j]) != FileTarget(job, walk[i])
    ensures PlanOf(job, walk[i]).Some? && PlanOf(job, walk[i]).value.WriteFile?
    ensures var plan := PlanOf(job, walk[i]).value;
      && plan.target in ScaffoldRun(job, templateName, fs, walk).fs
      && ScaffoldRun(job, templateName, fs, walk).fs[plan.target] == File(plan.text)
      && Load(job, walk[i]).Success?
      && Render(job.env, Load(job, walk[i]).value, job.ctx) == Success(plan.text)
  {
    EachStepOfPassingRun(job, fs, walk, i);
    PassingFileStepWrites(job, Steps(job, fs, walk[..i]).fs, walk[i]);
    UntargetedEntrySurvives(job, fs, walk, i + 1, |walk|, PlanOf(job, walk[i]).value.target);
    assert walk[..|walk|] == walk;
  }

  /** A file entry that succeeds leaves its rendered content at its target. */
  lemma PassingFileStepWrites(job: Job, fs: Fs, rel: Path)
    requires job.root + rel in job.templates && job.templates[job.root + rel].File?
    requires Step(job, fs, rel).outcome.Pass?
    ensures PlanOf(job, rel).Some? && PlanOf(job, rel).value.WriteFile?
    ensures var plan := PlanOf(job, rel).value;
      && FileTarget(job, rel) == Some(plan.target)
      && plan.target in Step(job, fs, rel).fs
      && Step(job, fs, rel).fs[plan.target] == File(plan.text)
      && Load(job, rel).Success?
      && Render(job.env, Load(job, rel).value, job.ctx) == Success(plan.text)
  {
    PassingStepPlan(job, fs, rel);
  }

  /** A step that succeeded on some filesystem succeeds again on any filesystem that has its result's shape. */
  lemma StepMonotone(job: Job, f: Fs, g: Fs, rel: Path)
    requires job.root + rel in job.templates
    requires Step(job, f, rel).outcome.Pass?
    requires KindLe(Step(job, f, rel).fs, g)
    ensures Step(job, g, rel).outcome.Pass?
  {
    PassingStepPlan(job, f, rel);
    var after := Step(job, f, rel).fs;
    match PlanOf(job, rel).value
    case MakeDir(dst) =>
      DirsToGrows(after, g, dst);
      MakeDirsNoop(g, dst);
    case WriteFile(target, text) =>
      var made := AfterMakeDirs(f, Parent(target)).value;
      WriteKeepsWay(made, target, text);
      DirsToGrows(after, g, Parent(target));
      MakeDirsNoop(g, Parent(target));
      assert IsFile(after, target);
  }

  /** On a well-formed filesystem a successful step overlays its plan's entries. */
  lemma StepOverlay(job: Job, g: Fs, rel: Path)
    requires job.root + rel in job.templates
    requires WellFormed(g) && Step(job, g, rel).outcome.Pass?
    ensures PlanOf(job, rel).Some?
    ensures Step(job, g, rel).fs == g + PlanEffect(PlanOf(job, rel).value)
  {
    PassingStepPlan(job, g, rel);
    match PlanOf(job, rel).value
    case MakeDir(dst) =>
      MakeDirsOverlay(g, dst);
    case WriteFile(target, text) =>
      WriteOverlay(g, target, text);
  }

  /** Making a file's parent and writing it overlays the parent's directories and the file. */
  lemma WriteOverlay(g: Fs, target: Path, text: string)
    requires AfterMakeDirs(g, Parent(target)).Success?
    requires AfterWriteText(AfterMakeDirs(g, Parent(target)).value, target, text).Success?
    ensures AfterWriteText(AfterMakeDirs(g, Parent(target)).value, target, text).value
         == g + PrefixDirs(Parent(target))[target := File(text)]
  {
    var made := AfterMakeDirs(g, Parent(target)).value;
    MakeDirsOverlay(g, Parent(target));
    assert AfterWriteText(made, target, text).value == made[target := File(text)];
    OverlayUpdate(g, PrefixDirs(Parent(target)), target, File(text));
  }

  lemma OverlayUpdate(g: Fs, d: map<Path, Node>, p: Path, n: Node)
    ensures (g + d)[p := n] == g + d[p := n]
  {
  }

  lemma UnionAssociates(a: Fs, b: map<Path, Node>, c: map<Path, Node>)
    ensures (a + b) + c == a + (b + c)
  {
  }

  /** Everything a walk puts in place, later entries over earlier ones. */
  function Effect(job: Job, walk: seq<Path>): map<Path, Node>
    requires InTree(job, walk)
  {
    if |walk| == 0 then map[]
    else
      var last := walk[|walk| - 1];
      Effect(job, walk[..|walk| - 1]) +
        (match PlanOf(job, last) case None => map[] case Some(plan) => PlanEffect(plan))
  }

  lemma {:induction false} StepsOverlay(job: Job, fs: Fs, walk: seq<Path>)
    requires InTree(job, walk) && WellFormed(fs)
    requires Steps(job, fs, walk).outcome.Pass?
    ensures Steps(job, fs, walk).fs == fs + Effect(job, walk)
  {
    if |walk| > 0 {
      var init := walk[..|walk| - 1];
      var last := walk[|walk| - 1];
      var before := Steps(job, fs, init);
      assert before.outcome.Pass?;
      StepsOverlay(job, fs, init);
      StepsKeepKinds(job, fs, init);
      StepOverlay(job, before.fs, last);
      var e := PlanEffect(PlanOf(job, last).value);
      assert Effect(job, walk) == Effect(job, init) + e;
      UnionAssociates(fs, Effect(job, init), e);
    }
  }

  lemma {:induction false} SecondRunPasses(job: Job, f0: Fs, walk: seq<Path>, i: nat)
    requires InTree(job, walk) && WellFormed(f0) && i <= |walk|
    requires Steps(job, f0, walk).outcome.Pass?
    ensures Steps(job, Steps(job, f0, walk).fs, walk[..i]).outcome.Pass?
  {
    var fn := Steps(job, f0, walk).fs;
    if i > 0 {
      SecondRunPasses(job, f0, walk, i - 1);
      var g := Steps(job, fn, walk[..i - 1]).fs;
      StepsKeepKinds(job, fn, walk[..i - 1]);
      EachStepOfPassingRun(job, f0, walk, i - 1);
      EarlierOutputSurvives(job, f0, walk, i);
      var fi := Steps(job, f0, walk[..i - 1]).fs;
      KindLeTrans(Step(job, fi, walk[i - 1]).fs, fn, g);
      StepMonotone(job, fi, g, walk[i - 1]);
      assert walk[..i][..i - 1] == walk[..i - 1];
    }
  }

  /**
   * Running the same scaffold again on its own output succeeds (existing
   * directories are accepted, files are overwritten) and leaves the
   * filesystem exactly as the first run left it.
   */
  lemma ScaffoldIsRepeatable(job: Job, templateName: string, fs: Fs, walk: seq<Path>)
    requires InTree(job, walk) && WellFormed(fs)
    requires ScaffoldRun(job, templateName, fs, walk).outcome.Pass?
    ensures ScaffoldRun(job, templateName, ScaffoldRun(job, templateName, fs, walk).fs, walk)
         == ScaffoldRun(job, templateName, fs, walk)
  {
    StepsRepeatable(job, fs, walk);
  }

  /** Walking again over the output of a successful walk passes and changes nothing. */
  lemma StepsRepeatable(job: Job, fs: Fs, walk: seq<Path>)
    requires InTree(job, walk) && WellFormed(fs)
    requires Steps(job, fs, walk).outcome.Pass?
    ensures Steps(job, Steps(job, fs, walk).fs, walk) == Steps(job, fs, walk)
  {
    var fn := Steps(job, fs, walk).fs;
    var e := Effect(job, walk);
    SecondRunPasses(job, fs, walk, |walk|);
    assert walk[..|walk|] == walk;
    var second := Steps(job, fn, walk);
    assert second.outcome == Pass;
    StepsOverlay(job, fs, walk);
    assert fn == fs + e;
    StepsKeepKinds(job, fs, walk);
    StepsOverlay(job, fn, walk);
    assert second.fs == fn + e;
    OverlayTwice(fs, e);
  }

  lemma OverlayTwice(a: Fs, e: map<Path, Node>)
    ensures (a + e) + e == a + e
  {
  }

  /** A relative path of names without placeholders or carriage returns renders to itself. */
  lemma {:induction false} PlainPathRendersToItself(env: Environment, rel: Path, ctx: Context)
    requires env.keepTrailingNewline
    requires forall j :: 0 <= j < |rel| ==> '\r' !in rel[j] && forall k :: !OpensAt(rel[j], k)
    ensures RenderParts(env, rel, ctx) == Success(rel)
  {
    if |rel| > 0 {
      var init := rel[..|rel| - 1];
      PlainPathRendersToItself(env, init, ctx);
      PlainTextRendersToItself(rel[|rel| - 1], ctx, env.undefined);
      assert init + [rel[|rel| - 1]] == rel;
    }
  }

  /** Both names are plain and hold no placeholder. */
  lemma ReadmeNamesPlain()
    ensures forall k :: !OpensAt("README.md", k) && !OpensAt("README.md.j2", k)
    ensures '\r' !in "README.md" && '\r' !in "README.md.j2"
    ensures IsPlainSegment("README.md") && IsPlainSegment("README.md.j2")
  {
    var plain := "README.md";
    var marked := plain + ".j2";
    assert marked == "README.md.j2";
    assert forall k :: 0 <= k < |plain| ==> plain[k] != '{' && plain[k] != '/' && plain[k] != '\r';
    assert forall k :: 0 <= k < |marked| ==> marked[k] != '{' && marked[k] != '/' && marked[k] != '\r';
  }

  /** Stripping the marker turns both names into `README.md`. */
  lemma ReadmeNames(outDir: Path)
    ensures StripMarker(outDir + ["README.md"]) == outDir + ["README.md"]
    ensures StripMarker(outDir + ["README.md.j2"]) == outDir + ["README.md"]
  {
    var plain, marked := outDir + ["README.md"], outDir + ["README.md.j2"];
    assert Name(plain) == "README.md" && !HasMarker("README.md");
    assert Name(marked) == "README.md.j2" && "README.md" + Marker == "README.md.j2";
    assert HasMarker("README.md.j2");
    var r := StripMarker(marked);
    assert Name(r) == "README.md";
    assert Parent(r) == Parent(marked) == outDir;
    assert r == Parent(r) + [Name(r)];
  }

  lemma ReadmePathPlain(rel: Path)
    requires rel == ["README.md"] || rel == ["README.md.j2"]
    ensures forall j :: 0 <= j < |rel| ==> IsPlainSegment(rel[j]) && '\r' !in rel[j] && forall k :: !OpensAt(rel[j], k)
  {
    ReadmeNamesPlain();
    assert |rel| == 1;
  }

  /** A template file whose path holds plain names only is written under the same relative path. */
  lemma PlainFileTarget(job: Job, rel: Path)
    requires job.env.keepTrailingNewline && job.root + rel in job.templates
    requires job.templates[job.root + rel].File?
    requires forall j :: 0 <= j < |rel| ==> IsPlainSegment(rel[j]) && '\r' !in rel[j] && forall k :: !OpensAt(rel[j], k)
    requires PlanOf(job, rel).Some?
    ensures PlanOf(job, rel).value.WriteFile?
    ensures PlanOf(job, rel).value.target == StripMarker(job.outDir + rel)
  {
    PlainPathRendersToItself(job.env, rel, job.ctx);
    DestinationOfPlainParts(job.outDir, rel);
  }

  /**
   * A file whose relative path is made of plain names without placeholders
   * is, after a successful scaffold, a file at the same place under the
   * output directory, marker stripped.
   */
  lemma PlainFileScaffolded(job: Job, templateName: string, fs: Fs, walk: seq<Path>, i: nat)
    requires job.env.keepTrailingNewline && InTree(job, walk) && i < |walk|
    requires job.templates[job.root + walk[i]].File?
    requires forall j :: 0 <= j < |walk[i]| ==>
      IsPlainSegment(walk[i][j]) && '\r' !in walk[i][j] && forall k :: !OpensAt(walk[i][j], k)
    requires ScaffoldRun(job, templateName, fs, walk).outcome.Pass?
    ensures IsFile(ScaffoldRun(job, templateName, fs, walk).fs, StripMarker(job.outDir + walk[i]))
  {
    ScaffoldComplete(job, templateName, fs, walk, i);
    PlainFileTarget(job, walk[i]);
  }

  /**
   * A top-level `README.md` (or `README.md.j2`) file in the template ends up
   * as the file `README.md` directly under the output directory after a
   * successful scaffold.
   */
  lemma ReadmeScaffolded(job: Job, templateName: string, fs: Fs, walk: seq<Path>, i: nat)
    requires job.env == RendererEnvironment && InTree(job, walk)
    requires i < |walk| && (walk[i] == ["README.md"] || walk[i] == ["README.md.j2"])
    requires job.templates[job.root + walk[i]].File?
    requires ScaffoldRun(job, templateName, fs, walk).outcome.Pass?
    ensures IsFile(ScaffoldRun(job, templateName, fs, walk).fs, job.outDir + ["README.md"])
  {
    ReadmeNames(job.outDir);
    ReadmePathPlain(walk[i]);
    PlainFileScaffolded(job, templateName, fs, walk, i);
    if walk[i] == ["README.md"] {
      assert StripMarker(job.outDir + walk[i]) == job.outDir + ["README.md"];
    } else {
      assert StripMarker(job.outDir + walk[i]) == StripMarker(job.outDir + ["README.md.j2"]);
    }
  }

  /** The renderer object: where templates live and how they are rendered. */
  class TemplateRenderer {
    const templatesRoot: Path
    const env: Environment

    constructor(templatesRoot: Path)
      ensures this.templatesRoot == templatesRoot
      ensures env == RendererEnvironment
    {
      this.templatesRoot := templatesRoot;
      env := RendererEnvironment;
    }

    /** Renders the names of a relative path one by one into a list. */
    method RenderPath(rel: Path, ctx: Context) returns (r: Result<seq<string>, RenderError>)
      ensures r == RenderParts(env, rel, ctx)
    {
      var rendered: seq<string> := [];
      var i := 0;
      while i < |rel|
        invariant 0 <= i <= |rel|
        invariant RenderParts(env, rel[..i], ctx) == Success(rendered)
      {
        var part := Render(env, rel[i], ctx);
        assert rel[..i + 1][..i] == rel[..i];
        if part.Failure? {
          RenderPartsFailureSticks(env, rel, ctx, i + 1);
          return Failure(part.error);
        }
        rendered := rendered + [part.value];
        i := i + 1;
      }
      assert rel[..i] == rel;
      return Success(rendered);
    }

    /** One iteration of the walk. */
    method ScaffoldEntry(job: Job, rel: Path, fs: FileSystem) returns (r: Outcome<ScaffoldError>)
      requires job.env == env && job.root + rel in job.templates && WellFormed(fs.nodes)
      modifies fs
      ensures Run(fs.nodes, r) == Step(job, old(fs.nodes), rel)
    {
      var parts := RenderPath(rel, job.ctx);
      if parts.Failure? {
        return Fail(RenderFailed(parts.error));
      }
      var dst := Destination(job.outDir, parts.value);
      if job.templates[job.root + rel].Directory? {
        var made := fs.MakeDirs(dst);
        if made.Fail? {
          return Fail(IoFailed(made.error));
        }
        return Pass;
      }
      var source := Load(job, rel);
      if source.Failure? {
        return Fail(source.error);
      }
      var template := Compile(env, source.value);
      if template.Failure? {
        return Fail(RenderFailed(template.error));
      }
      var made := fs.MakeDirs(Parent(dst));
      if made.Fail? {
        return Fail(IoFailed(made.error));
      }
      var target := StripMarker(dst);
      var text := Eval(template.value, job.ctx, env.undefined);
      if text.Failure? {
        return Fail(RenderFailed(text.error));
      }
      var written := fs.WriteText(target, text.value);
      if written.Fail? {
        return Fail(IoFailed(written.error));
      }
      return Pass;
    }

    /** The `for` loop over the walk: entries run in order until one fails. */
    method ScaffoldWalk(job: Job, walk: seq<Path>, fs: FileSystem) returns (r: Outcome<ScaffoldError>)
      requires job.env == env && InTree(job, walk) && WellFormed(fs.nodes)
      modifies fs
      ensures Run(fs.nodes, r) == Steps(job, old(fs.nodes), walk)
    {
      r := Pass;
      var i := 0;
      while i < |walk| && r == Pass
        invariant 0 <= i <= |walk|
        invariant Steps(job, old(fs.nodes), walk[..i]) == Run(fs.nodes, r)
        invariant WellFormed(fs.nodes)
      {
        NextStep(job, old(fs.nodes), walk, i);
        StepsKeepKinds(job, old(fs.nodes), walk[..i + 1]);
        r := ScaffoldEntry(job, walk[i], fs);
        i := i + 1;
      }
      if r.Fail? {
        FailureIsSticky(job, old(fs.nodes), walk, i);
      } else {
        assert walk[..i] == walk;
      }
    }

    /**
     * `scaffold(template_name, out_dir, context)`; `walk` is the order in
     * which `rglob` lists the template directory.
     */
    method Scaffold(templates: Fs, templateName: string, outDir: Path, context: Context,
                    walk: seq<Path>, fs: FileSystem) returns (r: Outcome<ScaffoldError>)
      requires IsWalk(templates, Destination(templatesRoot, [templateName]), walk)
      requires WellFormed(fs.nodes)
      modifies fs
      ensures var job := JobFor(env, templates, templatesRoot, templateName, outDir, context);
        Run(fs.nodes, r) == ScaffoldRun(job, templateName, old(fs.nodes), walk)
      ensures !IsDir(templates, Destination(templatesRoot, [templateName])) ==>
        r == Fail(TemplateDirMissing(templateName)) && fs.nodes == old(fs.nodes)
    {
      var job := JobFor(env, templates, templatesRoot, templateName, outDir, context);
      var srcRoot := job.root;
      if !IsDir(templates, srcRoot) {
        return Fail(TemplateDirMissing(templateName));
      }
      r := ScaffoldWalk(job, walk, fs);
    }
  }
}
