/**
 * The HTTP endpoints: the catalog, bundles and deployments kept in one
 * shared store, and the scaffold endpoint that turns a free-form project
 * name into the variables of the template.
 *
 * A request arrives already parsed into its fields; a raised
 * `HTTPException` becomes a `Failure(HttpError(..))`, and an error raised by
 * the renderer becomes a `Failure` carrying that error.
 */
module Api {
  import opened Results
  import opened Paths
  import opened Templating
  import opened FileSystems
  import opened Renderer
  import opened Store

  /** The template used when a scaffold request names none. */
  const DefaultTemplate := "python_basic"

  datatype BundleReq = BundleReq(name: string, meta: Option<Meta>)

  datatype DeployReq = DeployReq(bundleId: string, target: string)

  /** `out` is the output directory, already made absolute. */
  datatype ScaffoldReq = ScaffoldReq(template: Option<string>, out: Path, name: string)

  datatype HttpError = HttpError(status: int, detail: string)

  const BundleNotFound := HttpError(404, "bundle not found")

  /** A response of the form `{"items": [...]}`. */
  datatype Items<T> = Items(items: seq<T>)

  datatype ScaffoldResponse = ScaffoldResponse(status: string, out: Path)

  function TemplateOf(req: ScaffoldReq): string {
    match req.template
    case None => DefaultTemplate
    case Some(t) => t
  }

  /** `s.replace(from, to)` for one-character strings. */
  function Replace(s: string, from: char, to: char): (r: string)
    ensures |r| == |s|
    ensures forall i :: 0 <= i < |s| ==> r[i] == (if s[i] == from then to else s[i])
  {
    if |s| == 0 then []
    else Replace(s[..|s| - 1], from, to) + [if s[|s| - 1] == from then to else s[|s| - 1]]
  }

  lemma ReplaceRemoves(s: string, from: char, to: char)
    requires from != to
    ensures from !in Replace(s, from, to)
    ensures forall c :: c != from && c != to ==> (c in Replace(s, from, to) <==> c in s)
  {
    var r := Replace(s, from, to);
    forall c | c != from && c != to && c in s ensures c in r {
      var i :| 0 <= i < |s| && s[i] == c;
      assert r[i] == c;
    }
  }

  /** Hyphens and spaces of a project name become underscores. */
  function Sanitize(name: string): (safe: string)
    ensures |safe| == |name|
    ensures '-' !in safe && ' ' !in safe
    ensures forall i :: 0 <= i < |name| ==>
      safe[i] == (if name[i] == '-' || name[i] == ' ' then '_' else name[i])
  {
    ReplaceRemoves(name, '-', '_');
    ReplaceRemoves(Replace(name, '-', '_'), ' ', '_');
    Replace(Replace(name, '-', '_'), ' ', '_')
  }

  lemma SanitizeIdempotent(name: string)
    ensures Sanitize(Sanitize(name)) == Sanitize(name)
  {
  }

  /** A name that holds neither hyphens nor spaces is left as it is. */
  lemma CleanNameUnchanged(name: string)
    requires '-' !in name && ' ' !in name
    ensures Sanitize(name) == name
  {
    assert forall i :: 0 <= i < |name| ==> name[i] != '-' && name[i] != ' ';
  }

  /**
   * The sanitiser leaves dots and slashes alone: the project name `..` and a
   * name starting with `/` reach the template variables unchanged.
   */
  lemma PathLikeNamesSurvive()
    ensures Sanitize("..") == ".." && Sanitize("d/..") == "d/.." && Sanitize("/etc") == "/etc"
  {
    CleanNameUnchanged("..");
    CleanNameUnchanged("d/..");
    CleanNameUnchanged("/etc");
  }

  /**
   * A name built from letters, digits, underscores, hyphens and spaces, not
   * starting with a digit, becomes an identifier usable as a package name.
   */
  lemma SanitizedIsIdentifier(name: string)
    requires |name| > 0
    requires IsNameStart(name[0]) || name[0] == '-' || name[0] == ' '
    requires forall i :: 0 <= i < |name| ==> IsNameChar(name[i]) || name[i] == '-' || name[i] == ' '
    ensures IsName(Sanitize(name))
  {
  }

  /** The variables the scaffold endpoint binds. */
  function ScaffoldContext(safe: string): Context {
    map["project_name" := safe, "package_name" := safe]
  }

  /**
   * Under the renderer's settings, `{{ project_name }}` and
   * `{{ package_name }}` print the sanitised name and every other
   * placeholder is an undefined variable.
   */
  lemma ScaffoldPlaceholders(name: string, n: string)
    requires IsName(n)
    ensures ScaffoldContext(Sanitize(name)).Keys == {"project_name", "package_name"}
    ensures Render(RendererEnvironment, "{{" + n + "}}", ScaffoldContext(Sanitize(name))) ==
      if n == "project_name" || n == "package_name" then Success(Sanitize(name))
      else Failure(UndefinedVariable(n))
  {
    PlaceholderRender(RendererEnvironment, n, ScaffoldContext(Sanitize(name)));
  }

  /** Every deployment refers to a bundle that exists. */
  ghost predicate ReferToBundles(deployments: map<string, Deployment>, bundles: map<string, Bundle>) {
    forall k :: k in deployments ==> deployments[k].bundleId in bundles
  }

  ghost predicate DeploymentsReferToBundles(db: InMemoryStore)
    reads db
  {
    ReferToBundles(db.deployments, db.bundles)
  }

  /** Adding a bundle keeps every reference valid. */
  lemma BundleAddedKeepsReferences(deployments: map<string, Deployment>, bundles: map<string, Bundle>,
                                   id: string, b: Bundle)
    requires ReferToBundles(deployments, bundles)
    ensures ReferToBundles(deployments, bundles[id := b])
  {
  }

  /** Recording a deployment of an existing bundle keeps every reference valid. */
  lemma DeploymentAddedKeepsReferences(deployments: map<string, Deployment>, bundles: map<string, Bundle>,
                                       id: string, d: Deployment)
    requires ReferToBundles(deployments, bundles) && d.bundleId in bundles
    ensures ReferToBundles(deployments[id := d], bundles)
  {
  }

  /** `GET /catalog` */
  method Catalog(db: InMemoryStore) returns (r: Items<CatalogItem>)
    ensures r.items == db.catalog
  {
    var items := db.ListCatalog();
    r := Items(items);
  }

  /** `GET /bundles` */
  method ListBundles(db: InMemoryStore) returns (r: Items<Bundle>)
    requires db.Valid()
    ensures r.items == db.BundleList()
  {
    var items := db.ListBundles();
    r := Items(items);
  }

  /** `POST /bundles`, with `freshId` standing for the generated id. */
  method CreateBundle(db: InMemoryStore, req: BundleReq, freshId: string) returns (b: Bundle)
    requires db.Valid() && DeploymentsReferToBundles(db)
    modifies db`bundles, db`bundleOrder
    ensures db.Valid() && DeploymentsReferToBundles(db)
    ensures b == Bundle(freshId, req.name, MetaOrEmpty(req.meta))
    ensures db.bundles == old(db.bundles)[freshId := b]
    ensures freshId !in old(db.bundles) ==> db.BundleList() == old(db.BundleList()) + [b]
  {
    BundleAddedKeepsReferences(db.deployments, db.bundles, freshId,
                               Bundle(freshId, req.name, MetaOrEmpty(req.meta)));
    b := db.CreateBundle(freshId, req.name, req.meta);
  }

  /** `GET /deployments` */
  method ListDeployments(db: InMemoryStore) returns (r: Items<Deployment>)
    requires db.Valid()
    ensures r.items == db.DeploymentList()
  {
    var items := db.ListDeployments();
    r := Items(items);
  }

  /**
   * `POST /deployments`, with `freshId` standing for the generated id: a
   * deployment is recorded only for a bundle the store lists, otherwise
   * the request fails with 404 and nothing changes.
   */
  method CreateDeployment(db: InMemoryStore, req: DeployReq, freshId: string)
    returns (r: Result<Deployment, HttpError>)
    requires db.Valid() && DeploymentsReferToBundles(db)
    modifies db`deployments, db`deploymentOrder
    ensures db.Valid() && DeploymentsReferToBundles(db)
    ensures req.bundleId !in old(db.bundles) ==>
      r == Failure(BundleNotFound) &&
      db.deployments == old(db.deployments) && db.deploymentOrder == old(db.deploymentOrder)
    ensures req.bundleId in old(db.bundles) ==>
      r == Success(Deployment(freshId, req.bundleId, req.target, CreatedStatus)) &&
      db.deployments == old(db.deployments)[freshId := r.value]
    ensures req.bundleId in old(db.bundles) && freshId !in old(db.deployments) ==>
      db.DeploymentList() == old(db.DeploymentList()) + [r.value]
  {
    var listed := db.ListBundles();
    var ids := Ids(listed, BundleId);
    if req.bundleId !in ids {
      return Failure(BundleNotFound);
    }
    assert req.bundleId in db.bundles;
    DeploymentAddedKeepsReferences(db.deployments, db.bundles, freshId,
                                   Deployment(freshId, req.bundleId, req.target, CreatedStatus));
    var d := db.CreateDeployment(req.bundleId, req.target, freshId);
    return Success(d);
  }

  /**
   * `POST /scaffold`: the renderer is built over `templatesRoot`, the name is
   * sanitised into both variables, and the template (by default
   * `python_basic`) is scaffolded into `req.out`. `walk` is the order in
   * which the template directory is listed.
   */
  method Scaffold(req: ScaffoldReq, templatesRoot: Path, templates: Fs, walk: seq<Path>, fs: FileSystem)
    returns (r: Result<ScaffoldResponse, ScaffoldError>)
    requires IsWalk(templates, Destination(templatesRoot, [TemplateOf(req)]), walk)
    requires WellFormed(fs.nodes)
    modifies fs
    ensures var job := JobFor(RendererEnvironment, templates, templatesRoot, TemplateOf(req),
                              req.out, ScaffoldContext(Sanitize(req.name)));
      var run := ScaffoldRun(job, TemplateOf(req), old(fs.nodes), walk);
      && fs.nodes == run.fs
      && (run.outcome.Pass? ==> r == Success(ScaffoldResponse("ok", req.out)))
      && (run.outcome.Fail? ==> r == Failure(run.outcome.error))
  {
    var renderer := new TemplateRenderer(templatesRoot);
    var safe := Sanitize(req.name);
    var context := ScaffoldContext(safe);
    var outcome := renderer.Scaffold(templates, TemplateOf(req), req.out, context, walk, fs);
    if outcome.Fail? {
      return Failure(outcome.error);
    }
    return Success(ScaffoldResponse("ok", req.out));
  }
}
