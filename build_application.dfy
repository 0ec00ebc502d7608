/**
 * `buildApplication(watch)`: refuses to run when the reserved path
 * `src/public` exists, converts `src` into `.build`, then starts one bundle
 * per browser client of the application configuration.
 */
module Builder {
  import opened Wrappers
  import opened Text
  import Paths
  import opened Utils
  import opened FileSystem
  import Compiler
  import CompilePass
  import opened Bundler

  /** `path.join('src', 'public')` */
  const ReservedPath: string := "src/public"

  const ReservedMessage: string :=
    "[@soundworks/template-build]\n> The path \"src/public\" is reserved by the application build process.\n> Please rename this file or directory, and restart the build process"

  /** The paths `fs.existsSync` answers true for. */
  function Existing(d: Disk): (s: set<string>)
    ensures forall p :: p in s <==> Exists(d, p)
  {
    d.files.Keys + d.dirs
  }

  /** `path.join(cwd, BUILD_DIR, 'public', role + '.js')` */
  function PublicOutput(cwd: string, role: string): string {
    Paths.Join(PublicFolder(cwd), role + ".js")
  }

  /** `path.join(cwd, BUILD_DIR, 'public')` */
  function PublicFolder(cwd: string): string {
    Paths.Join(Paths.Join(cwd, BuildDir), "public")
  }

  lemma PublicFolderShape(cwd: string)
    requires Paths.IsDirPath(cwd)
    ensures Paths.IsDirPath(PublicFolder(cwd))
    ensures cwd != "/" ==> PublicFolder(cwd) == cwd + "/.build/public"
    ensures cwd == "/" ==> PublicFolder(cwd) == "/.build/public"
  {
    var build := Paths.Join(cwd, BuildDir);
    assert PublicFolder(cwd) == build + "/public";
    if cwd == "/" {
      assert build == "/.build";
    }
    if cwd != "/" {
      assert build == cwd + "/" + ".build";
      AppendAssociative(cwd, "/", ".build");
      AppendAssociative(cwd, "/.build", "/public");
    }
  }

  lemma ScriptNameIsSegment(role: string)
    requires Paths.IsSegment(role)
    ensures Paths.IsSegment(role + ".js")
  {
    assert forall j :: 0 <= j < |role| ==> (role + ".js")[j] == role[j];
  }

  /** Every bundle lands in `.build/public` under the working directory, named after its role. */
  lemma PublicOutputInPublicFolder(cwd: string, role: string)
    requires Paths.IsDirPath(cwd) && Paths.IsSegment(role)
    ensures Paths.Dirname(PublicOutput(cwd, role)) == PublicFolder(cwd)
    ensures Paths.Dirname(PublicOutput(cwd, role)) == if cwd == "/" then "/.build/public" else cwd + "/.build/public"
    ensures Paths.Basename(PublicOutput(cwd, role)) == role + ".js"
  {
    PublicFolderShape(cwd);
    ScriptNameIsSegment(role);
    Paths.SplitJoin(PublicFolder(cwd), role + ".js");
  }

  /** A role the builder bundles: its runtime (or legacy target) is "browser". */
  predicate IsBrowser(description: ClientDescription) {
    RuntimeOrTarget(description) == Some("browser")
  }

  /** The declared roles that are browser clients, in declaration order. */
  function BrowserRoles(clients: seq<(string, ClientDescription)>): (roles: seq<string>)
    ensures |roles| <= |clients|
    ensures forall k :: 0 <= k < |clients| && IsBrowser(clients[k].1) ==> clients[k].0 in roles
    ensures forall role :: role in roles ==>
      exists k :: 0 <= k < |clients| && clients[k].0 == role && IsBrowser(clients[k].1)
    decreases |clients|
  {
    if clients == [] then []
    else
      var init := clients[..|clients| - 1];
      var before := BrowserRoles(init);
      var (role, description) := clients[|clients| - 1];
      assert forall k :: 0 <= k < |init| ==> init[k] == clients[k];
      if IsBrowser(description) then before + [role] else before
  }

  /** The bundle a browser role gets once its entry point is found. */
  function JobFor(role: string, entry: string, cwd: string, override: Option<Override>, watch: bool): BundleJob {
    var inputFile := Paths.Join(cwd, entry);
    var outputFile := PublicOutput(cwd, role);
    BundleJob(inputFile, outputFile, EffectiveOptions(inputFile, outputFile, override), watch)
  }

  /**
   * What the role loop does: the bundles it starts, or the error a missing
   * entry point throws together with the bundles started before it.
   */
  datatype Plan = Planned(jobs: seq<BundleJob>) | Unlocated(message: string, jobs: seq<BundleJob>)

  /** One iteration of the role loop. */
  function Extend(plan: Plan, client: (string, ClientDescription), existing: set<string>, cwd: string,
                  override: Option<Override>, watch: bool): Plan
  {
    match plan
    case Unlocated(_, _) => plan
    case Planned(jobs) =>
      var (role, description) := client;
      if !IsBrowser(description) then plan
      else
        match EntryPoint(role, SrcDir, existing)
        case Failure(message) => Unlocated(message, jobs)
        case Success(entry) => Planned(jobs + [JobFor(role, entry, cwd, override, watch)])
  }

  function PlanBundles(clients: seq<(string, ClientDescription)>, existing: set<string>, cwd: string,
                       override: Option<Override>, watch: bool): Plan
    decreases |clients|
  {
    if clients == [] then Planned([])
    else
      Extend(PlanBundles(clients[..|clients| - 1], existing, cwd, override, watch), clients[|clients| - 1],
             existing, cwd, override, watch)
  }

  /** The first `n` jobs are the bundles of the first `n` browser roles, each from its entry point. */
  predicate JobsFollowRoles(jobs: seq<BundleJob>, roles: seq<string>, n: nat, existing: set<string>,
                            cwd: string, override: Option<Override>, watch: bool)
  {
    n <= |roles| && |jobs| == n
    && forall k :: 0 <= k < n ==>
      EntryPoint(roles[k], SrcDir, existing).Success?
      && jobs[k] == JobFor(roles[k], EntryPoint(roles[k], SrcDir, existing).value, cwd, override, watch)
  }

  /**
   * A plan that bundles exactly the given browser roles, in order, each from
   * its located entry point; or that stops at the first role without an entry
   * point, with that role's error.
   */
  predicate PlanFollows(plan: Plan, roles: seq<string>, existing: set<string>,
                        cwd: string, override: Option<Override>, watch: bool)
  {
    match plan
    case Planned(jobs) => JobsFollowRoles(jobs, roles, |roles|, existing, cwd, override, watch)
    case Unlocated(message, jobs) =>
      && |jobs| < |roles|
      && JobsFollowRoles(jobs, roles, |jobs|, existing, cwd, override, watch)
      && EntryPoint(roles[|jobs|], SrcDir, existing) == Failure(message)
      && Contains(message, roles[|jobs|])
  }

  /**
   * The role loop bundles exactly the browser roles, in order, each from its
   * located entry point into `.build/public/<role>.js`; it stops at the first
   * browser role without an entry point, with that role's error.
   */
  lemma {:induction false} PlanFollowsBrowserRoles(clients: seq<(string, ClientDescription)>, existing: set<string>,
                                                   cwd: string, override: Option<Override>, watch: bool)
    ensures PlanFollows(PlanBundles(clients, existing, cwd, override, watch), BrowserRoles(clients),
                        existing, cwd, override, watch)
    decreases |clients|
  {
    if clients != [] {
      var init := clients[..|clients| - 1];
      PlanFollowsBrowserRoles(init, existing, cwd, override, watch);
      ExtendFollows(PlanBundles(init, existing, cwd, override, watch), BrowserRoles(init), clients[|clients| - 1],
                    existing, cwd, override, watch);
    }
  }

  /** One more declared role keeps a plan following the browser roles seen so far. */
  lemma ExtendFollows(plan: Plan, before: seq<string>, client: (string, ClientDescription), existing: set<string>,
                      cwd: string, override: Option<Override>, watch: bool)
    requires PlanFollows(plan, before, existing, cwd, override, watch)
    ensures
      var (role, description) := client;
      PlanFollows(Extend(plan, client, existing, cwd, override, watch),
                  if IsBrowser(description) then before + [role] else before, existing, cwd, override, watch)
  {
    var (role, description) := client;
    var roles := if IsBrowser(description) then before + [role] else before;
    match plan
    case Unlocated(message, jobs) =>
      JobsFollowLongerRoles(jobs, before, roles, |jobs|, existing, cwd, override, watch);
    case Planned(jobs) =>
      if IsBrowser(description) {
        assert |jobs| == |before| && roles[|before|] == role;
        JobsFollowLongerRoles(jobs, before, roles, |jobs|, existing, cwd, override, watch);
        match EntryPoint(role, SrcDir, existing)
        case Failure(message) =>
        case Success(entry) =>
          JobsFollowAppend(jobs, roles, existing, cwd, override, watch);
      }
  }

  /** Jobs that follow a list of roles follow every longer list that starts with it. */
  lemma JobsFollowLongerRoles(jobs: seq<BundleJob>, before: seq<string>, roles: seq<string>, n: nat,
                              existing: set<string>, cwd: string, override: Option<Override>, watch: bool)
    requires JobsFollowRoles(jobs, before, n, existing, cwd, override, watch)
    requires |before| <= |roles| && forall k :: 0 <= k < |before| ==> roles[k] == before[k]
    ensures JobsFollowRoles(jobs, roles, n, existing, cwd, override, watch)
  {
  }

  /** One more located role, one more job. */
  lemma JobsFollowAppend(jobs: seq<BundleJob>, roles: seq<string>,
                         existing: set<string>, cwd: string, override: Option<Override>, watch: bool)
    requires |roles| > 0 && JobsFollowRoles(jobs, roles, |roles| - 1, existing, cwd, override, watch)
    requires EntryPoint(roles[|roles| - 1], SrcDir, existing).Success?
    ensures
      var role := roles[|roles| - 1];
      var job := JobFor(role, EntryPoint(role, SrcDir, existing).value, cwd, override, watch);
      JobsFollowRoles(jobs + [job], roles, |roles|, existing, cwd, override, watch)
  {
    var role := roles[|roles| - 1];
    var job := JobFor(role, EntryPoint(role, SrcDir, existing).value, cwd, override, watch);
    forall k | 0 <= k < |roles|
      ensures EntryPoint(roles[k], SrcDir, existing).Success?
      ensures (jobs + [job])[k] == JobFor(roles[k], EntryPoint(roles[k], SrcDir, existing).value, cwd, override, watch)
    {
      if k < |roles| - 1 {
        assert (jobs + [job])[k] == jobs[k];
      }
    }
  }

  /** The roles are all bundled exactly when each browser role has an entry point. */
  lemma AllBundledIffAllLocated(clients: seq<(string, ClientDescription)>, existing: set<string>,
                                cwd: string, override: Option<Override>, watch: bool)
    ensures PlanBundles(clients, existing, cwd, override, watch).Planned?
        <==> forall role :: role in BrowserRoles(clients) ==> EntryPoint(role, SrcDir, existing).Success?
  {
    PlanFollowsBrowserRoles(clients, existing, cwd, override, watch);
    var roles := BrowserRoles(clients);
    if PlanBundles(clients, existing, cwd, override, watch).Planned? {
      forall role | role in roles
        ensures EntryPoint(role, SrcDir, existing).Success?
      {
        var k :| 0 <= k < |roles| && roles[k] == role;
      }
    }
  }

  /** The role loop, one declared role further. */
  lemma PlanStep(clients: seq<(string, ClientDescription)>, i: nat, existing: set<string>,
                 cwd: string, override: Option<Override>, watch: bool)
    requires i < |clients|
    ensures PlanBundles(clients[..i + 1], existing, cwd, override, watch)
         == Extend(PlanBundles(clients[..i], existing, cwd, override, watch), clients[i], existing, cwd, override, watch)
  {
    assert clients[..i + 1][..i] == clients[..i];
  }

  /** Once a browser role has no entry point, the roles declared after it change nothing. */
  lemma {:induction false} UnlocatedStops(clients: seq<(string, ClientDescription)>, i: nat, existing: set<string>,
                                          cwd: string, override: Option<Override>, watch: bool)
    requires i <= |clients|
    requires PlanBundles(clients[..i], existing, cwd, override, watch).Unlocated?
    ensures PlanBundles(clients, existing, cwd, override, watch) == PlanBundles(clients[..i], existing, cwd, override, watch)
    decreases |clients| - i
  {
    if i < |clients| {
      assert clients[..|clients| - 1][..i] == clients[..i];
      UnlocatedStops(clients[..|clients| - 1], i, existing, cwd, override, watch);
    } else {
      assert clients[..i] == clients;
    }
  }

  function Last(roles: seq<string>): string
    requires |roles| > 0
  {
    roles[|roles| - 1]
  }

  /** The output file `bundle` leaves for the swc plugin: the last started job's. */
  function LastOutput(jobs: seq<BundleJob>, before: Option<string>): Option<string> {
    if jobs == [] then before else Some(jobs[|jobs| - 1].outputFile)
  }

  /**
   * The swc plugin's `onEnd` callback reads the output file the last `bundle`
   * call recorded, so once the role loop is done, the error artifact of any
   * failing bundle is written over the last browser role's output.
   */
  lemma ErrorsGoToLastBrowserOutput(clients: seq<(string, ClientDescription)>, existing: set<string>, cwd: string,
                                    override: Option<Override>, watch: bool, before: Option<string>)
    requires PlanBundles(clients, existing, cwd, override, watch).Planned?
    requires |BrowserRoles(clients)| > 0
    ensures LastOutput(PlanBundles(clients, existing, cwd, override, watch).jobs, before)
         == Some(PublicOutput(cwd, Last(BrowserRoles(clients))))
  {
    PlanFollowsBrowserRoles(clients, existing, cwd, override, watch);
    var plan := PlanBundles(clients, existing, cwd, override, watch);
    LastJobOutput(plan.jobs, BrowserRoles(clients), existing, cwd, override, watch, before);
  }

  lemma LastJobOutput(jobs: seq<BundleJob>, roles: seq<string>, existing: set<string>, cwd: string,
                      override: Option<Override>, watch: bool, before: Option<string>)
    requires |roles| > 0 && JobsFollowRoles(jobs, roles, |roles|, existing, cwd, override, watch)
    ensures LastOutput(jobs, before) == Some(PublicOutput(cwd, Last(roles)))
  {
    var last := |roles| - 1;
    assert jobs[last] == JobFor(roles[last], EntryPoint(roles[last], SrcDir, existing).value, cwd, override, watch);
  }

  /** How `buildApplication` ends. */
  datatype BuildOutcome =
    | Exited(status: int, message: string)
    | CompileFailed(error: FsError)
    | EntryPointMissing(message: string)
    | Started

  /**
   * The role loop of `buildApplication`: one `bundle` call per browser role,
   * skipping the others; a role without an entry point throws (the error is
   * returned), leaving the bundles already started running.
   */
  method BundleBrowserClients(ctx: BundleContext, clients: seq<(string, ClientDescription)>, existing: set<string>,
                              cwd: string, watch: bool) returns (missing: Option<string>)
    modifies ctx
    ensures
      match PlanBundles(clients, existing, cwd, ctx.override, watch)
      case Planned(jobs) =>
        missing == None && ctx.started == old(ctx.started) + jobs
        && ctx.outputFile == LastOutput(jobs, old(ctx.outputFile))
      case Unlocated(message, jobs) =>
        missing == Some(message) && ctx.started == old(ctx.started) + jobs
        && ctx.outputFile == LastOutput(jobs, old(ctx.outputFile))
  {
    var override := ctx.override;
    for i := 0 to |clients|
      invariant PlanBundles(clients[..i], existing, cwd, override, watch).Planned?
      invariant ctx.started == old(ctx.started) + PlanBundles(clients[..i], existing, cwd, override, watch).jobs
      invariant ctx.outputFile
             == LastOutput(PlanBundles(clients[..i], existing, cwd, override, watch).jobs, old(ctx.outputFile))
    {
      PlanStep(clients, i, existing, cwd, override, watch);
      var (role, description) := clients[i];
      if RuntimeOrTarget(description) != Some("browser") {
        continue;
      }

      var located := LocateProcessEntryPoint(role, SrcDir, existing);
      if located.Failure? {
        UnlocatedStops(clients, i + 1, existing, cwd, override, watch);
        return Some(located.error);
      }
      var inputFile := Paths.Join(cwd, located.value);
      var outputFile := PublicOutput(cwd, role);
      ghost var jobs := PlanBundles(clients[..i], existing, cwd, override, watch).jobs;
      ctx.Bundle(inputFile, outputFile, watch);
      AppendAssociative(old(ctx.started), jobs, [JobFor(role, located.value, cwd, override, watch)]);
    }
    assert clients[..|clients|] == clients;
    return None;
  }

  /**
   * `buildApplication(watch)`. The directory walk of `src` is given as
   * `walk`, the clients of the application configuration as `clients`, in
   * declaration order.
   */
  method BuildApplication(fs: FileSystem, ctx: BundleContext, watch: bool, walk: seq<string>,
                          clients: seq<(string, ClientDescription)>, cwd: string,
                          transpile: Compiler.Transpiler) returns (r: BuildOutcome)
    requires fs.Valid()
    modifies fs, ctx
    ensures fs.Valid()
    ensures Exists(old(fs.State()), ReservedPath) ==>
      r == Exited(0, ReservedMessage) && fs.State() == old(fs.State())
      && ctx.started == old(ctx.started) && ctx.outputFile == old(ctx.outputFile)
    ensures !Exists(old(fs.State()), ReservedPath) && watch ==> fs.State() == old(fs.State())
    ensures !Exists(old(fs.State()), ReservedPath) && !watch ==>
      var pass := CompilePass.OneShot(old(fs.State()), walk, SrcDir, BuildDir, transpile);
      && fs.State() == pass.disk
      && (CompilePass.FirstRejection(pass.outcomes).Some? ==>
            r == CompileFailed(CompilePass.FirstRejection(pass.outcomes).value)
            && ctx.started == old(ctx.started) && ctx.outputFile == old(ctx.outputFile))
    ensures !r.Exited? && !r.CompileFailed? ==>
      match PlanBundles(clients, Existing(fs.State()), cwd, ctx.override, watch)
      case Planned(jobs) =>
        r == Started && ctx.started == old(ctx.started) + jobs
        && ctx.outputFile == LastOutput(jobs, old(ctx.outputFile))
      case Unlocated(message, jobs) =>
        r == EntryPointMissing(message) && ctx.started == old(ctx.started) + jobs
        && ctx.outputFile == LastOutput(jobs, old(ctx.outputFile))
    ensures r.Exited? ==> Exists(old(fs.State()), ReservedPath)
    ensures r.CompileFailed? ==> !watch
  {
    assert Paths.Join(SrcDir, "public") == ReservedPath;
    var reserved := fs.ExistsSync(Paths.Join(SrcDir, "public"));
    if reserved {
      return Exited(0, ReservedMessage);
    }

    if !watch {
      var outcomes := CompilePass.CompileAll(fs, walk, SrcDir, BuildDir, transpile);
      var rejection := CompilePass.FirstRejection(outcomes);
      if rejection.Some? {
        return CompileFailed(rejection.value);
      }
    }

    var existing := fs.files.Keys + fs.dirs;
    assert existing == Existing(fs.State());
    var missing := BundleBrowserClients(ctx, clients, existing, cwd, watch);
    if missing.Some? {
      return EntryPointMissing(missing.value);
    }
    return Started;
  }
}
