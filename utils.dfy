/**
 * Helpers shared by the builder and the process watcher: the default source
 * and build directories, the reconciliation of the two historical names of a
 * client's runtime, and the search for a role's entry point.
 */
module Utils {
  import opened Wrappers
  import opened Text
  import Paths

  const SrcDir: string := "src"
  const BuildDir: string := ".build"

  /**
   * A role's entry in the application configuration. Each of the two fields
   * is absent when the configuration does not set it.
   */
  datatype ClientDescription = ClientDescription(target: Option<string>, runtime: Option<string>)

  /** A field value JavaScript's `||` treats as true: present and non-empty. */
  predicate Truthy(v: Option<string>) {
    v.Some? && v.value != ""
  }

  /**
   * `clientDescription.target || clientDescription.runtime`: the older
   * `target` name wins whenever it is set to a non-empty string, otherwise
   * the value of `runtime` is returned as it is, absent or empty included.
   */
  function RuntimeOrTarget(d: ClientDescription): (r: Option<string>)
    ensures Truthy(d.target) ==> r == d.target
    ensures !Truthy(d.target) ==> r == d.runtime
    ensures r.Some? && r.value != "" ==> r == d.target || r == d.runtime
  {
    if Truthy(d.target) then d.target else d.runtime
  }

  /** Server entry points sit directly in the source directory, clients in its `clients` folder. */
  function EntryDirectory(role: string, basePathname: string): string {
    if role != "server" then Paths.Join(basePathname, "clients") else basePathname
  }

  /**
   * The four candidates, in the order they are tried. The fourth one reads
   * `index.tx`, not `index.ts`.
   */
  function Candidates(role: string, basePathname: string): (c: seq<string>)
    ensures |c| == 4
  {
    var dir := EntryDirectory(role, basePathname);
    [ Paths.Join(dir, role + ".js"),
      Paths.Join(dir, role + ".ts"),
      Paths.Join(Paths.Join(dir, role), "index.js"),
      Paths.Join(Paths.Join(dir, role), "index.tx") ]
  }

  /**
   * For a role named by one path segment, under a base directory without a
   * trailing separator: a client's candidates are `<base>/clients/<role>.js`,
   * `.ts`, `<base>/clients/<role>/index.js` and `index.tx`, in that order; the
   * server's are the same four directly under `<base>`.
   */
  lemma CandidatesShape(role: string, basePathname: string)
    requires Paths.IsDirPath(basePathname) && basePathname != "/"
    requires Paths.IsSegment(role)
    ensures
      var dir := if role != "server" then basePathname + "/clients" else basePathname;
      Candidates(role, basePathname) ==
        [dir + "/" + role + ".js", dir + "/" + role + ".ts", dir + "/" + role + "/index.js", dir + "/" + role + "/index.tx"]
  {
    var dir := EntryDirectory(role, basePathname);
    if role != "server" {
      AppendAssociative(basePathname, "/", "clients");
      assert dir == basePathname + "/clients";
    }
    assert dir != "" && dir[|dir| - 1] != '/';
    AppendAssociative(dir + "/", role, ".js");
    AppendAssociative(dir + "/", role, ".ts");
    var sub := Paths.Join(dir, role);
    assert sub == dir + "/" + role;
    assert sub[|sub| - 1] == role[|role| - 1];
    AppendAssociative(sub, "/", "index.js");
    AppendAssociative(sub, "/", "index.tx");
    assert Paths.Join(dir, role + ".js") == dir + "/" + role + ".js";
    assert Paths.Join(dir, role + ".ts") == dir + "/" + role + ".ts";
    assert Paths.Join(sub, "index.js") == dir + "/" + role + "/index.js";
    assert Paths.Join(sub, "index.tx") == dir + "/" + role + "/index.tx";
  }

  function NoEntryPointMessage(role: string): string {
    "Cannot execute 'locateProcessEntryPoint': No entry point found for process " + role
  }

  /** The index of the first path of `c` that exists, if one does. */
  function FirstIn(c: seq<string>, existing: set<string>): (r: Option<nat>)
    ensures r.Some? ==> r.value < |c| && c[r.value] in existing
    ensures r.Some? ==> forall j :: 0 <= j < r.value ==> c[j] !in existing
    ensures r.None? ==> forall j :: 0 <= j < |c| ==> c[j] !in existing
  {
    if c == [] then None
    else if c[0] in existing then Some(0)
    else match FirstIn(c[1..], existing)
      case None => None
      case Some(k) => Some(k + 1)
  }

  /** A path that exists, after paths that all do not, is the first one found. */
  lemma {:induction false} FirstInAt(c: seq<string>, existing: set<string>, i: nat)
    requires i < |c| && c[i] in existing
    requires forall j :: 0 <= j < i ==> c[j] !in existing
    ensures FirstIn(c, existing) == Some(i)
    decreases i
  {
    if i > 0 {
      FirstInAt(c[1..], existing, i - 1);
    }
  }

  /** No path of the list exists, so none is found. */
  lemma {:induction false} FirstInNone(c: seq<string>, existing: set<string>)
    requires forall j :: 0 <= j < |c| ==> c[j] !in existing
    ensures FirstIn(c, existing) == None
    decreases |c|
  {
    if c != [] {
      FirstInNone(c[1..], existing);
    }
  }

  /**
   * What `locateProcessEntryPoint(role, basePathname)` returns or throws,
   * given the set of paths that exist: the first existing candidate, so an
   * earlier candidate always wins, or an error naming the role when none
   * of the four exists.
   */
  function EntryPoint(role: string, basePathname: string, existing: set<string>): (r: Result<string, string>)
    ensures r.Success? ==>
      exists i :: 0 <= i < 4 && Candidates(role, basePathname)[i] == r.value
        && (forall j :: 0 <= j < i ==> Candidates(role, basePathname)[j] !in existing)
    ensures r.Success? ==> r.value in existing
    ensures r.Failure? <==> forall i :: 0 <= i < 4 ==> Candidates(role, basePathname)[i] !in existing
    ensures r.Failure? ==> Contains(r.error, role)
  {
    var c := Candidates(role, basePathname);
    match FirstIn(c, existing)
    case None =>
      ContainsAfter("Cannot execute 'locateProcessEntryPoint': No entry point found for process ", role);
      Failure(NoEntryPointMessage(role))
    case Some(i) => Success(c[i])
  }

  /**
   * `locateProcessEntryPoint(role, basePathname)`, the `fs.existsSync`
   * calls answered by the set of paths that exist.
   */
  method LocateProcessEntryPoint(role: string, basePathname: string, existing: set<string>)
    returns (r: Result<string, string>)
    ensures r == EntryPoint(role, basePathname, existing)
  {
    var base := basePathname;
    if role != "server" {
      base := Paths.Join(base, "clients");
    }

    var patterns := [
      Paths.Join(base, role + ".js"),
      Paths.Join(base, role + ".ts"),
      Paths.Join(Paths.Join(base, role), "index.js"),
      Paths.Join(Paths.Join(base, role), "index.tx")
    ];
    assert patterns == Candidates(role, basePathname);

    for i := 0 to |patterns|
      invariant forall j :: 0 <= j < i ==> patterns[j] !in existing
    {
      var pathname := patterns[i];
      if pathname in existing {
        FirstInAt(patterns, existing, i);
        return Success(pathname);
      }
    }

    FirstInNone(patterns, existing);
    return Failure(NoEntryPointMessage(role));
  }
}
