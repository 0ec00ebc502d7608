/**
 * The slice of `node:fs` the build tool calls, over a disk made of regular
 * files (path to content) and directories (a set of paths). Paths are
 * relative to the working directory.
 *
 * The pure functions say what each call does to a disk; the class
 * `FileSystem` is the disk the build tool changes in place, and each of its
 * methods performs one call.
 */
module FileSystem {
  import opened Wrappers
  import opened Text
  import Paths

  /** A Node `fs` error: its code (`ENOENT`, `EISDIR`, ...) and the path it names. */
  datatype FsError = FsError(code: string, path: string)

  datatype Disk = Disk(files: map<string, string>, dirs: set<string>)

  /** No path is both a regular file and a directory. */
  predicate Consistent(d: Disk) {
    d.files.Keys !! d.dirs
  }

  /** `fs.existsSync(p)` */
  predicate Exists(d: Disk, p: string) {
    p in d.files || p in d.dirs
  }

  /** `fs.lstatSync(p).isDirectory()`; `lstatSync` throws ENOENT for a missing path. */
  function IsDirectory(d: Disk, p: string): (r: Result<bool, FsError>)
    ensures r.Success? <==> Exists(d, p)
    ensures r.Success? ==> (r.value <==> p in d.dirs)
  {
    if p in d.dirs then Success(true)
    else if p in d.files then Success(false)
    else Failure(FsError("ENOENT", p))
  }

  /** The directory `p` and every directory above it that `p` names. */
  function Ancestors(p: string): (a: set<string>)
    ensures p in a
    ensures forall q :: q in a ==> IsPrefix(q, p)
  {
    {p} + set i | 0 < i < |p| && p[i] == '/' :: p[..i]
  }

  /**
   * `fs.mkdirSync(dir, { recursive: true })`: creates `dir` and the
   * directories above it; fails, creating nothing, when one of them is a
   * regular file.
   */
  function MkdirRecursive(d: Disk, dir: string): (r: Result<Disk, FsError>)
    ensures r.Success? <==> Ancestors(dir) !! d.files.Keys
    ensures r.Success? ==> r.value.files == d.files && r.value.dirs == d.dirs + Ancestors(dir)
    ensures Consistent(d) && r.Success? ==> Consistent(r.value)
  {
    if Ancestors(dir) !! d.files.Keys then Success(Disk(d.files, d.dirs + Ancestors(dir)))
    else if dir in d.files then Failure(FsError("EEXIST", dir))
    else Failure(FsError("ENOTDIR", dir))
  }

  /** The error `writeFileSync` or `copyFileSync` raise for destination `p`, if any. */
  function DestinationError(d: Disk, p: string): (r: Option<FsError>)
    ensures r.None? <==> p !in d.dirs && Paths.Dirname(p) in d.dirs
  {
    if p in d.dirs then Some(FsError("EISDIR", p))
    else if Paths.Dirname(p) in d.dirs then None
    else if Paths.Dirname(p) in d.files then Some(FsError("ENOTDIR", p))
    else Some(FsError("ENOENT", p))
  }

  /** `fs.writeFileSync(p, data)`: creates or replaces the file `p`. */
  function WriteFile(d: Disk, p: string, data: string): (r: Result<Disk, FsError>)
    ensures r.Success? <==> p !in d.dirs && Paths.Dirname(p) in d.dirs
    ensures r.Success? ==> r.value == Disk(d.files[p := data], d.dirs)
    ensures Consistent(d) && r.Success? ==> Consistent(r.value)
  {
    match DestinationError(d, p)
    case Some(e) => Failure(e)
    case None => Success(Disk(d.files[p := data], d.dirs))
  }

  /** `fs.copyFileSync(src, dst)`: `dst` gets the bytes of `src`. */
  function CopyFile(d: Disk, src: string, dst: string): (r: Result<Disk, FsError>)
    ensures r.Success? <==> src in d.files && dst !in d.dirs && Paths.Dirname(dst) in d.dirs
    ensures r.Success? ==> r.value == Disk(d.files[dst := d.files[src]], d.dirs)
    ensures Consistent(d) && r.Success? ==> Consistent(r.value)
  {
    if src !in d.files then Failure(FsError(if src in d.dirs then "EISDIR" else "ENOENT", src))
    else match DestinationError(d, dst)
      case Some(e) => Failure(e)
      case None => Success(Disk(d.files[dst := d.files[src]], d.dirs))
  }

  /** `fs.unlinkSync(p)`: removes the regular file `p`; a directory or a missing path throws. */
  function Unlink(d: Disk, p: string): (r: Result<Disk, FsError>)
    ensures r.Success? <==> p in d.files
    ensures r.Success? ==> r.value == Disk(d.files - {p}, d.dirs)
    ensures Consistent(d) && r.Success? ==> Consistent(r.value)
  {
    if p in d.files then Success(Disk(d.files - {p}, d.dirs))
    else if p in d.dirs then Failure(FsError("EISDIR", p))
    else Failure(FsError("ENOENT", p))
  }

  /** A failed call leaves the disk as it was; a successful one yields the new disk. */
  function Outcome(err: Option<FsError>, now: Disk): Result<Disk, FsError> {
    match err
    case None => Success(now)
    case Some(e) => Failure(e)
  }

  class FileSystem {
    var files: map<string, string>
    var dirs: set<string>

    ghost predicate Valid()
      reads this
    {
      Consistent(Disk(files, dirs))
    }

    function State(): Disk
      reads this
    {
      Disk(files, dirs)
    }

    constructor (initial: Disk)
      requires Consistent(initial)
      ensures Valid() && State() == initial
    {
      files := initial.files;
      dirs := initial.dirs;
    }

    method ExistsSync(p: string) returns (b: bool)
      ensures b == Exists(State(), p)
    {
      b := p in files || p in dirs;
    }

    method LstatIsDirectory(p: string) returns (r: Result<bool, FsError>)
      ensures r == IsDirectory(State(), p)
    {
      if p in dirs {
        r := Success(true);
      } else if p in files {
        r := Success(false);
      } else {
        r := Failure(FsError("ENOENT", p));
      }
    }

    method MkdirSync(dir: string) returns (err: Option<FsError>)
      requires Valid()
      modifies this
      ensures Valid()
      ensures Outcome(err, State()) == MkdirRecursive(old(State()), dir)
      ensures err.Some? ==> State() == old(State())
    {
      var created := Ancestors(dir);
      if created !! files.Keys {
        dirs := dirs + created;
        err := None;
      } else if dir in files {
        err := Some(FsError("EEXIST", dir));
      } else {
        err := Some(FsError("ENOTDIR", dir));
      }
    }

    method WriteFileSync(p: string, data: string) returns (err: Option<FsError>)
      requires Valid()
      modifies this
      ensures Valid()
      ensures Outcome(err, State()) == WriteFile(old(State()), p, data)
      ensures err.Some? ==> State() == old(State())
    {
      err := DestinationError(State(), p);
      if err.None? {
        files := files[p := data];
      }
    }

    method CopyFileSync(src: string, dst: string) returns (err: Option<FsError>)
      requires Valid()
      modifies this
      ensures Valid()
      ensures Outcome(err, State()) == CopyFile(old(State()), src, dst)
      ensures err.Some? ==> State() == old(State())
    {
      if src !in files {
        err := Some(FsError(if src in dirs then "EISDIR" else "ENOENT", src));
      } else {
        err := DestinationError(State(), dst);
        if err.None? {
          files := files[dst := files[src]];
        }
      }
    }

    method UnlinkSync(p: string) returns (err: Option<FsError>)
      requires Valid()
      modifies this
      ensures Valid()
      ensures Outcome(err, State()) == Unlink(old(State()), p)
      ensures err.Some? ==> State() == old(State())
    {
      if p in files {
        files := files - {p};
        err := None;
      } else if p in dirs {
        err := Some(FsError("EISDIR", p));
      } else {
        err := Some(FsError("ENOENT", p));
      }
    }
  }
}
