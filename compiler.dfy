/**
 * The per-file compiler of `src/build-application.js`: it mirrors the source
 * folder into the build folder, transpiling recognised scripts (artifact plus
 * `.map` sibling) and copying every other file as it is, once over a whole
 * file list or event by event while watching.
 */
module Compiler {
  import opened Wrappers
  import opened Text
  import Paths
  import opened FileSystem

  /** `os.EOL` on the POSIX hosts modelled here. */
  const EOL: string := "\n"

  const SupportedExtensions: seq<string> := [".js", ".jsx", ".mjs", ".ts", ".tsx"]

  /** The suffix `/\.(js|jsx|mjs|ts|tsx)$/` matches at the end of `s`, if any. */
  function SupportedExtension(s: string): (r: Option<string>)
    ensures r.Some? ==> r.value in SupportedExtensions && EndsWith(s, r.value)
    ensures r.None? ==> forall e :: e in SupportedExtensions ==> !EndsWith(s, e)
  {
    if EndsWith(s, ".js") then Some(".js")
    else if EndsWith(s, ".jsx") then Some(".jsx")
    else if EndsWith(s, ".mjs") then Some(".mjs")
    else if EndsWith(s, ".ts") then Some(".ts")
    else if EndsWith(s, ".tsx") then Some(".tsx")
    else None
  }

  /** `supportedFilesRegExp.test(s)`: the name ends with one of the recognised extensions. */
  predicate IsSupported(s: string)
    ensures IsSupported(s) <==> exists e :: e in SupportedExtensions && EndsWith(s, e)
  {
    SupportedExtension(s).Some?
  }

  /** A string ends with at most one of the recognised extensions. */
  lemma ExtensionsExclusive(s: string, e1: string, e2: string)
    requires e1 in SupportedExtensions && e2 in SupportedExtensions
    requires EndsWith(s, e1) && EndsWith(s, e2)
    ensures e1 == e2
  {
    // The last three characters already tell the five extensions apart.
    var n := |s|;
    assert s[n - 1] == e1[|e1| - 1] && s[n - 2] == e1[|e1| - 2] && s[n - 3] == e1[|e1| - 3] by {
      assert s[n - |e1|..][|e1| - 1] == s[n - 1];
      assert s[n - |e1|..][|e1| - 2] == s[n - 2];
      assert s[n - |e1|..][|e1| - 3] == s[n - 3];
    }
    assert s[n - 1] == e2[|e2| - 1] && s[n - 2] == e2[|e2| - 2] && s[n - 3] == e2[|e2| - 3] by {
      assert s[n - |e2|..][|e2| - 1] == s[n - 1];
      assert s[n - |e2|..][|e2| - 2] == s[n - 2];
      assert s[n - |e2|..][|e2| - 3] == s[n - 3];
    }
  }

  /** The recognised extension of `stem + e` is `e`. */
  lemma ExtensionOf(stem: string, e: string)
    requires e in SupportedExtensions
    ensures SupportedExtension(stem + e) == Some(e)
  {
    var s := stem + e;
    assert s[|s| - |e|..] == e;
    var r := SupportedExtension(s);
    ExtensionsExclusive(s, r.value, e);
  }

  /**
   * `.replace(supportedFilesRegExp, '.js')`: a recognised extension at the
   * end becomes `.js`; a name without one is returned unchanged.
   */
  function RewriteExtension(s: string): (r: string)
    ensures SupportedExtension(s).None? ==> r == s
    ensures SupportedExtension(s).Some? ==>
      EndsWith(r, ".js") && r[..|r| - 3] == s[..|s| - |SupportedExtension(s).value|]
  {
    match SupportedExtension(s)
    case None => s
    case Some(e) =>
      var r := s[..|s| - |e|] + ".js";
      assert r[|r| - 3..] == ".js";
      r
  }

  /** Rewriting the extension a second time changes nothing. */
  lemma RewriteExtensionIdempotent(s: string)
    ensures RewriteExtension(RewriteExtension(s)) == RewriteExtension(s)
  {
    var r := RewriteExtension(s);
    if SupportedExtension(s).Some? {
      assert r == r[..|r| - 3] + ".js";
      ExtensionOf(r[..|r| - 3], ".js");
    }
  }

  /** A stem keeps its name and receives `.js` whichever recognised extension it had. */
  lemma RewriteStem(stem: string, e: string)
    requires e in SupportedExtensions
    ensures RewriteExtension(stem + e) == stem + ".js"
  {
    ExtensionOf(stem, e);
    assert (stem + e)[..|stem + e| - |e|] == stem;
  }

  /** A suffix without a separator, found after a `/`, lies wholly in what follows it. */
  lemma SuffixAfterSeparator(prefix: string, rest: string, e: string)
    requires forall j :: 0 <= j < |e| ==> e[j] != '/'
    ensures EndsWith(prefix + "/" + rest, e) <==> EndsWith(rest, e)
  {
    var s := prefix + "/" + rest;
    if |e| <= |rest| {
      assert s[|s| - |e|..] == rest[|rest| - |e|..];
    } else if |e| <= |s| {
      // The separator falls inside the suffix, and the suffix holds none.
      var j := |e| - |rest| - 1;
      assert s[|s| - |e|..][j] == '/';
    }
  }

  /** No recognised extension contains a separator, so one after `/` lies wholly in what follows it. */
  lemma ExtensionAfterSeparator(prefix: string, rest: string)
    ensures SupportedExtension(prefix + "/" + rest) == SupportedExtension(rest)
  {
    SuffixAfterSeparator(prefix, rest, ".js");
    SuffixAfterSeparator(prefix, rest, ".jsx");
    SuffixAfterSeparator(prefix, rest, ".mjs");
    SuffixAfterSeparator(prefix, rest, ".ts");
    SuffixAfterSeparator(prefix, rest, ".tsx");
  }

  /**
   * The artifact path of a source file: the first occurrence of the input
   * folder is replaced by the output folder, then a recognised extension at
   * the end is rewritten to `.js`.
   */
  function OutputFilename(pathname: string, inputFolder: string, outputFolder: string): (r: string)
    ensures SupportedExtension(r)
         == if IsSupported(ReplaceFirst(pathname, inputFolder, outputFolder)) then Some(".js") else None
    ensures RewriteExtension(r) == r
  {
    var moved := ReplaceFirst(pathname, inputFolder, outputFolder);
    RewrittenExtension(moved);
    RewriteExtensionIdempotent(moved);
    RewriteExtension(moved)
  }

  /** After the rewrite a recognised name ends with `.js`, and an unrecognised one stays unrecognised. */
  lemma RewrittenExtension(s: string)
    ensures SupportedExtension(RewriteExtension(s)) == if IsSupported(s) then Some(".js") else None
  {
    var r := RewriteExtension(s);
    if IsSupported(s) {
      assert r == r[..|r| - 3] + ".js";
      ExtensionOf(r[..|r| - 3], ".js");
    }
  }

  /** `ReplaceFirst` on a path that starts with the folder and a separator. */
  lemma ReplaceFolder(inputFolder: string, outputFolder: string, rest: string)
    ensures ReplaceFirst(inputFolder + "/" + rest, inputFolder, outputFolder) == outputFolder + "/" + rest
  {
    var s := inputFolder + "/" + rest;
    assert s[..|inputFolder|] == inputFolder;
    assert IndexOf(s, inputFolder) == Some(0);
    assert s[|inputFolder|..] == "/" + rest;
  }

  /** Rewriting the extension of a path only touches what follows its last separator. */
  lemma RewriteAfterSeparator(prefix: string, rest: string)
    ensures RewriteExtension(prefix + "/" + rest) == prefix + "/" + RewriteExtension(rest)
  {
    ExtensionAfterSeparator(prefix, rest);
    if SupportedExtension(rest).Some? {
      RewriteStemAfterSeparator(prefix, rest);
    }
  }

  lemma RewriteStemAfterSeparator(prefix: string, rest: string)
    requires SupportedExtension(rest).Some?
    ensures RewriteExtension(prefix + "/" + rest) == prefix + "/" + RewriteExtension(rest)
  {
    var e := SupportedExtension(rest).value;
    var stem := rest[..|rest| - |e|];
    assert rest == stem + e;
    RewriteStemUnder(prefix, stem, e);
  }

  lemma RewriteStemUnder(prefix: string, stem: string, e: string)
    requires e in SupportedExtensions
    ensures RewriteExtension(prefix + "/" + (stem + e)) == prefix + "/" + RewriteExtension(stem + e)
  {
    var longer := prefix + "/" + stem;
    AppendAssociative(prefix + "/", stem, e);
    AppendAssociative(prefix + "/", stem, ".js");
    RewriteStem(stem, e);
    RewriteStem(longer, e);
  }

  /** A file under the input folder lands at the same relative place under the output folder. */
  lemma OutputFilenameUnderFolder(inputFolder: string, outputFolder: string, rest: string)
    ensures OutputFilename(inputFolder + "/" + rest, inputFolder, outputFolder)
         == outputFolder + "/" + RewriteExtension(rest)
  {
    ReplaceFolder(inputFolder, outputFolder, rest);
    RewriteAfterSeparator(outputFolder, rest);
  }

  /** The comment appended to a transpiled artifact, naming its map as a sibling. */
  function SourceMapComment(outputFilename: string): string {
    EOL + "//# sourceMappingURL=./" + Paths.Basename(outputFilename) + ".map"
  }

  datatype Transpiled = Transpiled(code: string, sourceMap: string)

  /**
   * The transpiler, given the input path and its content: the generated code
   * and its source map, or the message of the error it raised.
   */
  type Transpiler = (string, string) -> Result<Transpiled, string>

  /** Why a file was logged and skipped. */
  datatype Problem = TransformFailed(message: string) | FsFailed(error: FsError)

  /**
   * What one event did: `Logged` for an error caught and printed, `Rejected`
   * for one that escapes the handler. `Transforming` is a recognised script
   * whose transform was started on `source` and has not returned yet.
   */
  datatype StepOutcome =
    | Skipped
    | Compiled
    | Copied
    | Deleted
    | Logged(problem: Problem)
    | Rejected(error: FsError)
    | Transforming(source: string)

  datatype Step = Step(disk: Disk, outcome: StepOutcome)

  /**
   * The transpiling branch of `doCompileOrCopy`, once the artifact's
   * directory exists: transform, then write the artifact and its map. Any
   * error is caught and logged.
   */
  function TranspileStep(d1: Disk, pathname: string, content: string, out: string, transpile: Transpiler): (r: Step)
    ensures Consistent(d1) ==> Consistent(r.disk)
    ensures d1.files.Keys <= r.disk.files.Keys && r.disk.dirs == d1.dirs
    ensures r.outcome == Compiled || r.outcome.Logged?
    ensures r.outcome == Compiled ==>
      && transpile(pathname, content).Success?
      && r.disk.files == d1.files[out := transpile(pathname, content).value.code + SourceMapComment(out)]
                                 [out + ".map" := transpile(pathname, content).value.sourceMap]
    ensures transpile(pathname, content).Failure? ==>
      r == Step(d1, Logged(TransformFailed(transpile(pathname, content).error)))
    ensures r.outcome == Compiled <==>
      && transpile(pathname, content).Success?
      && out !in d1.dirs && out + ".map" !in d1.dirs && Paths.Dirname(out) in d1.dirs
    ensures r.disk.files.Keys <= d1.files.Keys + {out, out + ".map"}
    ensures forall q :: q in d1.files && q != out && q != out + ".map" ==> r.disk.files[q] == d1.files[q]
  {
    Paths.DirnameAppend(out, ".map");
    match transpile(pathname, content)
    case Failure(message) => Step(d1, Logged(TransformFailed(message)))
    case Success(t) =>
      var code := t.code + SourceMapComment(out);
      match WriteFile(d1, out, code)
      case Failure(e) => Step(d1, Logged(FsFailed(e)))
      case Success(d2) =>
        match WriteFile(d2, out + ".map", t.sourceMap)
        case Failure(e) => Step(d2, Logged(FsFailed(e)))
        case Success(d3) => Step(d3, Compiled)
  }

  /** The copying branch of `doCompileOrCopy`; an error is caught and logged. */
  function CopyStep(d1: Disk, pathname: string, out: string): (r: Step)
    ensures Consistent(d1) ==> Consistent(r.disk)
    ensures d1.files.Keys <= r.disk.files.Keys && r.disk.dirs == d1.dirs
    ensures r.outcome == Copied || r.outcome.Logged?
    ensures r.outcome == Copied ==> pathname in d1.files && r.disk.files == d1.files[out := d1.files[pathname]]
    ensures r.outcome.Logged? ==> r.disk == d1
    ensures r.outcome == Copied <==> pathname in d1.files && out !in d1.dirs && Paths.Dirname(out) in d1.dirs
  {
    match CopyFile(d1, pathname, out)
    case Failure(e) => Step(d1, Logged(FsFailed(e)))
    case Success(d2) => Step(d2, Copied)
  }

  /**
   * `doCompileOrCopy(pathname, inputFolder, outputFolder)`. A directory is
   * skipped. Otherwise the artifact's directory is created and a recognised
   * script is transpiled and written with its map, any other file copied.
   * Errors of the transform, the writes and the copy are caught and logged;
   * those of `lstatSync` and `mkdirSync` are not.
   */
  function CompileOrCopyStep(d: Disk, pathname: string, inputFolder: string, outputFolder: string,
                             transpile: Transpiler): (r: Step)
    ensures Consistent(d) ==> Consistent(r.disk)
    ensures d.files.Keys <= r.disk.files.Keys && d.dirs <= r.disk.dirs
    ensures r.outcome.Skipped? <==> pathname in d.dirs
    ensures r.outcome.Skipped? || r.outcome.Rejected? ==> r.disk == d
    ensures r.outcome in {Skipped, Compiled, Copied} || r.outcome.Logged? || r.outcome.Rejected?
    ensures !Exists(d, pathname) ==> r == Step(d, Rejected(FsError("ENOENT", pathname)))
    ensures pathname in d.files && pathname !in d.dirs ==>
      r == ConvertStep(d, pathname, OutputFilename(pathname, inputFolder, outputFolder), transpile)
    ensures
      var out := OutputFilename(pathname, inputFolder, outputFolder);
      && r.disk.files.Keys <= d.files.Keys + {out, out + ".map"}
      && r.disk.dirs <= d.dirs + Ancestors(Paths.Dirname(out))
      && (forall q :: q in d.files && q != out && q != out + ".map" ==> r.disk.files[q] == d.files[q])
  {
    match IsDirectory(d, pathname)
    case Failure(e) => Step(d, Rejected(e))
    case Success(isDir) =>
      if isDir then Step(d, Skipped)
      else
        ConvertStep(d, pathname, OutputFilename(pathname, inputFolder, outputFolder), transpile)
  }

  /**
   * `doCompileOrCopy` for a regular file, once its artifact path `out` is
   * known: create the artifact's directory, then transpile or copy.
   */
  function ConvertStep(d: Disk, pathname: string, out: string, transpile: Transpiler): (r: Step)
    requires pathname in d.files
    ensures Consistent(d) ==> Consistent(r.disk)
    ensures d.files.Keys <= r.disk.files.Keys && d.dirs <= r.disk.dirs
    ensures r.outcome.Rejected? ==> r.disk == d
    ensures r.outcome in {Compiled, Copied} || r.outcome.Logged? || r.outcome.Rejected?
    ensures r.outcome == Compiled ==>
      && IsSupported(pathname)
      && transpile(pathname, d.files[pathname]).Success?
      && r.disk.files == d.files[out := transpile(pathname, d.files[pathname]).value.code + SourceMapComment(out)]
                                [out + ".map" := transpile(pathname, d.files[pathname]).value.sourceMap]
    ensures r.outcome == Copied ==>
      && !IsSupported(pathname)
      && r.disk.files == d.files[out := d.files[pathname]]
      && r.disk.dirs == d.dirs + Ancestors(Paths.Dirname(out))
    ensures IsSupported(pathname) && transpile(pathname, d.files[pathname]).Failure? ==>
      r.disk.files == d.files
      && (r.outcome.Rejected? || r.outcome == Logged(TransformFailed(transpile(pathname, d.files[pathname]).error)))
    ensures r.outcome.Rejected? <==> !(Ancestors(Paths.Dirname(out)) !! d.files.Keys)
    ensures !r.outcome.Rejected? ==> r.disk.dirs == d.dirs + Ancestors(Paths.Dirname(out))
    ensures r.outcome == Compiled <==>
      && IsSupported(pathname)
      && transpile(pathname, d.files[pathname]).Success?
      && Ancestors(Paths.Dirname(out)) !! d.files.Keys
      && out !in d.dirs + Ancestors(Paths.Dirname(out))
      && out + ".map" !in d.dirs + Ancestors(Paths.Dirname(out))
    ensures r.outcome == Copied <==>
      && !IsSupported(pathname)
      && Ancestors(Paths.Dirname(out)) !! d.files.Keys
      && out !in d.dirs + Ancestors(Paths.Dirname(out))
    ensures r.disk.files.Keys <= d.files.Keys + {out, out + ".map"}
    ensures forall q :: q in d.files && q != out && q != out + ".map" ==> r.disk.files[q] == d.files[q]
  {
    match MkdirRecursive(d, Paths.Dirname(out))
    case Failure(e) => Step(d, Rejected(e))
    case Success(d1) =>
      if IsSupported(pathname) then TranspileStep(d1, pathname, d.files[pathname], out, transpile)
      else CopyStep(d1, pathname, out)
  }

  /**
   * A recognised script whose transform succeeds is compiled whenever its
   * artifact's directory can be created and neither the artifact nor its map
   * path is a directory. It gets exactly two new or replaced files, the
   * artifact and its map; the artifact is the transpiled code followed by the
   * comment that points at `./<artifact name>.map`. No other file changes.
   */
  lemma CompiledWritesArtifactAndMap(d: Disk, pathname: string, inputFolder: string, outputFolder: string,
                                     transpile: Transpiler)
    requires pathname in d.files && pathname !in d.dirs && IsSupported(pathname)
    requires transpile(pathname, d.files[pathname]).Success?
    requires Ancestors(Paths.Dirname(OutputFilename(pathname, inputFolder, outputFolder))) !! d.files.Keys
    requires OutputFilename(pathname, inputFolder, outputFolder) !in d.dirs
    requires OutputFilename(pathname, inputFolder, outputFolder) + ".map" !in d.dirs
    requires OutputFilename(pathname, inputFolder, outputFolder)
               !in Ancestors(Paths.Dirname(OutputFilename(pathname, inputFolder, outputFolder)))
    requires OutputFilename(pathname, inputFolder, outputFolder) + ".map"
               !in Ancestors(Paths.Dirname(OutputFilename(pathname, inputFolder, outputFolder)))
    ensures
      var r := CompileOrCopyStep(d, pathname, inputFolder, outputFolder, transpile);
      var out := OutputFilename(pathname, inputFolder, outputFolder);
      && r.outcome == Compiled
      && r.disk.files.Keys == d.files.Keys + {out, out + ".map"}
      && (forall q :: q in d.files && q != out && q != out + ".map" ==> r.disk.files[q] == d.files[q])
      && r.disk.files[out] == transpile(pathname, d.files[pathname]).value.code + SourceMapComment(out)
      && EndsWith(r.disk.files[out], EOL + "//# sourceMappingURL=./" + Paths.Basename(out) + ".map")
      && r.disk.files[out + ".map"] == transpile(pathname, d.files[pathname]).value.sourceMap
  {
    var out := OutputFilename(pathname, inputFolder, outputFolder);
    assert IsDirectory(d, pathname) == Success(false);
    var t := transpile(pathname, d.files[pathname]).value;
    var code := t.code + SourceMapComment(out);
    WriteTwice(d.files, out, code, t.sourceMap);
    EndsWithComment(t.code, out);
  }

  /** The artifact and its map written one after the other: two distinct entries, nothing else touched. */
  lemma WriteTwice(files: map<string, string>, out: string, code: string, sourceMap: string)
    ensures
      var after := files[out := code][out + ".map" := sourceMap];
      && after.Keys == files.Keys + {out, out + ".map"}
      && (forall q :: q in files && q != out && q != out + ".map" ==> after[q] == files[q])
      && after[out] == code && after[out + ".map"] == sourceMap
  {
    assert out != out + ".map" by { assert |out| != |out + ".map"|; }
  }

  /** Transpiled code with the comment appended ends with the line naming the map. */
  lemma EndsWithComment(code: string, out: string)
    ensures EndsWith(code + SourceMapComment(out), EOL + "//# sourceMappingURL=./" + Paths.Basename(out) + ".map")
  {
    var all := code + SourceMapComment(out);
    assert all[|all| - |SourceMapComment(out)|..] == SourceMapComment(out);
  }

  /**
   * A file without a recognised extension is copied unchanged to its
   * artifact path whenever that path's directory can be created and the path
   * is not a directory; no map is written.
   */
  lemma CopiedWritesCopyOnly(d: Disk, pathname: string, inputFolder: string, outputFolder: string,
                             transpile: Transpiler)
    requires pathname in d.files && pathname !in d.dirs && !IsSupported(pathname)
    requires Ancestors(Paths.Dirname(OutputFilename(pathname, inputFolder, outputFolder))) !! d.files.Keys
    requires OutputFilename(pathname, inputFolder, outputFolder) !in d.dirs
    requires OutputFilename(pathname, inputFolder, outputFolder)
               !in Ancestors(Paths.Dirname(OutputFilename(pathname, inputFolder, outputFolder)))
    ensures
      var r := CompileOrCopyStep(d, pathname, inputFolder, outputFolder, transpile);
      var out := OutputFilename(pathname, inputFolder, outputFolder);
      && r.outcome == Copied
      && r.disk.files == d.files[out := d.files[pathname]]
      && r.disk.dirs == d.dirs + Ancestors(Paths.Dirname(out))
  {
    assert IsDirectory(d, pathname) == Success(false);
  }

  /** Whatever led to it, a compile leaves the artifact and its map, a copy the artifact. */
  lemma BuiltOutputsPresent(d: Disk, pathname: string, inputFolder: string, outputFolder: string,
                            transpile: Transpiler)
    requires CompileOrCopyStep(d, pathname, inputFolder, outputFolder, transpile).outcome in {Compiled, Copied}
    ensures
      var r := CompileOrCopyStep(d, pathname, inputFolder, outputFolder, transpile);
      var out := OutputFilename(pathname, inputFolder, outputFolder);
      && out in r.disk.files
      && (r.outcome == Compiled ==> out + ".map" in r.disk.files)
  {
    assert IsDirectory(d, pathname) == Success(false);
  }

  /**
   * When the transform throws, neither artifact nor map is written: the
   * writes come only after the transform returns. The error is logged and
   * does not escape.
   */
  lemma FailedTransformWritesNothing(d: Disk, pathname: string, inputFolder: string, outputFolder: string,
                                     transpile: Transpiler)
    requires pathname in d.files && pathname !in d.dirs && IsSupported(pathname)
    requires transpile(pathname, d.files[pathname]).Failure?
    ensures
      var r := CompileOrCopyStep(d, pathname, inputFolder, outputFolder, transpile);
      && r.disk.files == d.files
      && (r.outcome.Rejected? || r.outcome == Logged(TransformFailed(transpile(pathname, d.files[pathname]).error)))
  {
    var out := OutputFilename(pathname, inputFolder, outputFolder);
    assert IsDirectory(d, pathname) == Success(false);
  }

  /**
   * The `unlink` handler: removes the file at the path with the input folder
   * replaced by the output folder, its extension NOT rewritten, then that
   * path's `.map` if something exists there. Both `unlinkSync` calls may
   * throw, uncaught.
   */
  function UnlinkStep(d: Disk, pathname: string, inputFolder: string, outputFolder: string): (r: Step)
    ensures r.disk.dirs == d.dirs
    ensures Consistent(d) ==> Consistent(r.disk)
    ensures
      var out := ReplaceFirst(pathname, inputFolder, outputFolder);
      && (Consistent(d) ==> (r.outcome.Deleted? <==> out in d.files && out + ".map" !in d.dirs))
      && (r.outcome.Deleted? ==> r.disk.files == d.files - {out, out + ".map"})
      && (r.outcome.Deleted? && out + ".map" in d.files ==> out + ".map" !in r.disk.files)
      && (r.outcome.Deleted? && out + ".map" !in d.files ==> r.disk.files == d.files - {out})
      && (out !in d.files ==> r == Step(d, Rejected(FsError(if out in d.dirs then "EISDIR" else "ENOENT", out))))
      && (forall q :: q in d.files && q != out && q != out + ".map" ==> q in r.disk.files && r.disk.files[q] == d.files[q])
    ensures r.outcome.Deleted? || r.outcome.Rejected?
  {
    var out := ReplaceFirst(pathname, inputFolder, outputFolder);
    var mapFile := out + ".map";
    match Unlink(d, out)
    case Failure(e) => Step(d, Rejected(e))
    case Success(d1) =>
      if Exists(d1, mapFile) then
        match Unlink(d1, mapFile)
        case Failure(e) => Step(d1, Rejected(e))
        case Success(d2) => Step(d2, Deleted)
      else
        Step(d1, Deleted)
  }

  /** What a one-shot pass or a watch session did: the final disk and one outcome per handled file. */
  datatype Pass = Pass(disk: Disk, outcomes: seq<StepOutcome>)

  /**
   * The part of `doCompileOrCopy` that runs before its first `await`:
   * `lstatSync`, `mkdirSync` and, for a file without a recognised extension,
   * the whole copy. A recognised script stops at the transform it started:
   * `Transforming`, with the content the transform reads. Its writes wait
   * until the transform returns.
   */
  function StartStep(d: Disk, pathname: string, inputFolder: string, outputFolder: string): (r: Step)
    ensures Consistent(d) ==> Consistent(r.disk)
    ensures d.files.Keys <= r.disk.files.Keys && d.dirs <= r.disk.dirs
    ensures r.outcome.Skipped? <==> pathname in d.dirs
    ensures r.outcome.Skipped? || r.outcome.Rejected? ==> r.disk == d
    ensures r.outcome in {Skipped, Copied} || r.outcome.Transforming? || r.outcome.Logged? || r.outcome.Rejected?
    ensures !Exists(d, pathname) ==> r == Step(d, Rejected(FsError("ENOENT", pathname)))
    ensures
      var out := OutputFilename(pathname, inputFolder, outputFolder);
      pathname in d.files && pathname !in d.dirs ==>
        (r.outcome.Rejected? <==> !(Ancestors(Paths.Dirname(out)) !! d.files.Keys))
    ensures
      var out := OutputFilename(pathname, inputFolder, outputFolder);
      r.outcome.Transforming? <==>
        pathname in d.files && pathname !in d.dirs && IsSupported(pathname)
        && Ancestors(Paths.Dirname(out)) !! d.files.Keys
    ensures
      var out := OutputFilename(pathname, inputFolder, outputFolder);
      r.outcome.Transforming? ==>
        r == Step(Disk(d.files, d.dirs + Ancestors(Paths.Dirname(out))), Transforming(d.files[pathname]))
    ensures
      var out := OutputFilename(pathname, inputFolder, outputFolder);
      r.outcome == Copied <==>
        pathname in d.files && pathname !in d.dirs && !IsSupported(pathname)
        && Ancestors(Paths.Dirname(out)) !! d.files.Keys
        && out !in d.dirs + Ancestors(Paths.Dirname(out))
    ensures
      var out := OutputFilename(pathname, inputFolder, outputFolder);
      r.outcome == Copied ==>
        r.disk == Disk(d.files[out := d.files[pathname]], d.dirs + Ancestors(Paths.Dirname(out)))
    ensures IsSupported(pathname) ==> r.disk.files == d.files
    ensures
      var out := OutputFilename(pathname, inputFolder, outputFolder);
      && r.disk.files.Keys <= d.files.Keys + {out}
      && r.disk.dirs <= d.dirs + Ancestors(Paths.Dirname(out))
      && (forall q :: q in d.files && q != out ==> r.disk.files[q] == d.files[q])
  {
    match IsDirectory(d, pathname)
    case Failure(e) => Step(d, Rejected(e))
    case Success(isDir) =>
      if isDir then Step(d, Skipped)
      else
        var out := OutputFilename(pathname, inputFolder, outputFolder);
        match MkdirRecursive(d, Paths.Dirname(out))
        case Failure(e) => Step(d, Rejected(e))
        case Success(d1) =>
          if IsSupported(pathname) then Step(d1, Transforming(d.files[pathname]))
          else CopyStep(d1, pathname, out)
  }

  /**
   * The rest of a started conversion, once its transform returns: a
   * `Transforming` script gets its artifact and map written, on the disk as
   * it is by then; any other outcome stands.
   */
  function FinishStep(d: Disk, pathname: string, started: StepOutcome, inputFolder: string, outputFolder: string,
                      transpile: Transpiler): (r: Step)
    ensures Consistent(d) ==> Consistent(r.disk)
    ensures d.files.Keys <= r.disk.files.Keys && r.disk.dirs == d.dirs
    ensures !started.Transforming? ==> r == Step(d, started)
    ensures started.Transforming? ==> r.outcome == Compiled || r.outcome.Logged?
    ensures
      var out := OutputFilename(pathname, inputFolder, outputFolder);
      && r.disk.files.Keys <= d.files.Keys + {out, out + ".map"}
      && (forall q :: q in d.files && q != out && q != out + ".map" ==> r.disk.files[q] == d.files[q])
  {
    if started.Transforming? then
      TranspileStep(d, pathname, started.source, OutputFilename(pathname, inputFolder, outputFolder), transpile)
    else Step(d, started)
  }

  /**
   * Started and finished with nothing in between, a conversion is
   * `doCompileOrCopy` whole: the case of a watch event handled on its own.
   */
  lemma StartThenFinish(d: Disk, pathname: string, inputFolder: string, outputFolder: string, transpile: Transpiler)
    ensures
      var s := StartStep(d, pathname, inputFolder, outputFolder);
      CompileOrCopyStep(d, pathname, inputFolder, outputFolder, transpile)
        == FinishStep(s.disk, pathname, s.outcome, inputFolder, outputFolder, transpile)
  {
    if pathname in d.files && pathname !in d.dirs {
      var out := OutputFilename(pathname, inputFolder, outputFolder);
      assert IsDirectory(d, pathname) == Success(false);
      assert CompileOrCopyStep(d, pathname, inputFolder, outputFolder, transpile)
          == ConvertStep(d, pathname, out, transpile);
    }
  }

  /** A file-system notification, as the watcher delivers it. */
  datatype WatchEvent = Add(path: string) | Change(path: string) | Remove(path: string)

  /**
   * The handler the watcher runs for one event: an added and a changed file
   * are both converted, a removed one has its artifact deleted. Only a
   * removal deletes, and a removal either deletes or throws.
   */
  function HandleEvent(d: Disk, event: WatchEvent, inputFolder: string, outputFolder: string,
                       transpile: Transpiler): (r: Step)
    ensures r.outcome.Deleted? ==> event.Remove?
    ensures event.Remove? ==> r.outcome.Deleted? || r.outcome.Rejected?
    ensures !event.Remove? ==> (r.outcome.Skipped? <==> event.path in d.dirs)
  {
    match event
    case Add(p) => CompileOrCopyStep(d, p, inputFolder, outputFolder, transpile)
    case Change(p) => CompileOrCopyStep(d, p, inputFolder, outputFolder, transpile)
    case Remove(p) => UnlinkStep(d, p, inputFolder, outputFolder)
  }

  /** A changed file is handled exactly as an added one. */
  lemma ChangeHandledAsAdd(d: Disk, pathname: string, inputFolder: string, outputFolder: string,
                           transpile: Transpiler)
    ensures HandleEvent(d, Change(pathname), inputFolder, outputFolder, transpile)
         == HandleEvent(d, Add(pathname), inputFolder, outputFolder, transpile)
  {
  }

  /**
   * A watch session over a given sequence of events, handled one at a time.
   * An error that escapes a handler ends the process, so no later event is
   * handled.
   */
  function Session(d: Disk, events: seq<WatchEvent>, inputFolder: string, outputFolder: string,
                   transpile: Transpiler): (r: Pass)
    ensures 0 < |r.outcomes| <= |events| || (events == [] && r.outcomes == [])
    ensures forall k :: 0 <= k < |r.outcomes| - 1 ==> !r.outcomes[k].Rejected?
    ensures |r.outcomes| < |events| ==> r.outcomes[|r.outcomes| - 1].Rejected?
    decreases |events|
  {
    if events == [] then Pass(d, [])
    else
      var step := HandleEvent(d, events[0], inputFolder, outputFolder, transpile);
      if step.outcome.Rejected? then Pass(step.disk, [step.outcome])
      else
        var rest := Session(step.disk, events[1..], inputFolder, outputFolder, transpile);
        var outcomes := [step.outcome] + rest.outcomes;
        assert forall k :: 0 < k < |outcomes| ==> outcomes[k] == rest.outcomes[k - 1];
        Pass(rest.disk, outcomes)
  }

  /** A session was ended by an error that escaped a handler. */
  predicate Stopped(p: Pass) {
    p.outcomes != [] && p.outcomes[|p.outcomes| - 1].Rejected?
  }

  /** A session of one event is that event's handler, whatever its outcome. */
  lemma SessionOne(d: Disk, event: WatchEvent, inputFolder: string, outputFolder: string, transpile: Transpiler)
    ensures
      var step := HandleEvent(d, event, inputFolder, outputFolder, transpile);
      Session(d, [event], inputFolder, outputFolder, transpile) == Pass(step.disk, [step.outcome])
  {
    assert [event][1..] == [];
  }

  /** A session whose first event is handled without rejection goes on from the disk that handler left. */
  lemma SessionCons(d: Disk, event: WatchEvent, rest: seq<WatchEvent>, inputFolder: string, outputFolder: string,
                    transpile: Transpiler)
    requires !HandleEvent(d, event, inputFolder, outputFolder, transpile).outcome.Rejected?
    ensures
      var step := HandleEvent(d, event, inputFolder, outputFolder, transpile);
      Session(d, [event] + rest, inputFolder, outputFolder, transpile)
        == Prepend([step.outcome], Session(step.disk, rest, inputFolder, outputFolder, transpile))
  {
    assert ([event] + rest)[1..] == rest;
  }

  /** A session whose first event is rejected ends there, whatever follows. */
  lemma SessionStop(d: Disk, event: WatchEvent, rest: seq<WatchEvent>, inputFolder: string, outputFolder: string,
                    transpile: Transpiler)
    requires HandleEvent(d, event, inputFolder, outputFolder, transpile).outcome.Rejected?
    ensures
      var step := HandleEvent(d, event, inputFolder, outputFolder, transpile);
      Session(d, [event] + rest, inputFolder, outputFolder, transpile) == Pass(step.disk, [step.outcome])
  {
    assert ([event] + rest)[0] == event;
  }

  /**
   * Events handled in two runs: a session over `a + b` is the session over
   * `a`, then, unless that one was stopped, a session over `b` from the disk
   * it left.
   */
  lemma {:induction false} SessionAppend(d: Disk, a: seq<WatchEvent>, b: seq<WatchEvent>, inputFolder: string,
                                         outputFolder: string, transpile: Transpiler)
    ensures
      var first := Session(d, a, inputFolder, outputFolder, transpile);
      var second := Session(first.disk, b, inputFolder, outputFolder, transpile);
      && (Stopped(first) ==> Session(d, a + b, inputFolder, outputFolder, transpile) == first)
      && (!Stopped(first) ==>
            |first.outcomes| == |a|
            && Session(d, a + b, inputFolder, outputFolder, transpile) == Prepend(first.outcomes, second))
    decreases |a|
  {
    if a == [] {
      assert a + b == b;
    } else {
      assert (a + b)[0] == a[0];
      assert (a + b)[1..] == a[1..] + b;
      var step := HandleEvent(d, a[0], inputFolder, outputFolder, transpile);
      if !step.outcome.Rejected? {
        SessionAppend(step.disk, a[1..], b, inputFolder, outputFolder, transpile);
        var tail := Session(step.disk, a[1..], inputFolder, outputFolder, transpile);
        AppendAssociative([step.outcome], tail.outcomes,
                          Session(tail.disk, b, inputFolder, outputFolder, transpile).outcomes);
      }
    }
  }

  /**
   * The `k`-th outcome of a session is the handler of the `k`-th event run
   * on the disk the earlier events left, which had not stopped the session.
   */
  lemma SessionStepAt(d: Disk, events: seq<WatchEvent>, k: nat, inputFolder: string, outputFolder: string,
                      transpile: Transpiler)
    requires k < |Session(d, events, inputFolder, outputFolder, transpile).outcomes|
    ensures
      var before := Session(d, events[..k], inputFolder, outputFolder, transpile);
      && !Stopped(before) && |before.outcomes| == k
      && Session(d, events, inputFolder, outputFolder, transpile).outcomes[k]
           == HandleEvent(before.disk, events[k], inputFolder, outputFolder, transpile).outcome
  {
    assert events == events[..k] + events[k..];
    SessionAppend(d, events[..k], events[k..], inputFolder, outputFolder, transpile);
    SessionFrom(Session(d, events[..k], inputFolder, outputFolder, transpile).disk, events, k,
                inputFolder, outputFolder, transpile);
  }

  /**
   * A session over two events of which the first is handled without an
   * escaping error: both handlers' outcomes, in order; a session the second
   * one stops ignores every later event.
   */
  lemma SessionOfTwo(d: Disk, first: WatchEvent, second: WatchEvent, more: seq<WatchEvent>,
                     inputFolder: string, outputFolder: string, transpile: Transpiler)
    requires !HandleEvent(d, first, inputFolder, outputFolder, transpile).outcome.Rejected?
    ensures
      var s1 := HandleEvent(d, first, inputFolder, outputFolder, transpile);
      var s2 := HandleEvent(s1.disk, second, inputFolder, outputFolder, transpile);
      && Session(d, [first, second], inputFolder, outputFolder, transpile) == Pass(s2.disk, [s1.outcome, s2.outcome])
      && (s2.outcome.Rejected? ==>
            Session(d, [first, second] + more, inputFolder, outputFolder, transpile)
              == Pass(s2.disk, [s1.outcome, s2.outcome]))
  {
    var s1 := HandleEvent(d, first, inputFolder, outputFolder, transpile);
    var s2 := HandleEvent(s1.disk, second, inputFolder, outputFolder, transpile);
    SessionPair(d, first, second, inputFolder, outputFolder, transpile);
    if s2.outcome.Rejected? {
      SessionPairStops(d, first, second, more, inputFolder, outputFolder, transpile);
    }
  }

  /** Two events, the first handled without rejection: both handlers run, in order. */
  lemma SessionPair(d: Disk, first: WatchEvent, second: WatchEvent, inputFolder: string, outputFolder: string,
                    transpile: Transpiler)
    requires !HandleEvent(d, first, inputFolder, outputFolder, transpile).outcome.Rejected?
    ensures
      var s1 := HandleEvent(d, first, inputFolder, outputFolder, transpile);
      var s2 := HandleEvent(s1.disk, second, inputFolder, outputFolder, transpile);
      Session(d, [first, second], inputFolder, outputFolder, transpile) == Pass(s2.disk, [s1.outcome, s2.outcome])
  {
    var s1 := HandleEvent(d, first, inputFolder, outputFolder, transpile);
    SessionCons(d, first, [second], inputFolder, outputFolder, transpile);
    SessionOne(s1.disk, second, inputFolder, outputFolder, transpile);
    assert [first] + [second] == [first, second];
  }

  /** A rejection at the second event ends the session there, whatever follows. */
  lemma SessionPairStops(d: Disk, first: WatchEvent, second: WatchEvent, more: seq<WatchEvent>,
                         inputFolder: string, outputFolder: string, transpile: Transpiler)
    requires !HandleEvent(d, first, inputFolder, outputFolder, transpile).outcome.Rejected?
    requires
      var s1 := HandleEvent(d, first, inputFolder, outputFolder, transpile);
      HandleEvent(s1.disk, second, inputFolder, outputFolder, transpile).outcome.Rejected?
    ensures
      var s1 := HandleEvent(d, first, inputFolder, outputFolder, transpile);
      var s2 := HandleEvent(s1.disk, second, inputFolder, outputFolder, transpile);
      Session(d, [first, second] + more, inputFolder, outputFolder, transpile) == Pass(s2.disk, [s1.outcome, s2.outcome])
  {
    var s1 := HandleEvent(d, first, inputFolder, outputFolder, transpile);
    SessionCons(d, first, [second] + more, inputFolder, outputFolder, transpile);
    SessionStop(s1.disk, second, more, inputFolder, outputFolder, transpile);
    assert [first] + ([second] + more) == [first, second] + more;
  }

  /**
   * A watch session that sees a `.js` source, or a file copied as it is,
   * added and then removed: the add builds it (compiled or copied), the
   * removal deletes both the artifact and the map path beside it, and the
   * session goes on.
   */
  lemma RemoveAfterAddDeletesArtifact(d: Disk, inputFolder: string, outputFolder: string, rest: string,
                                      transpile: Transpiler)
    requires Consistent(d)
    requires RewriteExtension(rest) == rest
    requires inputFolder + "/" + rest in d.files
    requires IsSupported(inputFolder + "/" + rest) ==>
               transpile(inputFolder + "/" + rest, d.files[inputFolder + "/" + rest]).Success?
    requires Ancestors(Paths.Dirname(outputFolder + "/" + rest)) !! d.files.Keys
    requires outputFolder + "/" + rest !in d.dirs + Ancestors(Paths.Dirname(outputFolder + "/" + rest))
    requires outputFolder + "/" + rest + ".map" !in d.dirs + Ancestors(Paths.Dirname(outputFolder + "/" + rest))
    ensures
      var p := inputFolder + "/" + rest;
      var s := Session(d, [Add(p), Remove(p)], inputFolder, outputFolder, transpile);
      && s.outcomes == [if IsSupported(p) then Compiled else Copied, Deleted]
      && outputFolder + "/" + rest !in s.disk.files
      && outputFolder + "/" + rest + ".map" !in s.disk.files
  {
    var p := inputFolder + "/" + rest;
    var out := outputFolder + "/" + rest;
    AddBuildsInPlace(d, inputFolder, outputFolder, rest, transpile);
    var built := HandleEvent(d, Add(p), inputFolder, outputFolder, transpile);
    ReplaceFolder(inputFolder, outputFolder, rest);
    var removed := HandleEvent(built.disk, Remove(p), inputFolder, outputFolder, transpile);
    assert removed == UnlinkStep(built.disk, p, inputFolder, outputFolder);
    assert removed.outcome == Deleted;
    SessionOfTwo(d, Add(p), Remove(p), [], inputFolder, outputFolder, transpile);
  }

  /** The add event of a source whose artifact keeps its name: built, with the artifact at `<output>/<rest>`. */
  lemma AddBuildsInPlace(d: Disk, inputFolder: string, outputFolder: string, rest: string, transpile: Transpiler)
    requires Consistent(d)
    requires RewriteExtension(rest) == rest
    requires inputFolder + "/" + rest in d.files
    requires IsSupported(inputFolder + "/" + rest) ==>
               transpile(inputFolder + "/" + rest, d.files[inputFolder + "/" + rest]).Success?
    requires Ancestors(Paths.Dirname(outputFolder + "/" + rest)) !! d.files.Keys
    requires outputFolder + "/" + rest !in d.dirs + Ancestors(Paths.Dirname(outputFolder + "/" + rest))
    requires outputFolder + "/" + rest + ".map" !in d.dirs + Ancestors(Paths.Dirname(outputFolder + "/" + rest))
    ensures
      var p := inputFolder + "/" + rest;
      var out := outputFolder + "/" + rest;
      var built := HandleEvent(d, Add(p), inputFolder, outputFolder, transpile);
      && built.outcome == (if IsSupported(p) then Compiled else Copied)
      && Consistent(built.disk)
      && out in built.disk.files && out + ".map" !in built.disk.dirs
  {
    var p := inputFolder + "/" + rest;
    OutputFilenameUnderFolder(inputFolder, outputFolder, rest);
    if IsSupported(p) {
      CompiledWritesArtifactAndMap(d, p, inputFolder, outputFolder, transpile);
    } else {
      CopiedWritesCopyOnly(d, p, inputFolder, outputFolder, transpile);
    }
  }

  /**
   * A watch session that sees a source with a rewritten extension (`.ts`,
   * `.tsx`, `.jsx`, `.mjs`) added and then removed: the add compiles it to
   * `<stem>.js`, but the removal looks for the artifact under the source's
   * own extension, finds nothing there and throws ENOENT, which ends the
   * session. The artifact and its map stay on disk.
   */
  lemma RemoveRewrittenSourceThrows(d: Disk, inputFolder: string, outputFolder: string, stem: string,
                                    e: string, more: seq<WatchEvent>, transpile: Transpiler)
    requires Consistent(d)
    requires e in SupportedExtensions && e != ".js"
    requires inputFolder + "/" + stem + e in d.files
    requires transpile(inputFolder + "/" + stem + e, d.files[inputFolder + "/" + stem + e]).Success?
    requires Ancestors(Paths.Dirname(outputFolder + "/" + stem)) !! d.files.Keys
    requires outputFolder + "/" + stem + ".js" !in d.dirs
    requires outputFolder + "/" + stem + ".js" + ".map" !in d.dirs
    requires outputFolder + "/" + stem + e !in d.files && outputFolder + "/" + stem + e !in d.dirs
    ensures
      var p := inputFolder + "/" + stem + e;
      var artifact := outputFolder + "/" + stem + ".js";
      var s := Session(d, [Add(p), Remove(p)] + more, inputFolder, outputFolder, transpile);
      && s.outcomes == [Compiled, Rejected(FsError("ENOENT", outputFolder + "/" + stem + e))]
      && artifact in s.disk.files && artifact + ".map" in s.disk.files
  {
    var p := inputFolder + "/" + stem + e;
    var x := outputFolder + "/" + stem;
    AddCompilesRenamed(d, inputFolder, outputFolder, stem, e, transpile);
    var built := HandleEvent(d, Add(p), inputFolder, outputFolder, transpile);
    var rest := stem + e;
    AppendAssociative(inputFolder + "/", stem, e);
    AppendAssociative(outputFolder + "/", stem, e);
    ReplaceFolder(inputFolder, outputFolder, rest);
    var removed := HandleEvent(built.disk, Remove(p), inputFolder, outputFolder, transpile);
    assert removed == UnlinkStep(built.disk, p, inputFolder, outputFolder);
    assert removed == Step(built.disk, Rejected(FsError("ENOENT", x + e)));
    SessionOfTwo(d, Add(p), Remove(p), more, inputFolder, outputFolder, transpile);
  }

  /**
   * The add event of a source with a rewritten extension: compiled to
   * `<output>/<stem>.js` and its map, leaving the path with the source's own
   * extension free.
   */
  lemma AddCompilesRenamed(d: Disk, inputFolder: string, outputFolder: string, stem: string, e: string,
                           transpile: Transpiler)
    requires Consistent(d)
    requires e in SupportedExtensions && e != ".js"
    requires inputFolder + "/" + stem + e in d.files
    requires transpile(inputFolder + "/" + stem + e, d.files[inputFolder + "/" + stem + e]).Success?
    requires Ancestors(Paths.Dirname(outputFolder + "/" + stem)) !! d.files.Keys
    requires outputFolder + "/" + stem + ".js" !in d.dirs
    requires outputFolder + "/" + stem + ".js" + ".map" !in d.dirs
    requires outputFolder + "/" + stem + e !in d.files && outputFolder + "/" + stem + e !in d.dirs
    ensures
      var p := inputFolder + "/" + stem + e;
      var artifact := outputFolder + "/" + stem + ".js";
      var built := HandleEvent(d, Add(p), inputFolder, outputFolder, transpile);
      && built.outcome == Compiled
      && artifact in built.disk.files && artifact + ".map" in built.disk.files
      && outputFolder + "/" + stem + e !in built.disk.files
      && outputFolder + "/" + stem + e !in built.disk.dirs
  {
    var p := inputFolder + "/" + stem + e;
    RenamedSourceCompiles(d, inputFolder, outputFolder, stem, e, transpile);
    assert HandleEvent(d, Add(p), inputFolder, outputFolder, transpile)
        == CompileOrCopyStep(d, p, inputFolder, outputFolder, transpile);
  }

  /** The conversion behind `AddCompilesRenamed`: what it writes and which directories it may create. */
  lemma RenamedSourceCompiles(d: Disk, inputFolder: string, outputFolder: string, stem: string, e: string,
                              transpile: Transpiler)
    requires Consistent(d)
    requires e in SupportedExtensions && e != ".js"
    requires inputFolder + "/" + stem + e in d.files
    requires transpile(inputFolder + "/" + stem + e, d.files[inputFolder + "/" + stem + e]).Success?
    requires Ancestors(Paths.Dirname(outputFolder + "/" + stem)) !! d.files.Keys
    requires outputFolder + "/" + stem + ".js" !in d.dirs
    requires outputFolder + "/" + stem + ".js" + ".map" !in d.dirs
    requires outputFolder + "/" + stem + e !in d.files && outputFolder + "/" + stem + e !in d.dirs
    ensures
      var artifact := outputFolder + "/" + stem + ".js";
      var built := CompileOrCopyStep(d, inputFolder + "/" + stem + e, inputFolder, outputFolder, transpile);
      && built.outcome == Compiled
      && artifact in built.disk.files && artifact + ".map" in built.disk.files
      && outputFolder + "/" + stem + e !in built.disk.files
      && outputFolder + "/" + stem + e !in built.disk.dirs
  {
    var p := inputFolder + "/" + stem + e;
    var x := outputFolder + "/" + stem;
    var artifact := x + ".js";
    var built := CompileOrCopyStep(d, p, inputFolder, outputFolder, transpile);
    RenamedPathsClear(x, e);
    RenamedSourceBuilt(d, inputFolder, outputFolder, stem, e, transpile);
    OutsideFootprint(d, built.disk, x + e, {artifact, artifact + ".map"}, Ancestors(Paths.Dirname(x)));
  }

  /** The writes and directory creations of converting a source whose extension is rewritten. */
  lemma RenamedSourceBuilt(d: Disk, inputFolder: string, outputFolder: string, stem: string, e: string,
                           transpile: Transpiler)
    requires Consistent(d)
    requires e in SupportedExtensions && e != ".js"
    requires inputFolder + "/" + stem + e in d.files
    requires transpile(inputFolder + "/" + stem + e, d.files[inputFolder + "/" + stem + e]).Success?
    requires Ancestors(Paths.Dirname(outputFolder + "/" + stem)) !! d.files.Keys
    requires outputFolder + "/" + stem + ".js" !in d.dirs
    requires outputFolder + "/" + stem + ".js" + ".map" !in d.dirs
    ensures
      var artifact := outputFolder + "/" + stem + ".js";
      var built := CompileOrCopyStep(d, inputFolder + "/" + stem + e, inputFolder, outputFolder, transpile);
      && built.outcome == Compiled
      && built.disk.files.Keys == d.files.Keys + {artifact, artifact + ".map"}
      && artifact in built.disk.files && artifact + ".map" in built.disk.files
      && built.disk.dirs <= d.dirs + Ancestors(Paths.Dirname(outputFolder + "/" + stem))
  {
    var p := inputFolder + "/" + stem + e;
    RenamedPathsClear(outputFolder + "/" + stem, e);
    RewrittenArtifactPath(inputFolder, outputFolder, stem, e);
    assert IsSupported(p) by { ExtensionOf(inputFolder + "/" + stem, e); }
    CompiledWritesArtifactAndMap(d, p, inputFolder, outputFolder, transpile);
  }

  /** A path that a step neither wrote nor could have created keeps its absence. */
  lemma OutsideFootprint(before: Disk, after: Disk, q: string, written: set<string>, created: set<string>)
    requires after.files.Keys == before.files.Keys + written
    requires after.dirs <= before.dirs + created
    requires q !in before.files && q !in before.dirs && q !in written && q !in created
    ensures q !in after.files && q !in after.dirs
  {
  }

  /**
   * The directories created for the artifact `x.js` hold neither that
   * artifact, nor its map, nor the path `x` with a rewritten extension.
   */
  lemma RenamedPathsClear(x: string, e: string)
    requires e in SupportedExtensions && e != ".js"
    ensures Paths.Dirname(x + ".js") == Paths.Dirname(x)
    ensures x + e != x + ".js" && x + e != x + ".js" + ".map"
    ensures forall q :: q in Ancestors(Paths.Dirname(x)) ==>
      q != x + e && q != x + ".js" && q != x + ".js" + ".map"
  {
    Paths.DirnameAppend(x, ".js");
    RenamedPathsDistinct(x, e);
    forall q | q in Ancestors(Paths.Dirname(x))
      ensures |q| < |x + e| && |q| < |x + ".js"| && |q| < |x + ".js" + ".map"|
    {
      assert IsPrefix(q, Paths.Dirname(x));
      if x != "" {
        Paths.DirnameNotLonger(x);
      }
    }
  }

  /** The artifact of `<input>/<stem><ext>` is `<output>/<stem>.js` for every recognised extension. */
  lemma RewrittenArtifactPath(inputFolder: string, outputFolder: string, stem: string, e: string)
    requires e in SupportedExtensions
    ensures OutputFilename(inputFolder + "/" + stem + e, inputFolder, outputFolder)
         == outputFolder + "/" + stem + ".js"
  {
    var rest := stem + e;
    assert inputFolder + "/" + stem + e == inputFolder + "/" + rest;
    OutputFilenameUnderFolder(inputFolder, outputFolder, rest);
    RewriteStem(stem, e);
  }

  /**
   * Removing a source whose extension the compiler rewrote (`.ts`, `.tsx`,
   * `.jsx`, `.mjs`) never touches the `.js` artifact built from it, nor that
   * artifact's map: the handler looks for the artifact under the source's
   * own extension.
   */
  lemma RemoveKeepsRewrittenArtifact(d: Disk, inputFolder: string, outputFolder: string, stem: string,
                                     e: string)
    requires e in SupportedExtensions && e != ".js"
    ensures
      var removed := UnlinkStep(d, inputFolder + "/" + stem + e, inputFolder, outputFolder);
      var artifact := outputFolder + "/" + stem + ".js";
      forall q :: q in {artifact, artifact + ".map"} && q in d.files ==>
        q in removed.disk.files && removed.disk.files[q] == d.files[q]
  {
    var rest := stem + e;
    assert inputFolder + "/" + stem + e == inputFolder + "/" + rest;
    ReplaceFolder(inputFolder, outputFolder, rest);
    var x := outputFolder + "/" + stem;
    assert outputFolder + "/" + rest == x + e;
    RenamedPathsDistinct(x, e);
  }

  /** A path with a rewritten extension, its `.js` artifact and their two maps are four different paths. */
  lemma RenamedPathsDistinct(x: string, e: string)
    requires e in SupportedExtensions && e != ".js"
    ensures x + e != x + ".js" && x + e != x + ".js" + ".map"
    ensures x + e + ".map" != x + ".js" && x + e + ".map" != x + ".js" + ".map"
  {
    var target := x + e;
    var artifact := x + ".js";
    assert target != artifact by {
      assert target[|x|..] == e && artifact[|x|..] == ".js";
    }
    assert target != artifact + ".map" by {
      assert target[|target| - 1] in {'s', 'x'};
      assert (artifact + ".map")[|artifact + ".map"| - 1] == 'p';
    }
    assert target + ".map" != artifact by {
      assert (target + ".map")[|target + ".map"| - 1] == 'p';
      assert artifact[|artifact| - 1] == 's';
    }
    assert target + ".map" != artifact + ".map" by {
      assert (target + ".map")[..|target|] == target;
      assert (artifact + ".map")[..|artifact|] == artifact;
    }
  }

  // ------------------------------------------------------------------
  // The same operations, performed step by step on the file system.
  // ------------------------------------------------------------------

  /** The part of `doCompileOrCopy` before its `await`, one `fs` call after the other. */
  method StartCompileOrCopy(fs: FileSystem, pathname: string, inputFolder: string, outputFolder: string)
    returns (outcome: StepOutcome)
    requires fs.Valid()
    modifies fs
    ensures fs.Valid()
    ensures Step(fs.State(), outcome) == StartStep(old(fs.State()), pathname, inputFolder, outputFolder)
  {
    var stat := fs.LstatIsDirectory(pathname);
    if stat.Failure? {
      return Rejected(stat.error);
    }
    if stat.value {
      return Skipped;
    }

    var inputFilename := pathname;
    var outputFilename := OutputFilename(inputFilename, inputFolder, outputFolder);

    var err := fs.MkdirSync(Paths.Dirname(outputFilename));
    if err.Some? {
      return Rejected(err.value);
    }

    if IsSupported(inputFilename) {
      return Transforming(fs.files[inputFilename]);
    } else {
      err := fs.CopyFileSync(inputFilename, outputFilename);
      if err.Some? {
        return Logged(FsFailed(err.value));
      }
      return Copied;
    }
  }

  /** The part of `doCompileOrCopy` after the transform of `source` returns: the two writes. */
  method FinishTranspile(fs: FileSystem, pathname: string, source: string, outputFilename: string,
                         transpile: Transpiler) returns (outcome: StepOutcome)
    requires fs.Valid()
    modifies fs
    ensures fs.Valid()
    ensures Step(fs.State(), outcome) == TranspileStep(old(fs.State()), pathname, source, outputFilename, transpile)
  {
    var transformed := transpile(pathname, source);
    if transformed.Failure? {
      return Logged(TransformFailed(transformed.error));
    }
    var code := transformed.value.code + SourceMapComment(outputFilename);
    var err := fs.WriteFileSync(outputFilename, code);
    if err.Some? {
      return Logged(FsFailed(err.value));
    }
    err := fs.WriteFileSync(outputFilename + ".map", transformed.value.sourceMap);
    if err.Some? {
      return Logged(FsFailed(err.value));
    }
    return Compiled;
  }

  /** `doCompileOrCopy` run alone: started, then finished as soon as its transform returns. */
  method CompileOrCopy(fs: FileSystem, pathname: string, inputFolder: string, outputFolder: string,
                       transpile: Transpiler) returns (outcome: StepOutcome)
    requires fs.Valid()
    modifies fs
    ensures fs.Valid()
    ensures Step(fs.State(), outcome) == CompileOrCopyStep(old(fs.State()), pathname, inputFolder, outputFolder, transpile)
  {
    StartThenFinish(fs.State(), pathname, inputFolder, outputFolder, transpile);
    outcome := StartCompileOrCopy(fs, pathname, inputFolder, outputFolder);
    if outcome.Transforming? {
      outcome := FinishTranspile(fs, pathname, outcome.source, OutputFilename(pathname, inputFolder, outputFolder),
                                 transpile);
    }
  }

  /** The watcher's `unlink` listener. */
  method OnUnlink(fs: FileSystem, pathname: string, inputFolder: string, outputFolder: string)
    returns (outcome: StepOutcome)
    requires fs.Valid()
    modifies fs
    ensures fs.Valid()
    ensures Step(fs.State(), outcome) == UnlinkStep(old(fs.State()), pathname, inputFolder, outputFolder)
  {
    var outputFilename := ReplaceFirst(pathname, inputFolder, outputFolder);
    var err := fs.UnlinkSync(outputFilename);
    if err.Some? {
      return Rejected(err.value);
    }
    var mapExists := fs.ExistsSync(outputFilename + ".map");
    if mapExists {
      err := fs.UnlinkSync(outputFilename + ".map");
      if err.Some? {
        return Rejected(err.value);
      }
    }
    return Deleted;
  }

  /** The listener the watcher calls for one event. */
  method OnEvent(fs: FileSystem, event: WatchEvent, inputFolder: string, outputFolder: string,
                 transpile: Transpiler) returns (outcome: StepOutcome)
    requires fs.Valid()
    modifies fs
    ensures fs.Valid()
    ensures Step(fs.State(), outcome) == HandleEvent(old(fs.State()), event, inputFolder, outputFolder, transpile)
  {
    match event
    case Add(p) => outcome := CompileOrCopy(fs, p, inputFolder, outputFolder, transpile);
    case Change(p) => outcome := CompileOrCopy(fs, p, inputFolder, outputFolder, transpile);
    case Remove(p) => outcome := OnUnlink(fs, p, inputFolder, outputFolder);
  }

  /** The outcomes already handled, put in front of what a session does from here on. */
  function Prepend(handled: seq<StepOutcome>, rest: Pass): Pass {
    Pass(rest.disk, handled + rest.outcomes)
  }

  /** A session from the `i`-th event on: that event's handler, then the rest unless it was rejected. */
  lemma SessionFrom(d: Disk, events: seq<WatchEvent>, i: nat, inputFolder: string, outputFolder: string,
                    transpile: Transpiler)
    requires i < |events|
    ensures
      var step := HandleEvent(d, events[i], inputFolder, outputFolder, transpile);
      Session(d, events[i..], inputFolder, outputFolder, transpile)
        == if step.outcome.Rejected? then Pass(step.disk, [step.outcome])
           else Prepend([step.outcome], Session(step.disk, events[i + 1..], inputFolder, outputFolder, transpile))
  {
    assert events[i..][0] == events[i];
    assert events[i..][1..] == events[i + 1..];
  }

  /** The watch branch of `compile`, fed a given sequence of events. */
  method Watch(fs: FileSystem, events: seq<WatchEvent>, inputFolder: string, outputFolder: string,
               transpile: Transpiler) returns (outcomes: seq<StepOutcome>)
    requires fs.Valid()
    modifies fs
    ensures fs.Valid()
    ensures Pass(fs.State(), outcomes) == Session(old(fs.State()), events, inputFolder, outputFolder, transpile)
  {
    outcomes := [];
    var i := 0;
    while i < |events|
      invariant 0 <= i <= |events|
      invariant fs.Valid()
      invariant Session(old(fs.State()), events, inputFolder, outputFolder, transpile)
             == Prepend(outcomes, Session(fs.State(), events[i..], inputFolder, outputFolder, transpile))
    {
      ghost var before := fs.State();
      var outcome := OnEvent(fs, events[i], inputFolder, outputFolder, transpile);
      WatchStep(old(fs.State()), before, fs.State(), outcomes, outcome, events, i, inputFolder, outputFolder, transpile);
      outcomes := outcomes + [outcome];
      if outcome.Rejected? {
        return;
      }
      i := i + 1;
    }
    assert outcomes + [] == outcomes;
  }

  /** The loop of `Watch`, one event further. */
  lemma WatchStep(start: Disk, before: Disk, after: Disk, outcomes: seq<StepOutcome>, outcome: StepOutcome,
                  events: seq<WatchEvent>, i: nat, inputFolder: string, outputFolder: string, transpile: Transpiler)
    requires i < |events|
    requires Session(start, events, inputFolder, outputFolder, transpile)
          == Prepend(outcomes, Session(before, events[i..], inputFolder, outputFolder, transpile))
    requires Step(after, outcome) == HandleEvent(before, events[i], inputFolder, outputFolder, transpile)
    ensures outcome.Rejected? ==>
      Session(start, events, inputFolder, outputFolder, transpile) == Pass(after, outcomes + [outcome])
    ensures !outcome.Rejected? ==>
      Session(start, events, inputFolder, outputFolder, transpile)
        == Prepend(outcomes + [outcome], Session(after, events[i + 1..], inputFolder, outputFolder, transpile))
  {
    SessionFrom(before, events, i, inputFolder, outputFolder, transpile);
    var here := Session(before, events[i..], inputFolder, outputFolder, transpile);
    if outcome.Rejected? {
      assert here == Pass(after, [outcome]);
    } else {
      var later := Session(after, events[i + 1..], inputFolder, outputFolder, transpile);
      assert here == Pass(later.disk, [outcome] + later.outcomes);
      AppendAssociative(outcomes, [outcome], later.outcomes);
    }
  }
}
