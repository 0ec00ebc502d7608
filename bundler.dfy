/**
 * The bundle set-up of `src/build-application.js`: the per-project override
 * read from `esbuild.config.js`, the wildcard entry that lets dynamic imports
 * be bundled next to a client's entry point, and the options each `bundle`
 * call hands to esbuild. esbuild itself is not part of this model: a started
 * build is recorded as a job.
 */
module Bundler {
  import opened Wrappers
  import opened Text
  import Paths

  /** The one plugin the builder registers, the swc plugin. */
  datatype Plugin = SwcPlugin

  datatype BuildOptions = BuildOptions(
    entryPoints: seq<string>,
    outdir: string,
    bundle: bool,
    format: string,
    minify: bool,
    keepNames: bool,
    sourcemap: string,
    metafile: bool,
    plugins: seq<Plugin>)

  /** What the override function is called with: the `{}` of the load-time check, or the options. */
  datatype OverrideArgument = EmptyObject | Options(options: BuildOptions)

  /** What the override function returns: a plain object, taken as build options, or anything else. */
  datatype OverrideResult = PlainObject(options: BuildOptions) | NotPlainObject

  type Override = OverrideArgument -> OverrideResult

  /** The default export of `esbuild.config.js`. */
  datatype ConfigExport = FunctionExport(apply: Override) | OtherExport

  const NotAFunctionMessage: string :=
    "Invalid \"build.config.js\" file: default export must be a function"
  const NotAnObjectMessage: string :=
    "Invalid \"build.config.js\" file: default export must return an object"

  /**
   * The module-level loading of the override: none without a config file;
   * otherwise its default export must be a function whose result on `{}` is a
   * plain object, or loading throws.
   */
  function LoadOverride(configExists: bool, exported: ConfigExport): (r: Result<Option<Override>, string>)
    ensures r == Success(None) <==> !configExists
    ensures r.Success? && r.value.Some? <==>
      configExists && exported.FunctionExport? && exported.apply(EmptyObject).PlainObject?
    ensures r.Success? && r.value.Some? ==> r.value.value == exported.apply
    ensures r.Failure? ==> configExists
    ensures r.Failure? ==> (r.error == NotAFunctionMessage <==> exported.OtherExport?)
    ensures r.Failure? ==> (r.error == NotAnObjectMessage <==> exported.FunctionExport?)
  {
    if !configExists then Success(None)
    else if !exported.FunctionExport? then Failure(NotAFunctionMessage)
    else if !exported.apply(EmptyObject).PlainObject? then Failure(NotAnObjectMessage)
    else Success(Some(exported.apply))
  }

  /** `path.join(path.dirname(inputFile), "*" + path.extname(inputFile))` */
  function Wildcard(inputFile: string): string {
    Paths.Join(Paths.Dirname(inputFile), "*" + Paths.Extname(inputFile))
  }

  /**
   * A glob whose last segment is `*` followed by a suffix matches the paths
   * of the same directory whose base name ends with that suffix.
   */
  predicate MatchesWildcard(pattern: string, path: string) {
    var glob := Paths.Basename(pattern);
    Paths.Dirname(pattern) == Paths.Dirname(path)
    && |glob| > 0 && glob[0] == '*'
    && EndsWith(Paths.Basename(path), glob[1..])
  }

  /**
   * The wildcard entry names the entry point's directory and extension, so
   * the entry point itself, and every file beside it with its extension, is
   * bundled.
   */
  lemma WildcardCoversEntry(inputFile: string)
    requires Paths.Normalized(inputFile)
    ensures Paths.Dirname(Wildcard(inputFile)) == Paths.Dirname(inputFile)
    ensures Paths.Basename(Wildcard(inputFile)) == "*" + Paths.Extname(inputFile)
    ensures MatchesWildcard(Wildcard(inputFile), inputFile)
  {
    var ext := Paths.Extname(inputFile);
    Paths.DirnameIsDirPath(inputFile);
    Paths.BasenameHasNoSeparator(inputFile);
    Paths.BasenameEndsWithExtname(inputFile);
    var b := Paths.Basename(inputFile);
    assert ext == b[|b| - |ext|..];
    assert forall j :: 0 <= j < |ext| ==> ext[j] == b[|b| - |ext| + j];
    assert Paths.IsSegment("*" + ext);
    Paths.SplitJoin(Paths.Dirname(inputFile), "*" + ext);
    assert ("*" + ext)[1..] == ext;
  }

  /** The options `bundle` builds before the override is applied. */
  function DefaultOptions(inputFile: string, outputFile: string): BuildOptions {
    BuildOptions(
      entryPoints := [Wildcard(inputFile)],
      outdir := Paths.Dirname(outputFile),
      bundle := true,
      format := "esm",
      minify := true,
      keepNames := true,
      sourcemap := "linked",
      metafile := true,
      plugins := [SwcPlugin])
  }

  /**
   * The default options bundle the entry point into the directory of the
   * output file, under the output file's own name.
   */
  lemma DefaultOptionsTargetOutput(inputFile: string, outdir: string, name: string)
    requires Paths.Normalized(inputFile)
    requires Paths.IsDirPath(outdir) && Paths.IsSegment(name)
    ensures |DefaultOptions(inputFile, Paths.Join(outdir, name)).entryPoints| == 1
    ensures MatchesWildcard(DefaultOptions(inputFile, Paths.Join(outdir, name)).entryPoints[0], inputFile)
    ensures DefaultOptions(inputFile, Paths.Join(outdir, name)).outdir == outdir
    ensures SwcPlugin in DefaultOptions(inputFile, Paths.Join(outdir, name)).plugins
  {
    WildcardCoversEntry(inputFile);
    Paths.SplitJoin(outdir, name);
  }

  /** A build started by `bundle`: its input, output, options and mode. */
  datatype BundleJob = BundleJob(inputFile: string, outputFile: string, options: OverrideResult, watch: bool)

  /**
   * The options esbuild receives: the defaults, or whatever the override
   * returns for them. That result is not checked again.
   */
  function EffectiveOptions(inputFile: string, outputFile: string, override: Option<Override>): OverrideResult {
    match override
    case None => PlainObject(DefaultOptions(inputFile, outputFile))
    case Some(f) => f(Options(DefaultOptions(inputFile, outputFile)))
  }

  /**
   * The process-wide state `bundle` touches: the output file the swc
   * plugin's `onEnd` callback writes errors to, and the builds started so
   * far.
   */
  class BundleContext {
    var outputFile: Option<string>
    var started: seq<BundleJob>
    const override: Option<Override>

    constructor (override: Option<Override>)
      ensures this.override == override
      ensures outputFile == None && started == []
    {
      this.override := override;
      outputFile := None;
      started := [];
    }

    /**
     * `bundle(inputFile, outputFile, watch)`: records the output file for the
     * plugin, builds the options, applies the override and starts the build.
     */
    method Bundle(inputFile: string, outputFile: string, watch: bool)
      modifies this
      ensures this.outputFile == Some(outputFile)
      ensures started == old(started) + [BundleJob(inputFile, outputFile, EffectiveOptions(inputFile, outputFile, override), watch)]
    {
      var dirname := Paths.Dirname(inputFile);
      var extension := Paths.Extname(inputFile);
      var wildcard := Paths.Join(dirname, "*" + extension);
      var outputDir := Paths.Dirname(outputFile);
      this.outputFile := Some(outputFile);

      var options := PlainObject(BuildOptions(
        entryPoints := [wildcard],
        outdir := outputDir,
        bundle := true,
        format := "esm",
        minify := true,
        keepNames := true,
        sourcemap := "linked",
        metafile := true,
        plugins := [SwcPlugin]));
      assert wildcard == Wildcard(inputFile);
      assert options.options == DefaultOptions(inputFile, outputFile);

      if override.Some? {
        options := override.value(Options(options.options));
      }

      started := started + [BundleJob(inputFile, outputFile, options, watch)];
    }
  }
}
