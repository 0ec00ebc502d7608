# soundworks-build, modelled in Dafny

This project models the build tool of soundworks applications. It covers three
things:

- `buildApplication(watch)`. It refuses to run when the reserved path
  `src/public` exists. Otherwise it mirrors `src` into `.build`: scripts with a
  recognised extension are transpiled and get a source map, and every other
  file is copied. In watch mode it keeps the mirror in step with add, change
  and unlink events. It then starts one esbuild bundle per browser client of
  the application configuration. When a bundle fails, the first error is
  written into the client's bundle as a script that shows it in the page.
- `locateProcessEntryPoint(role, basePathname)`. It finds a role's entry
  point among four candidate paths.
- `watchProcess(processName, inspect)`. It checks that a Node process of the
  application was built, then forks it in watch mode.

The files:

- `wrappers.dfy`: `Option` and `Result`.
- `text.dfy`: the JavaScript string operations used. These are `indexOf`,
  `endsWith`, `replace` with a string pattern (first occurrence only) and
  `replace` with a global literal regular expression (every occurrence, left
  to right).
- `paths.dfy`: POSIX `path.join`, `dirname`, `basename` and `extname`, for the
  normalized paths the tool builds.
- `filesystem.dfy`: the `fs` calls, as pure functions on a disk (files and
  directories), and the class `FileSystem`, whose methods make the same
  changes in place.
- `utils.dfy`: `src/utils.js`.
- `compiler.dfy`: the compiler section of `src/build-application.js`
  (`doCompileOrCopy` and the watch branch of `compile`). Each operation is a
  function on a disk, with a method that performs it call by call on a
  `FileSystem`. A conversion is also split at its `await`: the synchronous
  start, then the writes once the transform returns.
- `compile_pass.dfy`: the one-shot branch of `compile`. All conversions are
  started in walk order, and only then do the transforms return.
- `error_artifact.dfy`: `writeErrorInOutputFile` and the plugin's `onEnd`
  callback. It includes what a JavaScript template literal denotes, so the
  escaping can be judged.
- `bundler.dfy`: the override loaded from `esbuild.config.js`, and `bundle`.
  The latter is a method of `BundleContext`, the process-wide state `bundle`
  updates (`globalThis.outputFile` and the builds started).
- `build_application.dfy`: `buildApplication`, with its role loop.
- `watch_process.dfy`: `src/watch-process.js`.

Where the code departs from what one might expect of it, the model follows the
code:

- The fourth entry-point candidate is `index.tx`, not `index.ts`.
- Removing a source looks for its artifact under the source's own extension.
  For a `.js` source or a copied file, this deletes the artifact and its map.
  For a `.ts`, `.tsx`, `.jsx` or `.mjs` source nothing is there: the first
  `unlinkSync` throws ENOENT, the listener does not catch it, and the watch
  session ends. The `.js` artifact and its map stay behind.
- `watchProcess` checks only `target` against `"node"`, not `runtime`.
- No Node version is checked.

## Model

| member | source | states |
|---|---|---|
| Utils.RuntimeOrTarget | src/utils.js:10-12 | `target` wins whenever it is a non-empty string; otherwise `runtime` is returned as it is, absent or empty included |
| Utils.Candidates | src/utils.js:15-24 | there are exactly four candidates |
| Utils.CandidatesShape | src/utils.js:15-24 | for a role other than the server the candidates lie in `<base>/clients`, for the server in `<base>`; they are, in order, `<role>.js`, `<role>.ts`, `<role>/index.js` and `<role>/index.tx` |
| Utils.FirstIn | src/utils.js:26-31 | the index found names an existing path, and every earlier path does not exist; no index means no path exists |
| Utils.FirstInAt | src/utils.js:26-31 | an existing path after paths that all do not exist is the one the search returns |
| Utils.FirstInNone | src/utils.js:26-33 | when no path exists, the search finds nothing and reaches the throw |
| Utils.EntryPoint | src/utils.js:14-34 | success returns the first existing candidate, which exists; failure happens exactly when none of the four exists, and the error names the role |
| Utils.LocateProcessEntryPoint | src/utils.js:14-34 | the loop returns exactly what `EntryPoint` specifies |
| Compiler.SupportedExtension | src/build-application.js:23 | the extension found is one of `.js .jsx .mjs .ts .tsx` and ends the name; none found means the name ends with none of them |
| Compiler.IsSupported | src/build-application.js:40 | true exactly when the name ends with one of `.js .jsx .mjs .ts .tsx` |
| Compiler.ExtensionsExclusive | src/build-application.js:23 | a name ends with at most one recognised extension |
| Compiler.ExtensionOf | src/build-application.js:23 | the recognised extension of `stem + e` is `e` |
| Compiler.RewriteExtension | src/build-application.js:36 | a name without a recognised extension is unchanged; otherwise the stem is kept and the result ends with `.js` |
| Compiler.RewrittenExtension | src/build-application.js:36 | after the rewrite, a recognised name ends with `.js` and an unrecognised one still ends with no recognised extension |
| Compiler.RewriteExtensionIdempotent | src/build-application.js:36 | rewriting the extension twice equals rewriting it once |
| Compiler.RewriteStem | src/build-application.js:36 | `stem + e` becomes `stem + ".js"` for each recognised `e` |
| Compiler.RewriteAfterSeparator | src/build-application.js:36 | the rewrite touches only what follows the last separator |
| Compiler.ReplaceFolder | src/build-application.js:35 | a path starting with the input folder and `/` gets the output folder in its place |
| Compiler.OutputFilename | src/build-application.js:33-36 | the artifact name ends with `.js` exactly when the name with the folder replaced had a recognised extension, and otherwise ends with none; rewriting it again changes nothing |
| Compiler.OutputFilenameUnderFolder | src/build-application.js:33-36 | `<in>/<rest>` maps to `<out>/<rest>` with its extension rewritten |
| Compiler.RewrittenArtifactPath | src/build-application.js:33-36 | the artifact of `<in>/<stem><ext>` is `<out>/<stem>.js` for every recognised extension |
| Compiler.TranspileStep | src/build-application.js:41-64 | once the artifact's directory exists, the step compiles exactly when the transform succeeds and neither the artifact nor the map path is a directory; then the artifact holds the code plus the map comment and the `.map` file the map; a transform error is logged and changes nothing; only the artifact and its map may change, and no file is removed |
| Compiler.CopyStep | src/build-application.js:65-71 | the step copies exactly when the source is a file, its artifact path is not a directory and the artifact's directory exists; then the artifact holds the source's bytes; any other case is logged and changes nothing |
| Compiler.ConvertStep | src/build-application.js:38-72 | `mkdirSync` runs first: when a file stands in the way it escapes with the disk unchanged, and otherwise the artifact's directories exist afterwards, even when the transform then fails; a recognised script is compiled exactly when its transform succeeds and neither the artifact nor the map path is a directory; any other file is copied exactly when its artifact path is not a directory; a failed transform leaves every file as it was; only the artifact and its map may change |
| Compiler.CompileOrCopyStep | src/build-application.js:28-73 | a missing path rejects with ENOENT and changes nothing; a directory is skipped, and only a directory is; a regular file goes through `ConvertStep` at its `OutputFilename`; only the artifact and its map are written, only the directories above the artifact created, nothing removed, and the disk stays consistent |
| Compiler.CompiledWritesArtifactAndMap | src/build-application.js:38-61 | a recognised script whose transform succeeds, whose artifact directory can be created and whose artifact and map paths are not directories, is compiled: exactly two files are added or replaced, the artifact and its map; the artifact is the code followed by the `sourceMappingURL` line naming `./<name>.map`; no other file changes |
| Compiler.CopiedWritesCopyOnly | src/build-application.js:65-71 | a file without a recognised extension, whose artifact directory can be created and whose artifact path is not a directory, is copied: its content is at the artifact path, no map is written, and the artifact's directories now exist |
| Compiler.BuiltOutputsPresent | src/build-application.js:57-67 | a compiled file has its artifact and its map on disk, a copied one its artifact |
| Compiler.FailedTransformWritesNothing | src/build-application.js:41-64 | when the transform throws, no file is written and the error is either logged or escapes from `mkdirSync` |
| Compiler.UnlinkStep | src/build-application.js:87-95 | it deletes the output path (input folder replaced, extension NOT rewritten) and then its `.map` if one exists; a missing artifact throws ENOENT or EISDIR, uncaught; no other file changes |
| Compiler.StartStep | src/build-application.js:28-44 | the synchronous part of `doCompileOrCopy`, up to the `await`: a missing path rejects with ENOENT and changes nothing; a directory is skipped, and only a directory is; `mkdirSync` rejects exactly when a file stands above the artifact; otherwise a recognised script leaves the files as they were and starts its transform on the content it has now, and any other file is copied exactly when its artifact path is not a directory; only the artifact may be written, only the directories above it created |
| Compiler.FinishStep | src/build-application.js:44-64 | the rest of a conversion once its transform returns: a started transform ends compiled or logged, writing only the artifact and its map on the disk as it is by then; every other outcome stands and changes nothing |
| Compiler.StartThenFinish | src/build-application.js:28-73 | starting a conversion and finishing it with nothing in between is `doCompileOrCopy` whole |
| CompilePass.Start | src/build-application.js:76-80 | one outcome per walked path; nothing is removed; the disk stays consistent |
| CompilePass.Finish | src/build-application.js:59-64 | one outcome per path; no file is removed and no directory created; the disk stays consistent |
| CompilePass.FinishSettles | src/build-application.js:44-64 | each started transform ends compiled or logged, and every other outcome is kept |
| CompilePass.FirstRejection | src/build-application.js:81 | `Promise.all` reports a rejection exactly when one happened, and it is the first in walk order |
| CompilePass.OneShot | src/build-application.js:76-81 | one outcome per walked path; nothing is removed; the disk stays consistent; when a start was rejected the pass ends on the disk the starts left, so no transpiled artifact is written; the directories are those the starts created |
| CompilePass.OneShotRejection | src/build-application.js:76-81 | the pass is rejected exactly when a start was, with the first such error; settling the transforms rejects nothing |
| CompilePass.StartFootprint | src/build-application.js:28-44 | before any transform returns, only the copies of unrecognised files are written and only the directories above artifacts created; every other file keeps its content |
| CompilePass.OneShotStepAt | src/build-application.js:76-81 | the `i`-th start runs on the disk the earlier starts left; unless a start was rejected, the `i`-th outcome is that start settled on the disk the earlier settlings left |
| CompilePass.OneShotFootprint | src/build-application.js:76-81 | the pass writes only the artifact and map paths of the walked files and creates only the directories above them; every other file keeps its content |
| CompilePass.OneShotKeepsOutputs | src/build-application.js:76-81 | later conversions remove nothing: a path that was compiled or copied still has its artifact at the end, and a compiled one its map |
| CompilePass.StartNeverRejects | src/build-application.js:29-38 | when every walked path exists and no artifact or map path clashes with an existing or created directory, no start is rejected |
| CompilePass.StartBuildsFile | src/build-application.js:28-44 | under the same conditions, a walked regular file that no earlier copy overwrote starts its transform on its own content when recognised, and is copied otherwise; its artifact's directory exists afterwards |
| CompilePass.OneShotBuildsEveryFile | src/build-application.js:76-81 | when every walked path exists and no existing file or artifact path is, or becomes, a directory, the pass is not rejected and every walked regular file that no earlier copy overwrote is built whatever the other files did: a recognised script whose transform succeeds is compiled and ends with its artifact and map, any other file is copied and ends with its artifact |
| Compiler.HandleEvent | src/build-application.js:85-95 | only an unlink deletes, and an unlink either deletes or throws; an add or a change is skipped exactly when its path is a directory |
| Compiler.ChangeHandledAsAdd | src/build-application.js:85-86 | a change is handled exactly as an add |
| Compiler.Session | src/build-application.js:83-95 | events are handled in order; only the last outcome may be an escaping error, and a session ends early only on one |
| Compiler.SessionAppend | src/build-application.js:83-95 | a session over `a + b` is the session over `a` when that one ended on an escaping error, and otherwise its outcomes followed by a session over `b` from the disk it left |
| Compiler.SessionStepAt | src/build-application.js:83-95 | the `k`-th outcome is the handler of the `k`-th event on the disk the earlier events left, and none of those ended the session |
| Compiler.RemoveAfterAddDeletesArtifact | src/build-application.js:85-95 | in a session that adds and then removes a `.js` source or a file copied as it is, the outcomes are compiled (or copied) then deleted, and neither the artifact nor the map path beside it remains |
| Compiler.RemoveRewrittenSourceThrows | src/build-application.js:85-91 | in a session that adds and then removes a `.ts`, `.tsx`, `.jsx` or `.mjs` source, the add compiles it and the removal throws ENOENT on `<out>/<stem><ext>`, which ends the session whatever events follow; the `.js` artifact and its map stay on disk |
| Compiler.RemoveKeepsRewrittenArtifact | src/build-application.js:87-92 | removing a `.ts`, `.tsx`, `.jsx` or `.mjs` source leaves its `.js` artifact and that artifact's map untouched |
| Compiler.RenamedPathsDistinct | src/build-application.js:88-91 | a path with a rewritten extension, its `.js` artifact and their two maps are four different paths |
| Compiler.StartCompileOrCopy | src/build-application.js:28-44 | the `fs` calls before the `await` leave the disk and the outcome `StartStep` specifies |
| Compiler.FinishTranspile | src/build-application.js:44-64 | the transform and the two writes leave the disk and the outcome `TranspileStep` specifies |
| Compiler.CompileOrCopy | src/build-application.js:28-73 | the `fs` calls, in the source's order, leave the disk and the outcome `CompileOrCopyStep` specifies |
| Compiler.OnUnlink | src/build-application.js:87-95 | the `unlink` listener leaves the disk and the outcome `UnlinkStep` specifies |
| Compiler.OnEvent | src/build-application.js:85-95 | each listener performs the step of its event kind |
| CompilePass.StartAll | src/build-application.js:76-80 | the `.map` over the walked paths performs `Start` |
| CompilePass.FinishAll | src/build-application.js:59-64 | the transforms returning, in walk order, perform `Finish` |
| CompilePass.CompileAll | src/build-application.js:76-81 | the pass stops after the starts when one was rejected, and otherwise settles the transforms: it performs `OneShot` |
| Compiler.Watch | src/build-application.js:83-96 | the listeners, fed the events in order, perform `Session`, and stop at the first escaping error |
| ErrorArtifact.EscapeMessage | src/build-application.js:105-107 | the two global replaces; `EscapeHead`, `EscapedMessageIsEscaped` and `EscapeRoundTrip` state what they achieve |
| ErrorArtifact.ErrorMessage | src/build-application.js:105-108 | the escapes, then the working directory shortened to "."; `ErrorMessageRoundTrip` states what the result denotes |
| ErrorArtifact.EscapeHead | src/build-application.js:105-107 | a backtick becomes ``\` ``, a `${` becomes `\${`, and every other character passes through |
| ErrorArtifact.EscapeFirst | src/build-application.js:105-107 | an escaped text starts with a backslash exactly where an escape begins |
| ErrorArtifact.EscapeRoundTrip | src/build-application.js:103-108 | for a diagnostic without a backslash, the template literal built from the escaped text denotes the diagnostic itself |
| ErrorArtifact.BackslashDefeatsEscaping | src/build-application.js:105-107 | for the diagnostic ``\` `` the escaped text is ``\\` ``, whose backtick ends the literal |
| ErrorArtifact.EscapedMessageIsEscaped | src/build-application.js:105-107 | after the escapes, every backtick and every `${` comes right after a backslash |
| ErrorArtifact.ShortenCommutes | src/build-application.js:105-108 | for a working directory with no backtick, `$`, `{` or backslash, shortening it after escaping equals escaping after shortening |
| ErrorArtifact.ShortenKeepsNoBackslash | src/build-application.js:108 | replacing the working directory by "." adds no backslash |
| ErrorArtifact.ErrorMessageRoundTrip | src/build-application.js:103-108 | under the same conditions, the logged literal denotes the diagnostic with the working directory shortened to ".", and no special character is left unescaped |
| ErrorArtifact.ErrorFile | src/build-application.js:114-117 | the artifact starts with a newline and the line ``document.body.innerHTML = `<pre style="…"><code><html></code></pre>`;``, and the next line is ``console.log(`<msg>`);`` |
| ErrorArtifact.ErrorArtifactText | src/build-application.js:105-117 | the text written for a diagnostic shows the HTML of the escaped, shortened message in the page, then logs that message |
| ErrorArtifact.OnEnd | src/build-application.js:134-146 | with errors, the artifact for the first one is written to the output file; without errors, nothing is written |
| Bundler.LoadOverride | src/build-application.js:151-165 | without a config file there is no override; otherwise the default export must be a function whose result on `{}` is a plain object, or loading fails with the message of the check that failed |
| Bundler.Wildcard | src/build-application.js:169-171 | `*` plus the entry point's extension, in its directory; `WildcardCoversEntry` states that it matches the entry point |
| Bundler.WildcardCoversEntry | src/build-application.js:168-171 | the wildcard lies in the entry point's directory and is `*` plus its extension, so it matches the entry point |
| Bundler.DefaultOptionsTargetOutput | src/build-application.js:172-188 | the default options have one entry, the wildcard, which matches the input; their output directory is the output file's directory; the swc plugin is registered |
| Bundler.DefaultOptions | src/build-application.js:178-188 | the default build options; `DefaultOptionsTargetOutput` states their entry, output directory and plugin |
| Bundler.EffectiveOptions | src/build-application.js:190-192 | the defaults, or the override's result on them when an override was loaded |
| Bundler.BundleContext.Bundle | src/build-application.js:167-192 | `globalThis.outputFile` becomes the output file, and one build is started with the defaults or the override's result on them |
| Builder.PublicFolderShape | src/build-application.js:254 | the public folder is `<cwd>/.build/public` (`/.build/public` when `cwd` is the root) and can be joined to |
| Builder.PublicOutput | src/build-application.js:254 | the bundle path of a role; `PublicOutputInPublicFolder` states where it lies |
| Builder.PublicOutputInPublicFolder | src/build-application.js:254 | each bundle is written to the public folder, `<cwd>/.build/public` (`/.build/public` for the root), as `<role>.js` |
| Builder.IsBrowser | src/build-application.js:246 | a client is bundled when `runtimeOrTarget` of its description is `"browser"` |
| Builder.BrowserRoles | src/build-application.js:245-248 | every browser client's role is listed, and every listed role is that of a browser client |
| Builder.Extend | src/build-application.js:245-257 | one turn of the role loop; `ExtendFollows` states that it keeps the plan in step with the browser roles |
| Builder.PlanBundles | src/build-application.js:245-257 | the role loop over the declared roles; `PlanFollowsBrowserRoles` states what it bundles |
| Builder.PlanFollowsBrowserRoles | src/build-application.js:245-257 | the role loop bundles exactly the browser roles, in declaration order, each from its located entry point; it stops at the first browser role without one, with that role's error |
| Builder.ExtendFollows | src/build-application.js:246-256 | one more declared role keeps the plan in step with the browser roles seen so far |
| Builder.AllBundledIffAllLocated | src/build-application.js:245-257 | the loop completes exactly when every browser role has an entry point |
| Builder.UnlocatedStops | src/build-application.js:253 | once a role's entry point is missing, the roles declared after it change nothing |
| Builder.ErrorsGoToLastBrowserOutput | src/build-application.js:176 | after the loop, the output file the plugin reads is the last browser role's bundle |
| Builder.BundleBrowserClients | src/build-application.js:245-257 | the loop starts the bundles of the plan, in order, and returns the missing-entry-point error when the plan has one |
| Builder.BuildApplication | src/build-application.js:225-257 | the reserved path exits with status 0 and changes nothing; a one-shot build performs the pass and fails with its first rejection, on the disk the starts left; otherwise the bundles of the plan are started over the resulting disk |
| WatchProcess.ProcessPath | src/watch-process.js:23-46 | the path of the built process; `ProcessPathShape` states it for the server and for a client |
| WatchProcess.ProcessPathShape | src/watch-process.js:23-46 | the server runs from `.build/server/index.js`, and a client from `.build/clients/<name>/index.js` |
| WatchProcess.BuildExecArgv | src/watch-process.js:12-20 | the three default flags, in order, then `--inspect` when asked |
| WatchProcess.WatchProcess | src/watch-process.js:8-62 | the server is launched exactly when its artifact exists, without reading the configuration; another process must be declared with target "node" and be built; each refusal exits with status 0 and its message; `clients` undefined or `null` throws a TypeError, and a `clients` that is not an object declares nothing |

## Left out

- Console output, colours and the SIGINT handler are not modelled; neither is the `fork` call itself, which is the `Launch` outcome.
- swc and esbuild are parameters or are not modelled. The transform is a function from path and content to code and map. A started bundle is a recorded job. Bundling, and the swc plugin's `onLoad`, are not modelled.
- AnsiUp's conversion to HTML is a parameter.
- The directory walk (klaw-sync) and the chokidar events are given lists. The walk's absolute-to-relative step is assumed done.
- `path.relative`, which computes the `sourceFileName` given to swc, is not modelled: it changes only what goes into the source map, which is opaque here.
- Paths are the normalized, relative paths the tool builds. `path.join` is modelled for two segments that need no normalization.
- Files are text. Encodings and `os.EOL` on Windows are not modelled; EOL is "\n".
- `replace` replacement strings are taken literally. `$` patterns in them cannot occur with the tool's folders.
- ErrorArtifact.ErrorMessage: the working directory is matched as a literal string. The source builds a regular expression from it, so a working directory holding regular-expression syntax is not modelled.
- ErrorArtifact.TemplateText: models only the escapes the tool can produce (`\\`, ``\` ``, `\$`, `\{`). Other escapes are treated as an invalid body.
- ErrorArtifact.EscapeRoundTrip: holds only for diagnostics without a backslash; `BackslashDefeatsEscaping` shows why the source's escaping cannot promise more.
- The one-shot pass is modelled in two phases. First every conversion runs up to its `await`, in walk order. A conversion rejects only there, so `Promise.all` rejects with the first rejection in walk order. Then the transforms return.
- Compiler.Session: each watch handler is taken to finish before the next event is handled. The listeners are not awaited, so two events that come quickly can overlap: a removal can run while an earlier add of the same file still waits for its transform. `RemoveAfterAddDeletesArtifact` and `RemoveRewrittenSourceThrows` describe only the case where the add finished first.
- CompilePass.OneShot: the transforms are taken to return in walk order. swc may finish them in another order, and the order decides which write wins when two artifacts share a path. Each transform reads the source's content when it starts. A rejection is taken to end the process before any transform returns, as Node does on an unhandled rejection.
- Symbolic links are not modelled. `lstatSync` does not follow them, so a link to a directory is handled as a file and its copy is logged as failed.
- The `bundle` calls are not awaited by the source. `globalThis.outputFile` is modelled as left by the role loop. Resetting it to `null` after a completed one-shot build is not modelled.
- A missing entry point throws inside an async function, and the model returns it as an outcome. Node ends the process on that unhandled rejection. The rejections of a watch listener are modelled as ending the session in the same way.
- `mkdirSync` with `recursive` is modelled as creating all or nothing.
- `loadConfig`, JSON5 parsing and the dynamic `import` are inputs: the client list in declaration order, and the parsed `clients` field.
- Client entries that are not objects or are falsy are not modelled. A `clients` string or array indexed by a digit name is modelled as declaring nothing. Neither are prototype keys or JavaScript's ordering of integer-like keys.
- `src/delete-build.js`, `bin/` and the tests are not part of this model.
- CompilePass.OneShot: its own contract states the shape of the pass and what a rejection leaves. What each conversion does is stated by `OneShotStepAt`, `OneShotFootprint` and `OneShotBuildsEveryFile`.
- Compiler.Session: its own contract states only where an escaping error may sit. What each outcome is is stated by `SessionStepAt` and `SessionAppend`.
- Utils.Candidates: its own contract gives only the count. `CandidatesShape` gives the four paths in order, for a role that is one path segment and a base directory other than the root.
