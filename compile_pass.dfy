/**
 * The one-shot pass of `compile` in `src/build-application.js`: every walked
 * path's conversion is started in walk order (its synchronous part runs at
 * once), and only when none of them was rejected do the transpiled scripts'
 * writes land, one after the other.
 */
module CompilePass {
  import opened Wrappers
  import opened Text
  import Paths
  import opened FileSystem
  import opened Compiler

  /** The synchronous phase of the one-shot pass: every walked path's conversion started, in walk order. */
  function Start(d: Disk, paths: seq<string>, inputFolder: string, outputFolder: string): (r: Pass)
    ensures |r.outcomes| == |paths|
    ensures d.files.Keys <= r.disk.files.Keys && d.dirs <= r.disk.dirs
    ensures Consistent(d) ==> Consistent(r.disk)
    decreases |paths|
  {
    if paths == [] then Pass(d, [])
    else
      var p := Start(d, paths[..|paths| - 1], inputFolder, outputFolder);
      var s := StartStep(p.disk, paths[|paths| - 1], inputFolder, outputFolder);
      Pass(s.disk, p.outcomes + [s.outcome])
  }

  /**
   * The transforms of the started conversions returning, taken in walk
   * order: each `Transforming` script is settled, every other outcome kept.
   */
  function Finish(d: Disk, paths: seq<string>, started: seq<StepOutcome>, inputFolder: string, outputFolder: string,
                  transpile: Transpiler): (r: Pass)
    requires |started| == |paths|
    ensures |r.outcomes| == |paths|
    ensures d.files.Keys <= r.disk.files.Keys && r.disk.dirs == d.dirs
    ensures Consistent(d) ==> Consistent(r.disk)
    decreases |paths|
  {
    if paths == [] then Pass(d, [])
    else
      var p := Finish(d, paths[..|paths| - 1], started[..|paths| - 1], inputFolder, outputFolder, transpile);
      var s := FinishStep(p.disk, paths[|paths| - 1], started[|paths| - 1], inputFolder, outputFolder, transpile);
      Pass(s.disk, p.outcomes + [s.outcome])
  }

  /** Settling turns each `Transforming` outcome into `Compiled` or `Logged`, and keeps every other one. */
  lemma FinishSettles(d: Disk, paths: seq<string>, started: seq<StepOutcome>, inputFolder: string,
                                         outputFolder: string, transpile: Transpiler)
    requires |started| == |paths|
    ensures
      var r := Finish(d, paths, started, inputFolder, outputFolder, transpile);
      forall k :: 0 <= k < |paths| ==>
        if started[k].Transforming? then r.outcomes[k] == Compiled || r.outcomes[k].Logged?
        else r.outcomes[k] == started[k]
  {
    forall k | 0 <= k < |paths|
      ensures
        var r := Finish(d, paths, started, inputFolder, outputFolder, transpile);
        if started[k].Transforming? then r.outcomes[k] == Compiled || r.outcomes[k].Logged?
        else r.outcomes[k] == started[k]
    {
      FinishStepAt(d, paths, started, k, inputFolder, outputFolder, transpile);
    }
  }

  /** The rejection `Promise.all` reports: the first file whose conversion threw. */
  function FirstRejection(outcomes: seq<StepOutcome>): (r: Option<FsError>)
    ensures r.Some? <==> exists k :: 0 <= k < |outcomes| && outcomes[k].Rejected?
    ensures r.Some? ==>
      exists k :: (0 <= k < |outcomes| && outcomes[k] == Rejected(r.value)
                   && forall j :: 0 <= j < k ==> !outcomes[j].Rejected?)
  {
    if outcomes == [] then None
    else if outcomes[0].Rejected? then Some(outcomes[0].error)
    else
      var r := FirstRejection(outcomes[1..]);
      if r.Some? then
        var k :| 0 <= k < |outcomes[1..]| && outcomes[1..][k] == Rejected(r.value)
          && forall j :: 0 <= j < k ==> !outcomes[1..][j].Rejected?;
        assert outcomes[k + 1] == Rejected(r.value);
        r
      else r
  }

  /**
   * The one-shot branch of `compile`. `.map` starts every conversion before
   * any transform returns, so every `lstatSync`, `mkdirSync` and copy comes
   * first. A conversion that throws there rejects `Promise.all` at once: the
   * pass ends on that disk, with no transpiled artifact written. Otherwise
   * the transforms return and their artifacts and maps are written.
   */
  function OneShot(d: Disk, paths: seq<string>, inputFolder: string, outputFolder: string,
                   transpile: Transpiler): (r: Pass)
    ensures |r.outcomes| == |paths|
    ensures d.files.Keys <= r.disk.files.Keys && d.dirs <= r.disk.dirs
    ensures Consistent(d) ==> Consistent(r.disk)
    ensures r.disk.dirs == Start(d, paths, inputFolder, outputFolder).disk.dirs
    ensures FirstRejection(Start(d, paths, inputFolder, outputFolder).outcomes).Some? ==>
      r == Start(d, paths, inputFolder, outputFolder)
  {
    var started := Start(d, paths, inputFolder, outputFolder);
    if FirstRejection(started.outcomes).Some? then started
    else Finish(started.disk, paths, started.outcomes, inputFolder, outputFolder, transpile)
  }

  /**
   * A one-shot pass is rejected exactly when starting some conversion threw,
   * with the first such error; settling the transforms rejects nothing.
   */
  lemma OneShotRejection(d: Disk, paths: seq<string>, inputFolder: string, outputFolder: string,
                         transpile: Transpiler)
    ensures FirstRejection(OneShot(d, paths, inputFolder, outputFolder, transpile).outcomes)
         == FirstRejection(Start(d, paths, inputFolder, outputFolder).outcomes)
  {
    var started := Start(d, paths, inputFolder, outputFolder);
    if FirstRejection(started.outcomes).None? {
      var r := Finish(started.disk, paths, started.outcomes, inputFolder, outputFolder, transpile);
      assert OneShot(d, paths, inputFolder, outputFolder, transpile) == r;
      FinishSettles(started.disk, paths, started.outcomes, inputFolder, outputFolder, transpile);
      forall k | 0 <= k < |paths|
        ensures !r.outcomes[k].Rejected?
      {
        assert !started.outcomes[k].Rejected?;
      }
    }
  }

  /** Every artifact and map path a one-shot pass over `paths` may write. */
  function Written(paths: seq<string>, inputFolder: string, outputFolder: string): set<string>
    decreases |paths|
  {
    if paths == [] then {}
    else
      var out := OutputFilename(paths[|paths| - 1], inputFolder, outputFolder);
      Written(paths[..|paths| - 1], inputFolder, outputFolder) + {out, out + ".map"}
  }

  /** The artifact paths of the walked files without a recognised extension: the copies' destinations. */
  function CopyTargets(paths: seq<string>, inputFolder: string, outputFolder: string): (c: set<string>)
    ensures c <= Written(paths, inputFolder, outputFolder)
    decreases |paths|
  {
    if paths == [] then {}
    else
      var last := paths[|paths| - 1];
      CopyTargets(paths[..|paths| - 1], inputFolder, outputFolder)
        + (if IsSupported(last) then {} else {OutputFilename(last, inputFolder, outputFolder)})
  }

  /** Every directory a one-shot pass over `paths` may create. */
  function Created(paths: seq<string>, inputFolder: string, outputFolder: string): set<string>
    decreases |paths|
  {
    if paths == [] then {}
    else
      var out := OutputFilename(paths[|paths| - 1], inputFolder, outputFolder);
      Created(paths[..|paths| - 1], inputFolder, outputFolder) + Ancestors(Paths.Dirname(out))
  }

  /** The footprint of a walk holds each walked file's artifact, its map and the directories above them. */
  lemma {:induction false} FootprintHas(paths: seq<string>, k: nat, inputFolder: string, outputFolder: string)
    requires k < |paths|
    ensures OutputFilename(paths[k], inputFolder, outputFolder) in Written(paths, inputFolder, outputFolder)
    ensures OutputFilename(paths[k], inputFolder, outputFolder) + ".map" in Written(paths, inputFolder, outputFolder)
    ensures Ancestors(Paths.Dirname(OutputFilename(paths[k], inputFolder, outputFolder)))
              <= Created(paths, inputFolder, outputFolder)
    decreases |paths|
  {
    if k < |paths| - 1 {
      var init := paths[..|paths| - 1];
      assert init[k] == paths[k];
      FootprintHas(init, k, inputFolder, outputFolder);
    }
  }

  /** A prefix of the walk writes and creates no more than the whole walk. */
  lemma {:induction false} FootprintGrows(paths: seq<string>, i: nat, inputFolder: string, outputFolder: string)
    requires i <= |paths|
    ensures Written(paths[..i], inputFolder, outputFolder) <= Written(paths, inputFolder, outputFolder)
    ensures Created(paths[..i], inputFolder, outputFolder) <= Created(paths, inputFolder, outputFolder)
    decreases |paths|
  {
    if i < |paths| {
      var init := paths[..|paths| - 1];
      assert init[..i] == paths[..i];
      FootprintGrows(init, i, inputFolder, outputFolder);
    } else {
      assert paths[..i] == paths;
    }
  }


  /**
   * Before any transform returns, the pass has written only the copies of
   * the walked files without a recognised extension, and created only the
   * directories above the artifacts: no transpiled artifact and no map.
   */
  lemma {:induction false} StartFootprint(d: Disk, paths: seq<string>, inputFolder: string, outputFolder: string)
    ensures
      var r := Start(d, paths, inputFolder, outputFolder);
      && r.disk.files.Keys <= d.files.Keys + CopyTargets(paths, inputFolder, outputFolder)
      && r.disk.dirs <= d.dirs + Created(paths, inputFolder, outputFolder)
      && (forall q :: q in d.files && q !in CopyTargets(paths, inputFolder, outputFolder) ==>
            r.disk.files[q] == d.files[q])
    decreases |paths|
  {
    if paths != [] {
      StartFootprint(d, paths[..|paths| - 1], inputFolder, outputFolder);
    }
  }

  /** Settling the transforms writes only artifact and map paths of the walked files. */
  lemma {:induction false} FinishFootprint(d: Disk, paths: seq<string>, started: seq<StepOutcome>,
                                           inputFolder: string, outputFolder: string, transpile: Transpiler)
    requires |started| == |paths|
    ensures
      var r := Finish(d, paths, started, inputFolder, outputFolder, transpile);
      && r.disk.files.Keys <= d.files.Keys + Written(paths, inputFolder, outputFolder)
      && (forall q :: q in d.files && q !in Written(paths, inputFolder, outputFolder) ==>
            r.disk.files[q] == d.files[q])
    decreases |paths|
  {
    if paths != [] {
      FinishFootprint(d, paths[..|paths| - 1], started[..|paths| - 1], inputFolder, outputFolder, transpile);
    }
  }

  /**
   * A one-shot pass writes only artifact and map paths of the walked files
   * and creates only the directories above them; every other file keeps its
   * content.
   */
  lemma OneShotFootprint(d: Disk, paths: seq<string>, inputFolder: string, outputFolder: string,
                         transpile: Transpiler)
    ensures
      var r := OneShot(d, paths, inputFolder, outputFolder, transpile);
      && r.disk.files.Keys <= d.files.Keys + Written(paths, inputFolder, outputFolder)
      && r.disk.dirs <= d.dirs + Created(paths, inputFolder, outputFolder)
      && (forall q :: q in d.files && q !in Written(paths, inputFolder, outputFolder) ==>
            r.disk.files[q] == d.files[q])
  {
    var s := Start(d, paths, inputFolder, outputFolder);
    StartFootprint(d, paths, inputFolder, outputFolder);
    FinishFootprint(s.disk, paths, s.outcomes, inputFolder, outputFolder, transpile);
  }

  /** The start of the `i`-th path, on the disk the earlier starts left. */
  lemma {:induction false} StartStepAt(d: Disk, paths: seq<string>, i: nat, inputFolder: string, outputFolder: string)
    requires i < |paths|
    ensures
      var s := StartStep(Start(d, paths[..i], inputFolder, outputFolder).disk, paths[i], inputFolder, outputFolder);
      && Start(d, paths, inputFolder, outputFolder).outcomes[i] == s.outcome
      && Start(d, paths[..i + 1], inputFolder, outputFolder).disk == s.disk
    decreases |paths|
  {
    var init := paths[..|paths| - 1];
    assert paths[..i + 1][..i] == paths[..i];
    if i < |paths| - 1 {
      InitPrefix(paths, i);
      StartStepAt(d, init, i, inputFolder, outputFolder);
    } else {
      assert paths[..i] == init;
    }
  }

  /** The settling of the `i`-th path, on the disk the earlier settlings left. */
  lemma {:induction false} FinishStepAt(d: Disk, paths: seq<string>, started: seq<StepOutcome>, i: nat,
                                        inputFolder: string, outputFolder: string, transpile: Transpiler)
    requires |started| == |paths| && i < |paths|
    ensures
      var before := Finish(d, paths[..i], started[..i], inputFolder, outputFolder, transpile);
      Finish(d, paths, started, inputFolder, outputFolder, transpile).outcomes[i]
        == FinishStep(before.disk, paths[i], started[i], inputFolder, outputFolder, transpile).outcome
    decreases |paths|
  {
    var init := paths[..|paths| - 1];
    var initStarted := started[..|paths| - 1];
    if i < |paths| - 1 {
      InitPrefix(paths, i);
      assert initStarted[..i] == started[..i] && initStarted[i] == started[i];
      FinishStepAt(d, init, initStarted, i, inputFolder, outputFolder, transpile);
    } else {
      assert paths[..i] == init && started[..i] == initStarted;
    }
  }

  /** Dropping the last path of a walk leaves its earlier prefixes and paths as they were. */
  lemma InitPrefix(paths: seq<string>, i: nat)
    requires i < |paths| - 1
    ensures paths[..|paths| - 1][..i] == paths[..i] && paths[..|paths| - 1][i] == paths[i]
  {
  }

  /** Starting more paths removes no file and no directory. */
  lemma {:induction false} StartGrows(d: Disk, paths: seq<string>, i: nat, inputFolder: string, outputFolder: string)
    requires i <= |paths|
    ensures
      var before := Start(d, paths[..i], inputFolder, outputFolder).disk;
      var after := Start(d, paths, inputFolder, outputFolder).disk;
      before.files.Keys <= after.files.Keys && before.dirs <= after.dirs
    decreases |paths|
  {
    if i < |paths| {
      var init := paths[..|paths| - 1];
      assert init[..i] == paths[..i];
      StartGrows(d, init, i, inputFolder, outputFolder);
    } else {
      assert paths[..i] == paths;
    }
  }

  /** A copy made while starting stays: later starts remove no file. */
  lemma {:induction false} StartKeepsCopies(d: Disk, paths: seq<string>, i: nat, inputFolder: string,
                                            outputFolder: string)
    requires i < |paths|
    ensures
      var r := Start(d, paths, inputFolder, outputFolder);
      r.outcomes[i] == Copied ==> OutputFilename(paths[i], inputFolder, outputFolder) in r.disk.files
    decreases |paths|
  {
    var init := paths[..|paths| - 1];
    if i < |paths| - 1 {
      StartKeepsCopies(d, init, i, inputFolder, outputFolder);
      assert init[i] == paths[i];
    }
  }

  /** Settling one start: a compile leaves the artifact and its map, a kept copy its artifact. */
  lemma FinishStepKeeps(a: Disk, pathname: string, started: StepOutcome, inputFolder: string, outputFolder: string,
                        transpile: Transpiler)
    requires started != Compiled
    requires started == Copied ==> OutputFilename(pathname, inputFolder, outputFolder) in a.files
    ensures
      var s := FinishStep(a, pathname, started, inputFolder, outputFolder, transpile);
      var out := OutputFilename(pathname, inputFolder, outputFolder);
      && (s.outcome == Compiled || s.outcome == Copied ==> out in s.disk.files)
      && (s.outcome == Compiled ==> out + ".map" in s.disk.files)
  {
    if started.Transforming? {
      var out := OutputFilename(pathname, inputFolder, outputFolder);
      var t := TranspileStep(a, pathname, started.source, out, transpile);
      if t.outcome == Compiled {
        var v := transpile(pathname, started.source).value;
        WriteTwice(a.files, out, v.code + SourceMapComment(out), v.sourceMap);
      }
    }
  }

  /** Settling a non-empty walk: settling all but its last path, then that path on the disk left. */
  lemma FinishLast(d: Disk, paths: seq<string>, started: seq<StepOutcome>, inputFolder: string,
                   outputFolder: string, transpile: Transpiler)
    requires |started| == |paths| > 0
    ensures
      var n := |paths| - 1;
      var before := Finish(d, paths[..n], started[..n], inputFolder, outputFolder, transpile);
      var last := FinishStep(before.disk, paths[n], started[n], inputFolder, outputFolder, transpile);
      Finish(d, paths, started, inputFolder, outputFolder, transpile) == Pass(last.disk, before.outcomes + [last.outcome])
  {
  }

  /** Settling the last path keeps the outcomes settled before it and every file already present. */
  lemma FinishKeepsEarlier(d: Disk, paths: seq<string>, started: seq<StepOutcome>, i: nat, n: nat,
                           inputFolder: string, outputFolder: string, transpile: Transpiler)
    requires |started| == |paths| && n == |paths| - 1 && i < n
    ensures
      var before := Finish(d, paths[..n], started[..n], inputFolder, outputFolder, transpile);
      var r := Finish(d, paths, started, inputFolder, outputFolder, transpile);
      r.outcomes[i] == before.outcomes[i] && before.disk.files.Keys <= r.disk.files.Keys
  {
    FinishLast(d, paths, started, inputFolder, outputFolder, transpile);
  }

  /** The last path of a walk, once settled, has its artifact (and its map when compiled). */
  lemma FinishKeepsLast(d: Disk, paths: seq<string>, started: seq<StepOutcome>,
                        inputFolder: string, outputFolder: string, transpile: Transpiler)
    requires |started| == |paths| > 0
    requires started[|paths| - 1] != Compiled
    requires started[|paths| - 1] == Copied ==> OutputFilename(paths[|paths| - 1], inputFolder, outputFolder) in d.files
    ensures
      var n := |paths| - 1;
      var r := Finish(d, paths, started, inputFolder, outputFolder, transpile);
      var out := OutputFilename(paths[n], inputFolder, outputFolder);
      && (r.outcomes[n] == Compiled || r.outcomes[n] == Copied ==> out in r.disk.files)
      && (r.outcomes[n] == Compiled ==> out + ".map" in r.disk.files)
  {
    var n := |paths| - 1;
    var before := Finish(d, paths[..n], started[..n], inputFolder, outputFolder, transpile);
    FinishLast(d, paths, started, inputFolder, outputFolder, transpile);
    FinishStepKeeps(before.disk, paths[n], started[n], inputFolder, outputFolder, transpile);
  }

  /** A compiled path has its artifact and map once the transforms are settled, a copied one its artifact. */
  lemma {:induction false} FinishKeepsOutputs(d: Disk, paths: seq<string>, started: seq<StepOutcome>, i: nat,
                                              inputFolder: string, outputFolder: string, transpile: Transpiler)
    requires |started| == |paths| && i < |paths|
    requires started[i] != Compiled
    requires started[i] == Copied ==> OutputFilename(paths[i], inputFolder, outputFolder) in d.files
    ensures
      var r := Finish(d, paths, started, inputFolder, outputFolder, transpile);
      var out := OutputFilename(paths[i], inputFolder, outputFolder);
      && (r.outcomes[i] == Compiled || r.outcomes[i] == Copied ==> out in r.disk.files)
      && (r.outcomes[i] == Compiled ==> out + ".map" in r.disk.files)
    decreases |paths|
  {
    var n := |paths| - 1;
    if i < n {
      var before := Finish(d, paths[..n], started[..n], inputFolder, outputFolder, transpile);
      var r := Finish(d, paths, started, inputFolder, outputFolder, transpile);
      var out := OutputFilename(paths[i], inputFolder, outputFolder);
      assert paths[..n][i] == paths[i] && started[..n][i] == started[i];
      FinishKeepsOutputs(d, paths[..n], started[..n], i, inputFolder, outputFolder, transpile);
      assert before.outcomes[i] == Compiled || before.outcomes[i] == Copied ==> out in before.disk.files;
      assert before.outcomes[i] == Compiled ==> out + ".map" in before.disk.files;
      FinishKeepsEarlier(d, paths, started, i, n, inputFolder, outputFolder, transpile);
      assert r.outcomes[i] == before.outcomes[i] && before.disk.files.Keys <= r.disk.files.Keys;
    } else {
      FinishKeepsLast(d, paths, started, inputFolder, outputFolder, transpile);
      assert i == n;
    }
  }

  /**
   * After a one-shot pass, every file that was compiled or copied has its
   * artifact in the build folder, and every compiled one its map: nothing
   * in the pass removes a file.
   */
  lemma OneShotKeepsOutputs(d: Disk, paths: seq<string>, inputFolder: string, outputFolder: string,
                            transpile: Transpiler, i: nat)
    requires i < |paths|
    ensures
      var r := OneShot(d, paths, inputFolder, outputFolder, transpile);
      var out := OutputFilename(paths[i], inputFolder, outputFolder);
      && (r.outcomes[i].Compiled? || r.outcomes[i].Copied? ==> out in r.disk.files)
      && (r.outcomes[i].Compiled? ==> out + ".map" in r.disk.files)
  {
    var s := Start(d, paths, inputFolder, outputFolder);
    StartKeepsCopies(d, paths, i, inputFolder, outputFolder);
    StartStepAt(d, paths, i, inputFolder, outputFolder);
    if FirstRejection(s.outcomes).None? {
      assert OneShot(d, paths, inputFolder, outputFolder, transpile)
          == Finish(s.disk, paths, s.outcomes, inputFolder, outputFolder, transpile);
      FinishKeepsOutputs(s.disk, paths, s.outcomes, i, inputFolder, outputFolder, transpile);
    }
  }

  /**
   * The `i`-th outcome of a one-shot pass: the start of the `i`-th path on
   * the disk the earlier starts left and, unless some start was rejected,
   * its settling on the disk the earlier settlings left.
   */
  lemma OneShotStepAt(d: Disk, paths: seq<string>, i: nat, inputFolder: string, outputFolder: string,
                      transpile: Transpiler)
    requires i < |paths|
    ensures
      var started := Start(d, paths, inputFolder, outputFolder);
      var s := StartStep(Start(d, paths[..i], inputFolder, outputFolder).disk, paths[i], inputFolder, outputFolder);
      var r := OneShot(d, paths, inputFolder, outputFolder, transpile);
      && started.outcomes[i] == s.outcome
      && (FirstRejection(started.outcomes).Some? ==> r.outcomes[i] == s.outcome)
      && (FirstRejection(started.outcomes).None? ==>
            var before := Finish(started.disk, paths[..i], started.outcomes[..i], inputFolder, outputFolder, transpile);
            r.outcomes[i] == FinishStep(before.disk, paths[i], s.outcome, inputFolder, outputFolder, transpile).outcome)
  {
    var started := Start(d, paths, inputFolder, outputFolder);
    StartStepAt(d, paths, i, inputFolder, outputFolder);
    if FirstRejection(started.outcomes).None? {
      FinishStepAt(started.disk, paths, started.outcomes, i, inputFolder, outputFolder, transpile);
    }
  }

  /**
   * One start on a disk whose files and directories lie within two disjoint
   * footprints that hold the file's artifact path and the directories above
   * it: nothing is rejected, a recognised script starts its transform on its
   * content, and any other file is copied.
   */
  lemma StartProceeds(a: Disk, pathname: string, inputFolder: string, outputFolder: string,
                      fileSpace: set<string>, dirSpace: set<string>)
    requires Consistent(a) && Exists(a, pathname)
    requires a.files.Keys <= fileSpace && a.dirs <= dirSpace && fileSpace !! dirSpace
    requires OutputFilename(pathname, inputFolder, outputFolder) in fileSpace
    requires Ancestors(Paths.Dirname(OutputFilename(pathname, inputFolder, outputFolder))) <= dirSpace
    ensures
      var s := StartStep(a, pathname, inputFolder, outputFolder);
      && !s.outcome.Rejected?
      && (pathname in a.files ==>
            s.outcome == if IsSupported(pathname) then Transforming(a.files[pathname]) else Copied)
  {
    var out := OutputFilename(pathname, inputFolder, outputFolder);
    assert Ancestors(Paths.Dirname(out)) !! a.files.Keys;
    assert out !in a.dirs + Ancestors(Paths.Dirname(out));
  }

  /**
   * On a disk where no artifact or map path clashes with an existing or
   * created directory, and every walked path exists, no start is rejected.
   */
  lemma {:induction false} StartNeverRejects(d: Disk, paths: seq<string>, inputFolder: string, outputFolder: string,
                                             fileSpace: set<string>, dirSpace: set<string>)
    requires Consistent(d) && fileSpace !! dirSpace
    requires d.files.Keys + Written(paths, inputFolder, outputFolder) <= fileSpace
    requires d.dirs + Created(paths, inputFolder, outputFolder) <= dirSpace
    requires forall j :: 0 <= j < |paths| ==> Exists(d, paths[j])
    ensures forall k :: 0 <= k < |paths| ==> !Start(d, paths, inputFolder, outputFolder).outcomes[k].Rejected?
    decreases |paths|
  {
    if paths != [] {
      var init := paths[..|paths| - 1];
      var last := paths[|paths| - 1];
      var before := Start(d, init, inputFolder, outputFolder);
      StartNeverRejects(d, init, inputFolder, outputFolder, fileSpace, dirSpace);
      StartFootprint(d, init, inputFolder, outputFolder);
      StartProceeds(before.disk, last, inputFolder, outputFolder, fileSpace, dirSpace);
    }
  }

  /**
   * The starting phase over a walk of existing paths, on a disk where no
   * artifact or map path clashes with an existing or created directory:
   * a walked regular file that no earlier copy overwrote starts its transform on its own content, or is copied; its
   * artifact's directory exists afterwards.
   */
  lemma StartBuildsFile(d: Disk, paths: seq<string>, inputFolder: string, outputFolder: string, i: nat)
    requires Consistent(d)
    requires (d.files.Keys + Written(paths, inputFolder, outputFolder))
               !! (d.dirs + Created(paths, inputFolder, outputFolder))
    requires forall j :: 0 <= j < |paths| ==> Exists(d, paths[j])
    requires i < |paths| && paths[i] in d.files
    requires paths[i] !in Written(paths[..i], inputFolder, outputFolder)
    ensures
      var started := Start(d, paths, inputFolder, outputFolder);
      && started.outcomes[i] == (if IsSupported(paths[i]) then Transforming(d.files[paths[i]]) else Copied)
      && Paths.Dirname(OutputFilename(paths[i], inputFolder, outputFolder)) in started.disk.dirs
  {
    var fileSpace := d.files.Keys + Written(paths, inputFolder, outputFolder);
    var dirSpace := d.dirs + Created(paths, inputFolder, outputFolder);
    var out := OutputFilename(paths[i], inputFolder, outputFolder);
    var before := Start(d, paths[..i], inputFolder, outputFolder);
    StartFootprint(d, paths[..i], inputFolder, outputFolder);
    FootprintGrows(paths, i, inputFolder, outputFolder);
    FootprintHas(paths, i, inputFolder, outputFolder);
    assert before.disk.files[paths[i]] == d.files[paths[i]];
    StartProceeds(before.disk, paths[i], inputFolder, outputFolder, fileSpace, dirSpace);
    StartStepAt(d, paths, i, inputFolder, outputFolder);
    StartGrows(d, paths, i + 1, inputFolder, outputFolder);
  }

  /** The starting phase over such a walk and disk reports no rejection. */
  lemma StartNotRejected(d: Disk, paths: seq<string>, inputFolder: string, outputFolder: string)
    requires Consistent(d)
    requires (d.files.Keys + Written(paths, inputFolder, outputFolder))
               !! (d.dirs + Created(paths, inputFolder, outputFolder))
    requires forall j :: 0 <= j < |paths| ==> Exists(d, paths[j])
    ensures FirstRejection(Start(d, paths, inputFolder, outputFolder).outcomes).None?
  {
    var fileSpace := d.files.Keys + Written(paths, inputFolder, outputFolder);
    var dirSpace := d.dirs + Created(paths, inputFolder, outputFolder);
    StartNeverRejects(d, paths, inputFolder, outputFolder, fileSpace, dirSpace);
  }

  /**
   * Settling a started transform that succeeds, when the artifact's
   * directory exists and neither the artifact nor its map path is a
   * directory, compiles it.
   */
  lemma FinishCompiles(d: Disk, paths: seq<string>, started: seq<StepOutcome>, i: nat, inputFolder: string,
                       outputFolder: string, transpile: Transpiler)
    requires |started| == |paths| && i < |paths| && started[i].Transforming?
    requires transpile(paths[i], started[i].source).Success?
    requires Paths.Dirname(OutputFilename(paths[i], inputFolder, outputFolder)) in d.dirs
    requires OutputFilename(paths[i], inputFolder, outputFolder) !in d.dirs
    requires OutputFilename(paths[i], inputFolder, outputFolder) + ".map" !in d.dirs
    ensures Finish(d, paths, started, inputFolder, outputFolder, transpile).outcomes[i] == Compiled
  {
    FinishStepAt(d, paths, started, i, inputFolder, outputFolder, transpile);
  }

  /**
   * A one-shot pass over a walk of existing paths, on a disk where no
   * artifact or map path clashes with an existing or created directory,
   * is never rejected and builds every walked regular file that no earlier
   * copy overwrote: a recognised script whose transform succeeds is
   * compiled and ends with its artifact and map, any other file is copied
   * and ends with its artifact, whatever the other files did.
   */
  lemma OneShotBuildsEveryFile(d: Disk, paths: seq<string>, inputFolder: string, outputFolder: string,
                               transpile: Transpiler, i: nat)
    requires Consistent(d)
    requires (d.files.Keys + Written(paths, inputFolder, outputFolder))
               !! (d.dirs + Created(paths, inputFolder, outputFolder))
    requires forall j :: 0 <= j < |paths| ==> Exists(d, paths[j])
    requires i < |paths| && paths[i] in d.files
    requires paths[i] !in Written(paths[..i], inputFolder, outputFolder)
    requires IsSupported(paths[i]) ==> transpile(paths[i], d.files[paths[i]]).Success?
    ensures
      var r := OneShot(d, paths, inputFolder, outputFolder, transpile);
      var out := OutputFilename(paths[i], inputFolder, outputFolder);
      && FirstRejection(r.outcomes).None?
      && r.outcomes[i] == (if IsSupported(paths[i]) then Compiled else Copied)
      && out in r.disk.files
      && (IsSupported(paths[i]) ==> out + ".map" in r.disk.files)
  {
    var out := OutputFilename(paths[i], inputFolder, outputFolder);
    var started := Start(d, paths, inputFolder, outputFolder);
    StartNotRejected(d, paths, inputFolder, outputFolder);
    StartBuildsFile(d, paths, inputFolder, outputFolder, i);
    var r := Finish(started.disk, paths, started.outcomes, inputFolder, outputFolder, transpile);
    assert OneShot(d, paths, inputFolder, outputFolder, transpile) == r;
    OneShotRejection(d, paths, inputFolder, outputFolder, transpile);
    if IsSupported(paths[i]) {
      StartFootprint(d, paths, inputFolder, outputFolder);
      FootprintHas(paths, i, inputFolder, outputFolder);
      FinishCompiles(started.disk, paths, started.outcomes, i, inputFolder, outputFolder, transpile);
    } else {
      FinishSettles(started.disk, paths, started.outcomes, inputFolder, outputFolder, transpile);
    }
    OneShotKeepsOutputs(d, paths, inputFolder, outputFolder, transpile, i);
  }

  /** The `.map` of the one-shot branch of `compile`: every conversion started, in walk order. */
  method StartAll(fs: FileSystem, paths: seq<string>, inputFolder: string, outputFolder: string)
    returns (started: seq<StepOutcome>)
    requires fs.Valid()
    modifies fs
    ensures fs.Valid()
    ensures Pass(fs.State(), started) == Start(old(fs.State()), paths, inputFolder, outputFolder)
  {
    started := [];
    for i := 0 to |paths|
      invariant fs.Valid()
      invariant Pass(fs.State(), started) == Start(old(fs.State()), paths[..i], inputFolder, outputFolder)
    {
      var outcome := StartCompileOrCopy(fs, paths[i], inputFolder, outputFolder);
      started := started + [outcome];
      assert paths[..i + 1][..i] == paths[..i];
    }
    assert paths[..|paths|] == paths;
  }

  /** The started transforms returning, in walk order, each followed by its writes. */
  method FinishAll(fs: FileSystem, paths: seq<string>, started: seq<StepOutcome>, inputFolder: string,
                   outputFolder: string, transpile: Transpiler) returns (outcomes: seq<StepOutcome>)
    requires fs.Valid() && |started| == |paths|
    modifies fs
    ensures fs.Valid()
    ensures Pass(fs.State(), outcomes) == Finish(old(fs.State()), paths, started, inputFolder, outputFolder, transpile)
  {
    outcomes := [];
    for i := 0 to |paths|
      invariant fs.Valid()
      invariant Pass(fs.State(), outcomes)
             == Finish(old(fs.State()), paths[..i], started[..i], inputFolder, outputFolder, transpile)
    {
      ghost var before := fs.State();
      var outcome := started[i];
      if outcome.Transforming? {
        outcome := FinishTranspile(fs, paths[i], outcome.source, OutputFilename(paths[i], inputFolder, outputFolder),
                                   transpile);
      }
      assert Step(fs.State(), outcome) == FinishStep(before, paths[i], started[i], inputFolder, outputFolder, transpile);
      assert paths[..i + 1][..i] == paths[..i] && paths[..i + 1][i] == paths[i];
      assert started[..i + 1][..i] == started[..i] && started[..i + 1][i] == started[i];
      FinishLast(old(fs.State()), paths[..i + 1], started[..i + 1], inputFolder, outputFolder, transpile);
      outcomes := outcomes + [outcome];
    }
    assert paths[..|paths|] == paths && started[..|started|] == started;
  }

  /**
   * The one-shot branch of `compile`, over the list the directory walk
   * produced: every conversion is started; a rejection ends the pass there,
   * otherwise the transforms are settled.
   */
  method CompileAll(fs: FileSystem, paths: seq<string>, inputFolder: string, outputFolder: string,
                    transpile: Transpiler) returns (outcomes: seq<StepOutcome>)
    requires fs.Valid()
    modifies fs
    ensures fs.Valid()
    ensures Pass(fs.State(), outcomes) == OneShot(old(fs.State()), paths, inputFolder, outputFolder, transpile)
  {
    var started := StartAll(fs, paths, inputFolder, outputFolder);
    if FirstRejection(started).Some? {
      return started;
    }
    outcomes := FinishAll(fs, paths, started, inputFolder, outputFolder, transpile);
  }
}
