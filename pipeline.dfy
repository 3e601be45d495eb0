/**
 * The per-file conversion pipeline of process_images, stated as functions:
 * skip when the output name is already taken, otherwise compress,
 * remove the background, compress again and save, leaving the file
 * without output as soon as a stage fails.
 *
 * The two remote services and the input folder are oracles gathered in
 * Services; the output folder is a map from file names to contents.
 */
module Pipeline {
  import opened Names

  newtype byte = x: int | 0 <= x < 256
  type Bytes = seq<byte>

  /** The images_converted folder: file name to contents. */
  type Folder = map<string, Bytes>

  /**
   * What compress_image does with its input: the bytes fetched from the
   * returned URL, or an exception (transport error, non-JSON reply, missing
   * "output"/"url" field).
   */
  datatype Compression = Compressed(data: Bytes) | CompressRaised

  /**
   * What remove_background does: the response body on HTTP 200, None (with
   * the status) otherwise, or an exception out of requests.post, which
   * nothing catches.
   */
  datatype Removal = Removed(data: Bytes) | Rejected(status: int) | RemovalRaised

  /**
   * The outside world: the readable input files and their contents (a path
   * glob lists that is missing here cannot be opened), and the two services
   * as functions of the bytes sent.
   */
  datatype Services = Services(
    inputs: map<string, Bytes>,
    compress: Bytes -> Compression,
    removeBackground: Bytes -> Removal)

  /** One call process_images makes to the outside world, in the order made. */
  datatype Call = Compress(input: Bytes) | RemoveBackground(input: Bytes) | Save(name: string, data: Bytes)

  /** How the handling of one input file ended. */
  datatype Outcome =
    | Skipped              // output name already present
    | Unreadable           // open or read raised
    | CompressionFailed    // first compress_image raised
    | CompressionEmpty     // first compress_image returned no bytes
    | BackgroundRejected   // remove_background returned None
    | RecompressionFailed  // second compress_image raised
    | Written(data: Bytes) // save_image wrote data
    | Aborted              // remove_background raised: the whole run stops

  datatype FileResult = FileResult(outcome: Outcome, calls: seq<Call>, converted: Folder)

  datatype RunResult = RunResult(converted: Folder, calls: seq<Call>, aborted: bool)

  /** Every stage succeeds for this file: readable, non-empty first compression, background removed, second compression returns. */
  predicate Succeeds(env: Services, path: string)
  {
    && path in env.inputs
    && env.compress(env.inputs[path]).Compressed?
    && env.compress(env.inputs[path]).data != []
    && env.removeBackground(env.compress(env.inputs[path]).data).Removed?
    && env.compress(env.removeBackground(env.compress(env.inputs[path]).data).data).Compressed?
  }

  /** compress(remove_bg(compress(input))): the bytes written for a file whose stages all succeed. */
  function Converted(env: Services, path: string): Bytes
    requires Succeeds(env, path)
  {
    env.compress(env.removeBackground(env.compress(env.inputs[path]).data).data).data
  }

  /**
   * One iteration of the loop in process_images, for the file at path whose
   * output name is name, with the output folder as it stands.
   */
  function ProcessFile(converted: Folder, path: string, name: string, env: Services): (r: FileResult)
    // skipped exactly when the output name is taken, and then nothing is called or changed
    ensures r.outcome == Skipped <==> name in converted
    ensures r.outcome == Skipped ==> r.calls == [] && r.converted == converted
    // written exactly when every stage succeeds, and then with compress(remove_bg(compress(input)))
    ensures r.outcome.Written? <==> name !in converted && Succeeds(env, path)
    ensures r.outcome.Written? ==> r.outcome.data == Converted(env, path)
                                   && r.converted == converted[name := r.outcome.data]
    ensures !r.outcome.Written? ==> r.converted == converted
    // the run aborts exactly when background removal raises
    ensures r.outcome == Aborted <==>
              && name !in converted && path in env.inputs
              && env.compress(env.inputs[path]).Compressed?
              && env.compress(env.inputs[path]).data != []
              && env.removeBackground(env.compress(env.inputs[path]).data).RemovalRaised?
    // stages in the fixed order, each at most once, each only after the previous one succeeded
    ensures |r.calls| <= 4
    ensures |r.calls| >= 1 ==> path in env.inputs && r.calls[0] == Compress(env.inputs[path])
    ensures |r.calls| >= 2 ==> r.calls[1].RemoveBackground? && r.calls[1].input != []
                                && env.compress(env.inputs[path]) == Compressed(r.calls[1].input)
    ensures |r.calls| >= 3 ==> r.calls[2].Compress?
                                && env.removeBackground(r.calls[1].input) == Removed(r.calls[2].input)
    ensures |r.calls| == 4 <==> r.outcome.Written?
    ensures |r.calls| == 4 ==> r.calls[3] == Save(name, r.outcome.data)
    // each other outcome exactly when its stage fails, with exactly the calls made up to that stage
    ensures r.outcome == Unreadable <==> name !in converted && path !in env.inputs
    ensures r.outcome == Unreadable ==> r.calls == []
    ensures r.outcome == CompressionFailed <==>
              name !in converted && path in env.inputs && env.compress(env.inputs[path]).CompressRaised?
    ensures r.outcome == CompressionEmpty <==>
              name !in converted && path in env.inputs && env.compress(env.inputs[path]) == Compressed([])
    ensures r.outcome == CompressionFailed || r.outcome == CompressionEmpty ==>
              r.calls == [Compress(env.inputs[path])]
    ensures r.outcome == BackgroundRejected <==>
              && name !in converted && path in env.inputs
              && env.compress(env.inputs[path]).Compressed?
              && env.compress(env.inputs[path]).data != []
              && env.removeBackground(env.compress(env.inputs[path]).data).Rejected?
    ensures r.outcome == BackgroundRejected || r.outcome == Aborted ==>
              r.calls == [Compress(env.inputs[path]), RemoveBackground(env.compress(env.inputs[path]).data)]
    ensures r.outcome == RecompressionFailed <==>
              && name !in converted && path in env.inputs
              && env.compress(env.inputs[path]).Compressed?
              && env.compress(env.inputs[path]).data != []
              && env.removeBackground(env.compress(env.inputs[path]).data).Removed?
              && env.compress(env.removeBackground(env.compress(env.inputs[path]).data).data).CompressRaised?
    ensures r.outcome == RecompressionFailed ==>
              r.calls == [Compress(env.inputs[path]), RemoveBackground(env.compress(env.inputs[path]).data),
                          Compress(env.removeBackground(env.compress(env.inputs[path]).data).data)]
    ensures r.outcome.Written? ==>
              r.calls == [Compress(env.inputs[path]), RemoveBackground(env.compress(env.inputs[path]).data),
                          Compress(env.removeBackground(env.compress(env.inputs[path]).data).data),
                          Save(name, r.outcome.data)]
  {
    if name in converted then FileResult(Skipped, [], converted)
    else if path !in env.inputs then FileResult(Unreadable, [], converted)
    else
      var input := env.inputs[path];
      match env.compress(input)
      case CompressRaised => FileResult(CompressionFailed, [Compress(input)], converted)
      case Compressed(small) =>
        if small == [] then FileResult(CompressionEmpty, [Compress(input)], converted)
        else
          match env.removeBackground(small)
          case RemovalRaised => FileResult(Aborted, [Compress(input), RemoveBackground(small)], converted)
          case Rejected(_) => FileResult(BackgroundRejected, [Compress(input), RemoveBackground(small)], converted)
          case Removed(cutout) =>
            match env.compress(cutout)
            case CompressRaised =>
              FileResult(RecompressionFailed, [Compress(input), RemoveBackground(small), Compress(cutout)], converted)
            case Compressed(result) =>
              FileResult(Written(result),
                         [Compress(input), RemoveBackground(small), Compress(cutout), Save(name, result)],
                         converted[name := result])
  }

  /** The output name of every path, in order. */
  function OutputNames(paths: seq<string>): (names: seq<string>)
    ensures |names| == |paths|
    ensures forall i :: 0 <= i < |paths| ==> names[i] == OutputName(paths[i])
  {
    if paths == [] then [] else OutputNames(paths[..|paths| - 1]) + [OutputName(paths[|paths| - 1])]
  }

  /**
   * process_images over the paths in glob's order, names[i] being the output
   * name of paths[i], up to the end or to the file whose background removal
   * raised.
   */
  function Run(converted: Folder, paths: seq<string>, names: seq<string>, env: Services): (r: RunResult)
    requires |names| == |paths|
    ensures |r.calls| <= 4 * |paths|
    decreases |paths|
  {
    if paths == [] then RunResult(converted, [], false)
    else
      var before := Run(converted, paths[..|paths| - 1], names[..|names| - 1], env);
      if before.aborted then before
      else
        var f := ProcessFile(before.converted, paths[|paths| - 1], names[|names| - 1], env);
        RunResult(f.converted, before.calls + f.calls, f.outcome == Aborted)
  }

  /** One more file of the same run: the prefix up to i + 1 from the prefix up to i. */
  lemma RunPrefixStep(converted: Folder, paths: seq<string>, names: seq<string>, env: Services, i: nat)
    requires |names| == |paths| && i < |paths|
    ensures var before := Run(converted, paths[..i], names[..i], env);
            var f := ProcessFile(before.converted, paths[i], names[i], env);
            Run(converted, paths[..i + 1], names[..i + 1], env) ==
              if before.aborted then before else RunResult(f.converted, before.calls + f.calls, f.outcome == Aborted)
  {
    assert paths[..i + 1][..i] == paths[..i] && names[..i + 1][..i] == names[..i];
  }

  /**
   * A loop over paths has reached index i of the run from start: it has not
   * gone past the end, and its folder, its call log (after the calls in log
   * that came before it) and its aborted flag are those of Run over the
   * first i paths.
   */
  predicate RunReached(start: Folder, paths: seq<string>, names: seq<string>, env: Services, i: nat,
                       log: seq<Call>, folder: Folder, calls: seq<Call>, aborted: bool)
  {
    |names| == |paths| && i <= |paths| &&
    var r := Run(start, paths[..i], names[..i], env);
    r.aborted == aborted && folder == r.converted && calls == log + r.calls
  }

  /** A loop that has not looked at any path yet has reached index 0. */
  lemma RunReachedStart(start: Folder, paths: seq<string>, names: seq<string>, env: Services, log: seq<Call>)
    requires |names| == |paths|
    ensures RunReached(start, paths, names, env, 0, log, start, log, false)
  {
    assert paths[..0] == [] && names[..0] == [];
    assert log + [] == log;
  }

  /** Handling paths[i] after reaching i without an abort reaches i + 1. */
  lemma RunLoopStep(start: Folder, paths: seq<string>, names: seq<string>, env: Services, i: nat,
                    log: seq<Call>, folder: Folder, calls: seq<Call>, folder': Folder, calls': seq<Call>, aborted: bool)
    requires RunReached(start, paths, names, env, i, log, folder, calls, false) && i < |paths|
    requires var f := ProcessFile(folder, paths[i], names[i], env);
             folder' == f.converted && calls' == calls + f.calls && aborted == (f.outcome == Aborted)
    ensures RunReached(start, paths, names, env, i + 1, log, folder', calls', aborted)
  {
    var before := Run(start, paths[..i], names[..i], env);
    var f := ProcessFile(before.converted, paths[i], names[i], env);
    RunPrefixStep(start, paths, names, env, i);
    assert calls' == (log + before.calls) + f.calls;
  }

  /** The files a sequence of calls has saved, the later save of a name winning. */
  function SavedFiles(calls: seq<Call>): (m: Folder)
    ensures forall i :: 0 <= i < |calls| && calls[i].Save? ==> calls[i].name in m
  {
    if calls == [] then map[]
    else
      var m := SavedFiles(calls[..|calls| - 1]);
      match calls[|calls| - 1]
      case Save(n, data) => m[n := data]
      case _ => m
  }

  /** No two saves in calls write the same name. */
  predicate SavesDistinct(calls: seq<Call>)
  {
    forall i, j :: 0 <= i < j < |calls| && calls[i].Save? && calls[j].Save? ==> calls[i].name != calls[j].name
  }

  lemma {:induction false} SavedFilesAppend(a: seq<Call>, b: seq<Call>)
    ensures SavedFiles(a + b) == SavedFiles(a) + SavedFiles(b)
    decreases |b|
  {
    if b == [] {
      assert a + b == a;
    } else {
      var b' := b[..|b| - 1];
      assert (a + b)[..|a + b| - 1] == a + b';
      assert (a + b)[|a + b| - 1] == b[|b| - 1];
      SavedFilesAppend(a, b');
    }
  }

  /** One file saves nothing, or exactly its output under its name. */
  lemma SavedFilesOfFile(converted: Folder, path: string, name: string, env: Services)
    ensures var f := ProcessFile(converted, path, name, env);
            SavedFiles(f.calls) == if f.outcome.Written? then map[name := f.outcome.data] else map[]
    ensures var f := ProcessFile(converted, path, name, env);
            f.outcome.Written? ==> f.calls[|f.calls| - 1] == Save(name, f.outcome.data)
  {
    var f := ProcessFile(converted, path, name, env);
    var c := f.calls;
    if |c| >= 1 {
      assert SavedFiles(c[..1]) == map[] by { assert c[..1][..0] == []; }
    }
    if |c| >= 2 {
      assert SavedFiles(c[..2]) == map[] by { assert c[..2][..1] == c[..1]; }
    }
    if |c| >= 3 {
      assert SavedFiles(c[..3]) == map[] by { assert c[..3][..2] == c[..2]; }
    }
    if |c| == 4 {
      assert c[..3] == c[..|c| - 1];
    } else {
      assert c == c[..|c|];
    }
  }

  /**
   * The output folder after calls is the folder before them plus what they
   * saved, every saved name was absent before, and no name is saved twice.
   */
  predicate SavedOnceEach(converted: Folder, after: Folder, calls: seq<Call>)
  {
    && after == converted + SavedFiles(calls)
    && converted.Keys !! SavedFiles(calls).Keys
    && SavesDistinct(calls)
  }

  /** Calls without a save save nothing. */
  lemma {:induction false} NoSaveSavesNothing(calls: seq<Call>)
    requires forall i :: 0 <= i < |calls| ==> !calls[i].Save?
    ensures SavedFiles(calls) == map[]
    decreases |calls|
  {
    if calls != [] {
      NoSaveSavesNothing(calls[..|calls| - 1]);
    }
  }

  /** Calls that save nothing keep SavedOnceEach. */
  lemma NoSaveKeepsSavedOnceEach(converted: Folder, folder: Folder, before: seq<Call>, calls: seq<Call>)
    requires SavedOnceEach(converted, folder, before)
    requires forall i :: 0 <= i < |calls| ==> !calls[i].Save?
    ensures SavedOnceEach(converted, folder, before + calls)
  {
    NoSaveSavesNothing(calls);
    SavedFilesAppend(before, calls);
    assert SavedFiles(before) + map[] == SavedFiles(before);
    var all := before + calls;
    forall k | |before| <= k < |all| ensures !all[k].Save? {
      assert all[k] == calls[k - |before|];
    }
    forall i | 0 <= i < |before| ensures all[i] == before[i] {
    }
  }

  /** Appending calls whose only save, the last one, writes a name not saved before keeps saves distinct. */
  lemma NewSaveKeepsSavesDistinct(before: seq<Call>, calls: seq<Call>, name: string, data: Bytes)
    requires SavesDistinct(before) && name !in SavedFiles(before)
    requires forall i :: 0 <= i < |calls| && calls[i].Save? ==> i == |calls| - 1 && calls[i] == Save(name, data)
    ensures SavesDistinct(before + calls)
  {
    var all := before + calls;
    forall i, j | 0 <= i < j < |all| && all[i].Save? && all[j].Save? ensures all[i].name != all[j].name {
      if j < |before| {
        assert all[i] == before[i] && all[j] == before[j];
      } else {
        assert all[j] == calls[j - |before|];
        assert i < |before| && all[i] == before[i];
      }
    }
  }

  /** Calls whose one save, the last call, writes a name absent so far keep SavedOnceEach. */
  lemma NewSaveKeepsSavedOnceEach(converted: Folder, folder: Folder, before: seq<Call>, calls: seq<Call>,
                                  name: string, data: Bytes)
    requires SavedOnceEach(converted, folder, before)
    requires name !in folder
    requires forall i :: 0 <= i < |calls| && calls[i].Save? ==> i == |calls| - 1 && calls[i] == Save(name, data)
    requires SavedFiles(calls) == map[name := data]
    ensures SavedOnceEach(converted, folder[name := data], before + calls)
  {
    var saved := SavedFiles(before);
    SavedFilesAppend(before, calls);
    assert SavedFiles(before + calls) == saved[name := data];
    UnionUpdate(converted, saved, name, data);
    NewSaveKeepsSavesDistinct(before, calls, name, data);
  }

  lemma UnionUpdate(a: Folder, b: Folder, k: string, v: Bytes)
    ensures (a + b)[k := v] == a + b[k := v]
  {
  }

  /** One more file keeps SavedOnceEach. */
  lemma FileKeepsSavedOnceEach(converted: Folder, before: RunResult, path: string, name: string, env: Services)
    requires SavedOnceEach(converted, before.converted, before.calls)
    ensures var f := ProcessFile(before.converted, path, name, env);
            SavedOnceEach(converted, f.converted, before.calls + f.calls)
  {
    var f := ProcessFile(before.converted, path, name, env);
    SavedFilesOfFile(before.converted, path, name, env);
    if f.outcome.Written? {
      NewSaveKeepsSavedOnceEach(converted, before.converted, before.calls, f.calls, name, f.outcome.data);
    } else {
      NoSaveKeepsSavedOnceEach(converted, before.converted, before.calls, f.calls);
    }
  }

  /**
   * A run never overwrites: the output folder afterwards is the folder before
   * plus the files the run saved, every saved name was absent before, and no
   * name is saved twice.
   */
  lemma {:induction false} RunSavesOnlyNewNamesOnce(converted: Folder, paths: seq<string>, names: seq<string>, env: Services)
    requires |names| == |paths|
    ensures var r := Run(converted, paths, names, env);
            SavedOnceEach(converted, r.converted, r.calls)
    decreases |paths|
  {
    if paths == [] {
      assert converted + map[] == converted;
    } else {
      var init, initNames := paths[..|paths| - 1], names[..|names| - 1];
      RunSavesOnlyNewNamesOnce(converted, init, initNames, env);
      var before := Run(converted, init, initNames, env);
      if !before.aborted {
        FileKeepsSavedOnceEach(converted, before, paths[|paths| - 1], names[|names| - 1], env);
      }
    }
  }

  /** Existing outputs survive a run unchanged. */
  lemma RunKeepsExistingOutputs(converted: Folder, paths: seq<string>, names: seq<string>, env: Services)
    requires |names| == |paths|
    ensures forall n :: n in converted ==>
              n in Run(converted, paths, names, env).converted && Run(converted, paths, names, env).converted[n] == converted[n]
  {
    RunSavesOnlyNewNamesOnce(converted, paths, names, env);
  }

  /** Once a run has aborted, later files change nothing and call nothing. */
  lemma {:induction false} AbortIsFinal(converted: Folder, paths: seq<string>, names: seq<string>,
                                        rest: seq<string>, restNames: seq<string>, env: Services)
    requires |names| == |paths| && |restNames| == |rest|
    requires Run(converted, paths, names, env).aborted
    ensures Run(converted, paths + rest, names + restNames, env) == Run(converted, paths, names, env)
    decreases |rest|
  {
    if rest != [] {
      var all, allNames := paths + rest, names + restNames;
      assert all[..|all| - 1] == paths + rest[..|rest| - 1];
      assert allNames[..|allNames| - 1] == names + restNames[..|restNames| - 1];
      AbortIsFinal(converted, paths, names, rest[..|rest| - 1], restNames[..|restNames| - 1], env);
    } else {
      assert paths + rest == paths && names + restNames == names;
    }
  }

  /** A run that aborted within the first k paths is the whole run. */
  lemma AbortedPrefixIsRun(converted: Folder, paths: seq<string>, names: seq<string>, env: Services, k: nat)
    requires |names| == |paths| && k <= |paths|
    requires Run(converted, paths[..k], names[..k], env).aborted
    ensures Run(converted, paths, names, env) == Run(converted, paths[..k], names[..k], env)
  {
    AbortIsFinal(converted, paths[..k], names[..k], paths[k..], names[k..], env);
    assert paths[..k] + paths[k..] == paths && names[..k] + names[k..] == names;
  }

  /** A loop over the paths that stops at the end or at an abort has computed the whole run. */
  lemma RunLoopExit(start: Folder, paths: seq<string>, names: seq<string>, env: Services, i: nat,
                    log: seq<Call>, folder: Folder, calls: seq<Call>, aborted: bool)
    requires RunReached(start, paths, names, env, i, log, folder, calls, aborted)
    requires i == |paths| || aborted
    ensures var r := Run(start, paths, names, env);
            folder == r.converted && calls == log + r.calls && aborted == r.aborted
  {
    if i == |paths| {
      assert paths[..i] == paths && names[..i] == names;
    } else {
      AbortedPrefixIsRun(start, paths, names, env, i);
    }
  }

  /** A file whose background removal raises ends the run: the files after it are never looked at. */
  lemma RemovalRaiseAbortsRun(converted: Folder, paths: seq<string>, names: seq<string>, path: string, name: string,
                              rest: seq<string>, restNames: seq<string>, env: Services)
    requires |names| == |paths| && |restNames| == |rest|
    requires !Run(converted, paths, names, env).aborted
    requires ProcessFile(Run(converted, paths, names, env).converted, path, name, env).outcome == Aborted
    ensures var before := Run(converted, paths, names, env);
            var after := Run(converted, paths + [path] + rest, names + [name] + restNames, env);
            after.aborted && after.converted == before.converted
            && after.calls == before.calls + [Compress(env.inputs[path]), RemoveBackground(env.compress(env.inputs[path]).data)]
  {
    var upto, uptoNames := paths + [path], names + [name];
    assert upto[..|upto| - 1] == paths && uptoNames[..|uptoNames| - 1] == names;
    AbortIsFinal(converted, upto, uptoNames, rest, restNames, env);
  }

  /** When every output name is already present, a run calls nothing and changes nothing. */
  lemma {:induction false} RerunMakesNoCalls(converted: Folder, paths: seq<string>, names: seq<string>, env: Services)
    requires |names| == |paths|
    requires forall i :: 0 <= i < |names| ==> names[i] in converted
    ensures Run(converted, paths, names, env) == RunResult(converted, [], false)
    decreases |paths|
  {
    if paths != [] {
      RerunMakesNoCalls(converted, paths[..|paths| - 1], names[..|names| - 1], env);
    }
  }

  /** When every stage succeeds for every file, the run completes and every file has its output. */
  lemma {:induction false} SucceedingRunConvertsAll(converted: Folder, paths: seq<string>, names: seq<string>, env: Services)
    requires |names| == |paths|
    requires forall i :: 0 <= i < |paths| ==> Succeeds(env, paths[i])
    ensures !Run(converted, paths, names, env).aborted
    ensures forall i :: 0 <= i < |names| ==> names[i] in Run(converted, paths, names, env).converted
    decreases |paths|
  {
    if paths != [] {
      var init, initNames := paths[..|paths| - 1], names[..|names| - 1];
      SucceedingRunConvertsAll(converted, init, initNames, env);
      var before := Run(converted, init, initNames, env);
      var after := Run(converted, paths, names, env);
      assert before.converted.Keys <= after.converted.Keys;
      forall i | 0 <= i < |names| ensures names[i] in after.converted {
        if i < |initNames| {
          assert names[i] == initNames[i];
        }
      }
    }
  }

  /** Running twice over the same inputs with services that succeed: the second run calls nothing. */
  lemma SecondRunMakesNoCalls(converted: Folder, paths: seq<string>, names: seq<string>, env: Services)
    requires |names| == |paths|
    requires forall i :: 0 <= i < |paths| ==> Succeeds(env, paths[i])
    ensures var first := Run(converted, paths, names, env);
            Run(first.converted, paths, names, env) == RunResult(first.converted, [], false)
  {
    SucceedingRunConvertsAll(converted, paths, names, env);
    RerunMakesNoCalls(Run(converted, paths, names, env).converted, paths, names, env);
  }

  /**
   * Scenario: "My Photo.JPG" alone in the input folder,
   * nothing converted yet, both services succeed: the output folder then
   * holds exactly "my_photo.png". The literals are parameters fixed by
   * requires, so that the verifier does not unfold OutputName on them.
   */
  lemma MyPhotoScenario(folder: string, root: string, ext: string, env: Services)
    requires root == "My Photo" && ext == "JPG"
    requires Succeeds(env, folder + "/" + root + "." + ext)
    ensures var paths := [folder + "/" + root + "." + ext];
            Run(map[], paths, OutputNames(paths), env).converted.Keys == {"my_photo.png"}
  {
    var paths := [folder + "/" + root + "." + ext];
    MyPhotoExample(folder, root, ext);
    var names := OutputNames(paths);
    assert names == ["my_photo.png"];
    assert paths[..0] == [] && names[..0] == [];
  }

  /**
   * The two compressions are checked differently: an empty first result
   * stops the file before background removal, an empty second result is
   * saved as an empty output file.
   */
  lemma EmptyCompressionAsymmetry(converted: Folder, path: string, name: string, env: Services)
    requires name !in converted && path in env.inputs
    ensures env.compress(env.inputs[path]) == Compressed([]) ==>
              ProcessFile(converted, path, name, env).outcome == CompressionEmpty
              && ProcessFile(converted, path, name, env).converted == converted
    ensures (&& env.compress(env.inputs[path]).Compressed?
             && env.compress(env.inputs[path]).data != []
             && env.removeBackground(env.compress(env.inputs[path]).data).Removed?
             && env.compress(env.removeBackground(env.compress(env.inputs[path]).data).data) == Compressed([])) ==>
              ProcessFile(converted, path, name, env).converted == converted[name := []]
  {
  }
}
