/**
 * process_images as the loop it is: one pass over the input paths that
 * reads the images_converted folder before each file and adds to it, with
 * compress_image, remove_background and save_image as the calls it makes.
 */
module Transform {
  import opened Names
  import opened Pipeline

  class ImageProcessor {
    /** The input files and the two remote services. */
    const env: Services
    /** The images_converted folder. */
    var converted: Folder
    /** Every call made so far to the services and to save_image, in order. */
    ghost var calls: seq<Call>

    constructor (env: Services, converted: Folder)
      ensures this.env == env && this.converted == converted && calls == []
    {
      this.env := env;
      this.converted := converted;
      calls := [];
    }

    /** compress_image: posts data to the compression service and fetches the result. */
    method CompressImage(data: Bytes) returns (r: Compression)
      modifies this`calls
      ensures r == env.compress(data)
      ensures calls == old(calls) + [Compress(data)]
    {
      r := env.compress(data);
      calls := calls + [Compress(data)];
    }

    /** remove_background: posts data to the background-removal service. */
    method RemoveBackground(data: Bytes) returns (r: Removal)
      modifies this`calls
      ensures r == env.removeBackground(data)
      ensures calls == old(calls) + [Call.RemoveBackground(data)]
    {
      r := env.removeBackground(data);
      calls := calls + [Call.RemoveBackground(data)];
    }

    /** save_image: writes data to images_converted/filename, replacing what was there. */
    method SaveImage(data: Bytes, filename: string)
      modifies this`converted, this`calls
      ensures converted == old(converted)[filename := data]
      ensures calls == old(calls) + [Save(filename, data)]
    {
      converted := converted[filename := data];
      calls := calls + [Save(filename, data)];
    }

    /**
     * The body of the loop in process_images for one input file whose output
     * name is outputFileName. Returns true when remove_background raised.
     */
    method ProcessFile(inputFile: string, outputFileName: string) returns (aborted: bool)
      modifies this`converted, this`calls
      ensures var f := Pipeline.ProcessFile(old(converted), inputFile, outputFileName, env);
              converted == f.converted && calls == old(calls) + f.calls && aborted == (f.outcome == Aborted)
    {
      aborted := false;
      if outputFileName in converted {
        return;
      }
      if inputFile !in env.inputs {
        return;
      }
      var compressed := CompressImage(env.inputs[inputFile]);
      if compressed.CompressRaised? || compressed.data == [] {
        return;
      }
      var noBackground := RemoveBackground(compressed.data);
      if noBackground.RemovalRaised? {
        aborted := true;
        return;
      }
      if noBackground.Rejected? {
        return;
      }
      var recompressed := CompressImage(noBackground.data);
      if recompressed.CompressRaised? {
        return;
      }
      SaveImage(recompressed.data, outputFileName);
    }

    /**
     * process_images over the paths glob listed. Returns true when
     * remove_background raised, which ends the run at that file.
     */
    method ProcessImages(paths: seq<string>) returns (aborted: bool)
      modifies this`converted, this`calls
      ensures var r := Run(old(converted), paths, OutputNames(paths), env);
              converted == r.converted && calls == old(calls) + r.calls && aborted == r.aborted
    {
      ghost var start, calls0, names := converted, calls, OutputNames(paths);
      aborted := false;
      var i := 0;
      RunReachedStart(start, paths, names, env, calls0);
      while i < |paths| && !aborted
        invariant RunReached(start, paths, names, env, i, calls0, converted, calls, aborted)
      {
        ghost var folderBefore, callsBefore := converted, calls;
        var outputFileName := OutputName(paths[i]);
        assert outputFileName == names[i];
        aborted := ProcessFile(paths[i], outputFileName);
        RunLoopStep(start, paths, names, env, i, calls0, folderBefore, callsBefore, converted, calls, aborted);
        i := i + 1;
      }
      RunLoopExit(start, paths, names, env, i, calls0, converted, calls, aborted);
    }
  }
}
