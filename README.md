# Image conversion batch: a verified model

`transform.py` converts every file in an input folder into a background-free,
compressed PNG in the folder `images_converted`. For each path that
`glob` lists, `process_images` derives an output name from the file name.
If that name is already in `images_converted`, it skips the file.
Otherwise it sends the bytes to the compression service, sends the result
to the background-removal service, compresses the cut-out again, and saves
the final bytes under the output name. Any stage that fails moves on to the
next file, except one: an exception out of background removal is not caught
and ends the whole run.

The model has three modules:

- `Names` (`names.dfy`) derives the output name as a pure function.
  It covers POSIX `os.path.basename` and `os.path.splitext`, the latter
  including its rule for leading dots, then `replace(' ', '_')`, ASCII
  `lower()` and the `.png` suffix.
- `Pipeline` (`pipeline.dfy`) specifies one iteration of the loop
  (`ProcessFile`) and a whole run (`Run`) as functions of the output folder.
  The services are `Services`: the readable input files as a map, and the
  two remote services as functions of the bytes sent. It proves what is
  skipped, what is written, which stages run and in which order, that
  nothing is ever overwritten, and that an abort is final.
- `Transform` (`transform.dfy`) is `process_images` as it is written.
  The class `ImageProcessor` holds the output folder as a `map` field that
  `SaveImage` updates in place. `ProcessFile` uses early returns where the
  source uses `continue`. `ProcessImages` is a `while` loop whose invariant
  ties the folder to `Run` over the paths handled so far.

The calls the script makes to the services and to `save_image` leave no
record in the program's state; their only trace is the console output,
which the model does not keep. The model records them in a ghost sequence
`calls`, so that the order of stages and "nothing was called" can be
stated.

The script applies all three stages unconditionally and writes to the
hard-coded folder `images_converted` (transform.py:36 and transform.py:48).

## Model

| member | source | states |
|---|---|---|
| Names.RFind | transform.py:44 | the index of the last occurrence of a character, or -1: that position holds the character and no later one does (the search inside `basename` and `splitext`) |
| Names.Basename | transform.py:44 | `os.path.basename` keeps no '/' |
| Names.BasenameIsLastComponent | transform.py:44 | the basename is the suffix of the path after its last '/', or the whole path when there is none |
| Names.SplitExt | transform.py:44 | `os.path.splitext`: root + ext is the input, and ext is empty or one '.' followed by neither '.' nor '/' |
| Names.Stem | transform.py:44 | `os.path.splitext(os.path.basename(p))[0]` holds no '/'. With the two lemmas below it drops exactly the last extension of the final component, and never a leading-dots name's |
| Names.StemDropsLastExtension | transform.py:44 | for root + "." + ext with no '.' in ext, the kept part is root, unless root is all dots (".bashrc"), when nothing is dropped |
| Names.StemWithoutDot | transform.py:44 | a file name without a '.' is kept whole |
| Names.LowerChar | transform.py:45 | ASCII `lower()` on one character: an upper-case letter becomes the lower-case letter at the same place in the alphabet, everything else is unchanged, and no upper-case letter results |
| Names.NameChars | transform.py:45 | `replace(' ', '_').lower()` keeps the length and maps each character on its own |
| Names.PngName | transform.py:45 | the name is the stem with each character mapped, followed by exactly ".png" |
| Names.OutputName | transform.py:44-45 | every derived output name ends in ".png" |
| Names.OutputNameIsClean | transform.py:45 | a derived output name contains no ' ', no '/' and no upper-case ASCII letter |
| Names.OutputNameOfJoin | transform.py:42-44 | only the final component matters: folder + "/" + file and file give the same output name |
| Names.OutputNameOfFile | transform.py:44-45 | a file root.ext in any folder, with root not all dots, gets the PNG name of root |
| Names.MyPhotoExample | transform.py:44-45 | ".../My Photo.JPG" becomes "my_photo.png" |
| Names.TarGzExample | transform.py:44 | only the last extension goes: ".../a.tar.gz" becomes "a.tar.png" |
| Pipeline.OutputNames | transform.py:42-45 | one output name per listed path, in glob's order |
| Pipeline.ProcessFile | transform.py:47-82 | skipped iff the name is present, and then with no calls and no change. Written iff the name is absent and every stage succeeds, with exactly compress(remove_bg(compress(input))) under the name. Otherwise the folder is unchanged. Aborted iff background removal raised after a non-empty first compression. Every other outcome occurs exactly when its stage fails: unreadable with no call, first compression raising or empty after one compress call, background rejected or raising after compress and remove-bg, second compression raising after compress, remove-bg and compress. A written file has exactly these three calls followed by its save. So a reached stage always runs, and a later stage runs only after the earlier one succeeded |
| Pipeline.SavedFiles | transform.py:80-82 | every name a sequence of calls saved is in the folder they saved |
| Pipeline.SavedFilesOfFile | transform.py:80-82 | one file saves nothing, or exactly its output under its name, and then that save is its last call |
| Pipeline.RunSavesOnlyNewNamesOnce | transform.py:47-82 | after a run, the folder is the old folder plus the files saved, no saved name was present before, and no name is saved twice in one run |
| Pipeline.RunKeepsExistingOutputs | transform.py:47-50 | every file already in the output folder is still there after a run, with the same contents |
| Pipeline.AbortIsFinal | transform.py:66-70 | once background removal has raised, later files add no calls and change nothing |
| Pipeline.AbortedPrefixIsRun | transform.py:66-70 | a run that aborted within its first k files is the whole run |
| Pipeline.RemovalRaiseAbortsRun | transform.py:66-70 | a file whose background removal raises ends the run with the folder as it was before that file, and the call log is the one before that file followed by exactly its compress and its remove-bg calls |
| Pipeline.Run | transform.py:40-84 | the whole loop over the paths in order, stopping at the file whose background removal raised. Each file makes at most four calls; the lemmas below prove it never overwrites, skips present names, is final once aborted and, when every file's stages succeed, leaves every output name in the folder |
| Pipeline.RunLoopStep | transform.py:40-84 | handling the next path after i paths without an abort gives Run over i + 1 paths |
| Pipeline.RunLoopExit | transform.py:40-84 | a loop that stopped at the end or at an abort has computed Run over all the paths |
| Pipeline.RerunMakesNoCalls | transform.py:47-50 | when every output name is present, a run makes no call and changes nothing |
| Pipeline.SucceedingRunConvertsAll | transform.py:54-82 | when every stage succeeds for every file, the run does not abort and every output name is in the folder afterwards |
| Pipeline.SecondRunMakesNoCalls | transform.py:40-84 | with services that succeed, running the script a second time calls no service and writes nothing |
| Pipeline.MyPhotoScenario | transform.py:40-84 | "My Photo.JPG" alone in the input folder, nothing converted yet and both services succeeding: the output folder then holds exactly "my_photo.png" |
| Pipeline.EmptyCompressionAsymmetry | transform.py:59-82 | an empty first compression stops the file with nothing written, but an empty second compression is written as an empty file |
| Transform.ImageProcessor.constructor | transform.py:40 | a processor over the given services and output folder, with no calls made |
| Transform.ImageProcessor.CompressImage | transform.py:28-33 | the compression service's answer for the bytes sent, with one compress call logged |
| Transform.ImageProcessor.RemoveBackground | transform.py:14-26 | the background-removal service's answer for the bytes sent, with one remove-bg call logged |
| Transform.ImageProcessor.SaveImage | transform.py:35-38 | the output folder maps filename to data and is otherwise unchanged, with one save logged |
| Transform.ImageProcessor.ProcessFile | transform.py:47-82 | the loop body leaves the folder and the call log as `Pipeline.ProcessFile` of the old folder says, and reports whether background removal raised |
| Transform.ImageProcessor.ProcessImages | transform.py:40-84 | the loop leaves the folder, the call log and the abort flag as `Pipeline.Run` over the paths and their output names says |

## Left out

- The HTTP requests of `remove_background` and `compress_image` (transform.py:14-33) are left out. This includes the URLs, headers, the Basic-auth header built with base64, the JSON access to `output.url` and the second GET. The services are deterministic functions in `Services` from the bytes sent to an outcome. A compression ends in bytes or an exception. A background removal ends in bytes (status 200), a rejection carrying the status, or an exception.
- Console output (`print`), the API-key and URL constants (transform.py:7-12) and the module-level call (transform.py:87) carry no behaviour that the model states.
- `glob.glob` (transform.py:42) is left out: its order, its hidden-file rule and its joining of the folder name. The paths are a given sequence in glob's order.
- Reading an input file (transform.py:57) is modelled as a lookup in `Services.inputs`. A path that is missing there stands for one that cannot be opened, such as a directory, and is caught like a compression error.
- Writing the output file (transform.py:35-38) is modelled as an update of the folder map. A failure of `open` or `write` inside `save_image` is not modelled. The model assumes `images_converted` exists and is writable; in the source such a failure would end the run.
- `os.path.exists` (transform.py:48) is modelled as membership in the folder map. Other processes changing `images_converted` during a run are not modelled.
- Names.LowerChar: `str.lower()` is modelled on ASCII letters only. Other upper-case letters are left unchanged, where Python would lower them too.
- Names.Basename and Names.SplitExt follow POSIX `posixpath`, with '/' as the only separator. Windows separators and drive letters are not modelled.
- The order of calls to the outside world is recorded in the ghost `calls` log. Their timing and any concurrency are not modelled; the script is sequential.
