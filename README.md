# Clipia video pipeline, modelled in Dafny

Clipia is a Flask application that finds noteworthy moments in long videos. An uploaded
video is checked for an allowed extension and saved. For analysis, a video of 25 minutes
or more is cut into 25-minute clips that overlap by 3 minutes. Each clip is sent to a
language model, which answers with a list of "Momentos" (a reason, a start second and an
end second). Those times are moved from clip time to video time and validated against the
video's duration. The surviving moments go into a JSON report, which is saved in the
workspace and also cached under the video's SHA-256 digest, so a second analysis of the
same file answers from the cache. A separate operation trims a video to a given range.

The model covers the three core files:

- `file_utils.dfy` (module `FileUtils`) covers `app/file_utils.py`: the extension
  predicate, the upload guard chain with its status codes, and the upload-folder lookup.
- `video_processing.dfy` (module `VideoProcessing`) covers `app/video_processing.py`:
  - the window plan of `split_video_into_clips`, as a specification function;
  - its `while` loop, as a method proved against that function;
  - the dictionary of saved clips, with per-clip write failures;
  - the guard chain of `trim_video` and the name of the trimmed file.
- `video_analysis.dfy` (module `VideoAnalysis`) covers `app/video_analysis.py`:
  - moment rebasing;
  - the clip loop and the validation loop, as methods proved against specification
    functions;
  - the report;
  - the cache and output files of the workspace, as class `AnalysisStore`, whose
    `AnalyzeVideo` method follows `analyze_video` step by step and is proved equal to
    the specification function `Analysis`.
- `strings.dfy` and `wrappers.dfy` hold string helpers (`str.rfind`, ASCII lower-casing,
  decimal rendering, POSIX `os.path.join`) and `Option`.

Modelling choices:

- **Times.** Times are `real`. The code only compares and adds them.
- **The outside world as inputs.** MoviePy, the model API, hashing and the clock are
  inputs:
  - the probed duration (`Option`, None when loading raises);
  - the success of each clip write, indexed by `clip_index`;
  - the model's answer for each clip, indexed by the clip's position in the clip map;
  - the digest (`Option`, None when the file cannot be read);
  - the timestamp;
  - the outcome of each report write.
- **`float()` on strings** is an input `parse: string -> Option<real>`.
- **Moment fields.** A field is `Missing`, `Str`, `Number` or `Other`:
  - `Number(x)` stands for a JSON number, and for the `str()` of a float that the
    pipeline wrote back into the moment, which `float()` reads back as `x`;
  - `Other` (null, a list, an object) makes `float()` raise TypeError, not ValueError.
- **TypeError versus ValueError.** The two behave differently, and the model keeps both:
  - a TypeError during rebasing escapes the inner `except ValueError`; the outer handler
    then abandons the rest of that clip, keeping the moments already appended;
  - during validation a TypeError would escape `analyze_video` altogether;
    `AccumulatedScreened` proves that no accumulated moment can cause one.
- **Clip map.** The clip map (a Python dict) is a sequence of entries in insertion order.
  Its keys are proved distinct (`SavedClipsExactly`), so inserting is appending.
- **Which video is split.** `split_video_into_clips` splits the workspace's current
  video (`video_in`), not the identifier it is passed. The model does the same: its
  input is that workspace value, and an empty string counts as no video.
- **The workspace directory** is a map from path to file: a readable report, or an
  unreadable file. A report write either succeeds, fails at `open` (nothing written) or
  fails during `json.dump` (an unreadable file is left behind).

## Model

| member | source | states |
|---|---|---|
| FileUtils.AllowedFile | app/file_utils.py:17-29 | an accepted name always contains a '.' |
| FileUtils.AllowedFileSplit | app/file_utils.py:28-29 | a name is accepted exactly when it has a '.' with no '.' after it, and the lower-cased text after that last '.' is in the allowed set |
| FileUtils.AllowedFileIgnoresCase | app/file_utils.py:29 | two names that agree after lower-casing get the same verdict |
| FileUtils.AllowedFileExamples | app/file_utils.py:15-29 | with the set {mp4, mov, avi, mkv}: "a.tar.mp4" and "Clip.MKV" are accepted; "mp4" and "a." are rejected |
| FileUtils.SaveVideoFile | app/file_utils.py:31-73 | guards in order: no file, then an empty name, then a disallowed extension, each 400 and nothing saved; otherwise the secured name is saved; 201 with that name exactly when the save succeeds, 500 exactly when it was attempted and failed |
| VideoProcessing.PlannedWindows | app/video_processing.py:148-200 | the ranges the splitter tries, in order: at least one, the first starting at 0 (characterized in full by PlannedWindowsShape, PlannedWindowsBounded, PlannedWindowsOverlap and PlannedWindowsCover) |
| VideoProcessing.WindowsFromShape | app/video_processing.py:178-199 | the i-th range visited from a start begins i steps of 1320 s later, begins before the duration, and ends at min(start + 1500, duration) |
| VideoProcessing.PlannedWindowsShape | app/video_processing.py:148-199 | at least one range; below 1500 s exactly (0, duration); otherwise range i starts at 1320·i below the duration and ends at min(start + 1500, duration); the count n satisfies 1320·(n−1) < duration ≤ 1320·n; the last range ends at the duration |
| VideoProcessing.PlannedWindowsBounded | app/video_processing.py:179-181 | every range has 0 ≤ start ≤ end ≤ duration and is at most 1500 s long; it is non-empty when the duration is positive |
| VideoProcessing.PlannedWindowsOverlap | app/video_processing.py:148-150 | the next range starts 1320 s later, and consecutive ranges overlap by exactly 180 s; the exception is a range that already reaches the end, whose one successor is the final range and lies inside it |
| VideoProcessing.WindowsFromCover | app/video_processing.py:178-199 | every instant from a start up to the duration lies in some visited range |
| VideoProcessing.PlannedWindowsCover | app/video_processing.py:162-199 | every instant of [0, duration] lies in some planned range |
| VideoProcessing.PlannedWindowsExamples | app/video_processing.py:162-199 | 1500 s gives (0,1500), (1320,1500); 3600 s gives (0,1500), (1320,2820), (2640,3600); 600 s gives (0,600) |
| VideoProcessing.ClipPathInjective | app/video_processing.py:182-183 | different clip indexes give different `clip_k.mp4` paths |
| VideoProcessing.SavedClips | app/video_processing.py:180-200 | the clip map the loop builds holds at most one entry per planned range (characterized in full by SavedClipsExactly, SavedClipsInPlanOrder, SavedClipsAgree and WriteFailureDropsOnlyItsClip) |
| VideoProcessing.SavedRangesPlanned | app/video_processing.py:180-195 | every saved clip's range is one of the planned ranges |
| VideoProcessing.SavedClipsExactly | app/video_processing.py:178-199 | the entry for planned position k is present exactly when write k succeeded; every entry is one of those; no two entries share a path |
| VideoProcessing.SavedClipsInPlanOrder | app/video_processing.py:180-199 | the clip map keeps plan order: of two entries, the earlier carries the smaller clip number, hence the earlier start time; the analysis walks the clips, and so orders its moments, in that order |
| VideoProcessing.SavedClipsAgree | app/video_processing.py:185-195 | the saved clips depend only on the write outcomes of the planned positions |
| VideoProcessing.WriteFailureDropsOnlyItsClip | app/video_processing.py:185-199 | when one more write fails, the result loses exactly that clip's entry; everything else stays, in order |
| VideoProcessing.SplitResult | app/video_processing.py:110-207 | a non-empty result needs a workspace video, an existing file and a successful load, and every clip's range is a range of the plan for the loaded duration |
| VideoProcessing.SplitVideoIntoClips | app/video_processing.py:110-207 | the returned clip map is empty without a workspace video, without the file, or when loading fails; otherwise it is the saved clips of the plan |
| VideoProcessing.WriteWindows | app/video_processing.py:178-199 | the loop over `start_time` and `clip_index` yields exactly the saved clips of the window plan |
| VideoProcessing.SplitExt | app/video_processing.py:69 | stem and extension concatenate back to the name; an extension is split off exactly when the last '.' follows the last '/' and something other than '.' precedes it in the last path component; it is then the text from that last '.', which holds no further '.' and no '/' |
| VideoProcessing.SplitExtDoubleSuffix | app/video_processing.py:69 | "a.tar.mp4" splits into "a.tar" and ".mp4" |
| VideoProcessing.SplitExtNoExtension | app/video_processing.py:69 | ".bashrc" and "d.x/f" have no extension |
| VideoProcessing.TrimmedName | app/video_processing.py:69-70 | "_trimmed" is inserted where the extension begins; deleting it gives the input name back (TrimmedNameKeepsExtension states what splitting the result gives) |
| VideoProcessing.TrimmedNameExample | app/video_processing.py:69-70 | "clip.mp4" becomes "clip_trimmed.mp4" |
| VideoProcessing.TrimmedNameKeepsExtension | app/video_processing.py:69-70 | splitting the trimmed name again gives the input's stem with "_trimmed" added, and the input's extension unchanged |
| VideoProcessing.TrimRangeError | app/video_processing.py:77-91 | the four checks in order, each as an if-and-only-if: missing times exactly when one is absent; a negative time exactly when both are given and one is below 0; out of bounds exactly when both are non-negative and start ≥ duration or end > duration; an empty range exactly when both lie within the video and end ≤ start; no error exactly when 0 ≤ start < end ≤ duration |
| VideoProcessing.TrimVideo | app/video_processing.py:43-108 | 404 exactly when the input is missing; 400 exactly when the input exists and loads but a range check fails, carrying the first failed check; 500 exactly when the input exists and either loading fails or the checks pass and the write fails; 200 exactly when the input exists, loads, passes the checks and is written, with the trimmed name, for a range inside the video |
| VideoAnalysis.ToFloat | app/video_analysis.py:220-221 | a TypeError exactly for a null, list or object field; a ValueError exactly for a string that `float()` rejects; a string that it accepts reads as the parsed value; an absent field reads as 0; a number reads as itself |
| VideoAnalysis.RebaseMoment | app/video_analysis.py:218-228 | rebased exactly when both times convert, each moved by the clip start, reason kept; aborted exactly on a TypeError at the start, or at the end after the start converted; otherwise the moment is unconvertible and kept as is |
| VideoAnalysis.RebaseAll | app/video_analysis.py:217-228 | a clip contributes at most as many moments as it lists, and the i-th contributed moment is the outcome (rebased or kept as is) of the i-th listed one (RebaseAllStopsAtAbort says where it stops) |
| VideoAnalysis.RebaseAllStopsAtAbort | app/video_analysis.py:217-228 | a clip contributes exactly its moments before the first TypeError, in order, each rebased or kept as is |
| VideoAnalysis.FailedClipContributesNothing | app/video_analysis.py:163-245 | a clip whose call fails, whose JSON fails or that lacks "Momentos" adds nothing; the other clips' moments are exactly as before, in clip order |
| VideoAnalysis.AccumulatedMembers | app/video_analysis.py:163-228 | a moment is accumulated exactly when some clip contributes it |
| VideoAnalysis.AccumulatedScreened | app/video_analysis.py:225-228 | every accumulated moment has numeric times or is unconvertible, so validation cannot raise a TypeError |
| VideoAnalysis.CollectMoments | app/video_analysis.py:157-245 | the clip loop accumulates exactly the clip-by-clip concatenation of contributions |
| VideoAnalysis.RebaseMomentos | app/video_analysis.py:217-228 | the loop over one clip's "Momentos" appends exactly that clip's contribution: each item's outcome, in order, up to the first TypeError |
| VideoAnalysis.ValidMoments | app/video_analysis.py:248-256 | no more survivors than moments, and every survivor passes the check (both times convert, 0 ≤ start ≤ D, 0 ≤ end ≤ D, start ≤ end); ValidMomentsMembers gives the converse |
| VideoAnalysis.ValidMomentsMembers | app/video_analysis.py:248-256 | a moment survives validation exactly when it was accumulated and both times convert with 0 ≤ start ≤ D, 0 ≤ end ≤ D and start ≤ end; survivors are no more than the input |
| VideoAnalysis.ValidMomentsAppend | app/video_analysis.py:248-254 | validation of a concatenation is the concatenation of the validations, so order is preserved |
| VideoAnalysis.ValidMomentsIdempotent | app/video_analysis.py:248-256 | validating the survivors again changes nothing |
| VideoAnalysis.ValidateMoments | app/video_analysis.py:248-259 | the loop keeps exactly the valid moments, in order |
| VideoAnalysis.ReportMomentsRebased | app/video_analysis.py:225-259 | every moment that survives validation has numeric times with 0 ≤ start ≤ end ≤ D; an unconvertible moment never survives |
| VideoAnalysis.RebasedMomentKept | app/video_analysis.py:215-224 | a moment at 0 ≤ s ≤ e in its clip is rebased, and it is kept when its clip start plus e is within the duration |
| VideoAnalysis.MomentExamples | app/video_analysis.py:215-256 | (5, 10) in the clip at 1320 becomes (1325, 1330); (30, 40) there is kept for 3600 s; the bounds 0 and D are inclusive; a reversed range or an end past D is dropped; absent fields read as (0, 0) |
| VideoAnalysis.OutputPathIsNotCachePath | app/video_analysis.py:277-278 | with a hash, the report file and the cache entry are different paths |
| VideoAnalysis.CachedReport | app/video_analysis.py:117-130 | a hit exactly when there is a hash and its entry reads back as a report; the report returned is that stored report with its "cached" flag set |
| VideoAnalysis.ClipPlan | app/video_analysis.py:141-151 | a video shorter than 1500 s is the single clip (input path, 0, duration); a longer one is exactly what the splitter returns |
| VideoAnalysis.ClipPlanWithinVideo | app/video_analysis.py:141-155 | when the splitter loads the probed duration, every clip lies within the video and is at most 1500 s long |
| VideoAnalysis.BuildReport | app/video_analysis.py:262-271 | the count equals the number of moments, the report is not marked cached, its clip map and duration are the ones analysed, and every moment passes validation |
| VideoAnalysis.Persist | app/video_analysis.py:273-300 | saved exactly when the report file is written, otherwise the 500 save failure; a failed report write leaves the workspace as that write alone leaves it (unchanged after a failed open, an unreadable report file after a failed dump), so the cache entry is never touched; no file other than the report file and, with a hash, the cache entry changes |
| VideoAnalysis.Analysis | app/video_analysis.py:93-300 | every failure answers 404 or 500, and 200 is answered exactly when the run does not fail; every failure before the save, and every cache answer, leaves the workspace unchanged; a cache answer is marked cached |
| VideoAnalysis.AnalysisStore.WriteReport | app/video_analysis.py:281-293 | a successful write stores the report, a failed open changes nothing, a failed dump leaves an unreadable file; success is reported exactly for a successful write |
| VideoAnalysis.AnalysisStore.AnalyzeVideo | app/video_analysis.py:93-300 | the answer and the new workspace are those of `Analysis` |
| VideoAnalysis.AnalysisInputNotFound | app/video_analysis.py:108-112 | a missing input answers 404 and leaves the workspace alone |
| VideoAnalysis.AnalysisCacheHit | app/video_analysis.py:117-127 | a hit returns the stored report marked cached, leaves the workspace alone, and does not depend on the probe, the split or the model |
| VideoAnalysis.AnalysisUnreadableCacheIsMiss | app/video_analysis.py:128-130 | an unreadable cache entry gives the same answer as no entry |
| VideoAnalysis.AnalysisNoDuration | app/video_analysis.py:133-137 | without a duration the run answers 500 and writes nothing |
| VideoAnalysis.AnalysisSplitFailed | app/video_analysis.py:141-155 | the split failure (500, nothing written) happens exactly for a video of 1500 s or more whose split saved no clip |
| VideoAnalysis.AnalysisTouchesOnlyItsFiles | app/video_analysis.py:273-300 | a run changes no workspace file other than its report file and its cache entry |
| VideoAnalysis.AnalysisWithoutHash | app/video_analysis.py:117-118 | without a hash there is no cache answer; the only file written is "workspace/analizys-no-hash.json" |
| VideoAnalysis.AnalysisSaves | app/video_analysis.py:281-300 | past the checks, 200 exactly when the report file is written, otherwise 500; the file then holds the report; a failed dump leaves an unreadable file; with a hash and a successful cache write, the cache entry holds the same report; when the report write fails, the cache entry is as it was, and a failed open changes nothing |
| VideoAnalysis.AnalysisReportFacts | app/video_analysis.py:262-271 | the count equals the number of moments; the duration is the probed one; the clip map is the one analysed; the report is not marked cached; every moment was accumulated and lies within [0, D] with start ≤ end |
| VideoAnalysis.AnalysisSecondRunHitsCache | app/video_analysis.py:286-291 | once a run has stored its report in the cache, a second run on the same file returns that report marked cached and changes nothing |

## Left out

- MoviePy (loading, `subclipped`, `write_videofile`) is not modelled: a probed duration and per-write success are inputs. `get_video_duration` is the `probe` input.
- The model API (client, upload, generation, file deletion) is not modelled: each clip's answer is an input. Its schema, prompt and model names are configuration.
- SHA-256 and the chunked file read of `calculate_file_hash` are the `fileHash` input (a digest, or None when reading fails).
- JSON encoding and decoding, and the text written, are not modelled: a report file either reads back as the report written or is unreadable. A report read back is taken to be the one written; float and string round trips through JSON are not modelled.
- `float()` on strings is the `parse` input: "nan", "inf" and other IEEE special values are outside the model, and so is IEEE-754 rounding of the additions.
- `datetime.now()` is the `now` input.
- `os.makedirs` is not modelled: it is assumed to succeed. All three calls (app/video_processing.py:145, app/video_analysis.py:147 and :274) are outside any `try`, so an exception there would escape `split_video_into_clips` and `analyze_video` alike.
- `cleanup_temp_clips` is not modelled: it only deletes files and is never called by the core.
- FileUtils.GetVideoFile: `get_video_file` is modelled only as the lookup that trimming, splitting and analysis use (the upload path joined with the name, found when it exists, else 404); its contract says no more than that, and it has no row of its own.
- `secure_filename` is the `secure` input of `SaveVideoFile`. Writing the upload is the `saveSucceeds` input; a partially written file after a failed save is not modelled.
- FileUtils.SaveVideoFile: an upload is `Option<Upload>`, so only a missing upload counts as "no file". werkzeug's `FileStorage` is falsy when its filename is empty, which makes the empty-filename guard unreachable in the application; the model keeps both guards in their order.
- FileUtils.AllowedFile: lower-casing is ASCII only. Python's `str.lower` also folds non-ASCII letters (for example U+212A KELVIN SIGN to 'k'), which the model does not.
- VideoAnalysis.RebaseMoment: a "Momentos" item that is not a JSON object, and a "Momentos" value that is not a list, are not modelled; the first makes `moment.get` raise AttributeError, which ends that clip as an abort does. A JSON boolean time field has no field kind of its own: `float()` reads it as 1.0 or 0.0, so it is to be given as `Number(1.0)` or `Number(0.0)`.
- VideoProcessing.TrimVideo: start and end times are numbers or absent. A time of another JSON type would raise on comparison and answer 500; the model does not represent that case. Nor does it represent a NaN time: the route passes `float(start_time)` and `float(end_time)`, which accept "nan" and the JSON `NaN` literal, and with a NaN every comparison at app/video_processing.py:81-89 is false, so such a range passes all four checks and reaches `subclipped`.
- VideoProcessing.TrimRangeError: times are reals, so its "no error exactly when 0 ≤ start < end ≤ duration" does not cover NaN, which passes all four checks in the source (see the TrimVideo line).
- Routing (app/routes.py), the application factory and the workspace singleton (app/workspace.py, app/workspace_utils.py) are not modelled. The workspace's current video is the `workspaceVideo` input of the splitter.
