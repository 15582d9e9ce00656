/**
 * Upload validation of app/file_utils.py: the extension predicate `allowed_file`,
 * the guard chain of `save_video_file`, and the path lookup `get_video_file`.
 */
module FileUtils {
  import opened Wrappers
  import opened Strings

  /** ALLOWED_VIDEO_EXTENSIONS. */
  const AllowedVideoExtensions: set<string> := {"mp4", "mov", "avi", "mkv"}

  /**
   * `allowed_file`: the name holds a '.', and the text after the LAST '.'
   * (`rsplit('.', 1)[1]`), lower-cased, is one of `allowed`.
   */
  function AllowedFile(filename: string, allowed: set<string>): (ok: bool)
    ensures ok ==> '.' in filename
  {
    '.' in filename && Lower(filename[RFind(filename, '.') + 1..]) in allowed
  }

  /**
   * The predicate holds exactly when some '.' of the name has no '.' after it and the
   * lower-cased text after it is allowed: only the last suffix is looked at.
   */
  lemma AllowedFileSplit(filename: string, allowed: set<string>)
    ensures AllowedFile(filename, allowed) <==> AcceptedAfterSomeDot(filename, allowed)
  {
    if AllowedFile(filename, allowed) {
      var i := RFind(filename, '.');
      LastDotSplit(filename, i);
      assert AcceptedAfterDot(filename, allowed, i);
    }
    if AcceptedAfterSomeDot(filename, allowed) {
      var i :| 0 <= i < |filename| && AcceptedAfterDot(filename, allowed, i);
      LastDotIs(filename, i);
    }
  }

  /** Position `i` holds a '.', no '.' follows it, and the lower-cased rest is allowed. */
  predicate AcceptedAfterDot(filename: string, allowed: set<string>, i: int)
    requires 0 <= i < |filename|
  {
    filename[i] == '.' && '.' !in filename[i + 1..] && Lower(filename[i + 1..]) in allowed
  }

  predicate AcceptedAfterSomeDot(filename: string, allowed: set<string>)
  {
    exists i :: 0 <= i < |filename| && AcceptedAfterDot(filename, allowed, i)
  }

  lemma LastDotSplit(filename: string, i: int)
    requires i == RFind(filename, '.') && i >= 0
    ensures '.' !in filename[i + 1..]
  {
    var ext := filename[i + 1..];
    forall k | 0 <= k < |ext| ensures ext[k] != '.' {
      assert ext[k] == filename[i + 1 + k];
    }
  }

  lemma LastDotIs(filename: string, i: int)
    requires 0 <= i < |filename| && filename[i] == '.' && '.' !in filename[i + 1..]
    ensures RFind(filename, '.') == i
  {
    assert filename == filename[..i + 1] + filename[i + 1..];
    RFindAppend(filename[..i + 1], filename[i + 1..], '.');
  }

  /** Upper- and lower-case spellings of a name are judged alike. */
  lemma AllowedFileIgnoresCase(f: string, g: string, allowed: set<string>)
    requires Lower(f) == Lower(g)
    ensures AllowedFile(f, allowed) == AllowedFile(g, allowed)
  {
    LowerKeepsDots(f);
    LowerKeepsDots(g);
    if '.' in f {
      SameTextAfterLastDot(f, g);
      AllowedFileWithDot(f, allowed);
      AllowedFileWithDot(g, allowed);
    }
  }

  /** For a name with a '.', the verdict is the lower-cased text after the last '.'. */
  lemma AllowedFileWithDot(f: string, allowed: set<string>)
    requires '.' in f
    ensures AllowedFile(f, allowed) == (Lower(f[RFind(f, '.') + 1..]) in allowed)
  {
  }

  /** Names that agree after lower-casing have their last '.' at the same place and agree after it. */
  lemma SameTextAfterLastDot(f: string, g: string)
    requires Lower(f) == Lower(g)
    requires RFind(Lower(f), '.') == RFind(f, '.') && RFind(Lower(g), '.') == RFind(g, '.')
    requires '.' in f
    ensures RFind(f, '.') == RFind(g, '.')
    ensures Lower(f[RFind(f, '.') + 1..]) == Lower(g[RFind(g, '.') + 1..])
  {
    var i := RFind(f, '.');
    LowerSuffix(f, i + 1);
    LowerSuffix(g, i + 1);
  }

  /** Worked cases: a double suffix is judged by its last part; no '.' or an empty suffix fails. */
  lemma AllowedFileExamples()
    ensures AllowedFile("a.tar.mp4", AllowedVideoExtensions)
    ensures AllowedFile("Clip.MKV", AllowedVideoExtensions)
    ensures !AllowedFile("mp4", AllowedVideoExtensions)
    ensures !AllowedFile("a.", AllowedVideoExtensions)
  {
    LastDotIs("a.tar.mp4", 5);
    assert "a.tar.mp4"[6..] == "mp4";
    assert Lower("mp4") == "mp4";
    LastDotIs("Clip.MKV", 4);
    assert "Clip.MKV"[5..] == "MKV";
    assert Lower("MKV") == "mkv";
    assert "mp4"[0] != '.' && "mp4"[1] != '.' && "mp4"[2] != '.';
    LastDotIs("a.", 1);
    assert "a."[2..] == "";
    assert Lower("") == "";
  }

  /** An uploaded file part, of which `save_video_file` inspects only the client-side name. */
  datatype Upload = Upload(filename: string)

  datatype UploadError = NoFilePart | NoSelectedFile | InvalidFileType | SaveError

  datatype UploadReply = Uploaded(filename: string) | UploadRejected(error: UploadError)

  /** The HTTP status `save_video_file` returns with each reply. */
  function UploadStatus(reply: UploadReply): int
  {
    match reply
    case Uploaded(_) => 201
    case UploadRejected(SaveError) => 500
    case UploadRejected(_) => 400
  }

  /** What `save_video_file` answers, and the name it asks `file.save` to write, if any. */
  datatype SaveOutcome = SaveOutcome(reply: UploadReply, savedAs: Option<string>)

  /**
   * `save_video_file`: no file, then an empty name, then a disallowed extension are
   * rejected in that order before anything is written; otherwise the secured name is
   * saved, and the reply depends on whether the save raised.
   * `secure` is werkzeug's `secure_filename`; `saveSucceeds` is whether `file.save` returned.
   */
  function SaveVideoFile(file: Option<Upload>, secure: string -> string, saveSucceeds: bool): (o: SaveOutcome)
    ensures o.savedAs.Some? <==>
      file.Some? && file.value.filename != "" && AllowedFile(file.value.filename, AllowedVideoExtensions)
    ensures o.savedAs.Some? ==> o.savedAs.value == secure(file.value.filename)
    ensures o.reply.Uploaded? <==> o.savedAs.Some? && saveSucceeds
    ensures o.reply.Uploaded? ==> o.reply.filename == secure(file.value.filename)
    ensures file.None? ==> o.reply == UploadRejected(NoFilePart)
    ensures file.Some? && file.value.filename == "" ==> o.reply == UploadRejected(NoSelectedFile)
    ensures file.Some? && file.value.filename != "" && !AllowedFile(file.value.filename, AllowedVideoExtensions)
      ==> o.reply == UploadRejected(InvalidFileType)
    ensures UploadStatus(o.reply) == 201 <==> o.reply.Uploaded?
    ensures UploadStatus(o.reply) == 500 <==> o.savedAs.Some? && !saveSucceeds
  {
    if file.None? then SaveOutcome(UploadRejected(NoFilePart), None)
    else if file.value.filename == "" then SaveOutcome(UploadRejected(NoSelectedFile), None)
    else if !AllowedFile(file.value.filename, AllowedVideoExtensions) then
      SaveOutcome(UploadRejected(InvalidFileType), None)
    else
      var filename := secure(file.value.filename);
      if saveSucceeds then SaveOutcome(Uploaded(filename), Some(filename))
      else SaveOutcome(UploadRejected(SaveError), Some(filename))
  }

  /** Result of `get_video_file`: the full path, or the 404 it answers when absent. */
  datatype Lookup = Found(path: string) | NotFound(status: int)

  /** `get_video_file`: join the upload folder and the name; `pathExists` is `os.path.exists`. */
  function GetVideoFile(uploadFolder: string, filename: string, pathExists: string -> bool): (r: Lookup)
    ensures r.Found? <==> pathExists(Join(uploadFolder, filename))
    ensures r.Found? ==> r.path == Join(uploadFolder, filename)
    ensures r.NotFound? ==> r.status == 404
  {
    var path := Join(uploadFolder, filename);
    if pathExists(path) then Found(path) else NotFound(404)
  }
}
