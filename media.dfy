/** `determineMediaType`: classifies an uploaded file as an image or a video
    by the text after the last `.` of its name. */
module Media {
  import opened Common

  /** The exception `filename.rsplit('.', 1)[1]` raises on a name without a `.`. */
  datatype MediaError = IndexOutOfRange

  const ImageExtensions: seq<string> := ["jpeg", "jpg", "png", "gif", "svg"]
  const VideoExtensions: seq<string> := ["avi", "mov", "mp4", "flv", "webm"]

  /** The index of the last `.` in `s`, if any. */
  function LastDot(s: string): (r: Option<nat>)
    ensures r == None <==> '.' !in s
    ensures r.Some? ==> r.value < |s| && s[r.value] == '.' && '.' !in s[r.value + 1..]
  {
    if |s| == 0 then None
    else if s[|s| - 1] == '.' then Some(|s| - 1)
    else
      var r := LastDot(s[..|s| - 1]);
      assert s == s[..|s| - 1] + [s[|s| - 1]];
      assert r.Some? ==> s[r.value + 1..] == s[..|s| - 1][r.value + 1..] + [s[|s| - 1]];
      r
  }

  /** `filename.rsplit('.', 1)[1]`: the text after the last `.`. */
  function Extension(filename: string): (r: Result<string, MediaError>)
    ensures r.Err? <==> '.' !in filename
    ensures r.Ok? ==> '.' !in r.value && |r.value| < |filename|
                      && filename == filename[..|filename| - |r.value| - 1] + "." + r.value
  {
    match LastDot(filename)
    case None => Err(IndexOutOfRange)
    case Some(i) =>
      assert filename == filename[..i] + "." + filename[i + 1..];
      Ok(filename[i + 1..])
  }

  /** `determineMediaType`: `"image"`, `"video"` or `None` by exact,
      case-sensitive comparison of the extension. */
  function DetermineMediaType(filename: string): Result<Option<string>, MediaError>
  {
    match Extension(filename)
    case Err(e) => Err(e)
    case Ok(ext) =>
      if ext in ImageExtensions then Ok(Some("image"))
      else if ext in VideoExtensions then Ok(Some("video"))
      else Ok(None)
  }

  /** The extension of `base.ext` is `ext`, whatever dots `base` contains. */
  lemma ExtensionOfDotted(base: string, ext: string)
    requires '.' !in ext
    ensures Extension(base + "." + ext) == Ok(ext)
  {
    var name := base + "." + ext;
    var i := |base|;
    assert name[i] == '.';
    assert name[i + 1..] == ext;
  }

  /** The classification of a name that has a dot: image extensions give
      `"image"`, video extensions `"video"`, anything else `None`. */
  lemma MediaTypeOfDotted(base: string, ext: string)
    requires '.' !in ext
    ensures DetermineMediaType(base + "." + ext)
            == Ok(if ext in ImageExtensions then Some("image")
                  else if ext in VideoExtensions then Some("video")
                  else None)
  {
    ExtensionOfDotted(base, ext);
  }

  /** A name without a dot raises instead of returning. */
  lemma MediaTypeWithoutDot(filename: string)
    requires '.' !in filename
    ensures DetermineMediaType(filename) == Err(IndexOutOfRange)
  {
  }

  /** Only the last dot counts: an earlier `.mp4` is part of the base. */
  lemma MediaTypeLastDotOnly(base: string)
    ensures DetermineMediaType(base + ".mp4.txt") == Ok(None)
  {
    assert "txt" !in ImageExtensions && "txt" !in VideoExtensions;
    assert (base + ".mp4") + "." + "txt" == base + ".mp4.txt";
    MediaTypeOfDotted(base + ".mp4", "txt");
  }

  /** An earlier `.txt` does not hide a video extension after the last dot. */
  lemma MediaTypeVideoAfterDots(base: string)
    ensures DetermineMediaType(base + ".txt.webm") == Ok(Some("video"))
  {
    assert "webm" !in ImageExtensions && "webm" in VideoExtensions;
    assert (base + ".txt") + "." + "webm" == base + ".txt.webm";
    MediaTypeOfDotted(base + ".txt", "webm");
  }

  /** A lower-case image extension is recognised. */
  lemma MediaTypeImage(base: string)
    ensures DetermineMediaType(base + ".png") == Ok(Some("image"))
  {
    assert "png" in ImageExtensions;
    assert base + "." + "png" == base + ".png";
    MediaTypeOfDotted(base, "png");
  }

  /** The comparison is case-sensitive: an upper-case extension is not recognised. */
  lemma MediaTypeCaseSensitive(base: string)
    ensures DetermineMediaType(base + ".PNG") == Ok(None)
  {
    assert "PNG" !in ImageExtensions && "PNG" !in VideoExtensions;
    assert base + "." + "PNG" == base + ".PNG";
    MediaTypeOfDotted(base, "PNG");
  }
}
