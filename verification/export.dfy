/** Choosing the parameters of an image download: the MIME type and file
    name derived from the format the user typed, and the quality passed to
    the encoder, as `exportCanvasAsImage` and `openExportDialog` pick them. */
module Export {
  import opened Wrappers

  /** Lower-cases the ASCII letters of `s`; every other character is kept. */
  function ToLower(s: string): (r: string)
    ensures |r| == |s|
    ensures forall i :: 0 <= i < |s| ==>
      r[i] == (if 'A' <= s[i] <= 'Z' then (s[i] as int + 32) as char else s[i])
    ensures forall i :: 0 <= i < |r| ==> !('A' <= r[i] <= 'Z')
    decreases |s|
  {
    if |s| == 0 then ""
    else
      var c := s[|s| - 1];
      ToLower(s[..|s| - 1]) + [if 'A' <= c <= 'Z' then (c as int + 32) as char else c]
  }

  /** A string without upper-case ASCII letters is its own lower case. */
  lemma ToLowerKeepsLower(s: string)
    requires forall i :: 0 <= i < |s| ==> !('A' <= s[i] <= 'Z')
    ensures ToLower(s) == s
  {
    assert forall i :: 0 <= i < |s| ==> ToLower(s)[i] == s[i];
  }

  lemma ToLowerIdempotent(s: string)
    ensures ToLower(ToLower(s)) == ToLower(s)
  {
    var once := ToLower(s);
    assert forall i :: 0 <= i < |once| ==> ToLower(once)[i] == once[i];
  }

  /** The format names the export knows, and their MIME types. */
  const MimeTypes: map<string, string> :=
    map["png" := "image/png", "jpeg" := "image/jpeg", "jpg" := "image/jpeg", "webp" := "image/webp"]

  const DefaultMimeType := "image/png"

  /** The MIME type for a format typed in any letter case; PNG for a
      format the table does not list. */
  function MimeType(format: string): (r: string)
    ensures r in {"image/png", "image/jpeg", "image/webp"}
    ensures ToLower(format) in MimeTypes ==> r == MimeTypes[ToLower(format)]
    ensures ToLower(format) !in MimeTypes ==> r == DefaultMimeType
  {
    var key := ToLower(format);
    if key in MimeTypes then MimeTypes[key] else DefaultMimeType
  }

  lemma MimeTypeCases(format: string)
    ensures MimeType(format) == "image/jpeg" <==> ToLower(format) == "jpeg" || ToLower(format) == "jpg"
    ensures MimeType(format) == "image/webp" <==> ToLower(format) == "webp"
    ensures MimeType(format) == "image/png" <==> ToLower(format) !in {"jpeg", "jpg", "webp"}
  {
    var key := ToLower(format);
    if key !in MimeTypes {
      assert key != "jpeg" && key != "jpg" && key != "webp";
    }
  }

  /** The letter case of the format never changes the MIME type. */
  lemma MimeTypeIgnoresCase(a: string, b: string)
    requires ToLower(a) == ToLower(b)
    ensures MimeType(a) == MimeType(b)
  {
  }

  /** The downloaded file's name: the chosen name, a dot and the format as
      typed but lower-cased. */
  function DownloadName(fileName: string, format: string): (r: string)
    ensures |r| == |fileName| + 1 + |format|
    ensures r[..|fileName|] == fileName && r[|fileName|] == '.'
    ensures r[|fileName| + 1..] == ToLower(format)
  {
    fileName + "." + ToLower(format)
  }

  /** The text after the last dot of a name; the whole name when it has
      no dot. */
  function Extension(name: string): (r: string)
    ensures |r| <= |name| && r == name[|name| - |r|..]
    ensures '.' !in r
    decreases |name|
  {
    if |name| == 0 then ""
    else if name[|name| - 1] == '.' then ""
    else Extension(name[..|name| - 1]) + [name[|name| - 1]]
  }

  /** When the format holds no dot, the extension of the downloaded file is
      the lower-cased format and what precedes it is the chosen name. */
  lemma {:induction false} ExtensionOfDownloadName(fileName: string, format: string)
    requires '.' !in format
    ensures var name := DownloadName(fileName, format);
      && Extension(name) == ToLower(format)
      && name[..|fileName|] == fileName
  {
    ExtensionAfterDot(fileName + ".", ToLower(format));
    assert DownloadName(fileName, format) == (fileName + ".") + ToLower(format);
  }

  lemma ExtensionSnoc(name: string, c: char)
    requires c != '.'
    ensures Extension(name + [c]) == Extension(name) + [c]
  {
    assert (name + [c])[..|name|] == name;
  }

  lemma {:induction false} ExtensionAfterDot(head: string, tail: string)
    requires |head| > 0 && head[|head| - 1] == '.' && '.' !in tail
    ensures Extension(head + tail) == tail
    decreases |tail|
  {
    if |tail| == 0 {
      assert head + tail == head;
    } else {
      var t, c := tail[..|tail| - 1], tail[|tail| - 1];
      assert tail == t + [c];
      assert head + tail == (head + t) + [c];
      ExtensionAfterDot(head, t);
      ExtensionSnoc(head + t, c);
    }
  }

  /** A number as `parseFloat` may produce it from the quality prompt. */
  datatype QualityInput = NotANumber | Infinity(negative: bool) | Number(value: real)

  const DefaultQuality: real := 0.9
  const MinQuality: real := 0.1
  const MaxQuality: real := 1.0

  predicate InRange(q: QualityInput) {
    q.Number? && MinQuality <= q.value <= MaxQuality
  }

  /** The typed quality when it is a number in [0.1, 1.0]; otherwise the
      default 0.9. */
  function CheckedQuality(q: QualityInput): (r: real)
    ensures MinQuality <= r <= MaxQuality
    ensures InRange(q) <==> (q.Number? && r == q.value)
    ensures !InRange(q) ==> r == DefaultQuality
  {
    if q.NotANumber? || q.Infinity? || q.value < MinQuality || q.value > MaxQuality then DefaultQuality
    else q.value
  }

  /** Checking an already checked quality changes nothing. */
  lemma CheckedQualityIdempotent(q: QualityInput)
    ensures CheckedQuality(Number(CheckedQuality(q))) == CheckedQuality(q)
  {
  }

  /** The quality prompt is shown only for the formats typed as `jpeg` or
      `webp`, in any letter case. */
  predicate AsksQuality(format: string) {
    ToLower(format) == "jpeg" || ToLower(format) == "webp"
  }

  /** Every format that asks for a quality has a lossy MIME type; `jpg`
      has one too but is never asked, so it always gets the default. */
  lemma AsksQualityOnlyLossy(format: string)
    ensures AsksQuality(format) ==> MimeType(format) in {"image/jpeg", "image/webp"}
    ensures ToLower(format) == "jpg" ==> !AsksQuality(format) && MimeType(format) == "image/jpeg"
  {
    MimeTypeCases(format);
  }

  /** What the download link receives: the encoder's MIME type and quality
      and the file name. */
  datatype Download = Download(mimeType: string, fileName: string, quality: real)

  /** `exportCanvasAsImage`: nothing for a missing canvas, otherwise the
      download for the given format, name and quality. */
  function ExportCanvasAsImage(canvasValid: bool, format: string, fileName: string, quality: real): (r: Option<Download>)
    ensures r.Some? <==> canvasValid
    ensures r.Some? ==> r.value.mimeType in {"image/png", "image/jpeg", "image/webp"} && r.value.quality == quality
    ensures r.Some? ==> |r.value.fileName| > |fileName| && r.value.fileName[..|fileName|] == fileName
    ensures r.Some? ==> r.value.mimeType == MimeType(format) && r.value.fileName == DownloadName(fileName, format)
  {
    if !canvasValid then None
    else Some(Download(MimeType(format), DownloadName(fileName, format), quality))
  }

  const DefaultFormat := "png"
  const DefaultFileName := "drawing"

  /** The same call with any of the three parameters left out, each taking
      its default. */
  function ExportWithDefaults(canvasValid: bool, format: Option<string>, fileName: Option<string>,
                              quality: Option<real>): (r: Option<Download>)
    ensures r.Some? <==> canvasValid
    ensures r.Some? && quality.None? ==> r.value.quality == DefaultQuality
    ensures r.Some? && format.None? ==> r.value.mimeType == MimeType(DefaultFormat)
    ensures r.Some? && fileName.None? && format.None? ==>
      r.value.fileName == DownloadName(DefaultFileName, DefaultFormat)
    ensures r.Some? && quality.Some? ==> r.value.quality == quality.value
    ensures r.Some? && format.Some? ==> r.value.mimeType == MimeType(format.value)
    ensures r.Some? && fileName.Some? ==>
      |r.value.fileName| > |fileName.value| && r.value.fileName[..|fileName.value|] == fileName.value
    ensures r.Some? && fileName.None? ==>
      |r.value.fileName| > |DefaultFileName| && r.value.fileName[..|DefaultFileName|] == DefaultFileName
    ensures r.Some? && format.None? ==> Extension(r.value.fileName) == "png"
    ensures r.Some? && format.Some? && '.' !in format.value ==>
      Extension(r.value.fileName) == ToLower(format.value)
    ensures r.Some? ==>
      var name := if fileName.Some? then fileName.value else DefaultFileName;
      r.value.fileName == DownloadName(name, if format.Some? then format.value else DefaultFormat)
  {
    var fmt := if format.Some? then format.value else DefaultFormat;
    var name := if fileName.Some? then fileName.value else DefaultFileName;
    DefaultFormatIsLower();
    if '.' in fmt then
      ExportCanvasAsImage(canvasValid, fmt, name, if quality.Some? then quality.value else DefaultQuality)
    else
      ExtensionOfDownloadName(name, fmt);
      ExportCanvasAsImage(canvasValid, fmt, name, if quality.Some? then quality.value else DefaultQuality)
  }

  lemma DefaultFormatIsLower()
    ensures ToLower(DefaultFormat) == "png"
    ensures '.' !in DefaultFormat
  {
    var r := ToLower(DefaultFormat);
    assert r[0] == 'p' && r[1] == 'n' && r[2] == 'g';
  }

  lemma DefaultsArePngDrawing()
    ensures MimeType(DefaultFormat) == "image/png"
    ensures DownloadName(DefaultFileName, DefaultFormat) == "drawing.png"
  {
    DefaultFormatIsLower();
    assert "drawing" + "." + "png" == "drawing.png";
  }

  /** A call with only a canvas downloads `drawing.png` as PNG at 0.9. */
  lemma ExportDefaultsExample()
    ensures ExportWithDefaults(true, None, None, None) == Some(Download("image/png", "drawing.png", 0.9))
  {
    DefaultsArePngDrawing();
  }

  /** An ISO timestamp with each ':' and '.' turned into '-'. */
  function Dashed(s: string): (r: string)
    ensures |r| == |s|
    ensures forall i :: 0 <= i < |s| ==> r[i] == (if s[i] == ':' || s[i] == '.' then '-' else s[i])
    decreases |s|
  {
    if |s| == 0 then ""
    else
      var c := s[|s| - 1];
      Dashed(s[..|s| - 1]) + [if c == ':' || c == '.' then '-' else c]
  }

  /** The file name the dialog proposes: `drawing-` and the first 19
      characters of the dashed timestamp (all of it when shorter). */
  function ProposedFileName(isoTimestamp: string): (r: string)
    ensures |r| == 8 + (if |isoTimestamp| < 19 then |isoTimestamp| else 19)
    ensures r[..8] == "drawing-"
    ensures ':' !in r && '.' !in r
    ensures forall i :: 8 <= i < |r| ==>
      r[i] == (if isoTimestamp[i - 8] == ':' || isoTimestamp[i - 8] == '.' then '-' else isoTimestamp[i - 8])
  {
    var d := Dashed(isoTimestamp);
    "drawing-" + (if |d| < 19 then d else d[..19])
  }

  lemma ProposedFileNameExample()
    ensures var r := ProposedFileName("2024-01-15T10:30:45.123Z");
      r[..8] == "drawing-" && r[8..] == "2024-01-15T10-30-45"
  {
    var d := Dashed("2024-01-15T10:30:45.123Z");
    assert d[..19] == "2024-01-15T10-30-45";
    assert ProposedFileName("2024-01-15T10:30:45.123Z") == "drawing-" + d[..19];
  }


  /** `openExportDialog`: the answers to the name, format and quality
      prompts, None standing for a cancelled prompt; the quality answer is
      consulted only for the formats that ask for it. */
  function ExportDialog(canvasValid: bool, nameAnswer: Option<string>, formatAnswer: Option<string>,
                        qualityAnswer: Option<QualityInput>): (r: Option<Download>)
    ensures r.Some? <==>
      && canvasValid && nameAnswer.Some? && formatAnswer.Some?
      && (AsksQuality(formatAnswer.value) ==> qualityAnswer.Some?)
    ensures r.Some? ==>
      && r.value.mimeType == MimeType(formatAnswer.value)
      && r.value.fileName == DownloadName(nameAnswer.value, formatAnswer.value)
      && MinQuality <= r.value.quality <= MaxQuality
    ensures r.Some? && !AsksQuality(formatAnswer.value) ==> r.value.quality == DefaultQuality
    ensures r.Some? && AsksQuality(formatAnswer.value) && InRange(qualityAnswer.value) ==>
      r.value.quality == qualityAnswer.value.value
    ensures r.Some? && AsksQuality(formatAnswer.value) ==> r.value.quality == CheckedQuality(qualityAnswer.value)
  {
    if nameAnswer.None? || formatAnswer.None? then None
    else
      var format := formatAnswer.value;
      if AsksQuality(format) && qualityAnswer.None? then None
      else
        var quality := if AsksQuality(format) then CheckedQuality(qualityAnswer.value) else DefaultQuality;
        ExportCanvasAsImage(canvasValid, format, nameAnswer.value, quality)
  }

  /** For the formats that do not ask, the quality answer makes no
      difference, not even a cancelled one. */
  lemma DialogIgnoresUnaskedQuality(canvasValid: bool, name: Option<string>, format: string,
                                    q1: Option<QualityInput>, q2: Option<QualityInput>)
    requires !AsksQuality(format)
    ensures ExportDialog(canvasValid, name, Some(format), q1) == ExportDialog(canvasValid, name, Some(format), q2)
  {
  }

  /** Typing `JPG` exports a JPEG named `.jpg` at the default quality,
      whatever quality answer there would have been. */
  lemma DialogJpgExample(q: Option<QualityInput>)
    ensures ExportDialog(true, Some("photo"), Some("JPG"), q) == Some(Download("image/jpeg", "photo.jpg", 0.9))
  {
    var lower := ToLower("JPG");
    assert lower[0] == 'j' && lower[1] == 'p' && lower[2] == 'g';
    assert lower == "jpg";
    assert !AsksQuality("JPG");
    assert MimeType("JPG") == "image/jpeg";
    assert DownloadName("photo", "JPG") == "photo.jpg";
  }

  /** A quality outside [0.1, 1.0] typed for WebP falls back to 0.9. */
  lemma DialogWebpExample()
    ensures ExportDialog(true, Some("a"), Some("webp"), Some(Number(1.5))) == Some(Download("image/webp", "a.webp", 0.9))
    ensures ExportDialog(true, Some("a"), Some("webp"), Some(Number(0.5))) == Some(Download("image/webp", "a.webp", 0.5))
    ensures ExportDialog(true, Some("a"), Some("webp"), None) == None
  {
    var lower := ToLower("webp");
    assert lower[0] == 'w' && lower[1] == 'e' && lower[2] == 'b' && lower[3] == 'p';
    assert lower == "webp";
    assert AsksQuality("webp");
    assert MimeType("webp") == "image/webp";
    assert DownloadName("a", "webp") == "a.webp";
  }
}
