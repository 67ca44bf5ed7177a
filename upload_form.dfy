/**
 * The upload page: its state (the chosen file, the output format, whether an
 * upload is in flight, the subtitle text kept for a manual download, whether
 * that download is in progress) and the four handlers that change it.
 *
 * What the browser does on the page's behalf (the POST request, the alert
 * boxes, saving a file through a link) is recorded as a list of effects; the
 * server's answer and the local clock arrive as parameters.
 */
module UploadForm {
  import opened Wrappers
  import opened Decimal

  /** A file picked in the file input; its bytes are passed on untouched. */
  datatype File = File(name: string, content: seq<bv8>)

  /**
   * How the request ended: an OK response with its text, a response with an
   * error status and its text, or an exception (network failure or a body
   * that could not be read).
   */
  datatype Outcome = Ok(text: string) | NotOk(body: string) | Threw

  /** The local clock's fields as the page reads them; `month` counts from 0 as in JavaScript. */
  datatype LocalTime = LocalTime(year: nat, month: nat, day: nat, hour: nat, minute: nat, second: nat)

  /** What the page asks the browser to do. */
  datatype Effect =
    | Post(url: string, file: File)
    | Alert(message: string)
    | Save(name: string, content: string)

  const Endpoint: string := "http://localhost:8000/transcribe?format="
  const UploadFailedPrefix: string := "转写失败: "
  const UploadErrorMessage: string := "上传或转写出错"
  const FallbackSubtitleName: string := "subtitle.srt"

  /**
   * The extension of the saved transcription: `txt` for plain text, the
   * format's own name otherwise. It is never `text`, and each offered format
   * gets a three-letter one.
   */
  function Extension(format: string): (ext: string)
    ensures ext != "text"
    ensures format in {"text", "srt", "vtt"} ==> |ext| == 3
  {
    if format == "text" then "txt" else format
  }

  /** The three formats the page offers get three different extensions, each named after its format. */
  lemma ExtensionsOfOffered()
    ensures Extension("text") == "txt" && Extension("srt") == "srt" && Extension("vtt") == "vtt"
    ensures forall f, g :: f in {"text", "srt", "vtt"} && g in {"text", "srt", "vtt"} && f != g ==>
      Extension(f) != Extension(g)
  {
  }

  /** `n.toString().padStart(2, '0')`. */
  function Pad(n: nat): string {
    ZeroPad(n, 2)
  }

  /**
   * The stamp `YYYYMMDD_HHMMSS` of the local time, with the month counted
   * from 1. With a four-digit year it has 15 characters: eight digits for the
   * date, '_', six digits for the time, and each field reads back as the
   * clock's value.
   */
  function DateStamp(now: LocalTime): (s: string)
    ensures ValidTime(now) ==>
      |s| == 15 && s[8] == '_' &&
      FieldReads(s, 0, 4, now.year) && FieldReads(s, 4, 6, now.month + 1) &&
      FieldReads(s, 6, 8, now.day) && FieldReads(s, 9, 11, now.hour) &&
      FieldReads(s, 11, 13, now.minute) && FieldReads(s, 13, 15, now.second)
  {
    var y, mo, d := Digits(now.year), Pad(now.month + 1), Pad(now.day);
    var h, mi, sec := Pad(now.hour), Pad(now.minute), Pad(now.second);
    if ValidTime(now) then
      DigitsLength(now.year, 3);
      DigitsLength(now.year, 4);
      ValueOfDigits(now.year);
      PadReads(now.month + 1);
      PadReads(now.day);
      PadReads(now.hour);
      PadReads(now.minute);
      PadReads(now.second);
      DateStampPieces(y + mo + d + "_" + h + mi + sec, y, mo, d, h, mi, sec);
      y + mo + d + "_" + h + mi + sec
    else
      y + mo + d + "_" + h + mi + sec
  }

  /** A clock reading with a four-digit year and every field in its usual range. */
  predicate ValidTime(now: LocalTime) {
    1000 <= now.year <= 9999 && now.month < 12 && 1 <= now.day <= 31 &&
    now.hour < 24 && now.minute < 60 && now.second < 60
  }

  /** The characters `s[i..j]` are digits that read as `v`. */
  predicate FieldReads(s: string, i: nat, j: nat, v: nat) {
    i <= j <= |s| && AllDigits(s[i..j]) && Value(s[i..j]) == v
  }

  /**
   * The name under which a finished transcription is saved: the fixed prefix,
   * the stamp, a '.', then the extension, at fixed offsets for a valid clock.
   */
  function AutoDownloadName(format: string, now: LocalTime): (n: string)
    ensures ValidTime(now) ==>
      |n| == 30 + |Extension(format)| && n[..14] == "transcription_" && n[14..29] == DateStamp(now) &&
      n[29] == '.' && n[30..] == Extension(format)
  {
    "transcription_" + DateStamp(now) + "." + Extension(format)
  }

  /**
   * The position of the last '.' in `s`, if any.
   */
  function LastDot(s: string): (r: Option<nat>)
    ensures r.None? ==> forall j :: 0 <= j < |s| ==> s[j] != '.'
    ensures r.Some? ==> (r.value < |s| && s[r.value] == '.' &&
      forall j :: r.value < j < |s| ==> s[j] != '.')
    decreases |s|
  {
    if s == [] then None
    else if s[|s| - 1] == '.' then Some(|s| - 1)
    else LastDot(s[..|s| - 1])
  }

  /**
   * The pattern `\.[^.]+$` matches at `i`: a '.' there, followed by at least
   * one character and no further '.' up to the end.
   */
  predicate ExtensionAt(name: string, i: nat) {
    i + 1 < |name| && name[i] == '.' && forall j :: i < j < |name| ==> name[j] != '.'
  }

  /** `name.replace(/\.[^.]+$/, ".srt")`: the extension after the last '.' becomes `.srt`. */
  function ReplaceExtension(name: string): (r: string)
    ensures forall i :: 0 <= i < |name| && ExtensionAt(name, i) ==> r == name[..i] + ".srt"
    ensures (forall i :: 0 <= i < |name| ==> !ExtensionAt(name, i)) ==> r == name
  {
    match LastDot(name)
    case Some(i) =>
      if i + 1 < |name| then assert ExtensionAt(name, i); name[..i] + ".srt" else name
    case None => name
  }

  /**
   * The name offered for the manual subtitle download: `subtitle.srt` without
   * a file, otherwise the file's name, either kept as it is or ending in `.srt`.
   */
  function ManualDownloadName(file: Option<File>): (r: string)
    ensures file.None? ==> r == FallbackSubtitleName
    ensures file.Some? ==> r == file.value.name || (|r| >= 4 && r[|r| - 4..] == ".srt")
  {
    match file
    case Some(f) => ReplaceExtension(f.name)
    case None => FallbackSubtitleName
  }

  /**
   * What one upload asks of the browser, given how the request ended: one post
   * to the endpoint with the format appended, then exactly one report. An OK
   * answer is saved under the time-stamped name with the format's extension;
   * an error answer is shown in an alert after the failure prefix; an
   * exception raises the fixed error alert.
   */
  function UploadEffects(file: File, format: string, outcome: Outcome, now: LocalTime): (e: seq<Effect>)
    ensures |e| == 2 && e[0] == Post(Endpoint + format, file)
    ensures e[1].Save? <==> outcome.Ok?
    ensures e[1].Alert? <==> !outcome.Ok?
    ensures e[1].Save? ==>
      e[1].content == outcome.text && |e[1].name| > |Extension(format)| &&
      e[1].name[|e[1].name| - |Extension(format)| - 1..] == "." + Extension(format)
    ensures e[1].Save? ==> e[1].name == AutoDownloadName(format, now)
    ensures outcome.NotOk? ==> e[1].message == UploadFailedPrefix + outcome.body
    ensures outcome.Threw? ==> e[1].message == UploadErrorMessage
  {
    [Post(Endpoint + format, file)] +
    match outcome
    case Ok(text) => [Save(AutoDownloadName(format, now), text)]
    case NotOk(body) => [Alert(UploadFailedPrefix + body)]
    case Threw => [Alert(UploadErrorMessage)]
  }

  /** A value below 100 pads to exactly two digits that read back as it. */
  lemma PadReads(n: nat)
    requires n < 100
    ensures |Pad(n)| == 2 && AllDigits(Pad(n)) && Value(Pad(n)) == n
  {
    ZeroPadExactWidth(n, 2);
    ZeroPadValue(n, 2);
  }

  /** Cutting the stamp at its field boundaries gives back each field. */
  lemma DateStampPieces(s: string, y: string, mo: string, d: string, h: string, mi: string, sec: string)
    requires |y| == 4 && |mo| == 2 && |d| == 2 && |h| == 2 && |mi| == 2 && |sec| == 2
    requires s == y + mo + d + "_" + h + mi + sec
    ensures |s| == 15 && s[8] == '_'
    ensures s[..4] == y && s[4..6] == mo && s[6..8] == d
    ensures s[9..11] == h && s[11..13] == mi && s[13..15] == sec
  {
  }

  /** The pattern can match at one place at most: the last '.' of the name. */
  lemma ExtensionAtUnique(name: string, i: nat, j: nat)
    requires ExtensionAt(name, i) && ExtensionAt(name, j)
    ensures i == j
  {
  }

  /** Replacing the extension twice is replacing it once. */
  lemma ReplaceExtensionIdempotent(name: string)
    ensures ReplaceExtension(ReplaceExtension(name)) == ReplaceExtension(name)
  {
    var r := ReplaceExtension(name);
    match LastDot(name)
    case Some(i) =>
      if i + 1 < |name| {
        assert ExtensionAt(name, i);
        assert r == name[..i] + ".srt";
        assert ExtensionAt(r, i);
      } else {
        NoExtensionAnywhere(name, i);
      }
    case None =>
      forall k | 0 <= k < |name|
        ensures !ExtensionAt(name, k)
      {
        assert name[k] != '.';
      }
  }

  /** When the last '.' ends the name, the pattern matches nowhere. */
  lemma NoExtensionAnywhere(name: string, i: nat)
    requires i + 1 == |name| && name[i] == '.'
    ensures forall k :: 0 <= k < |name| ==> !ExtensionAt(name, k)
  {
  }

  /** Names with and without an extension. */
  lemma ReplaceExtensionExamples()
    ensures ReplaceExtension("interview.wav") == "interview.srt"
    ensures ReplaceExtension("talk.final.mp3") == "talk.final.srt"
    ensures ReplaceExtension("recording") == "recording"
    ensures ReplaceExtension("notes.") == "notes."
  {
    assert ExtensionAt("interview.wav", 9);
    assert ExtensionAt("talk.final.mp3", 10);
    assert forall k :: 0 <= k < 9 ==> "recording"[k] != '.';
    NoExtensionAnywhere("notes.", 5);
  }

  /** The page's component with its state hooks as fields. */
  class Home {
    var file: Option<File>
    var format: string
    var loading: bool
    var srtContent: string
    var downloading: bool
    /** Everything the page has asked the browser to do, oldest first. */
    var effects: seq<Effect>

    constructor()
      ensures file == None && format == "text" && !loading
      ensures srtContent == "" && !downloading && effects == []
    {
      file := None;
      format := "text";
      loading := false;
      srtContent := "";
      downloading := false;
      effects := [];
    }

    /** The upload button is disabled without a file and while an upload is in flight, and enabled otherwise. */
    predicate UploadEnabled()
      reads this
      ensures file.None? ==> !UploadEnabled()
      ensures loading ==> !UploadEnabled()
      ensures file.Some? && !loading ==> UploadEnabled()
    {
      file.Some? && !loading
    }

    /** A file selection takes the first file and clears the kept subtitles; an empty one changes nothing. */
    method HandleFileChange(files: seq<File>)
      modifies this
      ensures files == [] ==>
        file == old(file) && srtContent == old(srtContent) && downloading == old(downloading)
      ensures files != [] ==> file == Some(files[0]) && srtContent == "" && !downloading
      ensures files != [] ==> (UploadEnabled() <==> !loading)
      ensures format == old(format) && loading == old(loading) && effects == old(effects)
    {
      if |files| > 0 {
        file := Some(files[0]);
        srtContent := "";
        downloading := false;
      }
    }

    /** The format selector's new value becomes the format; nothing else changes. */
    method HandleFormatChange(value: string)
      modifies this
      ensures format == value
      ensures file == old(file) && loading == old(loading) && srtContent == old(srtContent)
      ensures downloading == old(downloading) && effects == old(effects)
    {
      format := value;
    }

    /**
     * Uploads the chosen file for the current format. Without a file nothing
     * happens. Otherwise the request is posted and, by its outcome, the text is
     * saved under a time-stamped name or an alert reports the failure; either
     * way the upload is over at the end.
     */
    method HandleUpload(outcome: Outcome, now: LocalTime)
      modifies this
      ensures old(file).None? ==>
        loading == old(loading) && effects == old(effects)
      ensures old(file).Some? ==>
        !loading && effects == old(effects) + UploadEffects(old(file).value, old(format), outcome, now)
      ensures old(file).Some? ==> UploadEnabled()
      ensures file == old(file) && format == old(format)
      ensures srtContent == old(srtContent) && downloading == old(downloading)
    {
      if file.None? {
        return;
      }
      var chosen := file.value;
      loading := true;
      effects := effects + [Post(Endpoint + format, chosen)];
      match outcome {
        case NotOk(body) =>
          effects := effects + [Alert(UploadFailedPrefix + body)];
          loading := false;
          return;
        case Ok(text) =>
          var name := "transcription_" + DateStamp(now) + "." + Extension(format);
          effects := effects + [Save(name, text)];
        case Threw =>
          effects := effects + [Alert(UploadErrorMessage)];
      }
      loading := false;
    }

    /**
     * Saves the kept subtitle text, named after the chosen file with its
     * extension replaced by `.srt`; with no kept text nothing happens.
     */
    method HandleDownload()
      modifies this
      ensures old(srtContent) == "" ==> downloading == old(downloading) && effects == old(effects)
      ensures old(srtContent) != "" ==>
        !downloading && effects == old(effects) + [Save(ManualDownloadName(file), srtContent)]
      ensures file == old(file) && format == old(format) && loading == old(loading)
      ensures srtContent == old(srtContent)
    {
      if srtContent == "" {
        return;
      }
      downloading := true;
      effects := effects + [Save(ManualDownloadName(file), srtContent)];
      downloading := false;
    }
  }
}
