/**
 * The subtitle serialisers of the transcription backend: timestamps in
 * `hh:mm:ss,SSS` (SRT) and `hh:mm:ss.SSS` (WebVTT) form, numbered SRT cue
 * blocks, and a WebVTT file with its `WEBVTT` header (section 4 of the W3C
 * "WebVTT: The Web Video Text Tracks Format": file header and cue timings).
 * Times are whole milliseconds.
 */
module Subtitles {
  import opened Wrappers
  import opened Decimal
  import opened Text

  /** One transcribed segment: start and end in milliseconds, and its text. */
  datatype Segment = Segment(startMs: nat, endMs: nat, text: string)

  /** The keys of the transcriber's result that the serialisers read; a missing key is `None`. */
  datatype WhisperResult = WhisperResult(text: Option<string>, segments: Option<seq<Segment>>)

  /** A time split into clock fields. */
  datatype ClockFields = ClockFields(hours: nat, minutes: nat, seconds: nat, millis: nat)

  /** A timestamp read back: the time it denotes and whether it used the SRT separator. */
  datatype Stamp = Stamp(ms: nat, srt: bool)

  /** The segments of a result, `[]` when the key is absent. */
  function SegmentsOf(result: WhisperResult): seq<Segment> {
    result.segments.GetOr([])
  }

  /** The plain-text format: the result's text, or "" when the result has none. */
  function FormatAsText(result: WhisperResult): (s: string)
    ensures result.text.None? ==> s == ""
    ensures result.text.Some? ==> s == result.text.value
  {
    result.text.GetOr("")
  }

  /**
   * The fields format_timestamp computes: hours are `t // 1h` (never wrapped),
   * minutes `(t % 1h) // 1min`, seconds `(t // 1s) % 60`, millis `t % 1s`.
   */
  function Fields(t: nat): (f: ClockFields)
    ensures f.minutes < 60 && f.seconds < 60 && f.millis < 1000
    ensures f.hours * 3_600_000 + f.minutes * 60_000 + f.seconds * 1000 + f.millis == t
  {
    var h, m := t / 3_600_000, (t % 3_600_000) / 60_000;
    var s, ms := (t / 1000) % 60, t % 1000;
    FieldsAddUp(t);
    ClockFields(h, m, s, ms)
  }

  lemma {:induction false} FieldsAddUp(t: nat)
    ensures (t % 3_600_000) / 60_000 < 60
    ensures (t / 3_600_000) * 3_600_000 + ((t % 3_600_000) / 60_000) * 60_000 + ((t / 1000) % 60) * 1000 + t % 1000 == t
  {
    var q, ms := t / 1000, t % 1000;
    var s, big := q % 60, q / 60;
    assert t == big * 60_000 + (s * 1000 + ms);
    DivModMinute(t, big, s * 1000 + ms);
    var h, r1 := t / 3_600_000, t % 3_600_000;
    var m, r2 := r1 / 60_000, r1 % 60_000;
    assert t == (h * 60 + m) * 60_000 + r2;
    DivModMinute(t, h * 60 + m, r2);
  }

  /** Division by one minute with remainder is unique. */
  lemma {:induction false} DivModMinute(t: nat, a: nat, b: nat)
    requires b < 60_000 && t == a * 60_000 + b
    ensures t / 60_000 == a && t % 60_000 == b
  {
  }

  /** The character between seconds and milliseconds. */
  function Separator(srt: bool): char {
    if srt then ',' else '.'
  }

  /**
   * format_timestamp: `hh:mm:ss,SSS` when `srt`, `hh:mm:ss.SSS` otherwise.
   * Below 100 hours it has the fixed width of 12 characters.
   */
  function Timestamp(t: nat, srt: bool): (s: string)
    ensures t < 100 * 3_600_000 ==> |s| == 12
  {
    var f := Fields(t);
    ZeroPadExactWidth(f.minutes, 2);
    ZeroPadExactWidth(f.seconds, 2);
    ZeroPadExactWidth(f.millis, 3);
    DigitsLength(f.hours, 2);
    ZeroPad(f.hours, 2) + ":" + ZeroPad(f.minutes, 2) + ":" + ZeroPad(f.seconds, 2)
      + [Separator(srt)] + ZeroPad(f.millis, 3)
  }

  /**
   * Reads `H+:MM:SS,mmm` or `H+:MM:SS.mmm` (at least two hour digits) back into
   * milliseconds; `None` for anything else.
   */
  function ParseTimestamp(s: string): Option<Stamp> {
    var n := |s|;
    if n < 12 || s[n - 10] != ':' || s[n - 7] != ':' || (s[n - 4] != ',' && s[n - 4] != '.') then None
    else
      var h, m, sec, ms := s[..n - 10], s[n - 9..n - 7], s[n - 6..n - 4], s[n - 3..];
      if !(AllDigits(h) && AllDigits(m) && AllDigits(sec) && AllDigits(ms)) then None
      else if Value(m) >= 60 || Value(sec) >= 60 then None
      else Some(Stamp(Value(h) * 3_600_000 + Value(m) * 60_000 + Value(sec) * 1000 + Value(ms), s[n - 4] == ','))
  }

  /**
   * Where each field sits: hours (at least two digits, as many as needed) up to
   * the first ':', then exactly two digits of minutes, two of seconds, the
   * separator and exactly three digits of milliseconds.
   */
  lemma {:induction false} TimestampLayout(t: nat, srt: bool)
    ensures var s, f := Timestamp(t, srt), Fields(t); var n := |s|;
      n == |ZeroPad(f.hours, 2)| + 10 && n >= 12 &&
      s[..n - 10] == ZeroPad(f.hours, 2) && s[n - 10] == ':' &&
      s[n - 9..n - 7] == ZeroPad(f.minutes, 2) && s[n - 7] == ':' &&
      s[n - 6..n - 4] == ZeroPad(f.seconds, 2) && s[n - 4] == Separator(srt) &&
      s[n - 3..] == ZeroPad(f.millis, 3)
  {
    var f := Fields(t);
    var h, m, sec, ms := ZeroPad(f.hours, 2), ZeroPad(f.minutes, 2), ZeroPad(f.seconds, 2), ZeroPad(f.millis, 3);
    ZeroPadExactWidth(f.minutes, 2);
    ZeroPadExactWidth(f.seconds, 2);
    ZeroPadExactWidth(f.millis, 3);
    SliceFields(Timestamp(t, srt), h, m, sec, ms, Separator(srt));
  }

  /** A timestamp begins and ends with a digit. */
  lemma {:induction false} TimestampEnds(t: nat, srt: bool)
    ensures var s := Timestamp(t, srt); |s| >= 12 && IsDigit(s[0]) && IsDigit(s[|s| - 1])
  {
    TimestampLayout(t, srt);
    var s, f := Timestamp(t, srt), Fields(t);
    assert s[0] == ZeroPad(f.hours, 2)[0];
    assert s[|s| - 1] == ZeroPad(f.millis, 3)[2];
  }

  /** Every timestamp reads back as the time it was made from, with its separator. */
  lemma {:induction false} TimestampRoundTrip(t: nat, srt: bool)
    ensures ParseTimestamp(Timestamp(t, srt)) == Some(Stamp(t, srt))
  {
    var f := Fields(t);
    ZeroPadExactWidth(f.minutes, 2);
    ZeroPadExactWidth(f.seconds, 2);
    ZeroPadExactWidth(f.millis, 3);
    ZeroPadValue(f.hours, 2);
    ZeroPadValue(f.minutes, 2);
    ZeroPadValue(f.seconds, 2);
    ZeroPadValue(f.millis, 3);
    SliceFields(Timestamp(t, srt), ZeroPad(f.hours, 2), ZeroPad(f.minutes, 2), ZeroPad(f.seconds, 2),
      ZeroPad(f.millis, 3), Separator(srt));
  }

  /** Where the fields of such a string lie, counted from its end. */
  lemma SliceFields(s: string, h: string, m: string, sec: string, ms: string, sep: char)
    requires |m| == 2 && |sec| == 2 && |ms| == 3
    requires s == h + ":" + m + ":" + sec + [sep] + ms
    ensures var n := |s|;
      n == |h| + 10 && s[n - 10] == ':' && s[n - 7] == ':' && s[n - 4] == sep &&
      s[..n - 10] == h && s[n - 9..n - 7] == m && s[n - 6..n - 4] == sec && s[n - 3..] == ms
  {
    var n := |s|;
    var tail := ":" + m + ":" + sec + [sep] + ms;
    assert s == h + tail && |tail| == 10;
    assert s[..n - 10] == h;
    assert s[n - 10..] == tail;
    assert tail[1..3] == m && tail[4..6] == sec && tail[7..] == ms;
    assert s[n - 9..n - 7] == tail[1..3];
    assert s[n - 6..n - 4] == tail[4..6];
    assert s[n - 3..] == tail[7..];
  }

  /** The SRT and WebVTT timestamps of one time differ in the separator character alone. */
  lemma {:induction false} TimestampFormatsDiffer(t: nat)
    ensures var a, b := Timestamp(t, true), Timestamp(t, false);
      |a| == |b| && a[|a| - 4] == ',' && b[|b| - 4] == '.' &&
      forall i :: 0 <= i < |a| && i != |a| - 4 ==> a[i] == b[i]
  {
    TimestampLayout(t, true);
    TimestampLayout(t, false);
    var a, b := Timestamp(t, true), Timestamp(t, false);
    var n := |a|;
    assert a[..n - 4] == b[..n - 4];
    assert a[n - 3..] == b[n - 3..];
    forall i | 0 <= i < n && i != n - 4
      ensures a[i] == b[i]
    {
      if i < n - 4 {
        assert a[i] == a[..n - 4][i];
      } else {
        assert a[i] == a[n - 3..][i - (n - 3)];
      }
    }
  }

  /** The line `start --> end` of a cue. */
  function CueTiming(seg: Segment, srt: bool): string {
    Timestamp(seg.startMs, srt) + " --> " + Timestamp(seg.endMs, srt)
  }

  /** One SRT block: its number, its timing line, its stripped text, each ended by a newline. */
  function SrtCue(index: nat, seg: Segment): string {
    Digits(index) + "\n" + CueTiming(seg, true) + "\n" + Trim(seg.text) + "\n"
  }

  /** One WebVTT cue: its timing line and its stripped text; no number. */
  function VttCue(seg: Segment): string {
    CueTiming(seg, false) + "\n" + Trim(seg.text) + "\n"
  }

  /** The SRT blocks of the segments in order, the one for segment i numbered i (from 1). */
  function SrtCues(segs: seq<Segment>): seq<string> {
    if segs == [] then [] else SrtCues(segs[..|segs| - 1]) + [SrtCue(|segs|, segs[|segs| - 1])]
  }

  const VttHeader: string := "WEBVTT\n"

  /** The lines of a WebVTT file: the header, then one cue per segment in order. */
  function VttLines(segs: seq<Segment>): seq<string> {
    if segs == [] then [VttHeader] else VttLines(segs[..|segs| - 1]) + [VttCue(segs[|segs| - 1])]
  }

  /**
   * format_as_srt: the blocks joined by newlines, then stripped. The output
   * has no space at either end, and is empty exactly when there are no segments.
   */
  function SrtDocument(segs: seq<Segment>): (r: string)
    ensures Stripped(r)
    ensures r == [] <==> segs == []
  {
    SrtJoinOpens(segs);
    Trim(Join(SrtCues(segs), "\n"))
  }

  /** format_as_vtt: the header and the cues joined by newlines, then stripped; it always opens with `WEBVTT`. */
  function VttDocument(segs: seq<Segment>): (r: string)
    ensures Stripped(r)
    ensures "WEBVTT" <= r
  {
    VttJoinOpens(segs);
    TrimKeepsPrefix(Join(VttLines(segs), "\n"), "WEBVTT");
    Trim(Join(VttLines(segs), "\n"))
  }

  /** Stripping the joined blocks leaves nothing exactly when there are no segments. */
  lemma SrtJoinOpens(segs: seq<Segment>)
    ensures Trim(Join(SrtCues(segs), "\n")) == [] <==> segs == []
  {
    if segs != [] {
      var cues := SrtCues(segs);
      SrtCuesAt(segs, 0);
      SrtCueShape(1, segs[0]);
      JoinEnds(cues, "\n");
      assert Join(cues, "\n")[0] == cues[0][0];
    }
    TrimEmpty(Join(SrtCues(segs), "\n"));
  }

  /** The joined lines open with the header word. */
  lemma VttJoinOpens(segs: seq<Segment>)
    ensures "WEBVTT" <= Join(VttLines(segs), "\n")
  {
    VttLinesHeader(segs);
    JoinEnds(VttLines(segs), "\n");
    PrefixTransitive("WEBVTT", VttHeader, Join(VttLines(segs), "\n"));
  }

  /** format_as_srt, building its list of blocks one segment at a time. */
  method FormatAsSrt(result: WhisperResult) returns (output: string)
    ensures output == SrtDocument(SegmentsOf(result))
  {
    var segments := SegmentsOf(result);
    var lines: seq<string> := [];
    var idx := 0;
    while idx < |segments|
      invariant 0 <= idx <= |segments|
      invariant lines == SrtCues(segments[..idx])
    {
      var seg := segments[idx];
      var start := Timestamp(seg.startMs, true);
      var end := Timestamp(seg.endMs, true);
      var text := Trim(seg.text);
      var timing := start + " --> " + end;
      var block := Digits(idx + 1) + "\n" + timing + "\n" + text + "\n";
      SrtCuesStep(segments, idx);
      lines := lines + [block];
      idx := idx + 1;
    }
    assert segments[..idx] == segments;
    output := Trim(Join(lines, "\n"));
  }

  /** format_as_vtt, building its list of lines from the header onwards. */
  method FormatAsVtt(result: WhisperResult) returns (output: string)
    ensures output == VttDocument(SegmentsOf(result))
  {
    var segments := SegmentsOf(result);
    var lines: seq<string> := [VttHeader];
    var i := 0;
    while i < |segments|
      invariant 0 <= i <= |segments|
      invariant lines == VttLines(segments[..i])
    {
      var seg := segments[i];
      var start := Timestamp(seg.startMs, false);
      var end := Timestamp(seg.endMs, false);
      var text := Trim(seg.text);
      var timing := start + " --> " + end;
      var cue := timing + "\n" + text + "\n";
      VttLinesStep(segments, i);
      lines := lines + [cue];
      i := i + 1;
    }
    assert segments[..i] == segments;
    output := Trim(Join(lines, "\n"));
  }

  /** One more segment adds its block, numbered after all earlier ones, at the end. */
  lemma SrtCuesStep(segs: seq<Segment>, i: nat)
    requires i < |segs|
    ensures SrtCues(segs[..i + 1]) == SrtCues(segs[..i]) + [SrtCue(i + 1, segs[i])]
  {
    assert segs[..i + 1][..i] == segs[..i];
  }

  /** One more segment adds its cue at the end. */
  lemma VttLinesStep(segs: seq<Segment>, i: nat)
    requires i < |segs|
    ensures VttLines(segs[..i + 1]) == VttLines(segs[..i]) + [VttCue(segs[i])]
  {
    assert segs[..i + 1][..i] == segs[..i];
  }

  /** No segments: the SRT output is empty and the WebVTT output is the bare header word. */
  lemma {:induction false} EmptyDocuments()
    ensures SrtDocument([]) == ""
    ensures VttDocument([]) == "WEBVTT"
  {
    TrimTrailingSpaces("WEBVTT", "\n");
    assert "WEBVTT" + "\n" == VttHeader;
  }

  /** There is one block per segment, and the block at position k is segment k's, numbered k + 1. */
  lemma {:induction false} SrtCuesAt(segs: seq<Segment>, k: nat)
    requires k < |segs|
    ensures |SrtCues(segs)| == |segs| && SrtCues(segs)[k] == SrtCue(k + 1, segs[k])
    decreases |segs|
  {
    SrtCuesLength(segs);
    if k < |segs| - 1 {
      var init := segs[..|segs| - 1];
      SrtCuesAt(init, k);
    }
  }

  lemma {:induction false} SrtCuesLength(segs: seq<Segment>)
    ensures |SrtCues(segs)| == |segs|
    decreases |segs|
  {
    if segs != [] {
      SrtCuesLength(segs[..|segs| - 1]);
    }
  }

  /** The header comes first, then one cue per segment: the line at position k + 1 is segment k's cue. */
  lemma {:induction false} VttLinesAt(segs: seq<Segment>, k: nat)
    requires k < |segs|
    ensures |VttLines(segs)| == |segs| + 1 && VttLines(segs)[0] == VttHeader
    ensures VttLines(segs)[k + 1] == VttCue(segs[k])
    decreases |segs|
  {
    VttLinesHeader(segs);
    if k < |segs| - 1 {
      VttLinesAt(segs[..|segs| - 1], k);
    }
  }

  lemma {:induction false} VttLinesHeader(segs: seq<Segment>)
    ensures |VttLines(segs)| == |segs| + 1 && VttLines(segs)[0] == VttHeader
    decreases |segs|
  {
    if segs != [] {
      VttLinesHeader(segs[..|segs| - 1]);
    }
  }

  /**
   * Block k (counting from 0) opens with its number k + 1 on a line of its own,
   * a numeral with no leading zero that reads back as k + 1, then its timing line.
   */
  lemma {:induction false} SrtCueNumber(segs: seq<Segment>, k: nat)
    requires k < |segs|
    ensures |SrtCues(segs)| == |segs|
    ensures var cue, num := SrtCues(segs)[k], Digits(k + 1);
      num + "\n" + CueTiming(segs[k], true) + "\n" <= cue &&
      num[0] != '0' && Value(num) == k + 1
  {
    SrtCuesAt(segs, k);
    ValueOfDigits(k + 1);
  }

  /**
   * The closing `strip()` of a joined cue list only removes the newline(s)
   * ending the last cue: one when its text is non-empty, two when empty.
   */
  lemma {:induction false} StripJoinedCues(parts: seq<string>, head: string, t: string)
    requires parts != [] && parts[0] != [] && !IsSpace(parts[0][0])
    requires head != [] && !IsSpace(head[|head| - 1])
    requires Stripped(t)
    requires parts[|parts| - 1] == head + "\n" + t + "\n"
    ensures Join(parts, "\n") == Trim(Join(parts, "\n")) + (if t == [] then "\n\n" else "\n")
  {
    var j := Join(parts, "\n");
    JoinEnds(parts, "\n");
    SplitLastLine(j, head, t);
    var a := j[..|j| - |t| - 2];
    StripLastLine(j, a, t);
  }

  predicate EndsWithNewline(s: string) {
    s != [] && s[|s| - 1] == '\n'
  }

  /** The SRT output is the joined blocks without the last block's closing newline(s). */
  lemma {:induction false} SrtDocumentEnd(segs: seq<Segment>)
    requires segs != []
    ensures var t := Trim(segs[|segs| - 1].text);
      Join(SrtCues(segs), "\n") == SrtDocument(segs) + (if t == [] then "\n\n" else "\n")
  {
    SrtCuesAt(segs, |segs| - 1);
    SrtCuesAt(segs, 0);
    StripSrtCues(SrtCues(segs), segs[0], |segs|, segs[|segs| - 1]);
  }

  lemma StripSrtCues(cues: seq<string>, first: Segment, n: nat, last: Segment)
    requires cues != [] && cues[0] == SrtCue(1, first) && cues[|cues| - 1] == SrtCue(n, last)
    ensures var t := Trim(last.text);
      Join(cues, "\n") == Trim(Join(cues, "\n")) + (if t == [] then "\n\n" else "\n")
  {
    var head, t := Digits(n) + "\n" + CueTiming(last, true), Trim(last.text);
    assert cues[|cues| - 1] == head + "\n" + t + "\n" && head != [] && !IsSpace(head[|head| - 1]) by {
      SrtCueShape(n, last);
    }
    assert cues[0] != [] && !IsSpace(cues[0][0]) by {
      SrtCueShape(1, first);
    }
    StripJoinedCues(cues, head, t);
  }

  /** The SRT output opens with block number 1 and the first segment's timing line. */
  lemma {:induction false} SrtDocumentStart(segs: seq<Segment>)
    requires segs != []
    ensures "1\n" + CueTiming(segs[0], true) <= SrtDocument(segs)
  {
    var cues := SrtCues(segs);
    var t := Trim(segs[|segs| - 1].text);
    var first := Digits(1) + "\n" + CueTiming(segs[0], true);
    SrtDocumentEnd(segs);
    SrtCuesAt(segs, 0);
    JoinEnds(cues, "\n");
    PrefixOfConcat(first, "\n", Trim(segs[0].text), "\n");
    FirstNumberLine();
    PrefixBeforeTail(Join(cues, "\n"), SrtDocument(segs), if t == [] then "\n\n" else "\n",
      first, cues[0]);
  }

  lemma FirstNumberLine()
    ensures Digits(1) + "\n" == "1\n"
  {
  }

  /**
   * Between consecutive blocks lies an empty line: everything before block k
   * ends with a newline, one more newline follows, then block k's number k + 1.
   */
  lemma {:induction false} SrtBlankLineBetweenCues(segs: seq<Segment>, k: nat)
    requires 0 < k < |segs|
    ensures |SrtCues(segs)| == |segs|
    ensures EndsWithNewline(Join(SrtCues(segs)[..k], "\n"))
    ensures Join(SrtCues(segs)[..k], "\n") + "\n" + (Digits(k + 1) + "\n") <= Join(SrtCues(segs), "\n")
  {
    SrtCuesAt(segs, k - 1);
    SrtCuesAt(segs, k);
    SrtCueOpens(k, segs[k - 1]);
    SrtCueOpens(k + 1, segs[k]);
    BlankLineAt(SrtCues(segs), k, Digits(k + 1) + "\n");
  }

  lemma BlankLineAt(cues: seq<string>, k: nat, opening: string)
    requires 0 < k < |cues| && EndsWithNewline(cues[k - 1])
    requires opening <= cues[k]
    ensures EndsWithNewline(Join(cues[..k], "\n"))
    ensures Join(cues[..k], "\n") + "\n" + opening <= Join(cues, "\n")
  {
    var before, after := Join(cues[..k], "\n"), Join(cues[k..], "\n");
    JoinAround(cues, "\n", k);
    LastOfSuffix(before, cues[k - 1]);
    PrefixTransitive(opening, cues[k], after);
    PrefixAfterCommon(before + "\n", opening, after);
  }

  /**
   * Before every cue lies an empty line: everything before cue k (the header
   * and the earlier cues) ends with a newline, one more newline follows, then
   * cue k's timing line.
   */
  lemma {:induction false} VttBlankLineBetweenCues(segs: seq<Segment>, k: nat)
    requires k < |segs|
    ensures |VttLines(segs)| == |segs| + 1
    ensures EndsWithNewline(Join(VttLines(segs)[..k + 1], "\n"))
    ensures Join(VttLines(segs)[..k + 1], "\n") + "\n" + CueTiming(segs[k], false) <= Join(VttLines(segs), "\n")
  {
    VttLinesAt(segs, k);
    if k > 0 {
      VttLinesAt(segs, k - 1);
      VttCueOpens(segs[k - 1]);
    }
    VttCueOpens(segs[k]);
    BlankLineAt(VttLines(segs), k + 1, CueTiming(segs[k], false));
  }

  /** The WebVTT output is the joined lines without the last cue's closing newline(s). */
  lemma {:induction false} VttDocumentEnd(segs: seq<Segment>)
    requires segs != []
    ensures var t := Trim(segs[|segs| - 1].text);
      Join(VttLines(segs), "\n") == VttDocument(segs) + (if t == [] then "\n\n" else "\n")
  {
    var seg := segs[|segs| - 1];
    VttLinesAt(segs, |segs| - 1);
    VttCueShape(seg);
    StripJoinedCues(VttLines(segs), CueTiming(seg, false), Trim(seg.text));
  }

  /**
   * The WebVTT output opens with `WEBVTT`, then an empty line, then the first
   * cue's timing line directly: cues carry no number.
   */
  lemma {:induction false} VttDocumentStart(segs: seq<Segment>)
    requires segs != []
    ensures VttHeader + "\n" + CueTiming(segs[0], false) <= VttDocument(segs)
  {
    var lines := VttLines(segs);
    var t := Trim(segs[|segs| - 1].text);
    VttLinesAt(segs, 0);
    VttOpening(lines, segs[0]);
    JoinStartsWithFirstTwo(lines, "\n");
    VttDocumentEnd(segs);
    PrefixBeforeTail(Join(lines, "\n"), VttDocument(segs), if t == [] then "\n\n" else "\n",
      VttHeader + "\n" + CueTiming(segs[0], false), lines[0] + "\n" + lines[1]);
  }

  /** The header line, a newline and the first cue open with the header, an empty line and the first timing line. */
  lemma VttOpening(lines: seq<string>, seg: Segment)
    requires |lines| >= 2 && lines[0] == VttHeader && lines[1] == VttCue(seg)
    ensures var first := VttHeader + "\n" + CueTiming(seg, false);
      first <= lines[0] + "\n" + lines[1] && |first| + 2 <= |lines[0] + "\n" + lines[1]|
  {
    VttCueOpens(seg);
    PrefixAfterCommon(VttHeader + "\n", CueTiming(seg, false), VttCue(seg));
  }

  /** A WebVTT cue opens with its timing line, and at least a newline and a closing newline follow. */
  lemma VttCueOpens(seg: Segment)
    ensures CueTiming(seg, false) <= VttCue(seg)
    ensures |CueTiming(seg, false)| + 2 <= |VttCue(seg)|
    ensures EndsWithNewline(VttCue(seg))
  {
    PrefixOfConcat(CueTiming(seg, false), "\n", Trim(seg.text), "\n");
  }

  /**
   * An SRT block is a head (number and timing line) that starts and ends
   * with a non-space character (digits), then the stripped text, each ended by a newline.
   */
  lemma SrtCueShape(index: nat, seg: Segment)
    ensures var head := Digits(index) + "\n" + CueTiming(seg, true);
      SrtCue(index, seg) == head + "\n" + Trim(seg.text) + "\n" &&
      head != [] && !IsSpace(head[|head| - 1]) &&
      SrtCue(index, seg) != [] && !IsSpace(SrtCue(index, seg)[0]) &&
      Stripped(Trim(seg.text))
  {
    var num, timing, text := Digits(index), CueTiming(seg, true), Trim(seg.text);
    CueTimingEnds(seg, true);
    TwoLineEnds(num, timing, "\n" + text + "\n");
    assert IsDigit(num[0]);
  }

  /** A timing line starts and ends with a digit, so with no space at either end. */
  lemma CueTimingEnds(seg: Segment, srt: bool)
    ensures var c := CueTiming(seg, srt);
      c != [] && !IsSpace(c[0]) && !IsSpace(c[|c| - 1])
  {
    TimestampEnds(seg.startMs, srt);
    TimestampEnds(seg.endMs, srt);
  }

  /** A WebVTT cue is its timing line, which ends with a non-space character (a digit), then the stripped text, each ended by a newline. */
  lemma VttCueShape(seg: Segment)
    ensures var head := CueTiming(seg, false);
      VttCue(seg) == head + "\n" + Trim(seg.text) + "\n" &&
      head != [] && !IsSpace(head[|head| - 1]) && Stripped(Trim(seg.text))
  {
    CueTimingEnds(seg, false);
  }

  /** An SRT block opens with its number on a line of its own and ends with a newline. */
  lemma SrtCueOpens(index: nat, seg: Segment)
    ensures var c := SrtCue(index, seg);
      Digits(index) + "\n" <= c && EndsWithNewline(c)
  {
    PrefixOfConcat(Digits(index) + "\n", CueTiming(seg, true), "\n", Trim(seg.text) + "\n");
  }
}
