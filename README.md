# Audio-to-subtitle app: serialisers and upload page

This project models the two small cores of an audio transcription app in Dafny.

- **Backend serialisers** (`backend/main.py`). The transcriber returns a result with a full text and a list of timed segments. The backend turns it into one of three formats:
  - plain text;
  - SRT: numbered blocks with `hh:mm:ss,SSS --> hh:mm:ss,SSS` timing lines;
  - WebVTT: a `WEBVTT` header and cues with `hh:mm:ss.SSS` timings, as in section 4 of the W3C "WebVTT: The Web Video Text Tracks Format".

  The `/transcribe` endpoint rejects unknown formats with status 400. It reports a failed transcription with status 500. Otherwise it answers with the rendered document, converted to simplified Chinese when a converter is installed.
- **Upload page** (`frontend/src/app/page.tsx`). The `Home` component keeps five pieces of state: the chosen file, the format, an in-flight flag, subtitle text kept for a manual download, and a downloading flag. Four handlers change that state:
  - choosing a file;
  - choosing a format;
  - uploading: it posts the file, then saves the answer under a time-stamped name or raises an alert;
  - manual download: it saves the kept subtitles under the file's name with its extension replaced by `.srt`.

Modules:

- `Wrappers`: the `Option` type.
- `Decimal`: the decimal numerals produced by `str(n)`, `f"{n:0W}"` and `padStart(W, '0')`, and the parser that reads them back.
- `Text`: Python's `str.strip()`, using the exact `str.isspace` character set, and `str.join`.
- `Subtitles`: the timestamp, the SRT and WebVTT documents as functions, and the two loops that build them as methods proved equal to those functions.
- `TranscribeService`: format validation and dispatch in `transcribe_audio`.
- `UploadForm`: the pure helpers of the page and the `Home` class with its handlers.

Times are whole milliseconds (`nat`). A segment is `(startMs, endMs, text)`. Things outside the model arrive as parameters:

- the transcriber's result, or the exception it raised;
- the traditional-to-simplified converter;
- how the browser's request ended;
- the local clock.

The page's requests to the browser are recorded in an `effects` list: post, alert and save a file.

## Model

| member | source | states |
|---|---|---|
| Decimal.Digits | backend/main.py:53 | The numeral of a block number: at least one character, all digits, and no leading zero unless it is `0`. |
| Decimal.ZeroPad | backend/main.py:42-44 | A padded field is all digits. It is exactly `width` characters long, or the whole numeral when that is longer. |
| Decimal.ValueOfDigits | backend/main.py:53 | The numeral printed for a block number reads back as that number. |
| Decimal.ZeroPadValue | backend/main.py:42-44 | Zero-padding a field never changes the number it denotes. |
| Decimal.ZeroPadExactWidth | backend/main.py:42-44 | A value below 10^w pads to exactly w digits. So minutes and seconds take 2 digits and milliseconds take 3. |
| Text.TrimStartSpec | backend/main.py:52 | Left-stripping keeps a suffix. It removes only whitespace, and all of the leading whitespace. |
| Text.TrimEndSpec | backend/main.py:52 | Right-stripping keeps a prefix. It removes only whitespace, and all of the trailing whitespace. |
| Text.Trim | backend/main.py:52 | A stripped string has no whitespace at either end. |
| Text.TrimEmpty | backend/main.py:52 | Stripping leaves nothing exactly when the input is all whitespace. |
| Text.TrimIdempotent | backend/main.py:52 | Stripping twice is the same as stripping once. |
| Text.Join | backend/main.py:54 | The joined string is as long as all the parts together plus one separator between each pair of neighbours. |
| Text.JoinEnds | backend/main.py:54 | The joined string starts with the first part and ends with the last part. |
| Text.JoinAppend | backend/main.py:54 | Joining two non-empty lists of parts equals joining each list, with one separator between the results. |
| Subtitles.FormatAsText | backend/main.py:32-33 | Gives the result's text, or "" when the result has no text. |
| Subtitles.Fields | backend/main.py:37-40 | Minutes and seconds are below 60 and milliseconds are below 1000. Hours are never wrapped: hours·3600000 + minutes·60000 + seconds·1000 + millis equals the input. |
| Subtitles.Timestamp | backend/main.py:35-44 | Below 100 hours a timestamp has the fixed width of 12 characters. |
| Subtitles.TimestampLayout | backend/main.py:41-44 | Hours take at least 2 digits and come before the first ':'. Then come exactly 2 digits of minutes, 2 of seconds, the separator and 3 of milliseconds. |
| Subtitles.TimestampRoundTrip | backend/main.py:35-44 | Parsing a timestamp gives back the exact millisecond time and which separator was used. |
| Subtitles.TimestampFormatsDiffer | backend/main.py:41-44 | The SRT and WebVTT timestamps for the same time have the same length. They differ only in the separator (',' vs '.'). |
| Subtitles.SrtDocument | backend/main.py:46-54 | The SRT output has no whitespace at either end. It is empty exactly when there are no segments. |
| Subtitles.VttDocument | backend/main.py:56-64 | The WebVTT output has no whitespace at either end and always starts with `WEBVTT`, with or without segments. |
| Subtitles.FormatAsSrt | backend/main.py:46-54 | The loop's output equals the SRT document: each segment's numbered block, joined by newlines, then stripped. |
| Subtitles.FormatAsVtt | backend/main.py:56-64 | The loop's output equals the WebVTT document: the header line and one cue per segment, joined by newlines, then stripped. |
| Subtitles.EmptyDocuments | backend/main.py:46-64 | With no segments, the SRT output is "" and the WebVTT output is exactly `WEBVTT`. |
| Subtitles.SrtCueOpens | backend/main.py:53 | A block opens with its number on a line of its own and ends with a newline. |
| Subtitles.VttCueOpens | backend/main.py:63 | A cue opens with its timing line, has at least a newline and a closing newline after it, and ends with a newline. |
| Subtitles.SrtCuesAt | backend/main.py:48-53 | There is one block per segment, in segment order. The block at position k belongs to segment k and is numbered k + 1. |
| Subtitles.SrtCueNumber | backend/main.py:49-53 | Block k starts with its number on its own line, followed by its timing line. The number has no leading zero and reads back as k + 1. |
| Subtitles.SrtDocumentEnd | backend/main.py:54 | The final strip removes only the last block's closing newline, or two newlines when its text is empty. |
| Subtitles.SrtDocumentStart | backend/main.py:49-54 | A non-empty SRT output starts with `1`, a newline and the first segment's timing line. |
| Subtitles.SrtBlankLineBetweenCues | backend/main.py:53-54 | Every block after the first is preceded by an empty line, and its number k + 1 follows that line. |
| Subtitles.VttLinesAt | backend/main.py:58-63 | The header comes first, then one cue per segment in order. |
| Subtitles.VttBlankLineBetweenCues | backend/main.py:58-64 | Every cue, the first one included, is preceded by an empty line, and its timing line follows that line directly. |
| Subtitles.VttDocumentEnd | backend/main.py:64 | The final strip removes only the last cue's closing newline, or two newlines when its text is empty. |
| Subtitles.VttDocumentStart | backend/main.py:58-64 | A non-empty WebVTT output starts with `WEBVTT`, an empty line, and then the first cue's timing line. There is no number line. |
| TranscribeService.Rendered | backend/main.py:109-114 | For `text` it gives the result's text, or "" without one. For `srt` it gives a stripped document that is empty exactly when there are no segments. For `vtt` it gives a stripped document that starts with `WEBVTT`. |
| TranscribeService.ToSimplified | backend/main.py:66-77 | Gives the converter's output when it converts. Otherwise (no converter, or the converter raised) gives the text unchanged. |
| TranscribeService.TranscribeAudio | backend/main.py:88-121 | Status 400 exactly when the format is not text, srt or vtt; the message names the requested format. Status 500 with the exception's message when transcription fails. Otherwise status 200 with the format's document after simplification. |
| UploadForm.Extension | frontend/src/app/page.tsx:49-50 | The saved file's extension is never `text`. Each of the three offered formats gets a three-letter extension. |
| UploadForm.ExtensionsOfOffered | frontend/src/app/page.tsx:49-50 | `text` saves as `txt`, while `srt` and `vtt` keep their own names. The three offered formats get three different extensions. |
| UploadForm.PadReads | frontend/src/app/page.tsx:53 | `pad` turns a value below 100 into exactly two digits that read back as the value. |
| UploadForm.DateStamp | frontend/src/app/page.tsx:53-54 | For a four-digit year the stamp has 15 characters: `YYYYMMDD`, `_`, `HHMMSS`. Each field reads back as the clock's value, with the month counted from 1. |
| UploadForm.AutoDownloadName | frontend/src/app/page.tsx:49-57 | For a valid clock, the saved name is `transcription_`, then the stamp, then `.`, then the format's extension, in exactly those positions. |
| UploadForm.LastDot | frontend/src/app/page.tsx:74 | Finds the position of the last '.' in the name, or reports that the name has no '.'. |
| UploadForm.ReplaceExtension | frontend/src/app/page.tsx:74 | If a '.' is followed by at least one character and no other '.', the name is cut there and `.srt` appended. Otherwise the name is unchanged. |
| UploadForm.ExtensionAtUnique | frontend/src/app/page.tsx:74 | The pattern `\.[^.]+$` can match in at most one place. |
| UploadForm.ReplaceExtensionIdempotent | frontend/src/app/page.tsx:74 | Rewriting a name that has already been rewritten changes nothing. |
| UploadForm.ReplaceExtensionExamples | frontend/src/app/page.tsx:74 | `interview.wav` becomes `interview.srt` and `talk.final.mp3` becomes `talk.final.srt`. `recording` and `notes.` stay as they are. |
| UploadForm.ManualDownloadName | frontend/src/app/page.tsx:74 | Without a file the name is `subtitle.srt`. With a file it is the file's name, either unchanged or ending in `.srt`. |
| UploadForm.UploadEffects | frontend/src/app/page.tsx:33-62 | An upload posts once, to the endpoint with the format appended. It then reports once. An OK answer saves the response text under the time-stamped name (`AutoDownloadName`), which ends in `.` + extension. An error answer raises an alert of `转写失败: ` followed by the server's body. An exception raises the fixed alert `上传或转写出错`. |
| UploadForm.Home.constructor | frontend/src/app/page.tsx:6-10 | Starts with no file, format `text`, not loading, no kept subtitles, not downloading. |
| UploadForm.Home.UploadEnabled | frontend/src/app/page.tsx:118 | The upload button is disabled without a file and while an upload is in flight. It is enabled otherwise. |
| UploadForm.Home.HandleFileChange | frontend/src/app/page.tsx:14-20 | A non-empty selection takes the first file, clears the kept subtitles and resets the downloading flag. An empty selection changes nothing. The upload button is then enabled exactly when no upload is in flight. |
| UploadForm.Home.HandleFormatChange | frontend/src/app/page.tsx:22-24 | Changes only the format. |
| UploadForm.Home.HandleUpload | frontend/src/app/page.tsx:27-64 | With no file, nothing changes. Otherwise it records the upload's effects for the file and format at call time, whatever the in-flight flag was. It ends not loading, with the upload button enabled. |
| UploadForm.Home.HandleDownload | frontend/src/app/page.tsx:67-80 | With no kept subtitles, nothing changes. Otherwise it saves them under the rewritten file name (`subtitle.srt` without a file) and ends not downloading. |

## Left out

- The speech model (`model.transcribe`) and the temporary file it reads are not modelled. The endpoint takes the model's result, or the message of the exception it raised, as a parameter.
- The OpenCC converter is a parameter: a function that gives the converted text, or `None` where it would raise.
- Segments are well-formed records. A result whose segment lacks `start`, `end` or `text` raises inside the `try` and gets a 500 answer in the source; the model does not represent such results.
- Times are non-negative whole milliseconds. The source's float arithmetic is not modelled: `int(seconds % 60)` and `(seconds - int(seconds)) * 1000` can lose a millisecond to rounding. Negative times are not modelled either.
- TranscribeService.TranscribeAudio takes the format as given. FastAPI's default of `text` for a missing query parameter, routing, CORS and the response's content type are not modelled.
- The browser's side of the page is recorded as effects rather than performed. This covers `fetch`, `FormData`, `Blob`, object URLs, the anchor clicks and `alert`.
- Each handler runs atomically. Between the `await`s of the upload, the page shows `loading` as true and the button as disabled. The model sets and clears that flag within one call, so it does not show the in-between state or other handlers running during it.
- The source has no guard against a second upload while one is in flight, and the model has none either. Only the disabled button (UploadForm.Home.UploadEnabled) prevents one. Likewise, nothing in `handleDownload` checks `downloading`.
- No handler ever sets `srtContent` to anything but "". So in the real page the manual download and its button are never reachable. UploadForm.Home.HandleDownload models the handler as written, for any kept text.
- UploadForm.DateStamp: its layout is stated only for a clock with a four-digit year, a month from 0 to 11 and the other fields in their usual ranges. The stamp itself is defined for any non-negative year; negative years, which JavaScript allows, are not modelled.
- The JSX rendering and styling are not modelled, apart from the upload button's enable condition (UploadForm.Home.UploadEnabled).
