/**
 * The `/transcribe` endpoint: it checks the requested format, renders the
 * transcription in that format, converts it to simplified Chinese when a
 * converter is installed, and answers with a plain-text response.
 *
 * The speech model and the converter are outside the model: the outcome of
 * the transcription and the converter arrive as parameters.
 */
module TranscribeService {
  import opened Wrappers
  import opened Subtitles
  import opened Text

  /** The formats the endpoint accepts. */
  const SupportedFormats: set<string> := {"text", "srt", "vtt"}

  /** The error body for an unsupported format; it names the format requested. */
  function UnsupportedMessage(format: string): string {
    "不支持的格式：" + format + "。可选格式：text, srt, vtt"
  }

  const FailurePrefix: string := "转写失败: "

  /** A plain-text HTTP response. */
  datatype Response = Response(status: nat, body: string)

  /** What the speech model produced: a result, or an exception with its message. */
  datatype Transcription = Transcribed(result: WhisperResult) | Failed(message: string)

  /**
   * The traditional-to-simplified converter: not installed, or installed as a
   * function that either converts or raises (`None`).
   */
  datatype Converter = Unavailable | Available(convert: string -> Option<string>)

  /** to_simplified: the converted text, or the text unchanged when there is no converter or it raises. */
  function ToSimplified(text: string, converter: Converter): (r: string)
    ensures r == text || (converter.Available? && converter.convert(text) == Some(r))
    ensures converter.Available? && converter.convert(text).Some? ==> r == converter.convert(text).value
  {
    match converter
    case Unavailable => text
    case Available(convert) =>
      match convert(text)
      case Some(converted) => converted
      case None => text
  }

  /**
   * The document for a supported format, as the three serialisers define it:
   * the result's text for `text`, a stripped SRT document that is empty exactly
   * when there are no segments for `srt`, and a stripped WebVTT document opening
   * with its header word for `vtt`.
   */
  function Rendered(format: string, result: WhisperResult): (r: string)
    requires format in SupportedFormats
    ensures format == "text" ==> r == result.text.GetOr("")
    ensures format == "srt" ==> Stripped(r) && (r == "" <==> SegmentsOf(result) == [])
    ensures format == "vtt" ==> Stripped(r) && "WEBVTT" <= r
  {
    if format == "text" then FormatAsText(result)
    else if format == "srt" then SrtDocument(SegmentsOf(result))
    else VttDocument(SegmentsOf(result))
  }

  /**
   * transcribe_audio, from the format check on: 400 exactly for an unsupported
   * format, 500 with the exception's message when transcription fails, and
   * otherwise 200 with the rendered document after simplification.
   */
  method TranscribeAudio(format: string, transcription: Transcription, converter: Converter)
    returns (response: Response)
    ensures response.status == 400 <==> format !in SupportedFormats
    ensures format !in SupportedFormats ==> response.body == UnsupportedMessage(format)
    ensures format in SupportedFormats && transcription.Failed? ==>
      response == Response(500, FailurePrefix + transcription.message)
    ensures format in SupportedFormats && transcription.Transcribed? ==>
      response == Response(200, ToSimplified(Rendered(format, transcription.result), converter))
  {
    if format !in SupportedFormats {
      return Response(400, UnsupportedMessage(format));
    }
    match transcription
    case Failed(message) =>
      response := Response(500, FailurePrefix + message);
    case Transcribed(result) =>
      var output: string;
      if format == "text" {
        output := FormatAsText(result);
      } else if format == "srt" {
        output := FormatAsSrt(result);
      } else {
        output := FormatAsVtt(result);
      }
      output := ToSimplified(output, converter);
      response := Response(200, output);
  }
}
