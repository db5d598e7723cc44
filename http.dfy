/**
 * The values that cross the boundary between the chat client and the proxy
 * service: JSON request bodies as the handlers destructure them, and the HTTP
 * responses the handlers send.
 */
module Http {
  import opened JsString

  newtype Byte = x: int | 0 <= x < 0x100

  /** An awaited promise: it resolves to a value or rejects (a thrown error). */
  datatype Settled<T> = Resolved(value: T) | Rejected

  /** A string field read from a parsed JSON body: missing, `null`, or a string. */
  datatype Field = Undefined | Null | Text(s: Str)

  /** The body of `POST /ask`: `{ prompt }`. */
  datatype AskBody = AskBody(prompt: Field)

  /** The body of `POST /api/tts`: `{ text, voiceName }`. */
  datatype TtsBody = TtsBody(text: Field, voiceName: Field)

  /**
   * The content types the handlers produce: Express's `res.json` sends
   * `application/json`, `res.send` of a string `text/html`, and the speech
   * handler sets `audio/mpeg` itself.
   */
  datatype ContentType = ApplicationJson | TextHtml | AudioMpeg

  /** A response body: a JSON object of string fields, plain text, or raw bytes. */
  datatype Body =
    | JsonObject(fields: map<Str, Str>)
    | PlainText(text: Str)
    | Binary(bytes: seq<Byte>)

  datatype Response = Response(status: int, contentType: ContentType, body: Body)

  /** The one field of a successful `/ask` reply. */
  const ReplyKey: Str := Units("reply")
}
