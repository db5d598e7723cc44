/**
 * The proxy service's own logic (backend/index.js): the reply it extracts
 * from a completion, the SSML document it sends for synthesis, and how each
 * handler turns the settled upstream call into an HTTP response. The
 * upstream calls themselves are I/O and appear only as `Settled` values.
 */
module Backend {
  import opened Wrappers
  import opened JsString
  import opened Http

  // ---------------------------------------------------------------- /ask

  /** `message` of one completion choice; `content` is None for null or undefined. */
  datatype ChatMessage = ChatMessage(content: Option<Str>)

  /** One entry of `choices`; `message` is None for null or undefined. */
  datatype Choice = Choice(message: Option<ChatMessage>)

  /** The completion response; `choices` and each of its entries may be null or undefined. */
  datatype Completion = Completion(choices: Option<seq<Option<Choice>>>)

  const FallbackReply: Str := Units("No response")
  const AskFailureText: Str := Units("Failed to get response")

  /** `choices[0].message.content` exists and is neither null nor undefined. */
  predicate HasContent(response: Completion)
  {
    && response.choices.Some?
    && |response.choices.value| > 0
    && response.choices.value[0].Some?
    && response.choices.value[0].value.message.Some?
    && response.choices.value[0].value.message.value.content.Some?
  }

  function Content(response: Completion): Str
    requires HasContent(response)
  {
    response.choices.value[0].value.message.value.content.value
  }

  /**
   * `response.choices?.[0]?.message?.content ?? 'No response'`. Because `??`
   * only replaces null and undefined, an empty content is kept as it is.
   */
  function ReplyOf(response: Completion): (r: Str)
    ensures HasContent(response) ==> r == Content(response)
    ensures !HasContent(response) ==> r == FallbackReply
  {
    var content :=
      match response.choices
      case None => None
      case Some(choices) =>
        if |choices| == 0 then None
        else match choices[0]
          case None => None
          case Some(choice) =>
            match choice.message
            case None => None
            case Some(message) => message.content;
    match content
    case Some(text) => text
    case None => FallbackReply
  }

  /**
   * The `/ask` handler's answer: `res.json({ reply })` when the completion
   * call settles with a response, status 500 and a fixed text when anything
   * in the `try` block throws.
   */
  function AskResponse(upstream: Settled<Completion>): (r: Response)
    ensures r.status == 200 <==> upstream.Resolved?
    ensures upstream.Resolved? ==>
      && r.contentType == ApplicationJson
      && r.body.JsonObject?
      && r.body.fields.Keys == {ReplyKey}
      && r.body.fields[ReplyKey] == ReplyOf(upstream.value)
    ensures upstream.Rejected? ==> r == Response(500, TextHtml, PlainText(AskFailureText))
  {
    match upstream
    case Resolved(response) => Response(200, ApplicationJson, JsonObject(map[ReplyKey := ReplyOf(response)]))
    case Rejected => Response(500, TextHtml, PlainText(AskFailureText))
  }

  // ---------------------------------------------------------------- /api/tts

  const DefaultVoice: Str := Units("en-US-JennyNeural")
  const TtsFailureText: Str := Units("Azure TTS failed")

  const Quote: CodeUnit := 0x27

  /** The default voice name can stand in the `name='...'` attribute as it is. */
  lemma DefaultVoiceQuoteFree()
    ensures Quote !in DefaultVoice
  {
    var parts := Units("en-US-") + Units("JennyNeural");
    assert DefaultVoice == parts;
    assert Quote !in Units("en-US-") && Quote !in Units("JennyNeural");
  }

  /** The value `${f}` inserts into a template literal. */
  function TemplateValue(f: Field): Str
  {
    match f
    case Undefined => Units("undefined")
    case Null => Units("null")
    case Text(s) => s
  }

  /** `voiceName` after `{ voiceName = 'en-US-JennyNeural' }`: the default replaces only a missing value, not `null`. */
  function VoiceNameOf(f: Field): (r: Str)
    ensures f.Undefined? ==> r == DefaultVoice
    ensures f.Text? ==> r == f.s
    ensures f.Null? ==> r == Units("null")
  {
    if f.Undefined? then DefaultVoice else TemplateValue(f)
  }

  // The pieces of the SSML template literal, with its line breaks and indentation.
  const Lead: Str := Units("\n    ")
  const SpeakOpen: Str := Units("<speak version='1.0'") + Units(" xml:lang='en-US'>")
  const VoiceOpenStart: Str :=
    Units("\n      <voice") + Units(" xml:lang='en-US'") + Units(" xml:gender='Female'") + Units(" name='")
  const VoiceOpenEnd: Str := Units("'>\n        ")
  const VoiceClose: Str := Units("\n      </voice>")
  const SpeakClose: Str := Units("\n    </speak>")

  /** Everything before the voice name, and everything after the text. */
  const Head: Str := Lead + SpeakOpen + VoiceOpenStart
  const Tail: Str := VoiceClose + SpeakClose

  /** The SSML document: the voice name and the text are spliced in verbatim, with no escaping. */
  function Ssml(voiceName: Str, text: Str): Str
  {
    Head + voiceName + VoiceOpenEnd + text + Tail
  }

  /** The position of the first occurrence of `u` in `s`. */
  function IndexOf(s: Str, u: CodeUnit): (r: Option<nat>)
    ensures r.Some? ==> r.value < |s| && s[r.value] == u && u !in s[..r.value]
    ensures r.None? ==> u !in s
  {
    if s == [] then None
    else if s[0] == u then Some(0)
    else
      match IndexOf(s[1..], u)
      case None => None
      case Some(i) => assert s[..i + 1] == [s[0]] + s[1..][..i]; Some(i + 1)
  }

  /**
   * Reads a document of the template's shape back: the voice name is what
   * stands between `name='` and the next quote, the text what stands between
   * the end of the voice start tag and the closing tags.
   */
  function ParseSsml(doc: Str): Option<(Str, Str)>
  {
    if |doc| < |Head| + |Tail| || doc[..|Head|] != Head || doc[|doc| - |Tail|..] != Tail then None
    else
      var inner := doc[|Head|..|doc| - |Tail|];
      match IndexOf(inner, Quote)
      case None => None
      case Some(q) =>
        if |inner| - q < |VoiceOpenEnd| || inner[q..q + |VoiceOpenEnd|] != VoiceOpenEnd then None
        else Some((inner[..q], inner[q + |VoiceOpenEnd|..]))
  }

  /** The first occurrence of `u` is at `i` when `s[i]` is `u` and no earlier unit is. */
  lemma IndexOfAt(s: Str, u: CodeUnit, i: nat)
    requires i < |s| && s[i] == u && u !in s[..i]
    ensures IndexOf(s, u) == Some(i)
  {
    assert s[i] in s;
  }

  /** The part of the document between the fixed head and tail splits at its first quote. */
  lemma InnerSplits(voiceName: Str, text: Str)
    requires Quote !in voiceName
    ensures var inner := voiceName + VoiceOpenEnd + text;
      && IndexOf(inner, Quote) == Some(|voiceName|)
      && inner[..|voiceName|] == voiceName
      && inner[|voiceName|..|voiceName| + |VoiceOpenEnd|] == VoiceOpenEnd
      && inner[|voiceName| + |VoiceOpenEnd|..] == text
  {
    var inner := voiceName + VoiceOpenEnd + text;
    assert VoiceOpenEnd[0] == Quote;
    assert inner[..|voiceName|] == voiceName;
    IndexOfAt(inner, Quote, |voiceName|);
    assert inner[|voiceName|..|voiceName| + |VoiceOpenEnd|] == VoiceOpenEnd;
    assert inner[|voiceName| + |VoiceOpenEnd|..] == text;
  }

  /**
   * The document carries the text verbatim, whatever it contains (markup,
   * ampersands, quotes), and the voice name verbatim as long as it holds no
   * quote.
   */
  lemma SsmlRoundTrip(voiceName: Str, text: Str)
    requires Quote !in voiceName
    ensures ParseSsml(Ssml(voiceName, text)) == Some((voiceName, text))
  {
    var inner := voiceName + VoiceOpenEnd + text;
    var doc := Head + inner + Tail;
    assert Ssml(voiceName, text) == doc;
    assert doc[..|Head|] == Head;
    assert doc[|doc| - |Tail|..] == Tail;
    assert doc[|Head|..|doc| - |Tail|] == inner;
    InnerSplits(voiceName, text);
  }

  /**
   * Whatever the input, the document opens with a line break and indentation
   * followed by `<speak version='1.0' xml:lang='en-US'>` and closes with
   * `</voice>` and `</speak>`, each on its own indented line.
   */
  lemma SsmlEnvelope(voiceName: Str, text: Str)
    ensures AllWhiteSpace(Lead)
    ensures Ssml(voiceName, text)[..|Lead| + |SpeakOpen|] == Lead + SpeakOpen
    ensures Ssml(voiceName, text)[|Ssml(voiceName, text)| - |Tail|..] == VoiceClose + SpeakClose
  {
    var doc := Ssml(voiceName, text);
    assert doc == (Lead + SpeakOpen) + (VoiceOpenStart + voiceName + VoiceOpenEnd + text + Tail);
  }

  /**
   * The missing escaping is observable: a voice name that contains the end of
   * the start tag gives the same document as a shorter voice name with that
   * part moved into the text.
   */
  lemma SsmlVoiceAbsorbsText(voiceName: Str, x: Str, y: Str)
    ensures Ssml(voiceName + VoiceOpenEnd + x, y) == Ssml(voiceName, x + VoiceOpenEnd + y)
  {
    assert Ssml(voiceName + VoiceOpenEnd + x, y) == Head + voiceName + VoiceOpenEnd + x + VoiceOpenEnd + y + Tail;
  }

  /** The request the handler sends to the speech service (the key and region come from the environment). */
  datatype SpeechRequest = SpeechRequest(contentType: Str, outputFormat: Str, userAgent: Str, ssml: Str)

  const SsmlContentType: Str := Units("application/ssml+xml")
  const OutputFormat: Str := Units("audio-24khz-") + Units("48kbitrate-mono-mp3")
  const UserAgent: Str := Units("azure-tts-react-demo")

  /** The speech request built from a `/api/tts` body. */
  function SpeechRequestFor(body: TtsBody): (r: SpeechRequest)
    ensures r.contentType == SsmlContentType && r.outputFormat == OutputFormat
    ensures Quote !in VoiceNameOf(body.voiceName) ==>
      ParseSsml(r.ssml) == Some((VoiceNameOf(body.voiceName), TemplateValue(body.text)))
    ensures body.voiceName.Undefined? ==> ParseSsml(r.ssml) == Some((DefaultVoice, TemplateValue(body.text)))
  {
    var voice := VoiceNameOf(body.voiceName);
    var text := TemplateValue(body.text);
    assert Quote !in voice ==> ParseSsml(Ssml(voice, text)) == Some((voice, text)) by {
      if Quote !in voice { SsmlRoundTrip(voice, text); }
    }
    assert body.voiceName.Undefined? ==> Quote !in voice by { DefaultVoiceQuoteFree(); }
    SpeechRequest(SsmlContentType, OutputFormat, UserAgent, Ssml(voice, text))
  }

  /**
   * The `/api/tts` handler's answer: the upstream bytes unchanged as
   * `audio/mpeg`, or status 500 and a fixed text when the call throws.
   */
  function TtsResponse(upstream: Settled<seq<Byte>>): (r: Response)
    ensures r.status == 200 <==> upstream.Resolved?
    ensures upstream.Resolved? ==> r.contentType == AudioMpeg && r.body == Binary(upstream.value)
    ensures upstream.Rejected? ==> r == Response(500, TextHtml, PlainText(TtsFailureText))
  {
    match upstream
    case Resolved(audio) => Response(200, AudioMpeg, Binary(audio))
    case Rejected => Response(500, TextHtml, PlainText(TtsFailureText))
  }
}
