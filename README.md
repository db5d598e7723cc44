# Azure AI and TTS chat: a Dafny model of its logic

The system is a chat demo in two parts. The React client (`src/app.jsx`) keeps
a transcript of user and assistant messages. A blank submission does
nothing, and the word `exit` ends the chat without sending anything. Any other
submission sends the trimmed prompt to a proxy. The client then shows an
assistant message: the reply, 'Error: No response.' when the reply is missing
or empty, or an apology when the call fails. The client has that assistant
message spoken, fallbacks included: it strips emojis and posts the text to the
proxy's speech endpoint. The Express proxy (`backend/index.js`) has two
handlers:

- `/ask` forwards the prompt to a chat-completion deployment and answers `{ reply }`;
- `/api/tts` wraps the text in an SSML 1.0 document and returns the synthesised MP3 bytes.

Either handler answers status 500 with a fixed text when its upstream call fails.

The model has these modules:

- `JsString`: JavaScript strings as sequences of UTF-16 code units, with `trim` and `toLowerCase`.
- `Emoji`: `stripEmojis`, modelled as the regular expression it is. It is proved equal to a per-unit filter and proved to remove whole characters on well-formed text.
- `Http`: the request bodies and responses exchanged between client and proxy.
- `Backend`: reply extraction, the SSML template and its reading back, the speech request, and the two handlers' response mapping.
- `Chat`: the `App` component's `messages`, `input` and `exited` state as a class. Its `Submit` method is `handleSubmit`, for one submission.
- `EndToEnd`: the client and proxy combined.

Awaited network calls appear as `Settled` values, either `Resolved(value)` or
`Rejected`, and are given as parameters. The `timeNow()` display strings are
parameters too.

The SSML document does not begin with `<speak`: the template literal opens
with a line break and four spaces. `Backend.SsmlEnvelope` states the document's
opening with that prefix included.

## Model

| member | source | states |
|---|---|---|
| Emoji.StripEmojisIsFilter | src/app.jsx:25-29 | the global replace with the nine-alternative pattern, with first-match semantics on code units, is equal to dropping each unit in U+2700–27BF, U+E000–F8FF, U+D800–DFFF or U+FE00–FE0F, or equal to U+24C2, and keeping every other unit |
| Emoji.MatchAtPattern | src/app.jsx:27 | at every position the pattern matches exactly one unit if that unit is an emoji unit, and nothing otherwise; the two-unit alternatives are never the ones that match |
| Emoji.StripEmojisExcludes | src/app.jsx:26-28 | no unit of the output is in a stripped range, so no surrogate survives |
| Emoji.StripEmojisKeeps | src/app.jsx:25-29 | the output is a subsequence of the input and no longer than it; it holds every non-emoji unit exactly as many times as the input does, and no emoji unit |
| Emoji.StripEmojisOfClean | src/app.jsx:25-29 | a text with no emoji unit is returned unchanged |
| Emoji.StripEmojisIdempotent | src/app.jsx:25-29 | stripping twice gives the same as stripping once |
| Emoji.StripEmojisAppend | src/app.jsx:25-29 | stripping a concatenation is the concatenation of the stripped parts |
| Emoji.StripEmojisEncode | src/app.jsx:25-29 | on the UTF-16 encoding of any text, the output is the encoding of the text without its astral-plane characters and without its BMP characters in the stripped ranges, so every astral character goes whole |
| JsString.EncodeChar | src/app.jsx:27 | a BMP scalar value is one non-surrogate unit equal to it; any other is a high surrogate then a low surrogate that decode back to it |
| JsString.EncodeAppend | src/app.jsx:27 | UTF-16 encoding distributes over concatenation |
| JsString.UnitsIsEncode | src/app.jsx:27 | the units of a BMP literal are its UTF-16 encoding |
| JsString.TrimStartSpec | src/app.jsx:115 | the leading trim cuts a prefix made only of white space, and the result does not start with white space |
| JsString.TrimEndSpec | src/app.jsx:115 | the trailing trim cuts a suffix made only of white space, and the result does not end with white space |
| JsString.Trim | src/app.jsx:115 | the trimmed string neither starts nor ends with white space |
| JsString.TrimIsSlice | src/app.jsx:115 | the trimmed string is a contiguous part of the input, with only white space before and after it |
| JsString.TrimEmptyIff | src/app.jsx:115-116 | the trimmed input is empty exactly when the input is all white space, which is when submit does nothing |
| JsString.TrimIdempotent | src/app.jsx:115 | trimming twice gives the same as trimming once |
| Chat.ExitCommandIff | src/app.jsx:119 | a trimmed input is the exit command exactly when it has four units spelling e, x, i, t, each in either case |
| Chat.ReadAskResponse | src/app.jsx:131-137 | the client's read of `/ask` fails exactly when the fetch rejects or the body is not a JSON object; otherwise it yields the `reply` field if present, else nothing |
| Chat.AssistantContent | src/app.jsx:138-152 | the assistant content is never empty; it is the reply when that is a non-empty string, 'Error: No response.' when the reply is missing or empty, and 'Oops, something went wrong.' after a failure |
| Chat.SpeechBodyStripped | src/app.jsx:78-84 | the `/api/tts` body carries exactly the text filtered by the per-unit emoji filter, so no emoji unit is left, every other unit stays in order, and a clean text is unchanged; no voice name is sent |
| Chat.AppendWellFormed | src/app.jsx:126 | appending a message that fits the alternation keeps the transcript well formed |
| Chat.AppendExchange | src/app.jsx:125-144 | a trimmed non-empty user message followed by a non-empty assistant message keeps a settled transcript well formed and settled |
| Chat.ChatSession.constructor | src/app.jsx:6-8 | the state starts with no messages, an empty input and `exited` false, and is valid |
| Chat.ChatSession.SetInput | src/app.jsx:190 | the input becomes the typed value and nothing else changes |
| Chat.ChatSession.Submit | src/app.jsx:113-156 | blank input changes nothing and sends nothing. The exit command sets `exited` and changes nothing else. Any other input appends, after the unchanged earlier messages, exactly the trimmed user message and then the assistant message; it clears the input, posts the trimmed prompt to `/ask`, posts the stripped assistant content to `/api/tts`, and keeps the transcript valid |
| Chat.ChatSession.AddMessage | src/app.jsx:126 | the message goes at the end of the transcript and nothing else changes |
| Backend.ReplyOf | backend/index.js:56 | the reply is `choices[0].message.content` when every step of that path exists and the content is not null or undefined, and it is kept even when empty; otherwise it is 'No response' |
| Backend.AskResponse | backend/index.js:56-60 | status is 200 exactly when the completion call succeeds; then the body is a JSON object whose only key is `reply`, set to the extracted reply; otherwise it is status 500 with the text 'Failed to get response' |
| Backend.VoiceNameOf | backend/index.js:66 | a missing voice name becomes 'en-US-JennyNeural'; a given string is kept verbatim; `null` is not replaced and becomes 'null' in the template |
| Backend.DefaultVoiceQuoteFree | backend/index.js:66-71 | the default voice name contains no quote, so it stays inside the `name='...'` attribute |
| Backend.IndexOf | backend/index.js:71 | the returned position holds the first occurrence of the unit, and there is no position exactly when the unit does not occur |
| Backend.SsmlRoundTrip | backend/index.js:69-74 | reading the document back gives the voice name and the text verbatim, whatever the text contains, provided the voice name has no quote |
| Backend.SsmlEnvelope | backend/index.js:69-74 | for any input the document opens with white space and then `<speak version='1.0' xml:lang='en-US'>`, and closes with `</voice>` and then `</speak>` |
| Backend.SsmlVoiceAbsorbsText | backend/index.js:71-72 | with no escaping, a voice name that contains the end of the start tag gives the same document as a shorter name with that part moved into the text |
| Backend.SpeechRequestFor | backend/index.js:66-89 | the request has type `application/ssml+xml` and format `audio-24khz-48kbitrate-mono-mp3`; its document reads back as the effective voice name and the text's template value provided that voice name has no quote, and as the default voice when the body has no voice name |
| Backend.TtsResponse | backend/index.js:91-97 | status is 200 exactly when synthesis succeeds; then the response is `audio/mpeg` and its body is the upstream bytes unchanged; otherwise it is status 500 with the text 'Azure TTS failed' |
| EndToEnd.ShownReplyCases | backend/index.js:56-60 | through both programs, the shown content is: the apology after an upstream failure; the content when it is non-empty; 'Error: No response.' when the content is empty; 'No response' when there is no content |
| EndToEnd.SpeechOfMessage | backend/index.js:66-74 | the speech request for a message has the default voice and the message with emojis stripped, verbatim |

## Left out

- `drawWaveform` and the audio pipeline (`AudioContext`, the analyser, Blob URLs and `Audio` playback) are browser APIs with floating-point drawing. `playTTS` is modelled only as far as the body it posts.
- `timeNow` reads the wall clock and formats it by locale. `Submit` takes its two readings as parameters.
- The network, the Azure SDK and axios calls, and the Express setup (CORS, the JSON middleware, `listen`) are I/O. Each awaited call is a `Settled` parameter, and the speech service's key and region are not modelled.
- The completion request's contents (deployment `gpt-4o`, API version `2024-10-21`, one user message holding the prompt) are sent through the SDK and are not modelled. `/ask` bodies appear only as what the client sends.
- JsString.ToLowerCase: only ASCII capitals are lowered. No other character lowers to a string that could equal "exit". U+0130 lowers to two units and U+212A lowers to "k".
- Field: JSON values in `reply`, `text` and `voiceName` that are not strings (numbers, objects) are not modelled. Template interpolation of those is left out.
- Chat.ReadAskResponse: the model takes it as given that a plain-text body fails `res.json()`. This holds for the one text the proxy sends, 'Failed to get response', which is not JSON.
- Concurrent submissions, and state updates interleaved across awaits, are concurrency. One submission runs at a time.
- JSX rendering and the auto-scroll effect are user-interface code. `src/main.jsx` is not part of this model.
