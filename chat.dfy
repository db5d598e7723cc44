/**
 * The chat client's submit logic (src/app.jsx): the transcript, the input
 * box and the exit flag of the `App` component, and what one submission does
 * to them. The awaited `/ask` call is a parameter: the settled `fetch`.
 * Timestamps are the display strings `timeNow` would produce, passed in.
 */
module Chat {
  import opened Wrappers
  import opened JsString
  import Emoji
  import opened Http

  /** A `toLocaleTimeString` display string, taken as given. */
  type Timestamp = string

  datatype Role = User | Assistant

  /** One transcript entry, `{ role, content, time }`. */
  datatype Message = Message(role: Role, content: Str, time: Timestamp)

  const ExitWord: Str := Units("exit")
  const NoReplyText: Str := Units("Error: No response.")
  const ApologyText: Str := Units("Oops, something went wrong.")

  /** `trimmed.toLowerCase() === 'exit'`. */
  predicate IsExitCommand(t: Str)
  {
    ToLowerCase(t) == ExitWord
  }

  function LowerUnitOf(c: char): CodeUnit requires 'a' <= c <= 'z' { c as int as CodeUnit }
  function UpperUnitOf(c: char): CodeUnit requires 'a' <= c <= 'z' { (c as int - 0x20) as CodeUnit }

  /** The exit command is "exit" in any mix of upper and lower case, and nothing else. */
  lemma ExitCommandIff(t: Str)
    ensures IsExitCommand(t) <==>
      && |t| == 4
      && (t[0] == LowerUnitOf('e') || t[0] == UpperUnitOf('e'))
      && (t[1] == LowerUnitOf('x') || t[1] == UpperUnitOf('x'))
      && (t[2] == LowerUnitOf('i') || t[2] == UpperUnitOf('i'))
      && (t[3] == LowerUnitOf('t') || t[3] == UpperUnitOf('t'))
  {
    assert ExitWord == [0x65, 0x78, 0x69, 0x74];
    if |t| == 4 {
      var l := ToLowerCase(t);
      assert l == [LowerUnit(t[0]), LowerUnit(t[1]), LowerUnit(t[2]), LowerUnit(t[3])];
    }
  }

  /** What the client made of the `/ask` call: `data.reply` (None when absent), or a thrown error. */
  datatype AskOutcome = Answered(reply: Option<Str>) | Failed

  /**
   * `await fetch(...)` then `await res.json()` then `data.reply`: a rejected
   * fetch and a body that is not JSON both throw. The only plain-text body
   * the proxy sends, its failure message, is not JSON.
   */
  function ReadAskResponse(fetched: Settled<Response>): (o: AskOutcome)
    ensures o.Failed? <==> fetched.Rejected? || !fetched.value.body.JsonObject?
    ensures o.Answered? ==> o.reply == (if ReplyKey in fetched.value.body.fields then Some(fetched.value.body.fields[ReplyKey]) else None)
  {
    match fetched
    case Rejected => Failed
    case Resolved(res) =>
      match res.body
      case JsonObject(data) => Answered(if ReplyKey in data then Some(data[ReplyKey]) else None)
      case _ => Failed
  }

  /** JavaScript truthiness of `data.reply`: a non-empty string. */
  predicate Truthy(reply: Option<Str>)
  {
    reply.Some? && reply.value != []
  }

  /**
   * The assistant message's content: `data.reply || 'Error: No response.'`
   * after a parsed answer, `'Oops, something went wrong.'` after a throw.
   */
  function AssistantContent(outcome: AskOutcome): (r: Str)
    ensures r != []
    ensures outcome.Answered? && Truthy(outcome.reply) ==> r == outcome.reply.value
    ensures outcome.Answered? && !Truthy(outcome.reply) ==> r == NoReplyText
    ensures outcome.Failed? ==> r == ApologyText
  {
    match outcome
    case Answered(reply) => if reply.Some? && reply.value != [] then reply.value else NoReplyText
    case Failed => ApologyText
  }

  /** The body `playTTS` posts to `/api/tts`: the text with emojis stripped, and no voice name. */
  function SpeechBody(text: Str): TtsBody
  {
    TtsBody(Text(Emoji.StripEmojis(text)), Undefined)
  }

  /**
   * What is spoken is the message with its emoji units removed and nothing
   * else changed: it is the per-unit filter of the message, so no emoji unit
   * is left, the rest keeps its order, a clean message goes out as it is, and
   * no voice name is sent.
   */
  lemma SpeechBodyStripped(text: Str)
    ensures SpeechBody(text).voiceName.Undefined? && SpeechBody(text).text.Text?
    ensures SpeechBody(text).text.s == Emoji.KeepNonEmoji(text)
    ensures forall k | 0 <= k < |SpeechBody(text).text.s| :: !Emoji.IsEmojiUnit(SpeechBody(text).text.s[k])
    ensures Emoji.IsSubsequence(SpeechBody(text).text.s, text)
    ensures (forall k | 0 <= k < |text| :: !Emoji.IsEmojiUnit(text[k])) ==> SpeechBody(text).text.s == text
  {
    Emoji.StripEmojisIsFilter(text);
    Emoji.StripEmojisExcludes(text);
    Emoji.StripEmojisKeeps(text, 0);
    if forall k | 0 <= k < |text| :: !Emoji.IsEmojiUnit(text[k]) {
      Emoji.StripEmojisOfClean(text);
    }
  }

  /**
   * The transcript the component can reach: user and assistant messages
   * alternate, beginning with the user; no content is empty; every user
   * message is trimmed. While an answer is awaited the last message is the
   * user's.
   */
  ghost predicate WellFormed(messages: seq<Message>)
  {
    forall k | 0 <= k < |messages| ::
      && (messages[k].role == User <==> k % 2 == 0)
      && messages[k].content != []
      && (k % 2 == 0 ==> IsTrimmed(messages[k].content))
  }

  /** `m` may follow `messages` in a well-formed transcript. */
  predicate FitsAfter(messages: seq<Message>, m: Message)
  {
    && (m.role == User <==> |messages| % 2 == 0)
    && m.content != []
    && (m.role == User ==> IsTrimmed(m.content))
  }

  lemma AppendWellFormed(messages: seq<Message>, m: Message)
    requires WellFormed(messages) && FitsAfter(messages, m)
    ensures WellFormed(messages + [m])
  {
    var n := messages + [m];
    forall k | 0 <= k < |n|
      ensures (n[k].role == User <==> k % 2 == 0) && n[k].content != []
      ensures k % 2 == 0 ==> IsTrimmed(n[k].content)
    {
      if k < |messages| {
        assert n[k] == messages[k];
      }
    }
  }

  /** A user message and its answer, appended to a settled transcript, leave it settled. */
  lemma AppendExchange(messages: seq<Message>, user: Message, assistant: Message)
    requires WellFormed(messages) && |messages| % 2 == 0
    requires user.role == User && user.content != [] && IsTrimmed(user.content)
    requires assistant.role == Assistant && assistant.content != []
    ensures WellFormed(messages + [user] + [assistant]) && |messages + [user] + [assistant]| % 2 == 0
  {
    AppendWellFormed(messages, user);
    AppendWellFormed(messages + [user], assistant);
  }

  /** The `messages`, `input` and `exited` state of the `App` component. */
  class ChatSession {
    var messages: seq<Message>
    var input: Str
    var exited: bool

    /** Between submissions: a well-formed transcript with no answer outstanding. */
    ghost predicate Valid()
      reads this
    {
      WellFormed(messages) && |messages| % 2 == 0
    }

    /** The initial state: `useState([])`, `useState('')`, `useState(false)`. */
    constructor ()
      ensures Valid()
      ensures messages == [] && input == [] && !exited
    {
      messages := [];
      input := [];
      exited := false;
    }

    /** The input box's `onChange`: `setInput(e.target.value)`. */
    method SetInput(value: Str)
      modifies this
      ensures input == value
      ensures messages == old(messages) && exited == old(exited)
    {
      input := value;
    }

    /**
     * `handleSubmit`, for one submission at a time. `fetched` is how the
     * `/ask` call settles, `sentAt` and `answeredAt` the two `timeNow()`
     * readings. Returns the body posted to `/ask` and the body `playTTS`
     * posts to `/api/tts`, each None when no request is made.
     */
    method Submit(fetched: Settled<Response>, sentAt: Timestamp, answeredAt: Timestamp)
      returns (ask: Option<AskBody>, speech: Option<TtsBody>)
      modifies this
      ensures old(Valid()) ==> Valid()
      ensures Trim(old(input)) == [] ==>
        && messages == old(messages) && input == old(input) && exited == old(exited)
        && ask.None? && speech.None?
      ensures Trim(old(input)) != [] && IsExitCommand(Trim(old(input))) ==>
        && exited
        && messages == old(messages) && input == old(input)
        && ask.None? && speech.None?
      ensures Trim(old(input)) != [] && !IsExitCommand(Trim(old(input))) ==>
        && messages == old(messages)
             + [Message(User, Trim(old(input)), sentAt)]
             + [Message(Assistant, AssistantContent(ReadAskResponse(fetched)), answeredAt)]
        && input == []
        && exited == old(exited)
        && ask == Some(AskBody(Text(Trim(old(input)))))
        && speech == Some(SpeechBody(AssistantContent(ReadAskResponse(fetched))))
    {
      var trimmed := Trim(input);
      if trimmed == [] {
        return None, None;
      }
      if IsExitCommand(trimmed) {
        exited := true;
        return None, None;
      }
      ghost var before := messages;
      ghost var wasValid := Valid();
      var userMsg := Message(User, trimmed, sentAt);
      AddMessage(userMsg);
      input := [];
      ask := Some(AskBody(Text(trimmed)));
      var content := AssistantContent(ReadAskResponse(fetched));
      var aiMsg := Message(Assistant, content, answeredAt);
      AddMessage(aiMsg);
      speech := Some(SpeechBody(content));
      if wasValid {
        AppendExchange(before, userMsg, aiMsg);
      }
    }

    /** `setMessages((prev) => [...prev, m])`. */
    method AddMessage(m: Message)
      modifies this
      ensures messages == old(messages) + [m]
      ensures input == old(input) && exited == old(exited)
    {
      messages := messages + [m];
    }
  }
}
