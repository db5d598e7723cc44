/**
 * The client and the proxy together: what the assistant bubble shows for
 * each way the completion call can end, and what the speech service is
 * asked to say for it.
 */
module EndToEnd {
  import opened Wrappers
  import opened JsString
  import opened Http
  import opened Backend
  import opened Chat
  import opened Emoji

  /** The content the client shows once `/ask` has answered. */
  function ShownReply(upstream: Settled<Completion>): Str
  {
    AssistantContent(ReadAskResponse(Resolved(AskResponse(upstream))))
  }

  /**
   * A failed completion reaches the user as the apology (the 500 body is not
   * JSON); a non-empty content is shown as it is; an empty content, which the
   * proxy passes on, is replaced by the client's 'Error: No response.'; a
   * missing content arrives as the proxy's 'No response' and is shown.
   */
  lemma ShownReplyCases(upstream: Settled<Completion>)
    ensures upstream.Rejected? ==> ShownReply(upstream) == ApologyText
    ensures upstream.Resolved? && HasContent(upstream.value) && Content(upstream.value) != [] ==>
      ShownReply(upstream) == Content(upstream.value)
    ensures upstream.Resolved? && HasContent(upstream.value) && Content(upstream.value) == [] ==>
      ShownReply(upstream) == NoReplyText
    ensures upstream.Resolved? && !HasContent(upstream.value) ==> ShownReply(upstream) == FallbackReply
  {
    if upstream.Resolved? {
      var fields := AskResponse(upstream).body.fields;
      assert ReplyKey in fields;
      assert ReadAskResponse(Resolved(AskResponse(upstream))) == Answered(Some(ReplyOf(upstream.value)));
      assert |FallbackReply| == 11;
    }
  }

  /**
   * The speech request the proxy builds from the client's `/api/tts` body
   * names the default voice and carries the stripped message verbatim.
   */
  lemma SpeechOfMessage(content: Str)
    ensures ParseSsml(SpeechRequestFor(SpeechBody(content)).ssml) == Some((DefaultVoice, StripEmojis(content)))
  {
  }
}
