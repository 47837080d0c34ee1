/** The boundary to the completion service. The remote call itself is not
    modelled: its reply reaches the session as a plain string, and failure is
    signalled the way the client signals it, by a tag inside that string. */
module Gateway {
  import opened Text

  /** The marker that `generate_response` puts at the head of its reply when
      the remote call raises. */
  const ApiErrorTag := "[API ERROR]"

  /** The reply produced when the remote call raises with message `e`. */
  function ErrorReply(e: string): string
  {
    ApiErrorTag + " " + e
  }

  /** The session treats a reply as failed when the tag occurs anywhere in it. */
  predicate Failed(reply: string)
  {
    Contains(reply, ApiErrorTag)
  }

  /** Every error reply is recognised as a failure. */
  lemma ErrorReplyFails(e: string)
    ensures Failed(ErrorReply(e))
  {
    ContainsInfix("", ApiErrorTag, " " + e);
    assert "" + ApiErrorTag + (" " + e) == ErrorReply(e);
  }

  /** Failure is decided by the substring alone: a reply that merely quotes the
      tag somewhere, even one the model produced, counts as a failure, and a
      reply without the tag never does. */
  lemma FailedIffTagOccurs(reply: string)
    ensures Failed(reply) <==> exists i: nat :: OccursAt(reply, ApiErrorTag, i)
  {
    ContainsIff(reply, ApiErrorTag);
  }

  /** The tag in the middle of otherwise ordinary text makes the reply a failure. */
  lemma QuotedTagFails(before: string, after: string)
    ensures Failed(before + ApiErrorTag + after)
  {
    ContainsInfix(before, ApiErrorTag, after);
  }
}
