/** `simplifyText` around the composer: the early return for an empty
    request, the fallback for an empty reply and the single message a failed
    call is rethrown with. The reply of the generation call is a parameter. */
module Simplify {
  import opened Wrappers
  import opened Types
  import opened Text
  import opened Composer

  /** What `await ai.models.generateContent(...)` does: resolve with a
      response whose `text` may be undefined, or throw. */
  datatype GenerateReply = Responded(text: Option<string>) | Threw

  const Fallback: string := "Could not generate a simplification. Please try again."

  const SimplifyFailed: string :=
    "Failed to simplify. If you uploaded a large PDF, try a smaller section or an image."

  /** `response.text || fallback`. */
  function ReplyText(text: Option<string>): (r: string)
    ensures r != ""
    ensures r == Fallback <==> text.None? || text.value == "" || text.value == Fallback
    ensures text.Some? && text.value != "" ==> r == text.value
  {
    if text.Some? && text.value != "" then text.value else Fallback
  }

  /** Feeding the mapped text back through the mapping changes nothing. */
  lemma ReplyTextIdempotent(text: Option<string>)
    ensures ReplyText(Some(ReplyText(text))) == ReplyText(text)
  {
  }

  /** `simplifyText(text, attachment, options)`: "" without a request, the
      reply text (or the fallback) after a successful call, the fixed
      failure message after a failed one. */
  function SimplifyText(text: string, attachment: Option<Attachment>, o: Options, reply: GenerateReply)
    : (r: Result<string>)
    ensures r == Success("") <==> Blank(text) && attachment.None?
    ensures r.Failure? <==> !(Blank(text) && attachment.None?) && reply.Threw?
    ensures r.Failure? ==> r.error == SimplifyFailed
    ensures r.Success? && !(Blank(text) && attachment.None?) ==>
      r.value == ReplyText(reply.text)
  {
    if Compose(text, attachment, o).None? then Success("")
    else
      match reply
      case Responded(t) => Success(ReplyText(t))
      case Threw => Failure(SimplifyFailed)
  }

  /** A non-empty answer reaches the caller unchanged; an empty or missing one
      becomes the fallback. */
  lemma SimplifyReturnsAnswer(text: string, attachment: Option<Attachment>, o: Options, answer: string)
    requires !Blank(text) || attachment.Some?
    ensures SimplifyText(text, attachment, o, Responded(Some(answer)))
         == Success(if answer == "" then Fallback else answer)
  {
  }
}
