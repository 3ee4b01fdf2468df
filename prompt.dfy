/**
 * The structurer's request: the two chat messages sent to the language
 * model for a transcript, as built in `get_structured_data_from_text`.
 */
module Prompt {

  /** One chat message: a role name and its text. */
  datatype Message = Message(role: string, content: string)

  /** The fixed system instruction holding the worked JSON example. Its
      wording is not part of this model: it is an arbitrary, fixed string. */
  const SystemPrompt: string

  /** The fixed text put before the transcript in the user message. */
  const UserPreamble: string := "Extract structured JSON data from the following OCR text:\n\n"

  /** The request for a transcript: the system message with the fixed
      instruction, then the user message carrying the transcript after the
      preamble, unchanged. */
  function BuildMessages(text: string): (r: seq<Message>)
    ensures |r| == 2
    ensures r[0].role == "system" && r[0].content == SystemPrompt
    ensures r[1].role == "user" && UserPreamble <= r[1].content
    ensures RecoverTranscript(r) == Some(text)
  {
    [Message("system", SystemPrompt), Message("user", UserPreamble + text)]
  }

  datatype Option<T> = None | Some(value: T)

  /** Reads the transcript back out of a request: the user message's text
      after the preamble, if the request has the two-message shape. */
  function RecoverTranscript(msgs: seq<Message>): Option<string>
  {
    if |msgs| == 2 && msgs[0].role == "system" && msgs[1].role == "user"
       && UserPreamble <= msgs[1].content
    then Some(msgs[1].content[|UserPreamble|..])
    else None
  }

  /** Different transcripts give different requests, so the model is always
      shown the transcript it was asked about. */
  lemma BuildMessagesInjective(s: string, t: string)
    requires BuildMessages(s) == BuildMessages(t)
    ensures s == t
  {
  }
}
