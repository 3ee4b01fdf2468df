/**
 * The HTTP boundary: the liveness route and the `/extract-binary` handler,
 * which reads the body, runs the text extractor, then the structurer, and
 * maps the first failure of any stage to a 500 error response. The OCR
 * engine and the language model are parameters; the handler also returns
 * the trace of stage calls it made, so that what it did and did not invoke
 * can be stated.
 */
module Api {
  import opened Extraction
  import opened Prompt

  /** The outcome of a stage: its value, or the text of the exception it raised. */
  datatype Outcome<T> = Ok(value: T) | Err(message: string)

  type Bytes = seq<bv8>

  /** The JSON content handed to the response: a bare string, or an object
      with string members. */
  datatype Json = JString(text: string) | JObject(members: seq<(string, string)>)

  datatype Response = Response(status: int, body: Json)

  const StatusOk: int := 200
  const StatusServerError: int := 500

  /** The liveness route: a fixed payload, with nothing read or computed. */
  function HealthCheck(): (r: Response)
    ensures r.status == StatusOk
    ensures r.body == JObject([("status", "API is alive")])
  {
    Response(StatusOk, JObject([("status", "API is alive")]))
  }

  /** The text extractor with its engine abstracted: the OCR engine turns
      the bytes into a recognition tree or fails, and the tree is serialised. */
  function ExtractTextFromPdfBytes(ocr: Bytes -> Outcome<seq<Page>>, bytes: Bytes): (r: Outcome<string>)
    ensures r.Ok? <==> ocr(bytes).Ok?
    ensures r.Ok? ==> r.value == Transcript(ocr(bytes).value)
    ensures r.Err? ==> r.message == ocr(bytes).message
  {
    match ocr(bytes)
    case Ok(pages) => Ok(Transcript(pages))
    case Err(e) => Err(e)
  }

  /** The structurer with the model abstracted: the model is sent the
      request for the transcript and its first reply's text is returned. */
  function StructureText(llm: seq<Message> -> Outcome<string>, text: string): (r: Outcome<string>)
    ensures var msgs := BuildMessages(text);
      RecoverTranscript(msgs) == Some(text) && r == llm(msgs)
  {
    llm(BuildMessages(text))
  }

  /** One stage call made while handling a request, with what it returned. */
  datatype Call =
    | ReadBody(body: Outcome<Bytes>)
    | RunOcr(document: Bytes, pages: Outcome<seq<Page>>)
    | AskLlm(messages: seq<Message>, reply: Outcome<string>)

  predicate Succeeded(c: Call)
  {
    match c
    case ReadBody(b) => b.Ok?
    case RunOcr(_, p) => p.Ok?
    case AskLlm(_, r) => r.Ok?
  }

  function ErrorOf(c: Call): string
    requires !Succeeded(c)
  {
    match c
    case ReadBody(b) => b.message
    case RunOcr(_, p) => p.message
    case AskLlm(_, r) => r.message
  }

  /** The response for a caught exception. */
  function ErrorResponse(message: string): (r: Response)
    ensures r.status == StatusServerError
    ensures r.body.JObject? && |r.body.members| == 1 && r.body.members[0] == ("error", message)
  {
    Response(StatusServerError, JObject([("error", message)]))
  }

  /** What handling one request produced: the response and the calls made. */
  datatype Exchange = Exchange(response: Response, calls: seq<Call>)

  /** The `/extract-binary` handler. `body` is the outcome of reading the
      request body, `ocr` the recognition engine, `llm` the language model. */
  function ExtractFromBinary(body: Outcome<Bytes>, ocr: Bytes -> Outcome<seq<Page>>,
                             llm: seq<Message> -> Outcome<string>): (r: Exchange)
    // The stages run in order, each at most once, each only after the
    // previous one succeeded, and the handler stops only at a failure.
    ensures 1 <= |r.calls| <= 3 && r.calls[0] == ReadBody(body)
    ensures forall i | 0 <= i < |r.calls| - 1 :: Succeeded(r.calls[i])
    ensures |r.calls| == 3 || !Succeeded(r.calls[|r.calls| - 1])
    // The engine is given the body; the model is given the request built
    // from the transcript of the engine's tree.
    ensures |r.calls| >= 2 ==> body.Ok? && r.calls[1] == RunOcr(body.value, ocr(body.value))
    ensures |r.calls| == 3 ==>
      && ocr(body.value).Ok?
      && var msgs := BuildMessages(Transcript(ocr(body.value).value));
         r.calls[2] == AskLlm(msgs, llm(msgs))
    // Success passes the model's text through verbatim with status 200;
    // any failure gives status 500 and the failing stage's message.
    ensures r.response.status == StatusOk <==> |r.calls| == 3 && Succeeded(r.calls[2])
    ensures r.response.status == StatusOk ==> r.response.body == JString(r.calls[2].reply.value)
    ensures r.response.status != StatusOk ==>
      r.response == ErrorResponse(ErrorOf(r.calls[|r.calls| - 1]))
  {
    match body
    case Err(e) => Exchange(ErrorResponse(e), [ReadBody(body)])
    case Ok(bytes) =>
      var extract := RunOcr(bytes, ocr(bytes));
      match ExtractTextFromPdfBytes(ocr, bytes)
      case Err(e) => Exchange(ErrorResponse(e), [ReadBody(body), extract])
      case Ok(text) =>
        var ask := AskLlm(BuildMessages(text), StructureText(llm, text));
        match StructureText(llm, text)
        case Err(e) => Exchange(ErrorResponse(e), [ReadBody(body), extract, ask])
        case Ok(data) => Exchange(Response(StatusOk, JString(data)), [ReadBody(body), extract, ask])
  }

  /** The handler answers 200 exactly when reading the body, recognition and
      the model call all succeed; otherwise it answers 500. */
  lemma ExtractFromBinarySucceedsIff(body: Outcome<Bytes>, ocr: Bytes -> Outcome<seq<Page>>,
                                     llm: seq<Message> -> Outcome<string>)
    ensures var r := ExtractFromBinary(body, ocr, llm);
      (r.response.status == StatusOk <==>
        body.Ok? && ocr(body.value).Ok? && llm(BuildMessages(Transcript(ocr(body.value).value))).Ok?)
      && (r.response.status == StatusOk || r.response.status == StatusServerError)
  {
  }

  /** When recognition fails, the model is never called and the response is
      the 500 error carrying the engine's message. */
  lemma ExtractionFailureSkipsModel(body: Outcome<Bytes>, ocr: Bytes -> Outcome<seq<Page>>,
                                    llm: seq<Message> -> Outcome<string>)
    requires body.Ok? && ocr(body.value).Err?
    ensures var r := ExtractFromBinary(body, ocr, llm);
      r.response == ErrorResponse(ocr(body.value).message)
      && forall i | 0 <= i < |r.calls| :: !r.calls[i].AskLlm?
  {
  }
}
