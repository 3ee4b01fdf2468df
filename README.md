# OCR-to-JSON invoice extraction service, modelled in Dafny

The service takes the raw bytes of a PDF and runs an OCR engine on them.
It flattens the recognised text into one plain-text transcript. It then asks
a language model to turn that transcript into a JSON description of the
invoice, and returns the model's text, or a 500 error carrying the message
of the first exception raised. A second route answers a liveness probe.

This project models the logic around the two external engines, in four
modules:

- `Strings` (`strings.dfy`): helpers. `FlatMap` is the order-preserving
  concatenation an accumulating loop produces. `Join` is Python's
  `sep.join(parts)`. `Split` is Python's `s.split(c)` for a one-character
  separator. Split is not called by the service; it is the reference decoder
  for the round-trip lemmas.
- `Extraction` (`extraction.dfy`): the recognition tree `Page`/`Block`/`Line`/`Word`.
  It holds the transcript as a specification (`Transcript`, built from
  `LineText`, `BlockText` and `PageText`) and `ExtractText`, the triply
  nested `+=` loop of `extract_text_from_pdf_bytes`. That method is proved
  equal to the specification. The contracts of `PageText` and `Transcript`
  state that the transcript is the concatenation of all line texts in
  reading order. Lemmas prove that pages and blocks add no separators, and
  that the transcript is empty exactly when there are no lines and ends
  with a newline otherwise. Two more lemmas are round trips: splitting at
  newlines recovers the lines, and splitting a line at spaces recovers its
  words.
- `Prompt` (`prompt.dfy`): the two chat messages sent to the model. The
  system instruction is an opaque constant `SystemPrompt`, declared without
  a value, so Dafny treats it as an arbitrary fixed string.
- `Api` (`api.dfy`): the health check, and the `/extract-binary` handler as
  a function. Its inputs are the outcome of reading the body, the OCR engine
  (`Bytes -> Outcome<seq<Page>>`) and the model
  (`seq<Message> -> Outcome<string>`). It returns the response together with
  a trace of the stage calls it made. The trace is how the model says which
  stages run after a failure: none do.

The error member is `str(e)` passed through unchanged, so it may be empty;
the model treats it as an arbitrary string.

## Model

| member | source | states |
|---|---|---|
| `Extraction.ExtractText` | main.py:21-27 | the accumulator, started at `""` and extended by each line's space-joined word values plus `"\n"` across pages, blocks and lines, ends equal to `Transcript(pages)` |
| `Extraction.LineContent` | main.py:25-26 | a line's words joined by single spaces: `""` for a line with no words, and otherwise the summed lengths of the word values plus one position per pair of neighbouring words |
| `Extraction.LineText` | main.py:24-26 | a line's contribution ends with the newline it appends, and a line with no words contributes just `"\n"` |
| `Extraction.WordValues` | main.py:25 | the comprehension keeps every word's value, in order, and nothing else |
| `Extraction.BlockText` | main.py:24-26 | a block's text is its line texts in order; it is `""` exactly when the block has no lines, and otherwise ends with `"\n"` |
| `Extraction.PageText` | main.py:23-26 | a page's text is its block texts in order, and equals the concatenated texts of all its lines in block order (`PageLines`), with no separator between blocks |
| `Extraction.Transcript` | main.py:21-27 | the transcript is the page texts in order, and equals the concatenated texts of all lines in page → block → line order (`AllLines`), with nothing else added |
| `Extraction.TranscriptAppend` | main.py:22 | pages add no separator: the transcript of `ps + qs` is the transcript of `ps` followed by that of `qs` |
| `Extraction.TranscriptOfPage` | main.py:22-23 | the transcript of one page is that page's text, the concatenation of its block texts |
| `Extraction.PageTextAppend` | main.py:23 | blocks add no separator: a page's text over `bs + cs` is the text over `bs` followed by the text over `cs` |
| `Extraction.BlockTextAppend` | main.py:24-26 | within a block, line texts follow one another directly |
| `Extraction.TranscriptEmptyIff` | main.py:21-27 | the transcript is `""` exactly when the tree has no line at all (no pages, or only empty pages or blocks) |
| `Extraction.TranscriptEndsWithNewline` | main.py:24-26 | if at least one line exists, the transcript's last character is `"\n"` |
| `Extraction.LineContentSplitsIntoWords` | main.py:25-26 | for a line with at least one word and no space inside any word value, splitting its content at spaces gives back the word values in order, so words are separated by exactly one space |
| `Extraction.LineContentEnds` | main.py:25-26 | a line's content starts with its first word's value and ends with its last word's value |
| `Extraction.TranscriptSplitsIntoLines` | main.py:21-27 | when no word value contains a newline, splitting the transcript at newlines gives each line's content in reading order, followed by one empty field after the final newline |
| `Api.ExtractTextFromPdfBytes` | main.py:16-27 | extraction fails exactly when the OCR engine fails, with the engine's message; otherwise it yields the transcript of the engine's tree |
| `Strings.Join` | main.py:26 | `sep.join(parts)` is `""` for no parts, and otherwise as long as the parts together plus one separator per gap between neighbouring parts |
| `Strings.JoinSplit` | main.py:26 | for at least one part, `sep.join` with a one-character separator is undone by `split` on it when no part contains the separator |
| `Prompt.BuildMessages` | main.py:86-89 | the request has exactly two messages: role `"system"` carrying the fixed system prompt, then role `"user"` whose text starts with the literal preamble. The transcript can be read back unchanged from after that preamble |
| `Api.StructureText` | main.py:84-92 | the structurer's result is the model's reply, unchanged and with no retry, to the two-message request from which the transcript reads back exactly |
| `Prompt.BuildMessagesInjective` | main.py:86-89 | different transcripts yield different requests |
| `Api.HealthCheck` | main.py:95-97 | the liveness route always answers status 200 with the single member `status: "API is alive"`; it takes no input |
| `Api.ExtractFromBinary` | main.py:102-110 | the handler reads the body, runs OCR, then the model, in that order and each at most once. A stage runs only after its predecessor succeeded, and the handler stops only at a failure or after the model. OCR receives the body bytes and the model receives the request built from the transcript. A 200 response carries the model's text verbatim; any other response is status 500 with the single member `error` holding the failing stage's message |
| `Api.ErrorResponse` | main.py:109-110 | a caught exception gives status 500 with a body holding the single member `error`, whose value is the exception's message |
| `Api.ExtractFromBinarySucceedsIff` | main.py:104-110 | the status is 200 exactly when reading the body, OCR and the model call all succeed, and is 500 otherwise |
| `Api.ExtractionFailureSkipsModel` | main.py:104-110 | when OCR fails, the model is never called and the response is the 500 error with the engine's message |

## Left out

- The OCR engine (`DocumentFile.from_pdf`, `ocr_predictor`, running the model, `export()`). These are foreign library calls. The engine is a function parameter that returns either the exported tree or an error message. A malformed export (a missing key) counts as that engine failing.
- Loading the OCR model once per request. Its cost has no observable effect on results.
- The language-model client (`client.chat.completions.create`, the model name, `response.choices[0].message.content`). This is a network call. The model is a function parameter from the messages to either the reply text or an error message.
- The sampling temperature `0.1`. It is a floating-point parameter with no behaviour in this code.
- The wording of the system prompt. It is a fixed constant, modelled as an opaque string.
- FastAPI routing, `async`/`await`, and the serialisation of `JSONResponse` to bytes. These are HTTP and I/O plumbing. Reading the body is an input outcome, since its failure is caught like any other. The response body is the JSON value before serialisation.
- Loading the environment and the API key. This is configuration I/O. A missing key shows up only as a failure of the model call.
- Whether the model's text is valid JSON. The code never checks it.
- The text of exception messages (`str(e)`). Each is an opaque string carried through unchanged.
- Concurrency between requests. The handler keeps no shared state, so each request is modelled independently.
