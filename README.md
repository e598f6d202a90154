# PDF chat bot core, modelled in Dafny

This project models the conversation core of a PDF chat bot backend. It has four parts:
- A session that holds one loaded PDF and talks to an LLM about it.
- The registry of live sessions and its expiry sweep.
- The LLM client's prompt building and token accounting.
- The hybrid text extractor with its "looks scanned" heuristic.

It has four modules:

- `Text` (`text.dfy`): the parts of Python's `str` the core relies on, with their laws.
  - `strip()` and its halves, with their laws.
  - `count(sub)` for a non-empty pattern, with its characterisation.
  - POSIX `os.path.basename`.
- `LlmClient` (`llm_client.dfy`): the directive text (system prompt) and the token estimator.
  - The texts live in `Templates`. Every function takes them as a `Prompts` value, so the proofs hold for any texts whose two headers differ.
  - `TemplatesHeadersDiffer` shows the real headers do.
  - Also the usage breakdown, the translation of the history into the provider's format, and the outgoing message with the document injected.
  - The SDK's answer, a text or an exception, is an input.
- `PdfProcessor` (`pdf_processor.dfy`): the extraction cascade.
  - First pdfplumber; then PyPDF2, continuing the same accumulator; then OCR.space.
  - The interpretation of the OCR reply, and `get_pdf_info`.
  - Each library pass is an input: the page texts it produced and whether it raised. So is the HTTP outcome of the OCR call.
- `ChatSession` (`chat_session.dfy`):
  - The class `PdfChatSession`, whose methods update its fields in place.
  - The class `SessionRegistry` for the module-level `active_sessions` dictionary.
  - The clock is a `now` parameter, in integer microseconds.

The session's bookkeeping is a `Ledger`: the history, the usage log and the running total. `LedgerConsistent` is the invariant every method keeps:
- The history is made of (user, assistant) pairs.
- There is one usage record per pair.
- Each record's cumulative figure is the session total at that moment.

`Chat` is proved against the pure function `Booked`. A chat leaves exactly `Booked(old ledger, …)` behind. The lemmas about `Booked` and `LedgerConsistent` then give:
- The history only grows by appending.
- It has even length and roles alternate.
- Every cumulative figure is the prefix sum of the exchange totals.

Some facts about the program that the model keeps:
- A session holds one PDF.
- `load_pdf` does not touch `last_activity`.
- The separator before the user's message is `"\n\nUsuario: "`.
- The whole usage log is kept, and the summary shows the last ten records.
- An SDK failure becomes an apology text that is stored as the assistant's turn, so the history always holds complete pairs.
- `is_session_expired` and `cleanup_expired_sessions` default to a 30-minute timeout (`DefaultTimeoutMinutes`). The model's callers pass the timeout explicitly.

## Model

| member | source | states |
|---|---|---|
| Text.Strip | pdf_processor.py:90-91 | `strip()` returns the slice of the input that remains once the whitespace at both edges is removed: everything before and after it is whitespace, it neither starts nor ends with whitespace, and it is empty exactly when the input is all whitespace |
| Text.TrimStart | pdf_processor.py:90 | the leading-whitespace half of `strip()`: the result is a suffix of the input, what it drops is whitespace, and it does not start with whitespace |
| Text.TrimEnd | pdf_processor.py:90 | the trailing-whitespace half: the result is a prefix, what it drops is whitespace, and it does not end with whitespace |
| Text.StripIdempotent | pdf_processor.py:90-91 | stripping twice is stripping once, so an accepted extraction text is already stripped |
| Text.Count | llm_client.py:61 | `str.count` counts non-overlapping occurrences left to right, so that many copies of the pattern fit in the text |
| Text.CountPositive | llm_client.py:61 | `count(pattern) >= 1` holds exactly when the pattern occurs somewhere |
| Text.CountMoreThanOne | llm_client.py:61 | `count(pattern) > 1` holds exactly when the pattern occurs twice without overlap (both directions) |
| Text.Basename | pdf_chat_session.py:70 | the file name is a suffix of the path, holds no '/', and is preceded by a '/' whenever it is not the whole path |
| LlmClient.SystemPrompt | llm_client.py:40-90 | with no content the directive text is the base prompt; with content it extends the base prompt strictly |
| LlmClient.TemplatesHeadersDiffer | llm_client.py:64-88 | the multiple-document and single-document headers of the client's texts differ at a common position |
| LlmClient.SystemPromptCarriesContent | llm_client.py:40-90 | the document read back from between the template's delimiters is exactly the loaded content, and there is none without content |
| LlmClient.SystemPromptAnnouncesMultiple | llm_client.py:59-79 | the multiple-document wording is chosen exactly when "DOCUMENTO #" occurs twice without overlap |
| LlmClient.EstimateTokens | llm_client.py:92-102 | the estimate is the length divided by four, rounded down: `4n <= len < 4n + 4` |
| LlmClient.EstimateConcat | llm_client.py:92-102 | estimating two texts apart gives at most the estimate of their concatenation, and at most one less |
| LlmClient.TokenUsageInfo | llm_client.py:104-136 | the total is the sum of the four parts: the message and document estimates (0 without content), the base prompt estimate, and the history estimate, which is the estimate of `str(history)` for a non-empty history and 0 otherwise; the limit is 1,000,000 |
| LlmClient.ComposeMessage | llm_client.py:174-180 | the outgoing message ends with the user's message and is that message alone when no content is loaded |
| LlmClient.ComposeMessageInjectsContent | llm_client.py:174-177 | with content loaded, the outgoing message is a directive text, the separator and the user's message, and the directive text carries the whole content verbatim |
| LlmClient.UsageBoundsOutgoing | llm_client.py:117-126 | the message, document and base prompt figures of the breakdown never exceed the estimate of the message actually sent |
| LlmClient.ReplyText | llm_client.py:183-190 | the reply is the SDK's text, or the apology prefix followed by the error text |
| LlmClient.ProviderHistoryAt | llm_client.py:161-169 | the provider's history has the session history's length and order, each role copied and the content as the single part |
| LlmClient.ToProviderHistory | llm_client.py:161-169 | the translation loop produces the provider history |
| LlmClient.Chat | llm_client.py:138-190 | the provider is handed the translated history and the composed message; the reply is `ReplyText` of the SDK outcome |
| PdfProcessor.ExtractionMethod.Tag | pdf_processor.py:44 | the method tag is one of "text", "ocr", "failed" |
| PdfProcessor.PagesTextAppend | pdf_processor.py:80-102 | the PyPDF2 pass continues pdfplumber's accumulator: accumulating two page runs is accumulating their concatenation |
| PdfProcessor.PagesTextBlank | pdf_processor.py:85-104 | the accumulated text is blank exactly when every page text is blank |
| PdfProcessor.AppendPages | pdf_processor.py:85-88 | the page loop appends each non-empty page text and a newline, in page order |
| PdfProcessor.ExtractStandard | pdf_processor.py:70-109 | standard extraction yields pdfplumber's stripped text if that pass finished with text, else the continued accumulator's if PyPDF2 finished with text, else failure |
| PdfProcessor.StandardResultShape | pdf_processor.py:70-109 | the result is "text" or "failed"; "failed" comes exactly with empty text; "text" text is already stripped |
| PdfProcessor.StandardFailsExactlyOnBlank | pdf_processor.py:90-105 | when neither library raised, standard extraction fails exactly when every page of both passes is blank |
| PdfProcessor.OcrResultSpec | pdf_processor.py:111-178 | OCR yields "ocr" exactly for an accepted 200 reply (available, decodable, not errored), with the stripped concatenated parsed texts; every other outcome is ("", "failed") |
| PdfProcessor.CollectParsedText | pdf_processor.py:159-163 | the loop over `ParsedResults` appends each present `ParsedText` and a newline, in order |
| PdfProcessor.ExtractOcr | pdf_processor.py:111-178 | the OCR step's result is the OCR interpretation of the HTTP outcome |
| PdfProcessor.ExtractText | pdf_processor.py:35-68 | the cascade is `Cascade` applied to the standard result and the OCR result of the same inputs |
| PdfProcessor.CascadeSpec | pdf_processor.py:46-68 | a missing file raises and nothing else does; standard text with more than 50 stripped characters wins without consulting OCR; otherwise non-empty OCR text, otherwise ("", "failed"); "failed" comes exactly with empty text, and accepted standard text is over 50 characters once stripped |
| PdfProcessor.ExtractTextSpec | pdf_processor.py:52-61 | the standard step never answers "ocr" and fails exactly with empty text; the OCR step never answers "text" and fails only with empty text, as `CascadeSpec` requires |
| PdfProcessor.GetPdfInfo | pdf_processor.py:180-221 | size and page count as read; the text flag is the >100-stripped-characters test on the first three pages and "scanned" its negation; each failure leaves the defaults reached so far |
| PdfProcessor.SampleIgnoresLaterPages | pdf_processor.py:206-215 | only the first three pages decide the heuristic |
| PdfProcessor.ScannedYetExtractedAsText | pdf_processor.py:206-216 | a one-page PDF with 60 characters is flagged as scanned yet standard extraction accepts its text |
| ChatSession.GenerateSessionId | pdf_chat_session.py:46-49 | a generated id is "pdf_chat_" followed by the timestamp |
| ChatSession.ExpiredAt | pdf_chat_session.py:225-226 | expiry is strictly more than the timeout having passed since the last activity |
| ChatSession.ActiveNowNotExpired | pdf_chat_session.py:215-226 | a session active at `now` is not expired for any timeout >= 0 |
| ChatSession.IdlePastTimeoutExpired | pdf_chat_session.py:215-226 | a session idle for the timeout plus one minute is expired |
| ChatSession.ExpiryMonotone | pdf_chat_session.py:215-226 | expired under a timeout means expired under every shorter one |
| ChatSession.LastN | pdf_chat_session.py:212 | `seq[-10:]` is the last ten elements, or all when there are fewer |
| ChatSession.ExchangeKeepsLedger | pdf_chat_session.py:130-156 | booking an exchange keeps the ledger consistent, only appends two turns and one record, and adds the exchange's tokens to the total |
| ChatSession.LedgerPointwise | pdf_chat_session.py:130-156 | a consistent ledger has two turns per record, user turns at even and assistant turns at odd positions, each cumulative figure the prefix sum of exchange totals, and the total their sum |
| ChatSession.LedgerTotals | pdf_chat_session.py:143-156 | the history has even length and the session total is the last record's cumulative figure (0 with none) |
| ChatSession.PdfChatSession.constructor | pdf_chat_session.py:21-44 | an absent or empty requested id is replaced by a generated one; no PDF, empty ledger, both timestamps `now` |
| ChatSession.PdfChatSession.LoadPdf | pdf_chat_session.py:51-94 | a missing file changes nothing; otherwise info and file name are set, and the content only when the extracted text is non-empty, which is exactly when it reports success |
| ChatSession.PdfChatSession.Chat | pdf_chat_session.py:96-184 | without a PDF it fails with the fixed error, sends nothing and changes nothing; otherwise the exchange is booked, the ledger stays consistent, and the provider gets the history and the message carrying the document |
| ChatSession.PdfChatSession.Exchange | pdf_chat_session.py:115-175 | the activity time becomes `now`, the ledger becomes `Booked` of the old one with the pre-call breakdown, and the result reports the reply, token figures and session figures of the new state |
| ChatSession.PdfChatSession.Book | pdf_chat_session.py:130-156 | the two turns, the new total and the usage record are appended exactly as `Booked` says, keeping the ledger consistent |
| ChatSession.PdfChatSession.GetSessionSummary | pdf_chat_session.py:186-213 | the summary reports the id, creation and last-activity times, elapsed time, message count, total, PDF figures (0 without a PDF), and exactly the last min(10, n) usage records |
| ChatSession.PdfChatSession.SummaryAgrees | pdf_chat_session.py:207-212 | in a consistent session the message count is twice the number of records and the last reported record carries the session total |
| ChatSession.PdfChatSession.IsSessionExpired | pdf_chat_session.py:215-226 | the session is expired at `now` when its last activity is older than the timeout, by `ExpiredAt` |
| ChatSession.PdfChatSession.ClearConversation | pdf_chat_session.py:228-233 | history, usage log and total are emptied, the PDF is kept, and the ledger is consistent |
| ChatSession.PdfChatSession.UnloadPdf | pdf_chat_session.py:235-241 | the PDF fields are dropped and the conversation is cleared |
| ChatSession.SessionRegistry.constructor | pdf_chat_session.py:244 | the registry starts empty |
| ChatSession.SessionRegistry.CreateSession | pdf_chat_session.py:246-250 | a fresh session is filed under its id, replacing any session already there; it has no PDF, an empty ledger and both timestamps at `now` |
| ChatSession.SessionRegistry.GetSession | pdf_chat_session.py:252-254 | the lookup finds a session exactly when the id is filed, and it is the one filed under that id |
| ChatSession.SessionRegistry.CollectExpired | pdf_chat_session.py:258-262 | the collected ids are exactly the expired sessions' ids, each once |
| ChatSession.SessionRegistry.CleanupExpiredSessions | pdf_chat_session.py:256-268 | exactly the expired sessions are removed, the others stay as they were, and the count of removed sessions is returned |
| ChatSession.SessionRegistry.GetAllSessions | pdf_chat_session.py:270-272 | the copy has the registry's ids and sessions |

## Left out

- Floating-point figures: `percentage_used`, `session_duration_minutes`, `duration_minutes` and `average_tokens_per_exchange`. Elapsed times are kept as integer microseconds.
- Logging, including the high-usage warning in `chat`, which only logs.
- The clock (`datetime.now()`) is a parameter: `now` and the reply's `replyTime`. The `%Y%m%d_%H%M%S` stamp is a string parameter.
- The remote calls are inputs: the Gemini SDK's `start_chat`/`send_message`, pdfplumber, PyPDF2, `os.path.exists`/`getsize` and the OCR.space HTTP request. Whether the SDK accepts the role name "assistant" is up to the SDK and outside this model.
- `async`/`await` is not modelled; `chat` is one sequential step.
- `str()` of the history list is an uninterpreted parameter `repr`.
- ChatSession.PdfChatSession.Chat: the session-level `except` of `chat` is not modelled. The client's `chat` catches every exception itself, and nothing else in the body can raise on the modelled values.
- PdfProcessor.OcrResultSpec: a JSON `null` `ParsedText` (which raises a `TypeError`, caught as "failed") is not distinguished; a present `ParsedText` is a string.
- ChatSession.PdfChatSession.LoadPdf: extraction is taken to find the file that `os.path.exists` just found, so its `FileNotFoundError` path is not reached. An exception from the extractor is an extraction with empty text.
- Text.IsSpace follows `str.isspace` for the characters listed; Unicode normalisation and encodings are not modelled.
- Text.Basename is the POSIX `os.path.basename`.
- Dictionary iteration order: `CollectExpired` lists the expired ids in some order of the map, not in insertion order.
- `test_connection`, `GeminiClient.__init__`, the `get_gemini_client`/`get_pdf_processor` singletons and `PDFProcessor.__init__` are configuration and SDK set-up. A session's client texts are a constructor parameter (the client's are `Templates`), and OCR availability is an input.
