# Journal backend: dispatch, persistence and text rules

This project models the decision and formatting logic of a journaling
backend (a FastAPI service). Users post short messages. An AI agent or a
Bedrock flow decides whether a message is data to store, a question to
answer or a request for a diary entry. Messages, daily diary entries
(`history` rows) and text files in an object store are kept per user and
per day. The model covers:

- **Clients of the AI services.**
  - `AgentCore`: the agent-runtime client. It holds a keyword classifier, a fallback result, the request payload, response unwrapping and a fallback-on-failure policy.
  - `AgentApi`: the HTTP agent client. It maps errors and has no fallback.
  - `AgentPayload`: the payload both clients build.
  - `FlowService`: the flow client. It builds the input document, resolves the alias ARN and folds the response event stream.
  - `Bedrock`: the summarizer. It validates and truncates the input, fills in parameter defaults, checks the response and classifies errors.
- **The two `/process` dispatchers.** `AgentRouter` and `FlowRouter` append a message, store nothing, or upsert the diary row for (user, date).
- **The object-store layout.** `S3` covers the key format, the text-file body and the URL, with put/get/delete/exists over a key-to-text map held in a class.
- **The REST endpoints over the two tables.**
  - `MessagesRouter`: listing, create, lookup and delete of messages.
  - `HistoryRouter`: filtered listing, create, lookup, update and delete of history rows.
  - `SummaryRouter`: user-id validation, message selection, the strip/drop-blank/join/count pipeline and the today-check.
  - `SttRouter`: the upload gates and the streaming transcript accumulator.
- **Shared modules.**
  - `Tables`: the rows and a `Database` class holding both tables as sequences.
  - `Text`: Python's `strip`, `in`, `join`, `split` and `lower`.
  - `Dates`: ISO dates and their order.
  - `Uuids`: `uuid.UUID` parsing and its canonical text.
  - `Numerals`: fixed-width and decimal numerals.
  - `Ordering`: filtering, stable sorting by an integer key, and offset/limit paging.
  - `Json`: parsed JSON values, with Python's `in`, `[]` and truthiness on them.
  - `Http`: HTTP errors and their detail text.

External services are never called. The model stands in for each one as follows:

- The agent runtime, the agent HTTP endpoint, the flow, the Bedrock model and the speech recogniser are function parameters, or datatypes describing what the call returned.
- The clock and the UUID generator are parameters: `today`, `now`, the day's start and `freshId`.
- Object-store faults are parameters.
- The database is a `Database` object whose methods change its sequences in place.

Two defects in the source stop some endpoints from working at all. The summary router fails to import (see "## Left out"). Several history handlers read a `username` attribute that does not exist (see "## Findings"). For those handlers the model has two members: one as written, and one as evidently intended. Apart from these, the model follows the code as written, including where it departs from what the endpoints describe:

- `/process` of the flow router calls the flow with today's date. It ignores the request's `record_date`.
- An error inside the flow service reaches the client with the prefix "Flow 처리 중 오류가 발생했습니다: " twice.
- The agent-runtime client unwraps only a parsed object. A parsed list, string or number, and a `body` that is not an object, fall back, because Python raises on them and the handler catches it.
- A `request_type` of "" is not `None`, so it skips the classifier and ends as type "data".
- `create_history` does not copy the request's `s3_key`.
- `update_history` keeps the row's `s3_key`.
- `create_message` ignores any `created_at` in the request.
- The user-id regex `^[a-zA-Z0-9_]+$` accepts one trailing newline, as Python's `$` does.

## Model

| member | source | states |
|---|---|---|
| AgentCore.Classify | services/agent_core.py:211-225 | The result is "question" exactly when a question keyword occurs, even if a summarize keyword occurs too. It is "summarize" exactly when no question keyword occurs but a summarize keyword does, and "data" exactly when neither occurs. |
| AgentCore.SummarizeKeywordsIgnoreCase | services/agent_core.py:214-221 | Matching the summarize keywords against the lower-cased input is the same as matching them against the input itself. |
| AgentCore.EffectiveType | services/agent_core.py:171-173 | A given request type is used as it is, including ""; the classifier's answer, one of the three kinds, is used only when none is given. |
| AgentCore.Fallback | services/agent_core.py:153-199 | The fallback dict: "diary" with the quoted input for "summarize", "answer" with the fixed answer for "question", and "data" with "" otherwise, each with its fixed message. |
| AgentCore.FallbackKinds | services/agent_core.py:175-199 | The fallback dict has exactly the keys type, content and message. Its type is "diary" iff the effective type is "summarize", "answer" iff it is "question", and "data", with empty content, for every other type. |
| AgentCore.ClassifiedFallback | services/agent_core.py:171-225 | With no request type, the fallback's type follows the keyword precedence, in both directions for each of the three kinds. |
| AgentCore.DiaryFallbackQuotesPrefix | services/agent_core.py:239 | The diary fallback text is the notice, then a prefix of the input of at most 100 characters, then "...". A short input is quoted whole. |
| AgentCore.Unwrap | services/agent_core.py:126-138 | A result exists iff the parsed body is an object whose `body` entry, if present, is an object too. The result is `result['body']` when that key is present, otherwise the whole object. |
| AgentCore.InvokeAgentCore | services/agent_core.py:91-151 | The runtime receives the payload. Its unwrapped reply is returned when there is one; a failed call, unparsable JSON or an unusable shape returns the fallback for the same input. |
| AgentCore.Configure | services/agent_core.py:13-31 | Construction succeeds iff both credentials are non-empty, and then keeps the runtime ARN as given, possibly unset. |
| AgentCore.Orchestrate | services/agent_core.py:60-71 | Without an ARN the result is the fallback. With one, it is the runtime's unwrapped reply, or the fallback on any failure. It never fails. |
| AgentPayload.BuildPayload | services/agent_core.py:97-109 | The payload, filled in place, always has content, user_id and record_date, where record_date is "" without a date. request_type is added exactly when it is non-empty, and temperature exactly when it is given. No other keys appear. The same dict is built at services/agent_api.py:74-86. |
| AgentApi.Interpret | services/agent_api.py:91-111 | The call succeeds iff the status is 2xx and the body is a JSON object, and then returns that object unchanged. A transport error gives a connection failure, a non-2xx status a status failure naming the status, and a 2xx body that is not an object a failure. |
| AgentApi.Orchestrate | services/agent_api.py:44-48 | The POST goes to base URL + "/agent" with the standard payload. The outcome is exactly the interpreted reply, with no fallback. |
| AgentApi.StatusTextInjective | services/agent_api.py:106-108 | Distinct statuses give distinct "Agent API 호출 실패: {status}" messages. |
| AgentRouter.Decide | routers/agent.py:55-149 | A client error or a missing "type" gives a 500 carrying the exception's text. "data" stores a message. "answer" passes the agent's string content on. "diary" with string content is stored and answered; "diary" whose content is a number, bool or list that the database renders as text is stored and then fails with 500; any other content fails with 500. Any other type is "unknown", with the content or "". Each case holds in both directions. |
| AgentRouter.Target | routers/agent.py:52-53 | The date used for the agent call, and again for the diary row: the request's record date, else today. |
| AgentRouter.MergeDiary | routers/agent.py:107-114 | The update branch: the content is replaced; s3_key only by a non-empty request key, tags only by a non-empty request list. |
| AgentRouter.UpsertDiary | routers/agent.py:99-127 | A row is created iff no row exists for (user, date). The table grows by one exactly then, and every row for another key is unchanged. |
| AgentRouter.UpsertStores | routers/agent.py:107-127 | After the upsert, looking up (user, date) finds the row with the reported id and the agent's content. A new row takes the request's tags and s3_key. An updated row keeps its id, and takes s3_key and tags only when they are supplied non-empty, keeping its own otherwise. |
| AgentRouter.UpsertKeepsOnePerUserDate | routers/agent.py:101-127 | If the table has at most one row per (user, date), it still has at most one after the upsert. |
| AgentRouter.UpsertIdempotent | routers/agent.py:101-114 | Repeating the same diary upsert creates nothing, reports the same id and leaves the table as it was. |
| AgentRouter.UpsertInto | routers/agent.py:99-129 | The history table becomes exactly the upsert's rows and the returned id is the upserted row's. The id counter advances iff a row was created. The message table is untouched. |
| AgentRouter.ProcessWithAgent | routers/agent.py:50-149 | The agent is called with the target date, which is the request's date or today. "data" appends exactly one message with the request's user and text and answers with its UUID. "answer" and "unknown" change no table. "diary" leaves the history table as the upsert says and answers with the row's id in decimal. A diary whose content is not a string but is rendered by the database is upserted and committed, and the reply is still a 500. Every other failure is a 500 and changes nothing. |
| FlowService.Configure | services/flow.py:13-29 | Credentials are checked first, then the flow ARN. Construction succeeds iff all three are given. The alias is the configured one, or "LIVE" when it is unset or empty. |
| FlowService.CombinedInputInjective | services/flow.py:51-57 | The document "current_date: YYYY-MM-DD\n\n" + input determines both the date and the input. |
| FlowService.AliasId | services/flow.py:71-85 | An alias without the "arn:aws:bedrock:" prefix is sent unchanged. An alias ARN is replaced by its part after the last '/', which is a suffix of the alias without a '/'; this is the whole alias if it has no '/'. |
| FlowService.Step | services/flow.py:94-102 | One event: no "flowOutputEvent" key leaves the state; otherwise the node name (default "") replaces the last one, and the content's "document" entry, or a string content, replaces the completion; Python's `in` and `[]` errors are raised. |
| FlowService.Fold | services/flow.py:88-102 | The loop over the stream from "" and "": the events applied in order, stopping at the first raised error. |
| FlowService.FoldLastWins | services/flow.py:88-102 | A completed fold reports the node name of the last output event, and the content carried by the last event that carried one ("" when none did). |
| FlowService.PoisonedFails | services/flow.py:97-100 | An output event whose content is a string mentioning "document" makes the whole fold fail, wherever it occurs. |
| FlowService.NoOutputEvents | services/flow.py:88-96 | A stream of dicts without output events leaves node name and content at "". |
| FlowService.FoldStream | services/flow.py:92-102 | The loop over the stream, stopping at the first exception, computes exactly the event-by-event fold. |
| FlowService.FoldErrSticky | services/flow.py:93-102 | Once a prefix of the stream fails, the whole stream fails with the same error. |
| FlowService.Outcome | services/flow.py:87-119 | A failed call or a failing fold gives the single wrapped error. A reply without a stream gives "" for both values. is_question holds iff the node name is "Answer_return". |
| FlowService.InvokeFlow | services/flow.py:49-119 | The flow is called with the configured ARN, the resolved alias and the document for the given date (today when none is given). The result is that call's outcome. |
| FlowRouter.Respond | routers/flow.py:41-87 | A message is stored iff the node is "Data_return". The reply succeeds iff the flow succeeded with string content, and carries that content with type "data", "answer" or "unknown" by node name. Every error is a 500 with the router's prefix. |
| FlowRouter.FlowFailureDetail | routers/flow.py:85-87 | A flow-service failure reaches the client as a 500 whose detail carries the same prefix twice. |
| FlowRouter.ProcessWithFlow | routers/flow.py:39-87 | The flow is called with today's date. The messages table gains exactly the request's message when the router says so, and is unchanged otherwise. The history table is never touched. |
| S3.BucketFromEnv | services/s3.py:18-21 | Construction succeeds iff the bucket name is set and non-empty; otherwise it raises the missing-bucket error. |
| S3.GenerateKey | services/s3.py:23-28 | The key is the user, then "/history/", the four-digit year, "/", the two-digit month, "/", the ISO date and ".txt", each segment at its fixed offset. |
| S3.KeyLayout | services/s3.py:23-28 | With a four-character year, a two-character month and a ten-character date, every key segment sits at its fixed offset. |
| S3.KeyNamesDate | services/s3.py:23-28 | Reading the key back gives the date: the year segment is all digits with the date's year as value, the month segment's value is the month, and the date segment parses to the date. |
| S3.KeyInjective | services/s3.py:23-28 | Equal keys come only from equal (user, date) pairs. |
| S3.FileBody | services/s3.py:46-50 | The text file: the date and user header, the tags line when there are tags, then the content section. |
| S3.FileBodyLayout | services/s3.py:46-50 | The body is the date-and-user header, then the tags line, then "\n내용:\n" + content. The text after the header starts with the tags label iff there are tags, and that line joins them with ", ". |
| S3.Url | services/s3.py:62 | The URL is exactly "https://{bucket}.s3.{region}.amazonaws.com/" followed by the key. |
| S3.UrlInjective | services/s3.py:62 | For one bucket and region, distinct keys give distinct URLs. |
| S3.Put | services/s3.py:53-58 | After a put, the key holds the body, the keys are the old ones plus this key, and every other object is unchanged. |
| S3.SaveTwiceOverwrites | services/s3.py:43-58 | Two saves for the same (user, date) leave one object, holding the later body. |
| S3.SavesForDistinctDaysCoexist | services/s3.py:43-58 | Saves for different (user, date) pairs keep both bodies. |
| S3.S3Service.constructor | services/s3.py:11-21 | The service holds the given non-empty bucket, the region and the store's objects. |
| S3.S3Service.SaveHistory | services/s3.py:30-66 | Without a fault, the formatted body is put under the (user, date) key and the URL is returned. A fault writes nothing and returns the save error. |
| S3.S3Service.GetHistory | services/s3.py:78-84 | The read succeeds iff there is no fault and the key exists, and then returns exactly the stored text. Otherwise it returns the read error. |
| S3.S3Service.DeleteHistory | services/s3.py:96-102 | The result is true iff there is no fault, and then the key is gone; a missing key also counts as deleted. A fault changes nothing and returns false. |
| S3.S3Service.FileExists | services/s3.py:114-118 | The result is true iff the key exists and the lookup has no fault. |
| Bedrock.Configure | services/bedrock.py:14-15 | Construction succeeds iff both credentials are non-empty. |
| Bedrock.Truncate | services/bedrock.py:57-58 | An input of at most 50000 characters is kept. A longer one becomes its first 50000 characters followed by "...". |
| Bedrock.Request | services/bedrock.py:61-84 | The request payload: the fixed version, 2000 max tokens, the temperature and top_k or their defaults, the system prompt, and the instruction followed by the content. |
| Bedrock.Handle | services/bedrock.py:110-125 | A KeyError while reading the body gives the unexpected-format text; any other raised error gives the failure prefix followed by its library text. |
| Bedrock.RequestShape | services/bedrock.py:61-84 | temperature defaults to 1 and top_k to 250, each only when absent. The user message is the fixed instruction followed by the input. |
| Bedrock.Classify | services/bedrock.py:117-125 | A message containing "credentials" when lower-cased maps to the credentials error. Otherwise one containing "throttling" maps to the rate-limit error. Anything else is "AI 요약 생성 실패: " + message. |
| Bedrock.FirstTextOf | services/bedrock.py:103 | `content[0]["text"]` succeeds iff content is a non-empty list whose first item is an object with a string "text", and then returns that text. |
| Bedrock.ReadContent | services/bedrock.py:103-109 | On the expected shape, the result is the stripped first text, or the empty-summary error when that strips to "". A success always comes from the expected shape. |
| Bedrock.NotADict | services/bedrock.py:97-101 | A parsed body that is not an object always fails. |
| Bedrock.ReadSummary | services/bedrock.py:97-109 | A missing or falsy "content" is the shape error. Success happens only on the expected shape, and then equals the content reading. |
| Bedrock.Interpret | services/bedrock.py:88-125 | A client exception is classified, an unparsable body is the parse error, and a parsed body gives exactly what reading the summary from it gives. A success is non-empty and already stripped. |
| Bedrock.Summarize | services/bedrock.py:53-125 | The input error happens iff the content is blank. Otherwise the truncated content is sent with the defaults and the outcome is passed through. A summary is never empty and is stripped. |
| SummaryRouter.MatchesIdPattern | routers/summary.py:20 | One or more ASCII letters, digits or underscores, optionally followed by one final newline, as Python's `$` allows. |
| SummaryRouter.ValidateUserId | routers/summary.py:14-21 | Validation passes iff the id matches the pattern. A blank id is the missing-id 400, and a non-blank mismatch is the malformed-id 400. |
| SummaryRouter.MatchingIdNotBlank | routers/summary.py:16-21 | An id that matches the pattern is not blank, so the blank check never hides a match. |
| SummaryRouter.TrailingNewlineAccepted | routers/summary.py:20-21 | A word followed by one newline passes; a word followed by two does not. |
| SummaryRouter.Selected | routers/summary.py:29-33 | The selection is the first 1000 of the user's rows with non-empty content put in created_at order: exactly as many as there are such rows, up to 1000. It is empty iff the user has no such row. When they fit, every one is selected; a row left out is never older than a selected one. |
| SummaryRouter.SelectionFacts | routers/summary.py:29-33 | The selection query takes only the user's rows with non-empty content, none iff there are none, and as many as the limit allows. |
| SummaryRouter.SelectionOldest | routers/summary.py:29-33 | The selection query leaves out no chosen row older than one it takes. |
| SummaryRouter.StripVisible | routers/summary.py:39 | Stripping a non-blank content leaves a non-empty string with no whitespace at either end. |
| SummaryRouter.CleanContents | routers/summary.py:38-39 | The k-th cleaned piece is the k-th non-blank content, stripped; there is one piece per non-blank content. |
| SummaryRouter.Summarized | routers/summary.py:45-59 | For visible pieces, the summarizer's success is answered with the summary and the number of pieces, and its failure is a 500 carrying the failure's text after the prefix. The summarizer's blank-input error cannot occur. |
| SummaryRouter.CleanVisible | routers/summary.py:39 | Every cleaned piece is non-empty, with no whitespace at either end. |
| SummaryRouter.CleanEmptyIffAllBlank | routers/summary.py:39-42 | Nothing is left iff every content is blank. |
| SummaryRouter.JoinedNotBlank | routers/summary.py:45-49 | Visible pieces joined by "\n\n" are never blank, so the summarizer's input error cannot arise here. |
| SummaryRouter.SummarizeUser | routers/summary.py:23-59 | An invalid id gives its 400. No selected rows gives one 404 and all-blank contents the other. Otherwise the reply is what the summarizer gives for the "\n\n" join of the cleaned pieces: the summary with the count of pieces, or a 500 with its text. A 400 happens iff the id is invalid. Every error is 400, 404 or 500. |
| SummaryRouter.CheckToday | routers/summary.py:85-123 | As evidently intended, with the owner compared to `user_id`. An invalid id gives its 400, and a valid one always succeeds. found holds iff a row exists for (user, today); it then reports today and that row's content, and None/None otherwise. |
| SummaryRouter.CheckTodayAsWritten | routers/summary.py:100-110 | As written: the reply is never a success. An invalid id gives the same 400 as CheckToday, and every valid id gives a server error. |
| SummaryRouter.StoredSummaryNotReported | routers/summary.py:107-110 | A stored summary for today that CheckToday reports as found gets a server error as written. |
| MessagesRouter.ContentOnly | routers/messages.py:13-39 | An empty selection gives "". Every selected content occurs in the result. |
| MessagesRouter.ListToday | routers/messages.py:41-77 | The responses answer, in order, the page at offset of today's rows (for the asked user) put in created_at order, so the first offset of them are skipped. At most limit responses, each answering a row created within today and owned by the asked user when one is given, in ascending created_at order. Its length is what offset and limit leave of the listed rows. A first page holds every listed row when they fit, and a listed row left off the first page is never older than a row on it. |
| MessagesRouter.RespondAll | routers/messages.py:69-77 | One response per row, in order, each the row's response. |
| MessagesRouter.ListTodayFacts | routers/messages.py:55-77 | Every listed row carries a UUID, each response answers for one of today's rows, and the responses keep the listing's created_at order and size. |
| MessagesRouter.RespondAllAnswersPage | routers/messages.py:66-77 | The responses of the listing answer its page at offset, row by row. |
| MessagesRouter.Respond | routers/messages.py:70-75 | The response model of a row: its UUID in canonical text, its user, content and creation time. |
| MessagesRouter.FirstPageToday | routers/messages.py:58-66 | On the first page: when all listed rows fit, each one's response is on it; a listed row whose response is not on it is no older than any row on it. |
| MessagesRouter.Lookup | routers/messages.py:105-112 | A non-UUID id gives 400 and a well-formed id no row carries gives 404. For a well-formed id the lookup succeeds iff some row has the id it parses to, and a success is the index of such a row. |
| MessagesRouter.GetMessageById | routers/messages.py:100-119 | The reply succeeds iff the text parses to a UUID some row carries, and then answers such a row. The errors are exactly the lookup's. |
| MessagesRouter.CreateMessage | routers/messages.py:79-98 | Exactly one message with the given user, text, fresh UUID and time is appended. The history table is unchanged. The reply describes that message. |
| MessagesRouter.GetAfterCreate | routers/messages.py:93-119 | The id text a created message is answered with looks that message up again. |
| MessagesRouter.DeleteMessage | routers/messages.py:121-137 | After a successful lookup exactly that row is removed; a 400 or 404 leaves the table alone. |
| MessagesRouter.DeleteRemovesExactly | routers/messages.py:131-137 | With distinct ids, the deleted row plus the remaining rows are the old table, and a second lookup is a 404. |
| HistoryRouter.TagList | routers/history.py:60 | One stripped tag per comma-separated piece, in order, and at least one. |
| HistoryRouter.Overlaps | routers/history.py:59-61 | PostgreSQL's `&&`: the row has tags and they share an element with the wanted list; a NULL array matches nothing. |
| HistoryRouter.Admits | routers/history.py:48-61 | The WHERE clause as evidently intended, with the owner compared to `user_id`: the user when given, the record date within the given bounds, and a tag overlap when tags are given. |
| HistoryRouter.TagListOfJoin | routers/history.py:59-61 | Stripped tags without commas, written comma-separated, parse back to the same list. |
| HistoryRouter.NewestFirstDescends | routers/history.py:63 | Rows sorted ascending on the negated date ordinal run from newest record date to oldest. |
| HistoryRouter.ListHistory | routers/history.py:28-64 | As evidently intended. The result is the page at offset of the admitted rows put newest first, so the first offset of them are skipped; it holds as many as offset and limit leave. Each row is from the table and admitted by the user, date-range and tag-overlap filters, with record dates descending. A first page large enough holds every admitted row, and an admitted row left off the first page is dated no later than any row on it. |
| HistoryRouter.ListHistoryAsWritten | routers/history.py:48-64 | As written: the request fails with a server error iff a non-empty owner is given. Otherwise the reply is the ListHistory page. |
| HistoryRouter.OwnerFilterFails | routers/history.py:50-51 | Asking for the owner of the only row fails as written, while ListHistory returns that row. |
| HistoryRouter.FirstPageNewest | routers/history.py:63 | On the first page of the newest-first listing, no row on the page is dated before an admitted row that was left off. |
| HistoryRouter.Locate | routers/history.py:71-73 | The lookup fails with 404 iff no row has the id; a success is the index of a row with that id. |
| HistoryRouter.GetHistoryById | routers/history.py:66-74 | A success is a table row with the id. The 404 happens iff no row has it. |
| HistoryRouter.GetFindsRow | routers/history.py:71-74 | With distinct ids, looking up a row's id returns that row. |
| HistoryRouter.CreateHistory | routers/history.py:12-26 | As evidently intended, with the owner taken from `user_id`. One row is appended under the next id, with the given owner, text, date and tags and no image key. A lookup of its id then returns it. |
| HistoryRouter.CreateHistoryAsWritten | routers/history.py:17-22 | As written: every request gets a server error, and the tables and the id sequence are unchanged. A lookup of the id that CreateHistory would assign finds nothing. |
| HistoryRouter.UpdateHistory | routers/history.py:76-92 | As evidently intended, with the owner taken from `user_id`. An unknown id is a 404 and changes nothing. Otherwise only that row changes: owner, text, date and tags are replaced, and its id and image key stay. |
| HistoryRouter.UpdateHistoryAsWritten | routers/history.py:81-90 | As written: the tables and the id sequence are unchanged, and the reply is UpdateReplyAsWritten of the old table. |
| HistoryRouter.UpdateReplyAsWritten | routers/history.py:81-85 | Never a row. An unknown id gives the same 404 as a lookup, and a found row gives a server error. |
| HistoryRouter.UpdateOfExistingRowFails | routers/history.py:81-85 | Updating the only row gets a server error as written, although a lookup finds that row. |
| HistoryRouter.GetAfterUpdate | routers/history.py:81-92 | After an update, a lookup of the id returns the updated row. |
| HistoryRouter.DeleteHistory | routers/history.py:94-105 | An unknown id is a 404 and changes nothing. Otherwise exactly the looked-up row is removed. |
| HistoryRouter.DeleteRemovesExactly | routers/history.py:99-105 | With distinct ids, the removed row plus the rest are the old table, and a second lookup is a 404. |
| SttRouter.ContentType | routers/stt.py:124 | The declared content type when it is non-empty, else "audio/wav". |
| SttRouter.TranscribeAudio | routers/stt.py:96-137 | Over 10 MiB is 413 and empty is 400. A success happens iff the size is allowed and the recogniser transcribes, and then carries its result. A recogniser failure is a 500 with its message. |
| SttRouter.Save | routers/stt.py:139-197 | As written: never a success. There is no size cap. Empty audio or an empty transcription is 400 and a recogniser failure is 500, storing nothing. A recognised text stores one message with the fresh id for the user ("default_user" by default) and is still answered with a 500. |
| SttRouter.StoredButAnswered500 | routers/stt.py:171-190 | A one-byte upload recognised as "hello" stores the message and is answered with a 500. |
| SttRouter.SaveIntended | routers/stt.py:171-190 | As intended: the same stored rows as written; the reply succeeds iff a row was stored and is then that row's response; otherwise the reply is the same error as written. |
| SttRouter.IntendedReplyFindsRow | routers/stt.py:171-190 | With the intended reply, looking up the answered id in the table with the new row gives the same reply back. |
| SttRouter.TranscribeAndSave | routers/stt.py:139-197 | The reply and the appended rows are exactly `Save`'s: nothing is appended on a gate or recogniser failure, and a recognised text appends one message before the 500. The history table is untouched. |
| SttRouter.Feed | routers/stt.py:61-86 | One chunk: an empty chunk is skipped; a recogniser failure sends an error frame; a non-empty text is appended with a space and sent with the stripped transcript; an empty text sends nothing. |
| SttRouter.Run | routers/stt.py:55-86 | The stream after the chunks in order, from an empty transcript and no frames. |
| SttRouter.RunStream | routers/stt.py:55-86 | The receive loop's transcript and frames are exactly those of the chunk-by-chunk stream function. |
| SttRouter.TranscriptIsSpaced | routers/stt.py:70-71 | The transcript is every non-empty recognised text, in order, each followed by one space. |
| SttRouter.FramesCarryRecognised | routers/stt.py:70-86 | The text frames carry exactly the non-empty recognised texts, in order. |
| SttRouter.LastTextFrameIsCurrent | routers/stt.py:70-78 | When the last frame sent is a text frame, its full_text is the whole transcript, stripped. |
| SttRouter.EmptyChunksSkipped | routers/stt.py:61-62 | Dropping zero-length chunks from the input changes neither transcript nor frames. |
| Tables.FindMessage | routers/messages.py:110 | The first match, if any, is a row with the id; none means no row has it. |
| Tables.FindHistory | routers/history.py:71 | The first match, if any, is a row with the id; none means no row has it. |
| Tables.FindUserDate | routers/agent.py:102-105 | The first row for (user, date): it matches and no earlier row does. None means no row matches. |
| Tables.RemoveAtFacts | routers/messages.py:135-136 | Removing one row keeps every other row, in order, and the multiset loses exactly that row. |
| Tables.Database.AddMessage | routers/messages.py:88-90 | The message table gains exactly the new row at the end; nothing else changes. |
| Tables.Database.AddHistory | routers/history.py:23-25 | The history table gains a row under the next id, and the id sequence advances by one. |
| Tables.Database.ReplaceHistoryAt | routers/history.py:85-90 | Exactly one history row is replaced; everything else stays. |
| Tables.Database.DeleteMessageAt | routers/messages.py:135-136 | Exactly one message row is removed; everything else stays. |
| Tables.Database.DeleteHistoryAt | routers/history.py:103-104 | Exactly one history row is removed; everything else stays. |
| Text.Strip | routers/summary.py:39 | Python's `strip()`: the input with whitespace removed from both ends. |
| Text.StripWhere | routers/summary.py:39 | The result is a slice of the input with only dropped characters removed from either end. |
| Text.StripEnds | routers/summary.py:39 | A non-empty strip result neither starts nor ends with a dropped character. |
| Text.StripEmptyIffBlank | routers/summary.py:16 | `s.strip()` is empty iff s is all whitespace. |
| Text.StripIdempotent | services/bedrock.py:103 | Stripping twice is stripping once. |
| Text.Contains | services/agent_core.py:217 | Python's `sub in s`: sub is a prefix of s or of one of its suffixes. |
| Text.ContainsAt | services/agent_core.py:217 | `sub in s` holds iff sub occurs at some position of s. |
| Text.Join | routers/summary.py:45 | Python's `sep.join(parts)`: the parts with the separator between each two. |
| Text.JoinContainsParts | routers/messages.py:36-37 | Every part occurs in the joined string. |
| Text.Split | routers/history.py:60 | Python's `split(sep)`: the pieces between separators, always at least one. |
| Text.RemoveAll | routers/messages.py:106 | `str.replace(pattern, "")` as `uuid.UUID` applies it: each non-overlapping occurrence, left to right, removed. |
| Text.SplitPiecesLackSep | routers/history.py:60 | No piece of a split holds the separator. |
| Text.JoinSplit | routers/history.py:60 | Joining the pieces of a split with the separator gives the input back. |
| Text.SplitJoin | routers/history.py:60 | Splitting separator-free parts joined by the separator gives the parts back. |
| Text.LastPieceIsTail | services/flow.py:73 | `s.split(sep)[-1]` is a suffix of s without the separator, preceded by a separator unless it is all of s. |
| Text.LowerAscii | services/agent_core.py:214 | Same length; each character is lowered if it is an ASCII capital and kept otherwise. |
| Text.LowerKeepsLetterFreeMatches | services/agent_core.py:214-221 | For a pattern without letters, it occurs in the lowered string iff it occurs in the string. |
| Dates.ParseIsoRoundTrip | services/flow.py:54 | Reading back the `%Y-%m-%d` text of a valid date gives the date. |
| Dates.IsoInjective | services/s3.py:27 | Distinct valid dates have distinct ISO texts. |
| Dates.OrdinalOrder | routers/history.py:53-63 | The ordinal orders valid dates as the calendar does, and is equal only on equal dates. |
| Uuids.Parse | routers/messages.py:105-108 | A parsed value is always a 128-bit UUID. |
| Uuids.ParseFormat | routers/messages.py:106-115 | The canonical text of a UUID parses back to it. |
| Uuids.Format | routers/messages.py:71 | `str(uuid)`: 36 characters, the 32 lowercase hex digits grouped 8-4-4-4-12 by hyphens. |
| Uuids.FormatInjective | routers/messages.py:71 | Distinct UUIDs have distinct canonical texts. |
| Numerals.Fixed | services/s3.py:25-26 | A zero-padded numeral of exactly the given width, made of digits of the base. |
| Numerals.FixedRoundTrip | services/s3.py:25-26 | The value of a zero-padded numeral is the number it renders. |
| Numerals.FixedInjective | services/s3.py:25-26 | Distinct numbers have distinct zero-padded numerals of the same width. |
| Numerals.Decimal | routers/agent.py:135 | `str(n)` has at least one digit, all decimal, with no leading zero. |
| Numerals.DecimalRoundTrip | routers/agent.py:135 | The value of `str(n)` is n. |
| Ordering.Filter | routers/messages.py:30-31 | At most as many rows, all kept by the predicate and all from the table. Every row that the predicate keeps is present. |
| Ordering.SortBy | routers/messages.py:66 | The result is sorted by the key and is a permutation of the input. |
| Ordering.Page | routers/messages.py:66 | At most limit rows: the contiguous slice starting at offset, or nothing past the end. |
| Ordering.PageFacts | routers/messages.py:66 | A page holds rows of the sequence and stays sorted if the sequence was sorted. |
| Ordering.Query | routers/history.py:63 | Filter, sort and page: the result is the page at offset of the kept rows put in key order, so the first offset of them are skipped. Every row is kept and from the table, in key order, at most limit rows, and as many as offset and limit leave. A large enough first page holds every kept row, and a kept row left off the first page has a key no smaller than any row on it. |
| Ordering.FirstPageSize | routers/history.py:63 | A first page holds as many kept rows as the limit allows. |
| Ordering.FirstPageLeast | routers/messages.py:66 | The first page of a sorted filtering holds the least keys: a kept row not on it has a key no smaller than any on it. |

## Left out

- Network calls to boto3 (agent runtime, flow, Bedrock, S3) and httpx are not made. Each call's possible outcomes are a parameter of the operation that makes it.
- config.py (secrets and environment lookup), database.py (engine and sessions) and main.py (CORS, router registration) are not part of this model.
- `date.today()`, `datetime.now()`, `datetime.utcnow()` and `uuid.uuid4()` are parameters. Time zones are not modelled; a day's window is an integer range of microseconds.
- Logging, tracebacks and `print` are omitted, as are the `/stt/health`, agent `/test` and flow `/test` endpoints (routers/stt.py:199-207, routers/agent.py:151-175, routers/flow.py:89-103).
- WebSocket accept, receive, send, close and disconnect are left out. RunStream takes the chunks received before the disconnect.
- Floating point is left out: `temperature` is an opaque `real` whose presence alone matters, and `confidence` is never inspected.
- The history table's owner column is a single `userId` field, the `user_id` column. The routers' reads of a `username` attribute that neither the table class nor the request schema defines are under Findings: each of them makes the handler answer 500.
- routers/summary.py:9 imports `SummaryExistsResponse`, which schemas/summary.py does not define. As written, importing the summary router raises ImportError, and main.py:9 imports every router, so the service does not start and no endpoint is served. The model treats that response schema as defined, with the fields the handler fills in (`exists`, `record_date`, `summary`). The import failure has no Dafny counterpart.
- Both `/process` routers are modelled as independent dispatchers, although only one is mounted.
- Negative `limit`/`offset` values are not modelled: they are natural numbers here.
- Ties in `ORDER BY` keep table order (a stable sort); the database does not promise any order for ties.
- MessagesRouter.ContentOnly: states that every selected content occurs in the result and that an empty selection gives "", not the exact ", "-joined text.
- Text.LowerAscii: lowers only ASCII capitals; Python's full Unicode `lower()` is not modelled. Classification is unaffected: the only non-ASCII characters that Python lowers into ASCII letters are U+0130, which lowers to "i" followed by a combining dot, and U+212A, which lowers to "k". No keyword contains "k", and the combining dot breaks any keyword match.
- Uuids.Parse: requires exactly 32 hex digits after the prefix, brace and hyphen removal. Python's `int(hex, 16)` is more lenient, and that leniency is not modelled: it accepts a sign, underscores between digits, surrounding spaces, a "0x" or "0X" prefix, and non-ASCII decimal digits such as the Arabic-Indic or full-width ones. So a 32-character text that Python reads as a UUID can get a 400 from the model. For example, "0x" followed by 30 zeros is `UUID(int=0)` in Python, while MessagesRouter.Lookup answers 400 for it.
- Years are printed with four digits, while `strftime("%Y")` for years below 1000 depends on the platform.
- The `STTResponse(**result)` model with a recogniser result missing keys is not modelled: the recogniser returns either a full result or a failure.
- `is_final` in stream frames is always false and is not a field of the model.
- S3 faults model only the client errors the service catches. A connection error raised by botocore is not one of them: it propagates out of `delete_history` and `file_exists` (services/s3.py:96-118) instead of returning false, and that is not modelled.
- AgentRouter.Decide: the database's text form of a non-string diary content (number, bool or list) is the parameter `rendered`; which values the driver or the database rejects is not modelled beyond `rendered` giving nothing.
- SttRouter.TranscribeAndSave: the text of the validation error behind its 500 is not modelled; it is an opaque library text.

## Findings

| source | as written | input that shows it | evidently intended | confidence | as-written member | corrected member |
|---|---|---|---|---|---|---|
| routers/stt.py:185-190 | After the commit, the refreshed row's id comes back as a `uuid.UUID` and is passed to the response model's string `id`, which rejects it; the handler answers 500 and its rollback cannot undo the commit | a non-empty audio file recognised as "hello" | answer the committed row with its id as text, as the `/messages` endpoints do (routers/messages.py:71, 94, 115) | not executed | SttRouter.Save, SttRouter.StoredButAnswered500 | SttRouter.SaveIntended, SttRouter.IntendedReplyFindsRow |
| routers/history.py:17-22 | The new row is built from `history.username`, which `HistoryCreate` does not define (it has `user_id`). The read raises AttributeError before `db.add`, so nothing is stored and the reply is 500 | any valid create request, such as user "alice", content "diary", date 2024-01-01 | store the row with the request's `user_id` as owner and answer it | not executed | HistoryRouter.CreateHistoryAsWritten | HistoryRouter.CreateHistory |
| routers/history.py:85 | A found row's owner is set from `history.username`, which the request does not define. The read raises before the commit, so the row keeps its old values and the reply is 500 | a PUT to the id of an existing row | replace the owner with the request's `user_id`, together with the text, date and tags | not executed | HistoryRouter.UpdateHistoryAsWritten, HistoryRouter.UpdateOfExistingRowFails | HistoryRouter.UpdateHistory, HistoryRouter.GetAfterUpdate |
| routers/history.py:50-51 | A non-empty `username` filters on `History.username`, an attribute the table class does not define (its column is `user_id`, models/history.py:8). Building the filter raises, and the reply is 500 | GET /history?username=alice when alice owns a row | keep only the rows whose `user_id` equals the parameter | not executed | HistoryRouter.ListHistoryAsWritten, HistoryRouter.OwnerFilterFails | HistoryRouter.ListHistory, HistoryRouter.Admits |
| routers/summary.py:107-110 | The today query filters on `History.username`, which the table class does not define, so every id that passes validation gets a 500 | GET /summary/check/alice when alice has a row dated today | filter on `user_id` and report that row | not executed | SummaryRouter.CheckTodayAsWritten, SummaryRouter.StoredSummaryNotReported | SummaryRouter.CheckToday |
