# Document chat: request/response over Redis streams, and PDF image links

This project models the core of a document-chat backend in Dafny.

A FastAPI gateway (`backend/app/main.py`) turns a chat prompt into a request dict. It flattens the nested fields of that dict to JSON text in place and appends it to a Redis request stream. It then reads a response stream one entry at a time through a consumer group, until an entry carries the request's id and a usable completion payload, or the 30-second deadline passes. As written, each read blocks (`block=0`), so with no entry to read the deadline is never checked and the call hangs (see "## Findings"). The gateway-side wait of this model is the corrected loop, whose every read returns.

A worker process (`backend/redis/worker.py`) does three things:

- It creates the consumer groups of both streams, tolerating groups that already exist.
- It reads the request stream one entry at a time and acknowledges each entry before handling it.
- It decodes the prompt, calls the language model, and appends exactly one response entry under the same id. When anything fails it appends nothing.

The PDF pipeline (`features/pdf_extraction/docling_pdf_extractor.py`) walks the converted document's items. It numbers the pictures 1, 2, ..., uploads each under a numbered key, and replaces the first remaining `<!-- image -->` placeholder in the markdown with a link to it. It then stores the markdown next to the images.

The modules are:

- `Streams`: Redis streams with consumer groups. A stream is a sequence of flat string maps, and an entry's id is its position. A group is a last-delivered cursor plus a pending set. The spec functions `Append`, `CreateGroup`, `ReadNext` and `Acknowledge` describe the commands. The `Redis` class holds the keyspace and calls them.
- `Json`: the JSON text `json.dumps` writes and `json.loads` reads for null, booleans, integers, strings, arrays and objects. It proves the round trip `Decode(Encode(v)) == Some(v)` for every value.
- `Text`: `str(n)`, `find`, `replace(p, r, 1)`, `split`, `endswith`, and the removal of one character.
- `Broker`: `redis_communication` and `generate_model_response`. It covers the in-place flattening of the request array, the append, and the bounded wait loop with what it returns and what it acknowledges.
- `Worker`: start-up, one iteration of `process_requests` (`ProcessOne`), and `n` iterations of it (`ProcessRequests`).
- `Docling`: `document_convert` as a loop over the items with an `S3Files` upload log. It also proves which placeholders end up replaced by which links.
- `Gateway`: the endpoints around the core:
  - the two prompt builders;
  - `summarize_content` and `ask_question`;
  - the folder listing;
  - the upload base path;
  - `process_pdf_docling`.
- `EndToEnd`: the broker and the worker over one keyspace, in the interleaving publish, one worker iteration, wait.

Where the system's written description and its code differ, the model follows the code:

- The gateway acknowledges only the response entry that carries its id. Other entries it reads stay pending in its group and are never delivered to it again (`Broker.AwaitFrame`).
- The worker writes no error response. A failing request is acknowledged and dropped (`Worker.StepDelivers`).

## Model

| member | source | states |
|---|---|---|
| Streams.Append | backend/app/main.py:203 | `XADD` appends exactly one entry at the end of the stream. It creates the stream if needed and returns the new entry's position. Groups and every other stream are unchanged. |
| Streams.CreateGroup | backend/redis/worker.py:24 | A new group starts at cursor 0 with nothing pending. The create succeeds exactly when the group did not exist (otherwise BUSYGROUP, with nothing changed). Entries and other groups are unchanged, the only stream that can appear is `key` and the only group that can appear is `group`. |
| Streams.ReadNext | backend/app/main.py:216-218 | NOGROUP exactly when the stream or group is missing. Nothing new exactly when the cursor is at the end. Otherwise it delivers the entry at the cursor, advances the cursor by one and adds the entry to pending. |
| Streams.Acknowledge | backend/app/main.py:229 | `XACK` removes the id from the group's pending set and counts 1 exactly when it was pending. No stream appears and every other stream is kept. |
| Streams.AppendValid | backend/app/main.py:203 | Appending keeps every cursor within its stream and every pending id behind its cursor. |
| Streams.CreateGroupValid | backend/redis/worker.py:24 | Creating a group keeps the stream invariant. |
| Streams.ReadNextValid | backend/app/main.py:216-218 | Reading keeps the stream invariant. |
| Streams.AcknowledgeValid | backend/app/main.py:229 | Acknowledging keeps the stream invariant. |
| Streams.CreateGroupIdempotent | backend/redis/worker.py:23-27 | Creating a group a second time reports BUSYGROUP and changes nothing. |
| Streams.AcknowledgeIdempotent | backend/app/main.py:229 | Acknowledging twice equals acknowledging once, and the second call counts 0. |
| Streams.ReadNextKeepsEntries | backend/app/main.py:216-218 | Reading never changes what any stream holds. |
| Streams.Redis.constructor | backend/app/main.py:28-34 | A new connection sees the server's keyspace as it stands, streams and groups left by earlier runs included; connecting changes nothing. |
| Streams.Redis.XAdd | backend/app/main.py:203 | The client call changes the keyspace exactly as `Append` does and returns its id. |
| Streams.Redis.XGroupCreate | backend/redis/worker.py:24 | The client call changes the keyspace exactly as `CreateGroup` does. |
| Streams.Redis.XReadGroup | backend/app/main.py:216-218 | The client call delivers and changes the keyspace exactly as `ReadNext` does, and keeps the invariant. |
| Streams.Redis.XAck | backend/app/main.py:229 | The client call changes the keyspace exactly as `Acknowledge` does, and keeps the invariant. |
| Json.Get | backend/app/main.py:233 | A lookup finds a value exactly when some member has the key, and the value found belongs to a member with that key. |
| Json.GetLast | backend/app/main.py:233 | Of repeated keys the lookup sees the last one, as `json.loads` keeps the last duplicate: the member found has no later member with the same key. |
| Json.Encode | backend/app/main.py:200 | `json.dumps` writes a non-empty text whose first character opens a JSON value. |
| Json.ZeroNumber | backend/app/main.py:228 | A number that starts with `0` is that one digit; the text after it is left unread. |
| Json.LeadingZeroRefused | backend/app/main.py:228 | Text such as `01`, a zero followed by a digit, does not decode, as `json.loads` refuses it. |
| Json.LeadingZeroElement | backend/redis/worker.py:55 | The same number as the first array element, as in `[01]`, does not decode either. |
| Json.DecodeEncode | backend/redis/worker.py:55 | `json.loads(json.dumps(v)) == v` for every value. |
| Text.Decimal | features/pdf_extraction/docling_pdf_extractor.py:79 | `str(n)` is a non-empty run of digits. |
| Text.DecimalRoundTrip | features/pdf_extraction/docling_pdf_extractor.py:79 | The digits of `str(n)` denote `n`. |
| Text.DecimalLead | features/pdf_extraction/docling_pdf_extractor.py:79 | `str(n)` starts with `0` only for `n == 0`, and then it is the single digit. |
| Text.DecimalInjective | features/pdf_extraction/docling_pdf_extractor.py:79 | Different numbers print differently. |
| Text.Find | features/pdf_extraction/docling_pdf_extractor.py:103 | The index found is an occurrence with none to its left, and `None` means no occurrence anywhere. |
| Text.ReplaceFirst | features/pdf_extraction/docling_pdf_extractor.py:103 | Only the leftmost occurrence is rewritten, the text around it is kept, and without an occurrence nothing changes. |
| Text.RemoveChar | backend/app/main.py:143 | The result holds the text's characters, with every occurrence of the removed one dropped and all others kept with their counts. A one-character text becomes empty or stays as it is. |
| Text.RemoveCharAppend | backend/app/main.py:143 | Removal distributes over concatenation. |
| Text.RemoveCharKeepsAbsent | backend/app/main.py:143 | Removing one character never brings in another. |
| Text.RemoveCharAbsent | backend/app/main.py:143 | Removing a character that is absent changes nothing. |
| Text.Split | backend/app/main.py:76 | `split` gives at least one part and no part contains the separator. |
| Text.SplitNoSeparator | backend/app/main.py:76 | A text without the separator splits into itself. |
| Text.SplitAround | backend/app/main.py:76 | Splitting distributes over a separator between two texts. |
| Broker.FlattenField | backend/app/main.py:199-200 | The key is kept. A list or dict becomes a string. Any other value is unchanged. The result is never nested. |
| Broker.FlattenFieldDecodes | backend/app/main.py:200 | The text that replaces a nested value reads back as that value. |
| Broker.FlattenAll | backend/app/main.py:198-200 | Flattening keeps the length and rewrites each member independently. |
| Broker.Flatten | backend/app/main.py:198-200 | The loop rewrites the array in place into the flattened request. |
| Broker.WireFields | backend/app/main.py:203 | The entry's fields are exactly the dict's keys, each written as redis-py sends it. There is no entry (DataError) exactly when some value is neither a string nor an integer. |
| Broker.EntryOf | backend/app/main.py:203 | An empty dict or an unsendable value is refused. Otherwise the entry is non-empty and has exactly the dict's keys. |
| Broker.Extract | backend/app/main.py:232-237 | Content only comes from a list-valued `choices`. An object without one keeps the loop waiting. An empty list raises IndexError. The only other errors are AttributeError and TypeError. |
| Broker.Inspect | backend/app/main.py:225-237 | An entry with another id is skipped and not acknowledged. An acknowledged entry carries the id. Content is returned exactly from a matching entry whose payload yields it. Every other case is stated: a missing `id` raises KeyError, unacknowledged; with the id matching, a missing `response` raises KeyError and text that does not decode raises the decoding error, both before the acknowledgement; a payload without `choices` is acknowledged and the wait goes on; an extraction error is raised after the acknowledgement. |
| Broker.Poll | backend/app/main.py:216-237 | One iteration keeps the stream invariant. |
| Broker.PollFrame | backend/app/main.py:216-229 | A read changes only its own group. The cursor moves past at most one entry, nothing pending is acknowledged, and a non-matching entry stays pending. |
| Broker.PollContinues | backend/app/main.py:216-237 | A read that lets the loop go on had the group in place and keeps it. The stream's entries are unchanged and the cursor never moves back. |
| Broker.PollAnswers | backend/app/main.py:216-235 | A read that returns content took the entry at the cursor. That entry carries the request's id, its payload yields the content, and it is no longer pending. |
| Broker.FramedTrans | backend/app/main.py:214-229 | Two stretches of reads, one after the other, together touch nothing beyond what each may touch, and their cursor bounds add up. |
| Broker.PollInspects | backend/app/main.py:222-237 | A read that finds an entry decides as `Inspect` does on that entry. |
| Broker.Await | backend/app/main.py:214-240 | (corrected loop) The wait loop keeps the stream invariant. |
| Broker.ReadOnce | backend/app/main.py:216-237 | One iteration of the client loop decides and changes the keyspace exactly as `Poll` does. |
| Broker.AwaitResponse | backend/app/main.py:214-240 | (corrected loop) The client loop returns and changes the keyspace exactly as `Await` does. |
| Broker.AwaitFrame | backend/app/main.py:214-229 | Waiting writes to no stream and touches no other group. Its cursor moves forward by at most one entry per iteration. Every non-matching entry read stays pending, and nothing else becomes pending. |
| Broker.AwaitAnswer | backend/app/main.py:225-235 | Returned content comes from the last entry read. That entry lies past the starting cursor, carries the request's id, has a payload that yields that content, and was acknowledged. |
| Broker.AwaitTimesOut | backend/app/main.py:214-240 | (corrected loop) When the deadline passes without a usable match, the loop ends with the timeout string. That is, every entry the remaining iterations can read has an id and either carries another request's id or, carrying this one, has no list of `choices`. |
| Broker.AwaitSkips | backend/app/main.py:225 | An entry with another id is passed over, and the remaining iterations decide the reply. |
| Broker.AwaitKeepsWaiting | backend/app/main.py:225-237 | A matching entry whose payload has no `choices` is acknowledged and the loop goes on: the cursor moves one past it, the entry is not left pending, and the remaining iterations decide the reply. |
| Broker.AwaitRaises | backend/app/main.py:225-237 | A matching entry that fails raises: KeyError for a missing `response`, the decoding error for text that does not decode, or the extraction error. Only the last of these acknowledges the entry; the others leave it pending. |
| Broker.AwaitStops | backend/app/main.py:225-235 | A matching entry whose payload yields content ends the loop with that content. |
| Broker.AwaitFinds | backend/app/main.py:214-235 | If the first matching entry past the cursor yields content and the deadline leaves enough reads to reach it, that content is returned. |
| Broker.AwaitIdle | backend/app/main.py:214-240 | (corrected loop) With nothing to read, the loop changes nothing and returns the timeout string. |
| Broker.AwaitAsWrittenAgrees | backend/app/main.py:214-218 | Whenever the blocking loop returns, it returns what the bounded loop does. |
| Broker.AwaitAsWrittenHangs | backend/app/main.py:216-218 | With nothing to read, the blocking loop never returns, where the deadline should give the timeout string. |
| Broker.PublishAppends | backend/app/main.py:198-205 | Publishing appends exactly the flattened entry to the request stream; a refused dict changes nothing. Nested values travel as JSON text that reads back as the value, and others are unchanged. The id waited for is the dict's own `id`, and a missing `id` raises KeyError after the append. |
| Broker.EntryFields | backend/app/main.py:198-203 | Every field of a sent entry is a key of the dict. Nested values are sent as JSON text that reads back as the value, the others as redis-py writes them. |
| Broker.GetFlattened | backend/app/main.py:198-200 | Looking a key up after flattening finds the flattened value of the same member. |
| Broker.PublishValid | backend/app/main.py:203 | Publishing keeps the stream invariant. |
| Broker.RedisCommunication | backend/app/main.py:193-240 | (corrected loop) The caller's dict is flattened in place, and reply and keyspace are those of publish-then-wait. |
| Broker.CommunicateTimesOut | backend/app/main.py:203-240 | (corrected loop) With the response group's cursor at the end of its stream and no worker answering, a generated request is published and the call returns the timeout string. |
| Broker.CommunicateAnswer | backend/app/main.py:203-235 | Any content returned comes from a response entry carrying the published request's id, and its payload yields that content. |
| Broker.PublishRequest | backend/app/main.py:183-187 | A generated request is always sent. Its entry has the id, the model and the prompt as JSON text that reads back as the messages, and its id is the one waited for. |
| Broker.RequestWire | backend/app/main.py:183-187 | The three fields of a generated request flatten to the request entry, and the id sent is the generated one. |
| Broker.GenerateModelResponse | backend/app/main.py:182-191 | It builds the three-field request and runs `redis_communication` on it. |
| Broker.GenerateAppendsOne | backend/app/main.py:183-203 | Each call appends exactly one entry to the request stream, the one with its id, and no other stream changes. |
| Broker.ExtractNoMessage | backend/app/main.py:232-233 | A first choice without `message` gives "No content found". |
| Broker.ExtractMessage | backend/app/main.py:232-235 | The result is `choices[0].message.content`, or "No content found" when `content` is missing. |
| Broker.ExtractCompletion | backend/app/main.py:233 | A completion's content always comes back out. |
| Worker.Startup | backend/redis/worker.py:22-35 | After start-up both groups exist. No entry changes, existing groups are kept, and only the two named groups can be new (at cursor 0). |
| Worker.StartupIdempotent | backend/redis/worker.py:23-35 | Start-up succeeds whether or not the groups exist, and a second run changes nothing. |
| Worker.StartupValid | backend/redis/worker.py:22-35 | Start-up keeps the stream invariant. |
| Worker.CreateGroups | backend/redis/worker.py:22-35 | The two guarded creates change the keyspace exactly as `Startup` does. |
| Worker.Handle | backend/redis/worker.py:52-66 | It responds exactly when `id`, `model` and `prompt` are present, the prompt decodes and the model call succeeds. The response entry holds that id and the result. Each missing field or a bad prompt raises its own exception. |
| Worker.ResponseEntryDecodes | backend/redis/worker.py:63-66 | The response entry has exactly the fields `id` and `response`, and `response` reads back as the result. |
| Worker.WorkerStepValid | backend/redis/worker.py:43-71 | One iteration keeps the stream invariant. |
| Worker.ProcessOne | backend/redis/worker.py:43-75 | The loop body on the client changes the keyspace as one iteration does. |
| Worker.StepIdle | backend/redis/worker.py:43-46 | With no new request the iteration changes nothing. |
| Worker.StepCrashes | backend/redis/worker.py:43-45 | Without the request group the read raises outside the `try` and the worker stops. |
| Worker.StepDelivers | backend/redis/worker.py:43-75 | One entry is read and acknowledged whatever follows, and the request stream is never written. Exactly one response entry is appended when handling succeeds. None is appended, and the fault is recorded, when it fails. |
| Worker.StepEffects | backend/redis/worker.py:43-75 | Every iteration leaves the request stream alone and moves the cursor at most one entry. The response stream grows by one entry exactly when a request is answered, and its earlier entries are kept. |
| Worker.StepGrows | backend/redis/worker.py:43-75 | With the request group in place an iteration never stops the loop. It keeps the group and the request stream, and the response stream grows by exactly the entries of responded requests. |
| Worker.StepKeepsResponseGroups | backend/redis/worker.py:43-71 | An iteration never changes the consumer groups of the response stream; it only appends there. |
| Worker.Run | backend/redis/worker.py:41-76 | Any number of iterations keeps the stream invariant. |
| Worker.ProcessRequests | backend/redis/worker.py:40-76 | The client loop produces the outcomes and the keyspace of `n` iterations. |
| Worker.RunKeepsGoing | backend/redis/worker.py:41-76 | Once the request group exists, no iteration stops the loop and the request stream is unchanged. The response stream only grows, by one entry per answered request. |
| Docling.S3Files.constructor | backend/app/main.py:144 | A new S3 manager has its bucket and base path and no uploads. |
| Docling.S3Files.UploadFile | features/pdf_extraction/docling_pdf_extractor.py:94 | An upload adds one object to the end of the log. |
| Docling.ImageKeyInjective | features/pdf_extraction/docling_pdf_extractor.py:79 | Different picture numbers give different image keys, so no upload overwrites another. |
| Docling.PictureCount | features/pdf_extraction/docling_pdf_extractor.py:73-76 | The counter never exceeds the number of items. |
| Docling.ImageUploads | features/pdf_extraction/docling_pdf_extractor.py:74-94 | Exactly one upload happens per picture. |
| Docling.ImageUploadsNumbered | features/pdf_extraction/docling_pdf_extractor.py:73-94 | Upload `j` stores the image of a picture item under the key numbered `j + 1`, and exactly `j` pictures precede that item. |
| Docling.Tags | features/pdf_extraction/docling_pdf_extractor.py:79-103 | The `k`-th replacement is `![Image](link)` for the image keyed with number `k + 1`. |
| Docling.ItemStep | features/pdf_extraction/docling_pdf_extractor.py:74-76 | A picture advances the counter and adds its upload; any other item changes neither. |
| Docling.RewriteStep | features/pdf_extraction/docling_pdf_extractor.py:103 | One more picture replaces the first remaining placeholder with that picture's link. |
| Docling.DocumentConvert | features/pdf_extraction/docling_pdf_extractor.py:69-106 | The loop returns the markdown with one first-placeholder replacement per picture, in order. It appends exactly the numbered image uploads. |
| Docling.PdfDoclingConverter | features/pdf_extraction/docling_pdf_extractor.py:57-67 | The markdown is stored after the images under `<base>/extracted_data.md`, and that key and the final text are returned. |
| Docling.FindAfterSafe | features/pdf_extraction/docling_pdf_extractor.py:103 | After text already processed, the first placeholder is the next one. |
| Docling.FillNone | features/pdf_extraction/docling_pdf_extractor.py:103 | Once every placeholder is replaced, a surplus picture changes nothing. |
| Docling.FillNext | features/pdf_extraction/docling_pdf_extractor.py:103 | With placeholders left, the next replacement fills the leftmost one and leaves the rest. |
| Docling.RewriteFills | features/pdf_extraction/docling_pdf_extractor.py:103 | With `p` links and `h` placeholders, the first `min(p, h)` placeholders from the left become the links in order. Surplus placeholders stay, and the text between them is unchanged. |
| Docling.TagForIsTag | features/pdf_extraction/docling_pdf_extractor.py:98-103 | A link built from space-free names gives a replacement with no space that starts `![` and ends `)`. |
| Docling.TagsAreTags | features/pdf_extraction/docling_pdf_extractor.py:98-103 | Every replacement has that shape. |
| Docling.ConvertFills | features/pdf_extraction/docling_pdf_extractor.py:69-106 | For `n` pictures, the first `min(n, h)` placeholders become the links to pictures 1 to `min(n, h)`, the others remain, and the text around them is unchanged. |
| Gateway.SaidMessage | backend/app/main.py:96-97 | A built message reads back as its role and content. |
| Gateway.SummaryPrompt | backend/app/main.py:95-98 | Exactly two messages, system then user. The user message is the fixed instruction followed by the document, which reads back from it. |
| Gateway.QuestionPrompt | backend/app/main.py:118-125 | Exactly two messages. The system message embeds the document between the two fixed texts, and the user message is the question. |
| Gateway.Respond | backend/app/main.py:103-107 | A reply becomes `{field: value}`, and an exception becomes a 500 with the prefixed detail. |
| Gateway.SummarizeContent | backend/app/main.py:87-107 | Empty content is refused with a 500 wrapping the inner 400 and nothing is published. Otherwise the summary prompt goes through the broker. |
| Gateway.AskQuestion | backend/app/main.py:109-133 | The same for questions, with the question prompt. |
| Gateway.SummarizePublishes | backend/app/main.py:92-101 | With content, exactly one request is appended, and its prompt reads back as the two summary messages. |
| Gateway.AskPublishes | backend/app/main.py:114-127 | With content, exactly one request is appended, and its prompt reads back as the two question messages. |
| Gateway.SummarizeTimesOut | backend/app/main.py:88-107 | (corrected loop) With content and no worker running, `/summarize` answers with exactly "Error: Timeout reached while waiting for response" as its `summary`. |
| Gateway.AskTimesOut | backend/app/main.py:110-133 | (corrected loop) With content and no worker running, `/ask_question` answers with exactly the timeout string as its `answer`. |
| Gateway.FolderNames | backend/app/main.py:76 | IndexError exactly when a non-`.png` key has no second-to-last segment. Otherwise a name is listed exactly when it is the second-to-last `/`-segment of some non-`.png` key. |
| Gateway.FolderOfSlash | backend/app/main.py:76 | A key has a second-to-last segment exactly when it contains `/`. |
| Gateway.ListedFolder | backend/app/main.py:76 | A markdown key of the shape `get_selected_pdf` reads back, `<prefix>/<name>/extracted_data.md` with a slash-free name, lists as `name`. |
| Gateway.UploadListsEmpty | backend/app/main.py:76 | The keys an upload writes, `<base>/<file name>` and `<base>/extracted_data.md` with a base path ending in `/`, both contain `//` and list under the empty name. |
| Gateway.FolderOfNested | backend/app/main.py:76 | A key `<prefix>/<name>/<file>` whose name and file contain no `/` lists as `name`, whatever the prefix. |
| Gateway.UploadBasePath | backend/app/main.py:143 | The base path is `pdf/docling/`, the file name with every `.` and then every space removed, and `/`. The folder name has no dot and the path has no space. |
| Gateway.UploadFolderChars | backend/app/main.py:143 | The folder name holds exactly the file name's characters other than dots and spaces, each as many times as in the file name. |
| Gateway.UploadBasePathIdempotent | backend/app/main.py:143 | Sanitising an already sanitised name gives the same base path. |
| Gateway.ProcessPdfDocling | backend/app/main.py:136-150 | The PDF is stored first under `<base>/<file name>`, then the images and the markdown. The message links to the markdown key. |
| Gateway.UploadFills | backend/app/main.py:143-146 | For any uploaded file name, the placeholder theorem applies to the sanitised base path. |
| EndToEnd.WorkerTakesRequest | backend/redis/worker.py:43-71 | After a publish, the worker's iteration handles exactly that request: the published model name on the messages as sent. It appends one response with the same id, or none when the model fails, and leaves the gateway's group alone. |
| EndToEnd.RequestQueued | backend/app/main.py:203 | After the publish the worker's cursor stands on exactly the new request, and the response stream is as it was. |
| EndToEnd.RequestHandled | backend/redis/worker.py:52-66 | The worker answers a request the gateway wrote with the model's result under the same id, or drops it when the model call fails. |
| EndToEnd.ExchangeAnswers | backend/app/main.py:203-235 | Id and prompt make the whole trip: the content of the model's result is what the gateway returns. |
| EndToEnd.ExchangeTimesOut | backend/redis/worker.py:57-75 | (corrected loop) A failing model call is swallowed. The gateway's wait ends with the timeout string. |
| EndToEnd.CompletionReturned | backend/app/main.py:233 | A chat completion's content reaches the caller. |
| EndToEnd.StartupWires | backend/redis/worker.py:30-35 | On a fresh server, worker start-up leaves both groups in place with no backlog, provided the gateway reads through the worker's response group. |

## Left out

- The Redis server, the network and redis-py's connection are not modelled. Streams are values in one keyspace. An entry's id is its position, where Redis uses a time-based id.
- The 30-second deadline is a number of loop iterations (`fuel`). The wall clock is not modelled.
- The `time.sleep(1)` pacing of the worker is not modelled.
- The gateway and the worker run concurrently in separate processes. The model composes them in one interleaving only (`EndToEnd.Exchange`).
- The language model call (`litellm.completion(...).model_dump()`) is a parameter: a total function from model name and prompt to a JSON value, or `None` when it raises.
- `str(uuid.uuid4())` is a parameter `id`; freshness is not modelled.
- JSON floats are not modelled; the values covered are null, booleans, integers, strings, arrays and objects.
- Json.Decode: it returns `None` for text that `json.loads` accepts but the model does not cover: numbers with a fraction or an exponent, `NaN`, `Infinity` and `-Infinity`, and a `\u` escape of a lone surrogate (`\uD800` to `\uDFFF` without its pair). Worker.Handle and Broker.Inspect therefore treat such text as a decoding error where the program would go on with the value.
- Broker.Await, Broker.AwaitResponse, Broker.AwaitTimesOut, Broker.AwaitIdle: they model the corrected wait, in which every read returns. As written, the read blocks (`block=0`), and the loop never returns when nothing arrives (`Broker.AwaitAsWritten`, see "## Findings").
- Broker.CommunicateTimesOut: the timeout string comes from the corrected loop; as written, the read would block while no worker answers.
- Gateway.SummarizeTimesOut: the same holds through `Broker.CommunicateTimesOut`.
- Gateway.AskTimesOut: the same holds through `Broker.CommunicateTimesOut`.
- Broker.RedisCommunication: it waits with the corrected loop, as `Broker.Await` does, and not with the blocking read as written.
- EndToEnd.ExchangeTimesOut: the timeout string is returned by the corrected loop; the program as written would block on its read.
- Worker.StepIdle: the worker's read blocks (`block=0`, backend/redis/worker.py:43-45) until a request arrives; the model renders that wait as an idle iteration that changes nothing.
- Worker.Handle: the response is written as compact JSON text, not with `indent=2`. The gateway reads either text back to the same value.
- Gateway.Respond: a wrapped exception keeps the exception's class, not the text `str(e)` would give it.
- The S3 manager (`services/s3.py`) is not part of this model:
  - uploads are an appended log;
  - its `base_path` is the path the gateway passes in, kept verbatim;
  - its key listing is a given sequence of keys;
  - loading a file is left out, and with it `get_selected_pdf` and `get_pdf_content`.
- The Docling conversion, image rendering, temporary files and base64 decoding are not modelled. The converter's output is given as the markdown, the temporary file's stem and the item kinds.
- `process_docling_url` is left out: it scrapes with BeautifulSoup and calls `url_docling_converter`, which the repository never defines.
- `read_root` is left out; it returns a constant message.
- `get_available_files` turns a set into a list in an unspecified order. The model returns the set.
- Gateway.FolderNames: it takes the keys as given. It does not model which keys the S3 manager lists under `pdf/docling/`.
- Uploads and the listing are not connected in this model. With the base path kept verbatim, every key an upload writes lists under the empty name (`Gateway.UploadListsEmpty`). Whether the S3 manager rewrites `//` in a key is unknown, since `services/s3.py` is not part of this model. So the model does not claim that an uploaded document is listed under its folder name.

## Findings

| source | as written | input that shows it | evidently intended | confidence | as-written member | corrected member |
|---|---|---|---|---|---|---|
| backend/app/main.py:214-218 | The loop reads with `block=0`, which waits indefinitely for a new entry. The elapsed time is only compared between reads. | A response group whose cursor is at the end of its stream and no worker answering (`Broker.AwaitAsWrittenHangs`): the read never returns. | Each read returns, so the 30-second deadline ends the loop with "Error: Timeout reached while waiting for response". | high; not executed | Broker.AwaitAsWritten | Broker.Await |
