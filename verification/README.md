# A verified model of the finance assistant's retrieval, dispatch and arithmetic core

The AI finance accountant agent takes a user's request and has a language
model turn it into an intent (`intent`, `subintent`, `entities`). The
operation manager dispatches the intent to a `handle_<subintent>` coroutine
of the module named after the intent, decorates the result, and turns it
into text. Uploaded files are split into overlapping chunks and stored in
a vector store. Prompts are augmented with the chunks that are nearest to
the query and pass a metadata filter.

This project models that core in Dafny, as pure functions over immutable
data, and proves its properties.

| file | models |
|---|---|
| `chunker.dfy` | `split_text`: the break-marker rule, the window loop as spans, Python's loop with its slicing, and the progress failure |
| `ingest.dfy` | `ingest_file` and the `process_*` readers: chunk numbering, metadata, the size and type checks |
| `rag.dfy` | the document store, `add_documents`, `_matches_filter`, `search`, `generate_context`, `augment_prompt` |
| `dispatch.dfy` | the operation registry, `load_operations`, `execute_operation` and the recognition-failure fallback |
| `intent.dfy` | `recognize_intent`: the user prompt, the JSON span, default filling and the fallback results, with the system prompt as written and as corrected |
| `prompt.dfy` | `INTENT_RECOGNITION_PROMPT`: its text, why formatting it raises, and the template with its example's braces doubled |
| `format.dfy` | `str.format` with one keyword argument: literal text, doubled braces, replacement fields and the errors they raise |
| `response.dfy` | `generate_text_response` precedence and `format_data_response` |
| `security.dfy` | `check_permission`, `sanitize_input`, `rate_limit_check` |
| `financing.dfy` | payment-date stepping and the schedule in `handle_interest_payment`; maturity grouping in `handle_debt_maturity` |
| `accounting.dfy` | date ranges, account lookup and the summary of `handle_general_ledger`; `handle_journal_entry`; `handle_account_reconciliation` |
| `cash.dfy` | the sample forecast of `handle_cash_flow_forecast`; `handle_liquidity_analysis` |
| `dates.dfy` | proleptic Gregorian dates, as in Python's `datetime`: validity, day numbers, ISO text |
| `strings.dfy`, `ordered_dict.dfy`, `sorting.dfy`, `values.dfy`, `wrappers.dfy` | Python strings, insertion-ordered dicts, stable sorting, dynamic values, `Option`/`Result` |

Python dicts are sequences of key-value pairs, because insertion order is
visible: it decides `list_operations`, the order of rendered keys, and which
account is listed first. A Python exception is an `Err` (or `None`) result.
Anything the code gets from outside is a parameter of the function that uses
it:
- the clock (`now`, `today`, `elapsed`);
- the language model's answer;
- `json.loads`, `json.dumps` and `str()`;
- the vector index's answer;
- whether embedding and saving succeeded;
- what a file parser produced.

Chunking follows `RAG_CHUNK_SIZE = 512` and `RAG_CHUNK_OVERLAP = 50` from
`config/settings.py`. Retrieval uses `RAG_TOP_K = 5`. Uploads use
`MAX_UPLOAD_SIZE_MB = 10`.

## Model

| member | source | states |
|---|---|---|
| Chunker.FirstMarkerFrom | modules/file_manager.py:158-164 | a marker the `for` loop stops at is a listed one whose last occurrence in the window lies at or after the floor |
| Chunker.FirstMarkerIsFirst | modules/file_manager.py:158-164 | if any listed marker occurs in the window, the loop finds one, and none listed after it is chosen in preference |
| Chunker.Break | modules/file_manager.py:159-163 | the break offset found by `rfind` lies inside the window and at or after the floor |
| Chunker.BreakSpec | modules/file_manager.py:158-164 | there is no break exactly when no marker occurs (at or after the floor); a break is always the position of an occurrence of some marker |
| Chunker.BreakAgree | modules/file_manager.py:159-163 | a break the unfloored rule finds at or past a floor is also the floored rule's break; no break without a floor means none with one |
| Chunker.QualifiesAtZero | modules/file_manager.py:160-161 | a marker occurring past a non-negative floor occurs in the window at all |
| Chunker.CutEnd | modules/file_manager.py:155-163 | the window from `start` ends after `start` and at most `chunk_size` later; it is cut short only when it does not reach the end of the text, and then past the floor |
| Chunker.CutAfterMarker | modules/file_manager.py:161-163 | a window cut short ends just after the first character of an occurrence of one of the break markers |
| Chunker.Hi | modules/file_manager.py:156 | the slice end `text[start:end]` is clamped to the text length and otherwise is the cut |
| Chunker.Slide | modules/file_manager.py:154-166 | the window sequence of the `while` loop; a stalled loop has emitted at least one window |
| Chunker.SlideFirst | modules/file_manager.py:154-156 | a loop started inside the text first emits the window at `start` |
| Chunker.SlideStalls | modules/file_manager.py:166 | when the next start `end - chunk_overlap` is not past the current start, the loop makes no progress from that window |
| Chunker.SlideCompleteMoves | modules/file_manager.py:166 | in a loop that ends, every window moves the start forward |
| Chunker.SlideUnfold | modules/file_manager.py:154-166 | one iteration: the window at `start` followed by the loop from `end - chunk_overlap` |
| Chunker.SlideBounded | modules/file_manager.py:155-165 | every emitted chunk is non-empty and at most `chunk_size` characters long |
| Chunker.SlideChained | modules/file_manager.py:166 | each window starts `chunk_overlap` characters before the previous window's end |
| Chunker.SlideEnds | modules/file_manager.py:154-167 | no chunks exactly when the start is past the text; the last window of a finished loop sends the start past the text; a stall is at a window whose next start is not ahead |
| Chunker.SlideCompletes | modules/file_manager.py:154-166 | if every window moves the start forward, the loop ends |
| Chunker.SlideCovers | modules/file_manager.py:154-167 | with a non-negative overlap, every character of the text lies in some chunk of a finished loop |
| Chunker.SlideReachesEnd | modules/file_manager.py:154-167 | with a non-negative overlap, the last chunk of a finished loop ends at the end of the text |
| Chunker.SlideAgree | modules/file_manager.py:154-166 | two cut rules that agree wherever one of them progresses give the same windows, provided that one's loop ends |
| Chunker.CutsSpec | modules/file_manager.py:155-163 | the cut rule keeps every window non-empty and at most `chunk_size` long, and cuts short only past the floor |
| Chunker.CorrectedCompletes | modules/file_manager.py:154-166 | when breaks inside the overlap are ignored and `0 <= chunk_overlap < chunk_size`, the loop always ends |
| Chunker.CutEndAgree | modules/file_manager.py:155-163 | where the source's cut moves past the floor, the floored rule cuts at the same place |
| Chunker.CorrectedAgrees | modules/file_manager.py:151-167 | whenever every window of `split_text` moves the start forward, the corrected rule returns the same chunks |
| Chunker.OneChunk | modules/file_manager.py:151-167 | a non-empty text of at most `chunk_size - chunk_overlap` characters is one chunk, the text itself |
| Chunker.TwoChunks | modules/file_manager.py:151-167 | a text a little longer than `chunk_size - chunk_overlap` and at most `chunk_size` gives the whole text, then its tail from `chunk_size - chunk_overlap` |
| Chunker.PyBound | modules/file_manager.py:156 | Python's slice-bound normalisation stays inside the sequence and leaves in-range bounds alone |
| Chunker.PySliceInRange | modules/file_manager.py:156 | with non-negative bounds `text[a:b]` is the plain slice clamped at the end |
| Chunker.PyCutIsCutEnd | modules/file_manager.py:155-163 | the `while` body's `end` is the break rule's cut |
| Chunker.PyStepMatchesSpan | modules/file_manager.py:155-166 | one iteration appends the chunk of the window and moves `start` to `end - chunk_overlap` |
| Chunker.PyStepsMatch | modules/file_manager.py:155-166 | from every offset in the text, the loop body is the span model's step |
| Chunker.ChunksOfCons | modules/file_manager.py:165 | appending chunk by chunk builds the chunk list of the windows in order |
| Chunker.LoopFollowsSlide | modules/file_manager.py:154-167 | a loop whose body follows the windows returns exactly their chunks when the windows end |
| Chunker.SourceAgrees | modules/file_manager.py:151-167 | whenever the span model ends, `split_text` returns exactly its chunks |
| Chunker.StuckDiverges | modules/file_manager.py:154-166 | an iteration that leaves `start` unchanged repeats forever |
| Chunker.LoopFollowsStall | modules/file_manager.py:154-166 | a loop whose body follows a slide that stalls in place never returns |
| Chunker.StalledDiverges | modules/file_manager.py:151-167 | when the windows stall with the next start equal to the current one, `split_text` never returns |
| Chunker.LoopUnfold | modules/file_manager.py:154-166 | one turn of a loop that has not ended appends the body's chunk and continues from the body's next start |
| Chunker.LoopFollowsWindow | modules/file_manager.py:154-166 | from an offset inside the text, one turn appends the chunk of the window there and continues from `end - chunk_overlap` |
| Chunker.LoopAfterStall | modules/file_manager.py:154-166 | a loop following a slide that stalls appends the slide's chunks, then carries on from the stalled window's next start |
| Chunker.SourceAfterStall | modules/file_manager.py:151-167 | when a window does not move the start forward, `split_text` appends the chunks so far and carries on from a start at or before that window's, possibly negative |
| Chunker.PrefixedTwice | modules/file_manager.py:165 | putting chunks `a` in front of a loop result that already starts with chunks `b` is putting `a + b` in front, since `chunks.append` keeps order; a loop that did not finish stays unfinished |
| Chunker.LoopAtStall | modules/file_manager.py:154-166 | from a window whose next start `end - overlap` is not past its start, Python's loop emits the chunks of the stalled slide and then carries on from that slide's next start, with the fuel spent on those chunks |
| Chunker.LoopPastWindow | modules/file_manager.py:154-166 | when a window's next start moves forward and the slide from there stalls, the loop from this window emits this window's chunk, then the stalled slide's chunks, then carries on from its next start |
| Chunker.EmptyWindowNoBreak | modules/file_manager.py:158-163 | `rfind` finds no marker in an empty chunk, so the window keeps its full end |
| Chunker.NegativeStartEmpty | modules/file_manager.py:155-166 | from a negative start whose window ends inside a text at least `chunk_size` long, `text[start:end]` slices backwards and appends an empty chunk, and `start` moves on by `chunk_size - chunk_overlap` |
| Chunker.SourceStepsBack | modules/file_manager.py:151-167 | when a window sends the start below 0, `split_text` appends the chunks so far, then an empty chunk, then carries on from `next + chunk_size - chunk_overlap` |
| Chunker.OneNewline | modules/file_manager.py:158 | the example texts: all `a` but a single newline |
| Chunker.AbsentMarker | modules/file_manager.py:160 | `rfind` finds nothing when the marker's first character does not occur |
| Chunker.NewlineWindow | modules/file_manager.py:158-164 | in a leading window holding the single newline, only `"\n"` occurs, and the break lies there exactly when the floor allows it |
| Chunker.SourceLoopsForever | modules/file_manager.py:151-167 | with the configured 512/50 sizes, a 513-character text whose only marker is a newline at 49 makes `split_text` loop forever |
| Chunker.CorrectedSplitsLoopingText | modules/file_manager.py:151-167 | the corrected rule splits that text into `[0, 512)` and `[462, 513)` |
| Chunker.SourceDropsText | modules/file_manager.py:151-167 | with the configured 512/50 sizes, a 600-character text whose only marker is a newline at 10 gives `[text[0:11], "", text[423:600]]`: an empty chunk, and characters 11 to 422 in no chunk |
| Chunker.CorrectedSplitsBackText | modules/file_manager.py:151-167 | the corrected rule splits that text into `text[0:512]` and `text[462:600]`, which hold every character |
| Ingest.SplitSpec | modules/file_manager.py:151-167 | with the configured sizes every chunk is non-empty and at most 512 characters, and only the empty text has no chunks |
| Ingest.SplitCovers | modules/file_manager.py:151-167 | every character of the text is in some chunk, and the last chunk is a suffix of the text |
| Ingest.SplitEnds | modules/file_manager.py:154-167 | the splitting loop finishes and its last chunk ends the text |
| Ingest.SplitHolds | modules/file_manager.py:154-167 | a given character of the text lies in some chunk |
| Ingest.NumberChunks | modules/file_manager.py:59-61 | one document per chunk, holding that chunk's text, in chunk order |
| Ingest.ChunkMetadataSpec | modules/file_manager.py:60 | chunk `j` of `n` gets `chunk = j + 1` and `total_chunks = n`; every other key reads as in the section's metadata, and none is lost |
| Ingest.NumberChunksSpec | modules/file_manager.py:59-61 | chunks are numbered `1..n` with `total_chunks = n`, and every other metadata entry reaches every chunk |
| Ingest.SectionSpec | modules/file_manager.py:57-63 | a section of at most `RAG_CHUNK_SIZE` characters is one document holding the text and metadata unchanged; a longer one gives at least one chunk, each at most `RAG_CHUNK_SIZE` long |
| Ingest.SectionAvoidsRedundantChunk | modules/file_manager.py:57-63 | a section of 463 to 512 characters is kept whole, whereas splitting it would give two overlapping chunks |
| Ingest.SectionCarries | modules/file_manager.py:51-63 | an entry of the section's metadata other than the chunk numbers reaches every document the section yields |
| Ingest.ConcatMembers | modules/file_manager.py:46-64 | a document is among those of a file exactly when one of its sections (page or sheet) holds it |
| Ingest.ConcatCarries | modules/file_manager.py:46-64 | an entry every section carries is carried by the concatenation of all documents |
| Ingest.TextDocsSpec | modules/file_manager.py:202-211 | a `.txt` upload is always split, so every document is a non-empty chunk of at most 512 characters, and an empty file gives none |
| Ingest.EmptyWordDocument | modules/file_manager.py:106-117 | a Word file without paragraph text still yields one empty document tagged with its source |
| Ingest.NoParagraphs | modules/file_manager.py:106 | the comprehension's `if para.text` drops every empty paragraph |
| Ingest.ReaderMetadataSpec | modules/file_manager.py:51-56 | the readers set `source`, `page`, `total_pages` and `sheet` and leave every other metadata entry as it was |
| Ingest.Splitext | modules/file_manager.py:179 | the extension is empty or a suffix of the file name |
| Ingest.SplitextOfSuffix | modules/file_manager.py:179 | a name `stem.suffix` with a non-dot stem and a plain suffix has extension `.suffix` |
| Ingest.FileName | modules/file_manager.py:178 | the file name used is never empty (`unknown_file` replaces a missing one) |
| Ingest.BaseMetadataSpec | modules/file_manager.py:184-190 | the upload's metadata records its category, name and file type under keys no reader overwrites |
| Ingest.IngestFile | modules/file_manager.py:170-225 | an upload only appends documents and keeps the store aligned with its index; an upload over `MAX_UPLOAD_SIZE_MB` or of a type outside `ALLOWED_FILE_TYPES` is an error that leaves the store unchanged |
| Ingest.ReadCarries | modules/file_manager.py:194-211 | every reader keeps the upload's own metadata entries on every document it makes |
| Ingest.IngestSpec | modules/file_manager.py:170-221 | a successful upload passed both checks, reports exactly the number of documents appended, and each appended document carries its category, file name and file type |
| Rag.AddDocuments | modules/rag_module.py:97-137 | an empty batch returns 0 and changes nothing; otherwise the count returned is the batch size and the batch is appended in order; a failed embedding leaves the store exactly as it was and raises, while once embedding succeeds the batch is appended and the index gains one row per document, even when the save then fails and raises; the index stays aligned with the documents |
| Rag.MatchesFilterSpec | modules/rag_module.py:214-226 | a document matches exactly when every filter key is present and its value is in the filter's list, or equal to the filter's value; an empty filter matches everything |
| Rag.Resolve | modules/rag_module.py:195-196 | `documents[idx]` for an index the guard lets through is found exactly when `-n <= idx < n`, counting negative indices from the end |
| Rag.PaddingIsLastDocument | modules/rag_module.py:194-196 | the index's `-1` padding for a short answer passes the `idx < len` guard and reads the last document |
| Rag.FaultAt | modules/rag_module.py:196 | a candidate below `-len(documents)` makes the read raise |
| Rag.Pick | modules/rag_module.py:195-203 | one candidate contributes at most one document |
| Rag.EligibleSound | modules/rag_module.py:194-203 | every document the loop could keep is a stored document that passes the filter |
| Rag.EligiblePrefix | modules/rag_module.py:194-206 | walking more candidates only extends the kept list |
| Rag.Take | modules/rag_module.py:205-206 | stopping at `top_k` keeps a prefix of length `min(top_k, available)` |
| Rag.EligibleStep | modules/rag_module.py:194-203 | each candidate adds what it picks to the end of the kept list |
| Rag.StopsAtK | modules/rag_module.py:205-206 | when the kept list reaches `top_k` the loop has exactly the first `top_k` eligible documents |
| Rag.Walk | modules/rag_module.py:193-212 | the result is a prefix of the eligible documents, at most `top_k` long; without an IndexError it is exactly the first `top_k` eligible ones; with one it is empty or already full |
| Rag.Search | modules/rag_module.py:158-212 | an empty store or a failing index gives no results; at most `top_k` results (default `RAG_TOP_K`), drawn in order from the `2 * top_k` candidates; without an IndexError exactly the first `top_k` eligible ones; with one, none or already `top_k` |
| Rag.AnnotationEmpty | modules/rag_module.py:247-251 | the source annotation is empty exactly when the metadata has neither `source` nor `date` |
| Rag.Block | modules/rag_module.py:253 | every document block is non-empty |
| Rag.JoinNonEmpty | modules/rag_module.py:255 | joining parts whose first is non-empty gives a non-empty text |
| Rag.ContextEmptyIff | modules/rag_module.py:241-256 | the context is empty exactly when nothing was retrieved |
| Rag.JoinHasPart | modules/rag_module.py:255 | every part occurs in the joined text |
| Rag.OccursShift | modules/rag_module.py:255 | an occurrence in a later part is an occurrence in the joined text |
| Rag.ContextHoldsTexts | modules/rag_module.py:241-256 | the text of every retrieved document occurs in the context |
| Rag.AugmentPrompt | modules/rag_module.py:258-287 | disabled retrieval or an empty context leaves the system prompt as it is; otherwise the prompt grows by more than the context |
| Rag.AugmentUnchangedIff | modules/rag_module.py:258-287 | the prompt is unchanged exactly when retrieval is off or no document was retrieved |
| Rag.AugmentKeepsParts | modules/rag_module.py:278-286 | the augmented prompt holds the system prompt after its leading newline, and the context after the introduction line |
| Dispatch.RegisterSpec | modules/operation_manager.py:40-56 | a registered handler is read back, re-registering overwrites, other pairs keep their handlers, and a new pair is listed last while an existing one keeps its place |
| Dispatch.ListOperationsSpec | modules/operation_manager.py:46-56 | a pair is listed exactly when it has a handler |
| Dispatch.KeysAppend | modules/operation_manager.py:81-84 | registering entries one after another lists their keys in that order |
| Dispatch.HandlerName | modules/operation_manager.py:82-83 | `name[len("handle_"):]` is the subintent exactly when the name is `handle_` followed by it |
| Dispatch.FileEntriesSpec | modules/operation_manager.py:81-84 | a module registers `(module, X)` exactly when it has a coroutine member named `handle_X`, and only under its own name |
| Dispatch.EntriesSpec | modules/operation_manager.py:73-87 | loading all files registers exactly the pairs some loadable, non-dunder file provides |
| Dispatch.LoadOperationsSpec | modules/operation_manager.py:69-89 | after loading, a pair has a handler exactly when it had one before or some loadable file provides it |
| Dispatch.NewManagerSpec | modules/operation_manager.py:62-67 | a new manager's `("error", "recognition_failed")` handler is the built-in fallback, overriding any loaded one; every other pair has a handler exactly when some file provides it |
| Dispatch.RecognitionFailureSpec | modules/operation_manager.py:91-121 | the fallback apologises, and its `_metadata` reports failure with `error_message`, or else `error`, or else `unknown error`, as details |
| Dispatch.StampSpec | modules/operation_manager.py:149-153 | updating `_metadata` sets the operation and the success flag and leaves every other entry as it was |
| Dispatch.DecorateDict | modules/operation_manager.py:147-153 | a dict result keeps all its other keys; its `_metadata` (created when missing) keeps its other entries, names the operation and reports success whatever the handler said |
| Dispatch.DecorateValue | modules/operation_manager.py:154-163 | a non-dict result is wrapped under `result` with a success stamp naming the operation |
| Dispatch.DecorateRaised | modules/operation_manager.py:164-175 | a handler exception becomes an `error` carrying its message and a failure stamp naming the operation |
| Dispatch.ExecuteNamed | modules/operation_manager.py:131-145 | with string intent and subintent the handler is looked up under that pair and the operation is named `intent/subintent` |
| Dispatch.ExecuteFound | modules/operation_manager.py:131-175 | a registered handler runs on the entities, or on `{}` when they are missing or not a dict, and its reply is decorated under `intent/subintent` |
| Dispatch.ExecuteUnregistered | modules/operation_manager.py:176-187 | an unregistered pair yields `No handler for intent/subintent` with operation `unknown` and `success False` |
| Dispatch.ExecuteUnhashable | modules/operation_manager.py:131-140 | an intent that is a list or an object makes the registry lookup raise `unhashable type`; so does a subintent when the intent is hashable; when both are hashable the operation gives a result |
| Dispatch.DecorateFailure | modules/operation_manager.py:109-121 | decorating the fallback's reply turns its `success False` into `True` and keeps its details |
| Dispatch.RecognitionFailureReachesHandler | modules/operation_manager.py:62-67 | in a manager built by the constructor a recognition failure always reaches the registered fallback, so the branch at lines 180-181 is never taken |
| Dispatch.RecognitionFailureReportsSuccess | modules/operation_manager.py:123-163 | the reply to a recognition failure therefore reports `success True`, naming `error/recognition_failed`, with its error details kept |
| Intent.UserPromptSpec | modules/intent_recognition.py:166-170 | the prompt starts with the text; it is the text alone exactly when the context is missing or empty, and otherwise ends with `"\n\nContext: "` and the serialised context |
| Intent.JsonTextSpec | modules/intent_recognition.py:181-187 | when a `}` follows the first `{`, exactly the span from that `{` through the last `}` is parsed; otherwise the whole response |
| Intent.JsonTextOutermost | modules/intent_recognition.py:181-184 | the span starts at the first `{` and ends at the last `}`: nothing before it is a `{` and nothing after it is a `}` |
| Intent.SetDefaultAt | modules/intent_recognition.py:192-195 | `setdefault` stores its value only under a missing key and leaves everything else as it was |
| Intent.SetDefaultsAt | modules/intent_recognition.py:192-195 | after the four `setdefault` calls a key reads as before if it was present, else as its default |
| Intent.SetDefaultsKeys | modules/intent_recognition.py:192-195 | after the defaults a key is present exactly when it was before or is one of the four required fields |
| Intent.SetDefaultsComplete | modules/intent_recognition.py:192-195 | the defaults change nothing on an object that has all four fields |
| Intent.FillFromSpec | modules/intent_recognition.py:190-195 | the loop either leaves the object as it is, when every field is present, or applies the four defaults |
| Intent.FillFromComplete | modules/intent_recognition.py:190-195 | the loop leaves an object with every field unchanged |
| Intent.FillDefaultsSpec | modules/intent_recognition.py:189-195 | after filling, a key the model gave keeps its value, a missing required field reads `unknown`, `unknown`, `{}` or `0.5`, all four fields are present, and filling twice is filling once |
| Intent.FailedSpec | modules/intent_recognition.py:213-220 | the failure result has intent `error`, subintent `recognition_failed`, confidence 0.0 and the message under `error_message` |
| Intent.UnparsedSpec | modules/intent_recognition.py:203-211 | the result for a non-JSON answer has intent `unknown`, subintent `general_query`, confidence 0.1, no entities and the raw response |
| Intent.RecognizeIntentSpec | modules/intent_recognition.py:159-220 | with the example's braces doubled, the model is asked with the user prompt and the system prompt that holds the taxonomy in place of `{intent_taxonomy}`, and the result is one of the four outcomes of Intent.RecognizeSpec for its answer |
| Intent.RecognizeSpec | modules/intent_recognition.py:166-220 | given a rendered system prompt, the model is asked with the user prompt and that system prompt; a failed call gives the failure result with the error message; an unparsable answer gives the `general_query` result with `raw_response`; a parsed object is returned with its missing fields filled; a parsed value that is not an object, or whose confidence cannot be formatted, gives the failure result |
| Intent.RecognizeRaises | modules/intent_recognition.py:159-220 | when building the system prompt raises, the result is the `recognition_failed` result with confidence 0.0 whose entities hold the error's text as `error_message`, whatever the text, context and the model would answer |
| Intent.WrittenRecognizeIntentFails | modules/intent_recognition.py:118-220 | with the prompt as written, every call gives the `recognition_failed` result for the KeyError on the field name `\n  "intent"`, whatever the text, context, taxonomy and the model's answer (see Findings) |
| IntentPrompt.TaxonomyKeyBare | modules/intent_recognition.py:129 | the placeholder `{intent_taxonomy}` names the keyword argument itself: no index, attribute, conversion or format spec |
| IntentPrompt.FirstKeyBare | modules/intent_recognition.py:134-135 | the text between the example's opening brace and its first colon (a newline, two spaces and `"intent"` in quotes) is, to `str.format`, a field name other than `intent_taxonomy` |
| IntentPrompt.ObjectRaises | modules/intent_recognition.py:134-142 | formatting any JSON object in single braces with one nested object, whose first key text is a field name other than the keyword, raises KeyError for that key text |
| IntentPrompt.ExampleRaises | modules/intent_recognition.py:134-143 | the example response of the prompt as written raises KeyError for `\n  "intent"` when formatted |
| IntentPrompt.TemplateRaises | modules/intent_recognition.py:118-143 | a template of brace-free text, the keyword's placeholder, brace-free text and then a part that raises, raises that same error: nothing is returned for the text before it |
| IntentPrompt.WrittenTemplateRaises | modules/intent_recognition.py:118-164 | `INTENT_RECOGNITION_PROMPT.format(intent_taxonomy=...)` raises KeyError for `\n  "intent"`, whatever the taxonomy text |
| IntentPrompt.EscapeObject | modules/intent_recognition.py:134-142 | doubling every brace of a JSON object in single braces with one nested object gives the same object in doubled braces, its other text unchanged |
| IntentPrompt.TemplateRenders | modules/intent_recognition.py:118-143 | brace-free text, the keyword's placeholder and an escaped tail render as the text, the value in place of the placeholder, and the tail as it was before escaping |
| IntentPrompt.ObjectRenders | modules/intent_recognition.py:118-143 | a template whose example object has doubled braces renders as its head, the value, its lead and the object in single braces |
| IntentPrompt.CorrectedTemplateRenders | modules/intent_recognition.py:118-164 | the prompt with the example's braces doubled, formatted with any taxonomy text, renders the intended system prompt: the taxonomy in place of `{intent_taxonomy}` and the example object in single braces |
| StrFormat.FormatPlain | modules/intent_recognition.py:162-164 | `str.format` copies text without braces unchanged and goes on with what follows it |
| StrFormat.FormatEscape | modules/intent_recognition.py:162-164 | an escaped text formats back to the text itself, followed by what the rest of the template gives |
| StrFormat.EscapeRoundTrip | modules/intent_recognition.py:162-164 | formatting the escape of any text gives back that text, whatever the keyword, value and rendering |
| StrFormat.EscapeAppend | modules/intent_recognition.py:162-164 | escaping a concatenation escapes each part |
| StrFormat.EscapePlain | modules/intent_recognition.py:162-164 | text without braces is its own escape |
| StrFormat.FieldEndPlain | modules/intent_recognition.py:162-164 | in a format spec, the brace that closes the field lies past any brace-free prefix, shifted by its length, and is missing exactly when it is missing without the prefix |
| StrFormat.NameEndAt | modules/intent_recognition.py:162-164 | a field name runs to the first `:`, `!`, `{` or `}` when no `[` comes before it |
| StrFormat.FieldIsKey | modules/intent_recognition.py:162-164 | a field that is exactly the keyword renders as the keyword's value |
| StrFormat.FieldNotKey | modules/intent_recognition.py:162-164 | a field whose name is another plain name raises KeyError for that name, whatever its format spec |
| StrFormat.FormatKey | modules/intent_recognition.py:162-164 | a template that starts with the keyword's placeholder renders the value followed by what the rest gives |
| StrFormat.FormatAroundKey | modules/intent_recognition.py:162-164 | brace-free text, the keyword's placeholder and a rest render as the text and the value followed by what the rest gives, or raise what the rest raises |
| StrFormat.FieldEndNested | modules/intent_recognition.py:162-164 | a format spec holding one nested `{...}` of brace-free text closes the field at the second `}` |
| StrFormat.FormatFieldRaises | modules/intent_recognition.py:162-164 | when the field that opens a template raises, formatting the whole template raises the same error |
| StrFormat.SpecFieldClose | modules/intent_recognition.py:162-164 | a plain name followed by `:` and a format spec closes at the `}` that balances the spec's nested braces |
| StrFormat.IndexHidesOpen | modules/intent_recognition.py:162-164 | a `{` inside an index `[...]` of a field name is skipped, so `"{a[{]}"` formatted with another keyword raises KeyError for `a` |
| StrFormat.IndexHidesClose | modules/intent_recognition.py:162-164 | a `}` inside an index `[...]` does not close the field, so `"{a[}]}"` with keyword `a` renders the whole field `a[}]` |
| Response.EntryLines | modules/response_generation.py:65-69 | a nested dict gives one line per entry |
| Response.GenerateTextResponseSpec | modules/response_generation.py:35-41 | an `error` key wins and yields the apology ending with the error; then `formatted_response` verbatim; then `result` verbatim when it is a string |
| Response.GenerateFormatsData | modules/response_generation.py:43-50 | otherwise a dict `data` is rendered by `format_data_response` with ` for <operation>` taken from `_metadata`, `unknown` when it names none |
| Response.GenerateFallsBack | modules/response_generation.py:43-52 | otherwise a `_metadata` that is not a dict makes the call raise, and a result without a dict `data` is spoken as its JSON serialisation |
| Response.ReadableHasNoUnderscore | modules/response_generation.py:63 | a rendered key has no underscore left |
| Response.NoUnderscoreAfterReplace | modules/response_generation.py:63 | `replace("_", " ")` leaves no underscore |
| Response.TitleKeepsCount | modules/response_generation.py:63 | `title()` does not create underscores |
| Response.NoneCounted | modules/response_generation.py:63 | a character absent from a string is counted zero times |
| Response.DataLinesPublic | modules/response_generation.py:60-62 | the lines of a dict are the lines of its entries whose keys do not start with `_` |
| Response.LookupPublic | modules/response_generation.py:61-62 | dropping the private keys keeps every public entry |
| Response.FormatDataIgnoresPrivate | modules/response_generation.py:55-82 | keys starting with `_` never reach the text: the rendering of a dict is that of its public entries alone |
| Response.FormatDataHeader | modules/response_generation.py:59-82 | without a `message` the text opens with the header line, and is the header alone when there are no public entries |
| Response.FormatDataMessage | modules/response_generation.py:56-57 | a `message` is returned verbatim, whatever the other entries are |
| Security.CheckPermissionSpec | modules/security.py:111-114 | for a user whose permissions are a list, or absent, the check holds exactly when `admin` or the required permission is listed |
| Security.AdminHoldsEverything | modules/security.py:112-113 | an administrator passes every permission check |
| Security.NoPermissionsHoldsNothing | modules/security.py:114 | a user without a permissions entry fails every check |
| Security.SanitizeIsEscape | modules/security.py:117-119 | the two chained replacements amount to escaping each character on its own (`<` as `&lt;`, `>` as `&gt;`, anything else unchanged) |
| Security.EscapeHasNoBrackets | modules/security.py:118 | escaped text holds no angle bracket |
| Security.EscapeKeepsBracketFree | modules/security.py:118 | text without brackets escapes to itself |
| Security.EscapeLength | modules/security.py:118 | each bracket lengthens the text by three characters |
| Security.SanitizeSpec | modules/security.py:117-119 | sanitised text has no angle bracket, sanitising is idempotent, it changes exactly the texts holding a bracket, and each bracket adds three characters |
| Security.RateLimitSpec | modules/security.py:122-152 | disabled, the check admits and touches no counter; enabled, it touches only the caller's counter, creating it with count 0 and reset time `now + timeframe`, restarting it only when `now` is strictly past the reset time, and admitting (and counting) exactly when the count is below the limit |
| Security.CountStaysBounded | modules/security.py:147-152 | a counter at or below the limit stays at or below it |
| Security.AtMostLimitPerWindow | modules/security.py:143-152 | within one window a client already at count `c` is admitted at most `limit - c` more times, each admission counted, and the window keeps its end |
| Financing.ParseYearsSpec | modules/operations/external_financing.py:1406-1411 | a period `Ny` reads back as N years, and a text not ending in `y` gives the default (1 for interest, 5 for maturity) |
| Financing.DivideYears | modules/operations/external_financing.py:1446-1451 | carrying months into years: `(12y + x) // 12 = y + x // 12` and the remainder is `x % 12` |
| Financing.ShiftIsMonthShift | modules/operations/external_financing.py:1445-1452 | the quarterly and semi-annual formulas land `k` months on, on the same day, in a month 1..12, and fail exactly when that date does not exist |
| Financing.MonthlyIsMonthShift | modules/operations/external_financing.py:1441-1444 | the monthly step, `month % 12 + 1` and a year bump on reaching January, lands one month on, same day |
| Financing.AnnualIsMonthShift | modules/operations/external_financing.py:1453-1454 | the annual step lands twelve months on, same day |
| Financing.StepIsMonthShift | modules/operations/external_financing.py:1440-1456 | every frequency moves the date by its fixed number of months (0 for an unknown one) and keeps the day |
| Financing.StayIsMonthShift | modules/operations/external_financing.py:1440-1456 | an unknown frequency leaves the date where it is |
| Financing.StepAdvances | modules/operations/external_financing.py:1440-1456 | a step that succeeds stays on the same day in a valid month, and with a moving frequency lands strictly later |
| Financing.PaymentDatesSpec | modules/operations/external_financing.py:1423-1456 | a schedule has `payments_per_year * years` dates (unknown frequencies count 4 a year, `at maturity` stops after one), and the i-th is `i` steps on from the first |
| Financing.PaymentDatesIncrease | modules/operations/external_financing.py:1432-1456 | with a moving frequency the payment dates strictly increase |
| Financing.PaymentDatesDefined | modules/operations/external_financing.py:1440-1456 | a schedule on the 28th or earlier never hits a missing day while it stays inside the calendar |
| Financing.InterestPayments | modules/operations/external_financing.py:1432-1438 | one interest entry per payment date |
| Financing.ByDateIsOrder | modules/operations/external_financing.py:1471 | sorting by the ISO date text is by a total, transitive order |
| Financing.TimesIsProduct | modules/operations/external_financing.py:1474 | adding `n` equal instalments gives `n` times the instalment |
| Financing.SumOfKind | modules/operations/external_financing.py:1474-1488 | the interest total counts only Interest entries, the principal total only Principal ones |
| Financing.SortedByDate | modules/operations/external_financing.py:1471 | the sorted schedule is a permutation of the entries in date order |
| Financing.ScheduleTotals | modules/operations/external_financing.py:1471-1488 | sorting does not change the interest and principal totals |
| Financing.PaymentScheduleAssembled | modules/operations/external_financing.py:1402-1474 | a schedule is built from the stepped dates and the horizon date `now + 365 * years` |
| Financing.PaymentScheduleSorted | modules/operations/external_financing.py:1471 | the schedule is in date order |
| Financing.PaymentScheduleContents | modules/operations/external_financing.py:1432-1468 | the schedule holds one interest entry per payment and the principal repayment exactly when maturity falls on or before the horizon |
| Financing.PaymentScheduleTotals | modules/operations/external_financing.py:1474-1488 | total interest is one instalment per payment; total principal is the outstanding amount when due and 0 otherwise |
| Financing.AssembleSorted | modules/operations/external_financing.py:1471 | the assembled schedule is in date order |
| Financing.AssembleContents | modules/operations/external_financing.py:1432-1471 | the assembled schedule has one entry per date plus the principal exactly when due |
| Financing.AssembleTotals | modules/operations/external_financing.py:1474-1488 | the assembled totals are the instalments and the principal when due |
| Financing.PaymentParts | modules/operations/external_financing.py:1433-1468 | interest entries carry the instalment, the principal entry the outstanding amount, and it is present only when due |
| Financing.InterestPaymentSpec | modules/operations/external_financing.py:1393-1400 | an unknown debt id returns the error listing every available id; a known one is scheduled from its own record |
| Financing.InterestPaymentUnhashable | modules/operations/external_financing.py:1393-1400 | a truthy `debt_id` that is a list or an object raises `unhashable type` in the lookup; a falsy one gives the portfolio branch |
| Financing.TotalDebtLast | modules/operations/external_financing.py:1219 | the total debt adds each debt's outstanding amount |
| Financing.AddDebtSpec | modules/operations/external_financing.py:1188-1213 | visiting a debt adds one to the counts and its amount to the totals, keeps each year's currency split equal to its total, and adds its year to the keys |
| Financing.AddDebtSums | modules/operations/external_financing.py:1199-1200 | the joined year gains one debt and the debt's amount |
| Financing.JoinedBalanced | modules/operations/external_financing.py:1202-1205 | a year whose currency split matched its total still does after the debt joins |
| Financing.AddDebtKeys | modules/operations/external_financing.py:1189-1197 | visiting a debt adds its maturity year, and no other, to the groups |
| Financing.GroupByYearLast | modules/operations/external_financing.py:1188-1197 | the last debt visited adds its year to the years seen before |
| Financing.Years | modules/operations/external_financing.py:1189 | a debt's year is the first four characters of its maturity date |
| Financing.GroupByYearKeys | modules/operations/external_financing.py:1187-1213 | the grouped years are exactly the maturity years of the debts |
| Financing.GroupByYearSums | modules/operations/external_financing.py:1187-1219 | per-year counts add up to the number of debts, per-year totals to the total debt, and each year's currency split to its total |
| Financing.MajorYearsSpec | modules/operations/external_financing.py:1220-1223 | for a positive total, a year is major exactly when its total is more than a fifth of the total debt |
| Financing.ShareAboveFifth | modules/operations/external_financing.py:1220-1223 | for a positive total, a share is above 0.2 of it exactly when five times the share exceeds the total |
| Financing.AddDebtUnique | modules/operations/external_financing.py:1191-1197 | a year is created only when it is not grouped yet |
| Financing.GroupByYearUnique | modules/operations/external_financing.py:1187-1213 | every year is grouped once |
| Financing.DebtMaturitySpec | modules/operations/external_financing.py:1171-1223 | the currency filter keeps exactly the debts of that currency; the years are listed once each, ascending; counts and totals add up; major years are those above a fifth of the total |
| Accounting.QuarterStart | modules/operations/accounting.py:67 | the quarter's first month is one of 1, 4, 7, 10 and is the latest such month not after the current one |
| Accounting.ToDateRange | modules/operations/accounting.py:52-69 | `current_month`, `ytd` and `quarter` run from the first of this month, of January, or of the quarter's first month, up to today; the start is never after today and lies within one, twelve or three months of it |
| Accounting.PreviousMonthRange | modules/operations/accounting.py:55-62 | `previous_month` runs from the first to the last day of the month before this one, stepping back a year in January |
| Accounting.PreviousMonthOfYearOne | modules/operations/accounting.py:56-58 | in January of year 1 the step back raises |
| Accounting.CustomRange | modules/operations/accounting.py:70-77 | any other text with exactly one `:` splits there into start and end; every other shape falls back to the current month |
| Accounting.Available | modules/operations/accounting.py:187 | one `number: name` entry per account |
| Accounting.GroupByKindSpec | modules/operations/accounting.py:348-358 | each type present lists exactly its accounts in table order, and an absent type has no list |
| Accounting.GroupByKindSums | modules/operations/accounting.py:348-358 | the per-type lists share out the accounts: their sizes add up to the table's size and their balances to its total |
| Accounting.SummarizeSpec | modules/operations/accounting.py:360-372 | each type's total is the sum of its accounts' balances; the headline totals agree with them; net income is revenue less expenses; the per-type totals add up to the whole |
| Accounting.TotalsByKind | modules/operations/accounting.py:361-371 | the per-type total and the filtered sum over all accounts agree, a type without accounts counting 0 |
| Accounting.LedgerByNumber | modules/operations/accounting.py:100-193 | a known account number gives its account when its period parses as two ISO dates in order, and raises otherwise (`strptime`, `randint`); an unknown one gives the error listing every account |
| Accounting.LedgerByName | modules/operations/accounting.py:306-343 | a name selects exactly the accounts whose names contain it, ignoring case: none gives the error listing every account, one is that account's detail unless its period raises in the sample transactions, several are listed |
| Accounting.PresetWindows | modules/operations/accounting.py:52-108 | each preset period (`current_month`, `previous_month`, `ytd`, `quarter`) gives two ISO dates in order, so `strptime` and `randint` accept them |
| Accounting.IsoRange | modules/operations/accounting.py:70-77 | a custom period of two ISO dates joined by `:` splits into those two dates |
| Accounting.IsoWindow | modules/operations/accounting.py:100-108 | two ISO dates parse back to those dates, and `randint(0, days - 1)` raises `empty range for randrange()` exactly when the end is before the start |
| Accounting.ReversedRangeRaises | modules/operations/accounting.py:70-192 | a custom period whose end is an earlier date than its start is accepted as a period, but a known account then raises when its sample transactions are made |
| Accounting.NonDateRangeRaises | modules/operations/accounting.py:70-192 | a custom period whose parts are not dates is accepted as a period, but a known account then raises in `strptime` |
| Accounting.BalancedIffNetZero | modules/operations/accounting.py:493-512 | an entry is balanced exactly when its lines' debits less credits net to zero |
| Accounting.AccountNames | modules/operations/accounting.py:501-509 | each line names its account's ledger name, and an account missing from the ledger raises |
| Accounting.Summaries | modules/operations/accounting.py:610-621 | one summary per entry |
| Accounting.LaterIsOrder | modules/operations/accounting.py:604-608 | sorting by date descending is by a total, transitive order |
| Accounting.JournalByNumber | modules/operations/accounting.py:482-512 | an unknown entry lists the known ones; a known one reports its debit and credit totals, balanced exactly when the lines net to zero, and the ledger name of every line's account, failing exactly when some account is missing |
| Accounting.JournalTemplate | modules/operations/accounting.py:536-556 | asking for an entry type gives the template request exactly when the amount is absent, falsy or a number; a non-empty text amount raises `Unknown format code 'f' for object of type 'str'` from `:,.2f` |
| Accounting.RecentEntriesSpec | modules/operations/accounting.py:601-632 | the recent entries list every entry once, newest first, each with its total debits as amount and its number of lines |
| Accounting.Rows | modules/operations/accounting.py:851-862 | the summary lists one row per reconciliation with the difference `gl_balance - comparison`, and raises exactly when a comparison figure is missing |
| Accounting.StatusCount | modules/operations/accounting.py:837-839 | a status count never exceeds the number of reconciliations |
| Accounting.StatusCountsBounded | modules/operations/accounting.py:837-839 | complete, in-progress and not-started counts add up to at most the total |
| Accounting.StatisticsSpec | modules/operations/accounting.py:844-850 | the counts fit in the total and the completion percentage lies between 0 and 100, is 0 when there is nothing and 100 when all are complete |
| Accounting.ShareBounds | modules/operations/accounting.py:849 | a part of a positive whole, as a percentage, lies between 0 and 100 |
| Accounting.SelectedSpec | modules/operations/accounting.py:828-834 | type `all` keeps every reconciliation; any other type keeps exactly those of that type |
| Accounting.RecAvailable | modules/operations/accounting.py:794 | one `number: name` entry per reconciliation |
| Accounting.ReconciliationSummarySpec | modules/operations/accounting.py:826-862 | the summary fails exactly when a selected reconciliation lacks its comparison figure, and otherwise counts and lists the selected ones |
| Accounting.ReconciliationByNumber | modules/operations/accounting.py:710-785 | an unknown account lists the known ones; a known one reports its difference and the total of its unreconciled items, failing exactly when its comparison figure is missing |
| Accounting.SampleHasFigures | modules/operations/accounting.py:652-708 | every reconciliation of the table stores its comparison figure under the key of its own type |
| Accounting.InventoryLacksWrittenKey | modules/operations/accounting.py:652-722 | the inventory record (1020) has no `physical_balance`, only `physical_count` |
| Accounting.WrittenSummaryFails | modules/operations/accounting.py:826-862 | as written, the summaries of type `all` and `physical` raise a KeyError |
| Accounting.WrittenDetailFails | modules/operations/accounting.py:710-722 | as written, the detail of account 1020 raises the same KeyError |
| Accounting.ComparisonKeySummary | modules/operations/accounting.py:826-862 | reading each type's own key, the summary never raises, whatever type is asked for |
| Accounting.ComparisonKeyDetail | modules/operations/accounting.py:710-785 | reading each type's own key, the detail of every account of the table is reported |
| Accounting.UnhashableNumber | modules/operations/accounting.py:182-192 | an account, entry or reconciliation number that is a list or an object raises `unhashable type` in the `not in` lookup of the ledger (and likewise at lines 484 and 712 for the journal and reconciliations) |
| Cash.Truncate | modules/operations/cash_management.py:129 | `int()` of a float truncates toward zero |
| Cash.ToIntSpec | modules/operations/cash_management.py:129 | an integer, its decimal text and a whole float all convert to the same period count |
| Cash.TruncateWhole | modules/operations/cash_management.py:129 | a whole float truncates to itself |
| Cash.MonthAfter | modules/operations/cash_management.py:163-165 | the month period `i` is `i` months after today's month, with the month kept in 1..12 and the overflow carried into the year |
| Cash.QuarterAfter | modules/operations/cash_management.py:169-171 | the quarter period `i` starts in month 1, 4, 7 or 10 of the quarter `i` quarters after today's, the year advancing every four quarters |
| Cash.MonthNameSpec | modules/operations/cash_management.py:162-167 | a month period is named `%b %Y` after the month `i` months on, and can be named exactly when that month is inside the calendar |
| Cash.QuarterNameSpec | modules/operations/cash_management.py:168-176 | a quarter period is named `Q<n> <year>` with `n` in 1..4 after the quarter `i` quarters on |
| Cash.WrittenNameAgrees | modules/operations/cash_management.py:156-176 | where the handler as written names a period it gives that same name; it fails exactly when today's day is missing from the target month |
| Cash.ForecastRowsDefined | modules/operations/cash_management.py:154-193 | the rows exist exactly when every period can be named |
| Cash.ForecastRowsSpec | modules/operations/cash_management.py:152-193 | one row per period; the first begins at the starting balance, each later one at the previous row's ending; row `i` has inflows `800000 + 50000 i`, outflows `700000 + 30000 i`, `net = inflows - outflows` and `ending = beginning + net` |
| Cash.ClosedForm | modules/operations/cash_management.py:152-193 | row `k` ends at `1500000 + 100000 (k + 1) + 10000 k (k + 1)` |
| Cash.ForecastSpec | modules/operations/cash_management.py:127-228 | sample rows come only without context, exactly `num_periods` of them, chained from 1,500,000 and ending where the closed form says; a count of zero or less fails on reading the first row |
| Cash.WrittenMonthsFail | modules/operations/cash_management.py:162-167 | as written, the default three-month forecast on 31 January raises on 31 February |
| Cash.WrittenQuartersFail | modules/operations/cash_management.py:168-176 | as written, a quarter forecast on 31 January raises on 31 April |
| Cash.CorrectedForecastSucceeds | modules/operations/cash_management.py:154-193 | naming periods from their year and month alone, that same request gives its three rows, the last ending at 1,860,000 |
| Cash.Metrics | modules/operations/cash_management.py:289-311 | all six metrics, in the order they are computed |
| Cash.Wanted | modules/operations/cash_management.py:289-311 | one flag per metric |
| Cash.Pick | modules/operations/cash_management.py:289-311 | picking the metrics asked for never yields more entries than there are metrics |
| Cash.PickMisses | modules/operations/cash_management.py:287-311 | a key that is not a metric is never computed |
| Cash.PickSpec | modules/operations/cash_management.py:289-311 | a metric is computed, with its value, exactly when it is asked for |
| Cash.KeysHas | modules/operations/cash_management.py:287 | every entry's key is a key of the dict |
| Cash.KeysMiss | modules/operations/cash_management.py:287 | a key no entry has is not a key of the dict |
| Cash.DistinctKeysUnique | modules/operations/cash_management.py:287 | entries with pairwise different keys form a dict |
| Cash.PickKeys | modules/operations/cash_management.py:289-311 | only keys of the full metric set are picked |
| Cash.PickMissesAll | modules/operations/cash_management.py:289-311 | a key outside the metric set is never picked |
| Cash.RatiosSpec | modules/operations/cash_management.py:289-301 | a successful computation holds exactly the metrics asked for, each under its name with its value; the current, quick and cash ratios are the quotients of current assets, current assets less inventory, and cash by the current liabilities |
| Cash.Request | modules/operations/cash_management.py:241-242 | a request carries its period and its metric list |
| Cash.LiquiditySpec | modules/operations/cash_management.py:241-311 | an unknown period returns the error listing the known ones; for a known period exactly the listed metrics are computed, and working capital is current assets less current liabilities |
| Cash.LiquidityUnhashable | modules/operations/cash_management.py:241-286 | a `time_period` that is a list or an object raises `unhashable type` in the lookup of the period data |
| Cash.OnlyMetrics | modules/operations/cash_management.py:287-311 | nothing but a metric appears among the ratios |
| Cash.LoneMetric | modules/operations/cash_management.py:244-245 | a single metric name is treated as a one-element list |
| Cash.SampleAnswers | modules/operations/cash_management.py:247-311 | every period of the table has liabilities to divide by, so every metric list is answered |
| Strings.LastIndexOfIsLast | modules/file_manager.py:160 | `rfind` finds the last occurrence, and nothing exactly when the marker does not occur |
| Strings.IndexOfIsFirst | modules/intent_recognition.py:181 | `find` finds the first occurrence, and nothing exactly when the text does not occur |
| Strings.ParseIntToString | modules/operations/external_financing.py:1409 | `int()` reads back the decimal text of every integer, negative ones included |
| Strings.SplitOnSpec | modules/operations/accounting.py:73 | `split(":")` gives one more part than there are colons, no part holds a colon, and joining the parts with `:` gives the text back |
| Strings.SplitOnNone | modules/operations/accounting.py:73 | `split(":")` of a text without a colon is the text alone |
| Strings.SplitOnPair | modules/operations/accounting.py:73 | `split(":")` of two colon-free texts joined by one colon gives exactly those two texts |
| Sorting.StrLeIsOrder | modules/operations/external_financing.py:1216 | Python's string comparison is a total, transitive order |
| Sorting.SortBySpec | modules/operations/external_financing.py:1471 | sorting by a total, transitive order gives a sorted permutation of the input |
| Sorting.SumOfPermutation | modules/operations/external_financing.py:1474 | a sum does not depend on the order of the terms |
| Sorting.SortByStable | modules/operations/external_financing.py:1471 | `list.sort` is stable: the elements that compare equal to any given one come out in their input order |
| OrderedDict.SetSpec | modules/operation_manager.py:43 | assigning a key stores its value, leaves every other key alone, keeps an existing key in place and appends a new one |
| OrderedDict.UpdateSpec | modules/operation_manager.py:149-153 | `update` makes the new entries win and leaves every other key as it was |
| OrderedDict.FilterSpec | modules/operations/accounting.py:831-834 | a dict comprehension with a condition keeps exactly the entries that satisfy it |
| Dates.OrdinalOrder | modules/operations/external_financing.py:1462 | comparing dates is comparing their day numbers, and distinct dates have distinct day numbers |
| Dates.DayBeforeFirst | modules/operations/accounting.py:61 | the day before the first of a month is the last day of the month before it |
| Dates.IsoYear | modules/operations/external_financing.py:1189 | the first four characters of a date's ISO text are its year |
| Dates.IsoOrder | modules/operations/external_financing.py:1471 | comparing ISO texts as strings orders dates as the calendar does |
| Dates.ParseIso | modules/operations/accounting.py:102-103 | a text `strptime(..., "%Y-%m-%d")` accepts parses to a valid date |
| Dates.ParseIsoIso | modules/operations/accounting.py:102-103 | `strptime` reads back the date `strftime("%Y-%m-%d")` wrote |
| Dates.IsoRest | modules/operations/accounting.py:102-103 | after the year, the ISO text of a date holds a two-digit month and a two-digit day that read back as that month and day |
| Dates.IsoNoColon | modules/operations/accounting.py:73 | the ISO text of a date holds no colon, so a period of two dates splits at its one colon |
| Dates.TwoDigits | modules/operations/accounting.py:102-103 | a number below 100 is written as its tens digit and then its units digit |
| Dates.MonthField | modules/operations/accounting.py:102-103 | a month field `strptime` accepts lies between 1 and 12 |
| Dates.DayField | modules/operations/accounting.py:102-103 | a day field `strptime` accepts lies between 1 and 31 |
| Dates.MonthDigits | modules/operations/accounting.py:102-103 | `%m` reads the two zero-padded digits `strftime` writes for a month back as that month |
| Dates.DayDigits | modules/operations/accounting.py:102-103 | `%d` reads the two zero-padded digits `strftime` writes for a day back as that day |

## Left out

- The FAISS index and the sentence embedder are not modelled. A search is an oracle `index(k)` that returns the candidate row numbers, or `None` when encoding or searching raises. Distances are not modelled.
- Exception messages: an `Err` carries a short description of the exception, not Python's message text. `execute_operation` puts `str(e)` under `error` (`modules/operation_manager.py:168-169`), so the text a user sees differs: for example, Python says `'int' object has no attribute 'endswith'` for a numeric `time_period` in `handle_interest_payment`, and `invalid literal for int() with base 10: 'x'` for a bad number, and the size and type rejections of `modules/file_manager.py:175-182` name the limits and the allowed types. The `unhashable type` errors and the journal's `Unknown format code` error do carry Python's text.
- Writing the index and the pickle, loading them in `initialize`, and the executor threads are not modelled. Success or failure of a save is a boolean parameter.
- pdfplumber, pandas, python-docx and `UploadFile.read` are not modelled. Each upload carries what its parser produced (pages, sheets, paragraphs, a CSV table or text), or the error it raised.
- Ingest.TooLarge: the size check compares in exact arithmetic, not as a float division. The two agree on every size `len(content)` can have.
- Ingest.Split: uses the corrected break rule, which ignores breaks inside the overlap (see Findings). Where every window of `split_text` moves the start forward, it gives the same chunks (`Chunker.CorrectedAgrees`). Elsewhere the two differ: `split_text` either never returns or steps back to a start at or before the stalled window's, emitting an empty chunk and skipping text when that start is negative (`Chunker.SourceDropsText`).
- Ingest.SectionSpec: "a longer section gives at least one chunk" describes the corrected splitter. On a text where `split_text` as written never moves its start forward, the source never returns (Chunker.SourceLoopsForever), so no chunk comes out at all.
- Ingest.SplitSpec: describes the corrected splitter. `split_text` as written can return an empty chunk, which this contract excludes.
- Ingest.SplitCovers: describes the corrected splitter. `split_text` as written can leave characters out of every chunk (characters 11 to 422 of `Chunker.BackText`).
- Ingest.SplitEnds: describes the corrected splitter. `split_text` as written need not finish (`Chunker.SourceLoopsForever`).
- Ingest.SplitHolds: describes the corrected splitter. `split_text` as written can leave a character out of every chunk.
- Ingest.TextDocsSpec: describes the corrected splitter. A `.txt` upload whose text makes `split_text` step back gets an empty document, and one that makes it loop never finishes.
- Chunker.PySplit: runs for at most `fuel` iterations, because the source loop need not terminate. `None` means "not finished within the fuel". `Chunker.SourceAgrees`, `Chunker.SourceAfterStall`, `Chunker.StalledDiverges` and `Chunker.SourceStepsBack` state the outcome: the span model's chunks when it completes, and otherwise its chunks followed by the loop from the stalled window's next start. The model does not follow, in general, a loop that steps back to a start that is not negative; it only states that the loop carries on from there.
- The language model, `json.loads`, `json.dumps` and `str()` are parameters (`llm`, `parse`, `dumps`, `show`). Nothing is assumed about the text they produce, and neither is the wording of messages built from them.
- Python's cross-type equality (`1 == 1.0 == True`) is not modelled. Neither is order-blind dict equality. The metadata filter compares values structurally, so a filter of `1` does not admit a stored `1.0`.
- Floats are exact reals: elapsed time, confidence, payment amounts, ratios and percentages. Rounding is not modelled. Financing.Times: the interest total is repeated addition of the instalment, and is proved equal to the exact product.
- Dates.ParseIso: accepts ASCII digits only. `strptime`'s `%Y`, `%m` and `%d` match any Unicode decimal digit, so a custom period written in, say, Arabic-Indic digits parses in the source and not in the model.
- Strings.ParseInt: accepts an optional sign and ASCII digits only. Python's `int()` also accepts surrounding whitespace, `_` separators and other Unicode digits.
- Strings.Lower, Strings.Title: handle ASCII letters only. `str.lower` and `str.title` also fold other alphabets.
- The `day` and `week` period names of the cash forecast are parameters (`dayStamp`, `weekStamp`). They format `timedelta` arithmetic with `strftime`, which the model does not carry out.
- Financing.Horizon: an overflow of `now + timedelta(days=365 * years)` is an error. The time of day is dropped, which does not change how a maturity date at midnight compares with the horizon.
- The random dates, amounts and descriptions of the sample transactions in `handle_general_ledger` are not modelled (`modules/operations/accounting.py:104-180`). What can make them raise is: the two `strptime` parses and the range check of `randint` (Accounting.SampleWindow). The analysis branch and the reconciliation guidance text are not modelled.
- The language-model template of `handle_journal_entry` is not modelled, except that its `:,.2f` amount raises for a text amount (Accounting.JournalTemplate).
- Cash.Liquidity: does not build the analysis message of `handle_liquidity_analysis` (`modules/operations/cash_management.py:313-331`), nor the strong/adequate/concerning grades it is built from; the operation's result is the ratios alone.
- StrFormat.Format: format specs, conversions, attribute and index lookups are the `render` parameter. Automatic field numbering and the too-many-digits error are not modelled; a numbered or empty field raises Positional, and only ASCII digits make a field numbered. Only one keyword argument is modelled, as in `recognize_intent`.
- `json.dumps(FINANCE_INTENTS, indent=2)` is the `taxonomy` parameter of the intent handler, and `str(e)` of a formatting error is `describe`.
- Intent.RecognizeIntent: models the prompt with the example's braces doubled. As written, every call fails before the model is asked (see Findings).
- The no-`debt_id` portfolio branch of `handle_interest_payment` is reduced to an outcome tag.
- Rag.Search: as for Rag.Walk, when a candidate index below `-len(documents)` raises an IndexError, the contract says only that the results are empty or already hold `top_k` documents; whether the loop reaches that candidate before it is full is not stated.
- Rag.Walk: when some candidate would raise an IndexError, the contract says only that the result is empty or already holds `top_k` documents. It does not say which, because that depends on whether the walk stops before reaching the faulting candidate.
- `OperationRegistry.register_module`, `list_available_operations`, and the logging in `handle_recognition_failed` are not modelled, because no result depends on them.
- JWT and bcrypt authentication, `audit_log`, the FastAPI routes, speech synthesis, voice input and the bank adapters are not modelled. The operation handlers outside accounting, cash management and external financing are not modelled either. Those modules, `modules/llm_module.py` and `main.py`, are not part of this model.

## Findings

| source | as written | input that shows it | evidently intended | confidence | as-written member | corrected member |
|---|---|---|---|---|---|---|
| modules/file_manager.py:157-166 | a break found at window offset `p < overlap` sets the next start to `start + p + 1 - overlap`, which is not past `start`. With `p + 1 == overlap` the `while` loop repeats the same window forever. With `p + 1 < overlap` from start 0 the next start is negative, `text[start:end]` slices backwards and appends an empty chunk, and in a long enough text the loop resumes past the cut, so the text between is in no chunk | under the configured chunk size 512 and overlap 50: 513 characters of `a` with a newline at offset 49 (the next start is 0 again, forever); 600 characters of `a` with a newline at offset 10 (the result is `[text[0:11], "", text[423:600]]`) | every window moves the start forward. Breaks inside the first `overlap` characters of a window are ignored, and the window is cut at full length instead | not executed | Chunker.SourceLoopsForever, Chunker.SourceDropsText | Chunker.CorrectedSplitsLoopingText, Chunker.CorrectedSplitsBackText, Chunker.CorrectedCompletes |
| modules/operations/accounting.py:722, 777-778, 858 | the comparison figure is read from `reconciliation[f"{type}_balance"]`, but the inventory reconciliation (account 1020, type `physical`) stores it as `physical_count` | the summary with `reconciliation_type` `all` or `physical`, or the detail of account 1020: each raises a KeyError | each type's figure is read from the key it is stored under: `bank_balance`, `subledger_balance`, `physical_count` | not executed | Accounting.WrittenSummaryFails, Accounting.WrittenDetailFails | Accounting.ComparisonKeySummary, Accounting.ComparisonKeyDetail |
| modules/operations/cash_management.py:166, 172-174 | the month and quarter periods are named by calling `start_date.replace(year=..., month=...)` on today's date, which raises when today's day does not exist in the target month | the default three-month forecast requested on 31 January (the second period is 31 February), or a quarter forecast on 31 January (31 April) | the period name depends only on its year and month | not executed | Cash.WrittenMonthsFail, Cash.WrittenQuartersFail | Cash.CorrectedForecastSucceeds, Cash.MonthNameSpec, Cash.QuarterNameSpec |
| modules/intent_recognition.py:118-164 | the example response in the system prompt is written in single braces. `str.format(intent_taxonomy=...)` reads `{\n  "intent": ... }` as a replacement field whose name is `\n  "intent"`, and raises KeyError. `recognize_intent` catches it and returns the `recognition_failed` result, so the model is never asked | any request, such as "What's our cash position?", with any taxonomy: the result has intent `error`, subintent `recognition_failed` and the KeyError's text as `error_message` | the example's braces are doubled (`{{`, `}}`), so the prompt renders with the taxonomy in place and the example in single braces | not executed | IntentPrompt.WrittenTemplateRaises, Intent.WrittenRecognizeIntentFails | IntentPrompt.CorrectedTemplateRenders, Intent.RecognizeIntentSpec |
