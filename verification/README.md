# EduAgent retrieval-augmented tutor, modelled in Dafny

EduAgent answers secondary-school physics questions. The pipeline runs in this order:
- split the course document into paragraph chunks;
- embed the chunks and store them in a vector collection under ids `"0"`, `"1"`, …;
- retrieve the nearest chunks for a question and rerank them with a cross-encoder;
- have a language model answer from a fixed teaching prompt built around the best chunk.

A small Flask server exposes this behind `/api/ask`. It falls back to a keyword-driven demo answerer when the pipeline cannot be built, and it stores conversations as `Session_<id>.json` files. A browser client keeps the transcript, lets the user regenerate a reply, and has its own keyword answers for when the server is unreachable.

This project models that core, one Dafny module per source file:

| module | file | models |
|---|---|---|
| `Chunking` | chunking.dfy | `split_into_chunks`: the paragraph split |
| `Reranking` | reranking.dfy | `Reranker.rerank`: pairing, scoring, a stable descending sort, the `top_k` slice |
| `QueryClassifier` | query_classifier.dfy | `QueryClassifier.classify`: the prompt, reply normalisation, label check, fallback |
| `Generation` | generation.dfy | `ResponseGenerator.generate`: the knowledge block and the prompt template |
| `Indexing` | indexing.dfy | `VectorIndexer`: `embed_chunks`, `save_embeddings`, `build_index` |
| `Conversations` | conversations.dfy | session file names, `list_conversations`, `update_conversation` |
| `Server` | server.dfy | the demo and pipeline answerers, `initialize_edu_agent`, `ask_question` |
| `Client` | client.dfy | the web client's transcript logic |

The shared modules are:
- `Outcomes`: `Option` and `Result`.
- `Text`: Python's `split`, `join`, `strip`, `lower` and `replace`; JavaScript's `trim`; `str(i)`; the first-keyword lookup.
- `StableSort`: Python's stable `sort(key=…, reverse=True)`, as a specification and as an in-place array method.
- `JsonValues`: JSON values with Python's truthiness, `in`, subscript, `get` and `len`.

The external services become parameters: the embedder, the cross-encoder, the chat and text models, the retriever and the clock. A model call that can raise returns a `Result`, and the source's `except` branches are modelled on its `Err` case.

## Model

| member | source | states |
|---|---|---|
| Chunking.SplitParagraphs | src/chunking.py:7 | there is always at least one chunk, and the first chunk is a prefix of the document |
| Chunking.JoinSplit | src/chunking.py:7 | joining the chunks with `"\n\n"` gives back the document exactly |
| Chunking.SplitCount | src/chunking.py:7 | the number of chunks is the number of leftmost non-overlapping `"\n\n"` occurrences plus one |
| Chunking.SplitWellFormed | src/chunking.py:7 | no chunk contains `"\n\n"`, and no chunk except the last ends with a newline |
| Chunking.SplitJoin | src/chunking.py:7 | splitting the join of a well-formed chunk list gives that list back, so split and join are inverse bijections |
| Chunking.SplitNoSeparator | src/chunking.py:7 | a document without a separator is a single chunk |
| Chunking.ChunkAtOffset | src/chunking.py:7 | chunk k of a joined list is the slice at the offset given by the earlier chunks and separators |
| Chunking.SplitChunksInDocument | src/chunking.py:7 | every chunk is a contiguous slice of the document, at strictly increasing offsets in document order |
| Chunking.SplitExamples | src/chunking.py:7 | empty chunks are kept: `""` gives `[""]`, `"\n\n\n\n"` gives three empty chunks, and a leading separator gives a leading `""` |
| Chunking.SplitExampleOddRun | src/chunking.py:7 | a run of three newlines leaves a chunk that starts with `"\n"` |
| Reranking.Pairs | src/reranking.py:13 | one `(query, chunk)` pair per chunk, in chunk order |
| Reranking.Zip | src/reranking.py:17 | `zip` pairs entry i with entry i and stops at the shorter list |
| Reranking.PySliceTo | src/reranking.py:21 | `[:top_k]` yields a prefix, including for a negative `top_k` |
| Reranking.ScoreLessIsStrictTotalOrder | src/reranking.py:18 | the sort key orders the scored pairs by a strict total order on scores |
| Reranking.Rerank | src/reranking.py:10-21 | the method, which sorts an array in place, returns exactly the specified reranking, or the predictor's error |
| Reranking.ZipChunks | src/reranking.py:17 | the chunk column of the zipped pairs is the chunk list cut to the number of scores |
| Reranking.RerankedLength | src/reranking.py:21 | with one score per chunk: `min(top_k, n)` chunks for `top_k >= 0`, and the last `-top_k` dropped otherwise |
| Reranking.RerankedIsKept | src/reranking.py:17-21 | the result is the chunk column of the kept pairs, and the kept and dropped pairs together are exactly the zipped pairs |
| Reranking.KeptNonIncreasing | src/reranking.py:18 | the returned chunks' scores are non-increasing |
| Reranking.KeptOutscoreDropped | src/reranking.py:18-21 | every returned chunk scores at least as high as every chunk that was cut off |
| Reranking.RerankedSubMultiset | src/reranking.py:17-21 | the result is a sub-multiset of the input chunks |
| Reranking.RerankedFirstIsBest | src/reranking.py:17-21 | a non-empty result starts with a scored input chunk whose score is the highest of all |
| Reranking.RankedStable | src/reranking.py:18 | equal scores keep their original relative order |
| Reranking.RerankedTieExample | src/reranking.py:18-21 | with scores `[1, 3, 1]` and `top_k = 2`, `["a", "b", "c"]` gives `["b", "a"]` |
| StableSort.SortInPlace | src/reranking.py:18 | the array afterwards holds the stable descending sort of its old contents |
| StableSort.SortDescSorted | src/reranking.py:18 | the sort's output is in descending key order |
| StableSort.SortDescPermutation | src/reranking.py:18 | the sort's output is a permutation of its input |
| StableSort.SortDescStable | src/reranking.py:18 | for each key, the subsequence of elements with that key is unchanged by the sort |
| QueryClassifier.PromptCarriesQuery | src/query_classifier.py:36-76 | the prompt carries the query verbatim right after the "待分类问题" heading, which follows the whole fixed rubric |
| QueryClassifier.ParseLabel | src/query_classifier.py:91-95 | a valid label comes back unchanged, and anything else becomes `"other"` |
| QueryClassifier.Classify | src/query_classifier.py:21-100 | the result is always one of the four labels |
| QueryClassifier.ClassifyReply | src/query_classifier.py:87-100 | whatever the chat client yields, the category is one of the four labels |
| QueryClassifier.ClassifyEchoesReply | src/query_classifier.py:87-100 | a category other than `"other"` is always the model's own content, normalised; and the result is `"other"` exactly when the call raised, the content is missing, or the normalised content is not one of the three real categories |
| QueryClassifier.NormalizeAround | src/query_classifier.py:88 | surrounding whitespace does not change the normalised reply |
| QueryClassifier.NormalizeTrimmed | src/query_classifier.py:88 | a reply with no surrounding whitespace is only lower-cased |
| QueryClassifier.NormalizeConceptExample | src/query_classifier.py:88 | `" Concept\n"` normalises to `"concept"` |
| QueryClassifier.NormalizeOtherExample | src/query_classifier.py:88 | `"\tOTHER "` normalises to `"other"` |
| QueryClassifier.ParseLabelNearMissExample | src/query_classifier.py:91-95 | `"concept."` is not a label and yields `"other"` |
| QueryClassifier.ParseLabelBlankExample | src/query_classifier.py:88-95 | a blank reply strips to nothing and yields `"other"` |
| QueryClassifier.ClassifyConceptExample | src/query_classifier.py:87-92 | a model reply of `" Concept\n"` classifies as `"concept"` |
| Generation.PromptSlots | src/generation.py:21-46 | the prompt is fixed text with two slots: the knowledge block right after the head, then the question right after the text that follows the block |
| Generation.KnowledgeBlockSmall | src/generation.py:20 | no passages give an empty block, and one passage is the block itself |
| Generation.KnowledgeBlockOrder | src/generation.py:20 | the passages appear in the block in order, each at its offset, and separator-free passages split back out |
| Generation.KnowledgeBlockOfDocument | src/generation.py:20 | the chunker's output joins back to the document |
| Generation.GenerateIsModelReply | src/generation.py:18-55 | the result is the text model's outcome, unchanged and uncaught, for a prompt holding the knowledge block and the question in their slots |
| Generation.CharsAsPassages | src/generation.py:20 | iterating a string yields one single-character passage per character, in order |
| Generation.TopChunkKnowledge | src/generation.py:20 | the corrected knowledge block for the top chunk is the chunk itself |
| Generation.TopChunkKnowledgeAsWrittenLength | src/generation.py:20 | as written, the block for a chunk of length n has length 3n-2 and differs from the chunk when n >= 2 |
| Generation.TopChunkKnowledgeAsWrittenShort | src/generation.py:20 | as written, a chunk of at most one character still reaches the prompt unchanged |
| Generation.TopChunkKnowledgeAsWrittenExample | src/generation.py:20 | as written, the chunk `"ab"` reaches the prompt as `"a\n\nb"` |
| Indexing.AddEntryEffect | src/indexing.py:25-29 | one `add`: the id joins the keys, a new id gets the entry, an existing id keeps its entry, and other ids are untouched |
| Indexing.VectorIndexer.EmbedChunks | src/indexing.py:18-20 | one embedding per chunk, entry i being the embedder's vector for chunk i |
| Indexing.VectorIndexer.SaveEmbeddings | src/indexing.py:22-29 | the loop adds `min(len(chunks), len(embeddings))` entries, entry i under id `str(i)` |
| Indexing.VectorIndexer.BuildIndex | src/indexing.py:31-34 | the collection afterwards is the old one plus one entry per chunk with its embedding |
| Indexing.VectorIndexer.BuildIndexFromEmpty | src/indexing.py:31-34 | from an empty collection: exactly one entry per chunk, with ids `"0"` to `str(n-1)`, and entry i holding chunk i and its embedding |
| Indexing.AddAllKeepsExisting | src/indexing.py:24-29 | filling never removes or overwrites an entry that was already present |
| Indexing.AddAllIds | src/indexing.py:24-29 | from an empty collection, the ids after n steps are exactly `str(0)` to `str(n-1)` |
| Indexing.NextIdIsNew | src/indexing.py:28 | the id of step n is not among the ids of earlier steps, so the ids are pairwise distinct |
| Indexing.AddAllEntries | src/indexing.py:24-29 | after n steps from empty, id `str(i)` holds chunk i and embedding i |
| Indexing.AddAllSize | src/indexing.py:24-29 | after n steps from empty, the collection has exactly n entries |
| Indexing.SaveTruncates | src/indexing.py:24 | lists of different lengths give only `min` of the two lengths entries |
| Conversations.SessionFilename | web/app.py:59-61 | the name starts with `Session_`, ends with `.json` and holds the id in between |
| Conversations.RecoverSessionIdRoundTrip | web/app.py:110 | stripping the prefix and suffix from a session file name gives back any id that contains neither |
| Conversations.RecoverSessionIdLossyExample | web/app.py:110 | the id `"aSession_b"` is recovered as `"ab"`, because every occurrence is removed |
| Conversations.StrLessIsStrictTotalOrder | web/app.py:120 | string comparison, the sort order on `updated_at` strings, is a strict total order |
| Conversations.Summarize | web/app.py:109-115 | only a dict yields a summary; any other file content is skipped |
| Conversations.SummarizeFields | web/app.py:109-115 | a stored dict gives its own `_id`, `title`, timestamps and message count, or the defaults when keys are absent |
| Conversations.SummarizeSkips | web/app.py:106-117 | a file that is not a dict, or whose messages have no length, is skipped |
| Conversations.ListConversations | web/app.py:98-124 | the loop and in-place sort give the specified listing: summaries newest first, or `[]` when the sort raises |
| Conversations.ListingOrdered | web/app.py:120 | the listing is a permutation of the summaries, in non-increasing `updated_at` order, stable for equal keys |
| Conversations.ListingNewestFirst | web/app.py:120 | for two listed conversations, the earlier one was not updated before the later one |
| Conversations.ListingMissingUpdatedAt | web/app.py:113-120 | as written, one summary without `updated_at` among two or more empties the listing; the intended listing keeps every summary |
| Conversations.ListingIntendedOrdered | web/app.py:120 | with a missing `updated_at` sorting last, every summary is kept, in order, stably |
| Conversations.UpdateConversation | web/app.py:384-409 | 404 exactly for a missing or empty conversation; otherwise the supplied `messages` and `title` replace the stored ones, `updated_at` is refreshed, and every other key is unchanged; a stored dict with a dict or falsy body is always updated; the handler raises (500) exactly when the conversation is present and truthy and either it is not a dict, or the body is truthy, not a dict, and either fails `in` (a number or bool) or contains `"messages"` or `"title"` (a string or list) |
| Text.TrimStartSuffix | web/script.js:75 | the start trim keeps a suffix, removes only whitespace and stops at the first other character |
| Text.TrimEndPrefix | web/script.js:75 | the end trim keeps a prefix, removes only whitespace and stops at the last other character |
| Text.TrimIsSlice | web/app.py:268 | trimming yields the slice left after removing whitespace only around it, which neither starts nor ends with whitespace |
| Text.FirstKeywordResponse | web/app.py:161-163 | the scan returns the response of the first keyword in table order that the question contains, and `None` exactly when none occurs |
| Server.DemoReplyChoice | web/app.py:159-165 | the demo answer is the canned answer of the first keyword present; otherwise the fallback text, which quotes the question |
| Server.DemoAnswer | web/app.py:159-165 | the method computes the demo answer |
| Server.WrapperNothingRetrieved | web/app.py:223-226 | an empty retrieval never consults the text model: the cross-encoder still receives the empty pair list, and the answer is the apology when it accepts that list, or the prefixed error text when it raises |
| Server.WrapperUsesBestChunk | web/app.py:215-224 | the best reranked chunk is one of the retrieved chunks and scores highest; as written, the prompt's knowledge block is that chunk's characters joined by blank lines, and the answer is the model's reply to that prompt |
| Server.WrapperIntendedUsesBestChunk | web/app.py:215-224 | in the corrected answerer, the prompt's knowledge block is exactly the best chunk |
| Server.WrapperAgreesOnShortChunk | web/app.py:224 | the written and corrected answerers give the same answer whenever the best chunk has at most one character |
| Server.WrapperReportsRetrievalError | web/app.py:230-232 | a failing retriever yields the error text instead of an exception |
| Server.CheckAskRequest | web/app.py:260-274 | a missing body or key gives 400, a blank question gives 400, an ill-typed body gives 500, and otherwise the stripped question is accepted |
| Server.AskRequestBlank | web/app.py:268-274 | a question made only of whitespace is refused, and an accepted question is already stripped |
| Server.AskRequestListBody | web/app.py:262-268 | a list body containing `"question"` passes the membership test and then raises `TypeError` |
| Server.App.Initialize | web/app.py:234-249 | runs once: it installs the pipeline if it builds and the demo otherwise, and later calls change nothing |
| Server.App.AskQuestion | web/app.py:257-300 | refused requests change nothing; an accepted one initialises if needed and answers the stripped question with the current agent (the pipeline as written, with the character-joined knowledge block) |
| Client.ClampHeight | web/script.js:65 | the height is the content height clamped into [40, 200] |
| Client.SubmissionGuard | web/script.js:75-76 | a submission goes ahead exactly when nothing is loading and the input has a non-whitespace character |
| Client.FindMessageIndex | web/script.js:269-271 | the first index holding the id, or -1 exactly when no message has it |
| Client.WithoutId | web/script.js:290 | the kept messages are exactly those without the id |
| Client.WithoutIdCount | web/script.js:290 | exactly the messages with the id are dropped, and a history without it is unchanged |
| Client.WithoutIdAppend | web/script.js:290 | the filter works piecewise, so the survivors keep their order |
| Client.WithoutIdIdempotent | web/script.js:290 | filtering twice is filtering once |
| Client.NearestUserBefore | web/script.js:274-279 | the largest index below the reply whose sender is `user`, or -1 when there is none |
| Client.LastBotIndex | web/script.js:518-524 | the largest index whose sender is `bot`, or -1 when there is none |
| Client.LatestBotMarksOne | web/script.js:518-527 | at most one message is marked latest, and it is the last bot message when there is one |
| Client.LocalResponse | web/script.js:360-375 | the local fallback gives the answer of the first keyword present, and `None` (a random generic reply) exactly when none occurs |
| Client.SameKeywordsAsDemo | web/script.js:360-367 | the client's keywords are the server demo's keywords in the same order, so both fall back on their default for the same questions |
| Text.SameKeywordsSameMiss | web/app.py:161-163 | two tables with the same keywords in the same order miss exactly the same questions |
| Client.LocalKeywords | web/script.js:360-367 | the client's keywords are 摩擦力, 牛顿第一定律, 加速度 and 动能势能, in that order |
| Server.DemoKeywords | web/app.py:149-157 | the demo answerer's keywords are the same four, in the same order |
| Client.ChatClient.AddMessage | web/script.js:128-154 | exactly one message is appended and earlier entries are untouched |
| Client.ChatClient.HandleFormSubmit | web/script.js:72-125 | a refused submission changes nothing; otherwise the conversation is started and the trimmed question and its answer are appended |
| Client.ChatClient.RegenerateResponse | web/script.js:267-308 | an unknown id, or no user message before it, changes nothing; otherwise the old reply is filtered out and a new answer to the nearest user question is appended |
| Client.ChatClient.LoadConversation | web/script.js:508-537 | the stored messages replace the history, the conversation counts as started exactly when they are non-empty, and only the last bot message is flagged latest |

## Left out

- File and network I/O:
  - reading the document (src/chunking.py:4-5);
  - the session JSON files on disk (web/app.py:63-95, 126-139), which become parameters: the listing of a directory and a stored conversation;
  - Flask routing and `jsonify`;
  - the browser's DOM, `fetch`, timers and `formatMessage`.
- The embedder, cross-encoder, chat model, text model and `Retriever.retrieve`: these are parameters. src/retrieval.py and src/main.py are not part of this model.
- Floating point: scores are integers and embeddings are `seq<real>`. NaN scores and the normaliser inside the embedding library are not modelled.
- Indexing.AddEntry: assumes that an id already in the collection keeps its entry. The behaviour of the collection library on a duplicate id is outside the source.
- Indexing: an embedder that raises is not modelled; `embed` is a total function.
- Generation.Generate: a reply whose `text` is `None` is not distinguished from a string.
- QueryClassifier.Normalize: lower-cases ASCII letters only. Python's `str.lower` also folds other scripts; the four labels are ASCII, so this changes which replies match only for replies holding non-ASCII letters that fold to ASCII (the Kelvin sign).
- Conversations.ListingAsWritten: any non-string `updated_at` among two or more summaries is treated as making the sort raise. A listing whose non-string `updated_at` values are mutually orderable in Python (all numbers, all bools, numbers mixed with bools, or element-wise comparable lists) would be sorted by Python; the model gives `[]` for it.
- Conversations: `created_at` and the timestamps are opaque strings from the clock.
- Server.App.Initialize: building the pipeline is reduced to whether it succeeds (`wrapperBuilds`); the chunks and index it builds live behind the retriever parameter.
- Server.CheckAskRequest: Flask's own rejection of a body that is not JSON is not modelled; such a body arrives as `None`.
- Server.App.AskQuestion: the reply's timestamp is left out.
- Logging and printing are left out: the `print` in the classifier's `except` branch (src/query_classifier.py:98), the wrapper's `logger.info` and `logger.error` calls (web/app.py:216, 220, 231) and the server's other log lines.
- Client: message ids and timestamps (`Date.now()`, `toISOString`) are parameters, as is the answer to a question.
- Client.ChatClient.HandleFormSubmit: the answer is computed before the messages are appended, whereas the source awaits it after appending the question. For one submission on its own the final history is the same, because the answer does not depend on the history.
- Client.ChatClient.HandleFormSubmit, Client.ChatClient.RegenerateResponse: each handler runs as one atomic step. In the source they await the server between steps and nothing blocks a second submission, since `isLoading` is never set. Overlapping handlers can therefore interleave, for example giving `[u1, u2, b1, b2]`, and two quick first submissions can each create a conversation. This interleaving is not modelled.
- Client.ChatClient.HandleFormSubmit: the conversation-creating request is reduced to the id it returns.
- Client: `isLoading` is never set to true, because `setLoading` is never called; the guard is modelled all the same.
- Client.LocalResponse: the choice among the three generic replies uses `Math.random`; the model returns `None` there.
- Concurrency: the threaded server and races on the global agent.

## Findings

| source | as written | input that shows it | evidently intended | confidence | as-written member | corrected member |
|---|---|---|---|---|---|---|
| web/app.py:224 | `generate(question, reranked_chunks[0])` passes one string where a list of passages is expected, so `"\n\n".join` separates every character of the chunk with a blank line (also src/main.py:77) | a top chunk `"ab"` reaches the prompt as `"a\n\nb"` | the top chunk as the single passage, so the knowledge block is the chunk itself | high, not executed | Generation.TopChunkKnowledgeAsWrittenLength, Server.WrapperUsesBestChunk | Generation.TopChunkKnowledge, Server.WrapperIntendedUsesBestChunk |
| web/app.py:120 | `sort(key=lambda x: x.get('updated_at', ''))`: the summary always holds the key, because line 113 stores `data.get('updated_at')`, so the `''` default never applies; a missing timestamp is `None`, comparing it with a string raises `TypeError`, and the handler returns `[]` | two session files, one with `updated_at` and one without | a missing timestamp sorts as `''` (last in newest-first order), and every conversation is listed | high, not executed | Conversations.ListingMissingUpdatedAt | Conversations.ListingIntendedOrdered |
