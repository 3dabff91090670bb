# ChatBot-Project core, modelled in Dafny

This project models the repository's own logic around a retrieval-augmented
chatbot. Everything else is a library call: loaders, splitter, embeddings,
the Chroma store and the Ollama model server. The model covers five parts:

- **Reasoning-span stripping** (`OllamaLLM._remove_thinking` in the chat
  server). It is a regular-expression substitution that deletes every
  `<think>…</think>` span, non-greedy and across newlines. The model is a
  recursive function (`ChatServer.RemoveThinking`) over a first-occurrence
  search (`Common.Find`). It is characterised by lemmas that:
  - keep text without an opening tag;
  - remove the first span and continue after it;
  - keep an unclosed span;
  - state "unchanged iff no span";
  - check the worked examples (simple, empty, multiline, unmatched, nested).
- **Answer plumbing** shared by the chat server and the console client:
  - `format_docs` joins the documents' texts with a blank line
    (`Documents.FormatDocs`);
  - `get_relevant_documents` passes the similarity search through, with
    `k = 3` by default;
  - `generate` turns the model call's outcome into a string, with or
    without stripping;
  - the `/api/chat` handler maps every failure before generation to a 500
    reply (`ChatServer.Chat`);
  - the console loop (`QaConsole.RunSession`) stops on a case-insensitive
    `exit`, answers every other line, and ends when input runs out or a
    search raises.
- **The hash ledger** (`file_hashes.txt`). It is modelled as the file's text,
  with `None` while the file does not exist:
  - `get_existing_hashes` is `readlines` followed by `strip` of each line;
  - `save_hash` appends the digest and a newline.
  The lemmas prove that saving a digest to a ledger whose text is empty or
  ends in a newline adds exactly that digest to the existing hashes, keeps
  the old text as it was, and leaves the text ending in a newline. The
  digest is an MD5 hex digest, so it holds no whitespace and no newline.
- **The ingestion run** (`Ingestion.Ingest`), a loop over the loaded
  documents with a `LedgerFile` and a `VectorStore` object:
  - the hash snapshot is read once, before loading;
  - a document with a known, existing source whose digest is in the
    snapshot is skipped;
  - a document with a new digest has it appended to the ledger before it
    is chunked;
  - the chunks are stamped with their source and added to the store in one
    `add_documents` call.
  The run is proved against two specification functions, `Recorded` and
  `NewChunks`. Lemmas cover composition, each per-document case, the
  unrefreshed snapshot, and re-running.
- **Loader aggregation**: PDFs, then text files, then SQL rows. The SQL
  source is empty, without connecting, when no database URL is configured.

External collaborators are parameters:
- the similarity search is `(string, nat) -> Result<seq<Document>, string>`;
- the prompt template is `(context, question) -> string`;
- the HTTP post to the model server is `string -> Result<string, string>`;
- `os.path.exists`, `file_hash` and the text splitter are fields of
  `Ingestion.Env`;
- each loader is given as the `Result` of its `load()` call;
- a failing `add_documents` is an `Option<string>` parameter.

Two failures are not caught, and the model keeps them uncaught:
- A failing loader. Nothing in `vectordb_practice/ingestion/loaders.py:24-25`
  catches it, so the first failure ends the load
  (`Loaders.LoadAllDocuments`). In `Ingestion.Ingest` it ends the run before
  the ledger or the store is touched.
- A failing similarity search in the console client
  (`vectordb_practice/main.py:101`). It ends the console session
  (`QaConsole.SessionEnd.Crashed`). Only the model call is caught there.

## Model

| member | source | states |
|---|---|---|
| ChatServer.RemoveThinking | ui/server/server.py:20-22 | the result is never longer than the input |
| ChatServer.RemoveThinkingNoOpen | ui/server/server.py:22 | text with no `<think>` comes back unchanged |
| ChatServer.RemoveThinkingSpan | ui/server/server.py:22 | for `a + "<think>" + b + "</think>" + c` with no `<think>` in `a` and no `</think>` in `b`: the result is `a` followed by the stripping of `c`. The first opening tag pairs with the nearest closing tag after it; `b` may hold newlines and further opening tags; outside text keeps its order |
| ChatServer.RemoveThinkingUnclosed | ui/server/server.py:22 | an opening tag with no closing tag after it leaves the text unchanged |
| ChatServer.RemoveThinkingUnchangedIff | ui/server/server.py:22 | the text is unchanged exactly when it holds no opening tag followed, at or after its end, by a closing tag; when it holds one, the result is at least 15 characters (both tags) shorter |
| ChatServer.RemoveThinkingExampleSimple | ui/server/server.py:22 | `"A<think>B</think>C"` becomes `"AC"` |
| ChatServer.RemoveThinkingExampleEmpty | ui/server/server.py:22 | `"<think></think>"` becomes `""` |
| ChatServer.RemoveThinkingExampleMultiline | ui/server/server.py:22 | a span containing a newline is removed (DOTALL) |
| ChatServer.RemoveThinkingExampleUnmatched | ui/server/server.py:22 | `"A<think>B"` and a lone `"</think>"` are kept as they are |
| ChatServer.RemoveThinkingExampleNested | ui/server/server.py:22 | tags do not nest: `"<think>a<think>b</think>c</think>"` becomes `"c</think>"` |
| ChatServer.Generate | ui/server/server.py:36-45 | a failed call gives `"Error: "` and the error text; a successful one gives the response with its reasoning spans stripped, never longer than the raw one, and equal to it exactly when it holds no span |
| ChatServer.GenerateStripsConsoleAnswer | ui/server/server.py:39-45 | the server's generation equals the console's, except that a successful response is stripped |
| ChatServer.Query | ui/server/server.py:118 | the question is the `"message"` field, or `""` when it is missing |
| ChatServer.Chat | ui/server/server.py:113-134 | the status is 200 or 500; it is 500 exactly when reading the request or the search fails, with `"Sorry, an error occurred: "` and the error text as the response; on 200 the response is the generation for the template filled with the formatted documents and the question |
| ChatServer.ChatMissingMessage | ui/server/server.py:117-118 | a request without `"message"` is answered exactly like one whose message is `""` |
| ChatServer.ChatEmptyContext | ui/server/server.py:121-130 | when the search finds nothing, the model is still asked, with an empty context, and the reply is 200 |
| Documents.Contents | ui/server/server.py:54 | the page contents of the documents, one per document, in order |
| Documents.FormatDocs | ui/server/server.py:52-54 | no documents give `""`; one gives its content; otherwise the length is the sum of the contents plus two per separator |
| Documents.FormatDocsAppend | ui/server/server.py:54 | the context of `a + b` is the context of `a`, a blank line, then the context of `b`: retrieval order is kept |
| Documents.FormatDocsAt | vectordb_practice/main.py:43-45 | each document's text stands at its offset in the context and, unless last, is followed by `"\n\n"` |
| Documents.GetRelevantDocuments | ui/server/server.py:47-50 | the store's result for the query and `k` is returned unchanged; `k` is 3 unless given |
| QaConsole.Generate | vectordb_practice/main.py:30-36 | a successful call gives the raw response, unstripped; a failed one gives `"Error: "` and the error text |
| QaConsole.LowerChar | vectordb_practice/main.py:96 | ASCII capitals are lowered by 32 code points; every other character is unchanged |
| QaConsole.Lower | vectordb_practice/main.py:96 | lowering keeps the length and lowers each character |
| QaConsole.IsExit | vectordb_practice/main.py:96 | only a four-character line can end the loop |
| QaConsole.IsExitIff | vectordb_practice/main.py:96-97 | the loop ends exactly on a four-character line spelling `exit` in any case, with no trimming |
| QaConsole.IsExitExamples | vectordb_practice/main.py:96-97 | `exit`, `EXIT` and `eXiT` end the loop; `" exit"`, `"exit "`, `""` and `quit` do not |
| QaConsole.Answer | vectordb_practice/main.py:99-109 | a line is answered by generating from the template filled with the formatted search result; the answer fails exactly when the search does |
| QaConsole.Session | vectordb_practice/main.py:94-112 | a session gives at most one answer per line read |
| QaConsole.RunSession | vectordb_practice/main.py:94-112 | the loop prints the answers, and ends as the `Session` specification says |
| QaConsole.SessionIgnoresAfterExit | vectordb_practice/main.py:94-97 | lines after an exit line are never read |
| QaConsole.SessionAnswersEachLine | vectordb_practice/main.py:94-112 | with no search failure, each line before the first exit line, the empty line included, gets its answer in order; the session ends by `Quit` at an exit line, or when input runs out |
| Loaders.LoadSqlDocuments | vectordb_practice/ingestion/loaders.py:17-22 | no URL gives no documents; a URL gives what the SQL loader returns for it and the query, which defaults to `SELECT id, title, content FROM documents` |
| Loaders.SqlUnconfiguredIgnoresLoader | vectordb_practice/ingestion/loaders.py:18-19 | without a URL, the SQL loader is not consulted |
| Loaders.LoadAllDocuments | vectordb_practice/ingestion/loaders.py:24-25 | the load succeeds exactly when all three loaders do; otherwise the first failure, in PDF, text, SQL order, is the result; on success the count is the sum of the three |
| Loaders.LoadAllDocumentsBlocks | vectordb_practice/ingestion/loaders.py:25 | the PDFs come first, then the text files, then the SQL rows, each as one block |
| HashLedger.StripLeft | vectordb_practice/ingestion/ingest.py:19 | the result is a suffix, does not start with whitespace, and only whitespace was dropped |
| HashLedger.StripRight | vectordb_practice/ingestion/ingest.py:19 | the result is a prefix, does not end with whitespace, and only whitespace was dropped |
| HashLedger.Strip | vectordb_practice/ingestion/ingest.py:19 | the result is a middle part of the line with only whitespace cut off before and after it; it neither starts nor ends with whitespace; text without outer whitespace is unchanged |
| HashLedger.ReadLines | vectordb_practice/ingestion/ingest.py:19 | there are no more lines than characters, and no lines exactly for empty text |
| HashLedger.ReadLinesSpec | vectordb_practice/ingestion/ingest.py:19 | the text is cut after every newline: the lines concatenate back to the text; none is empty; every line but the last ends in a newline; no line holds a newline before its end |
| HashLedger.Hashes | vectordb_practice/ingestion/ingest.py:15-19 | a missing or empty ledger gives no hashes |
| HashLedger.HashesOfContent | vectordb_practice/ingestion/ingest.py:15-19 | the hashes are the stripped lines of the file, a missing file reading as empty text and so giving no hashes |
| HashLedger.HashesMembers | vectordb_practice/ingestion/ingest.py:18-19 | a string is an existing hash exactly when some line of the file strips to it |
| HashLedger.Saved | vectordb_practice/ingestion/ingest.py:21-23 | after a save the file exists and its text is the old text, the digest and a newline |
| HashLedger.AfterSavesContent | vectordb_practice/ingestion/ingest.py:21-23 | saves only append: the old text is kept and the digests follow, one per line, in order; no save leaves the file as it was |
| HashLedger.AfterSavesAppend | vectordb_practice/ingestion/ingest.py:21-23 | one more save appends after the text the earlier saves left |
| HashLedger.AfterSavesConcat | vectordb_practice/ingestion/ingest.py:21-23 | saving the digests `a` and then the digests `b` leaves the file that saving `a + b` leaves |
| HashLedger.LinesFromAppend | vectordb_practice/ingestion/ingest.py:19-23 | appending a newline-free line and a newline to terminated text adds exactly that line to the lines read from any position of the old text |
| HashLedger.ReadLinesAppend | vectordb_practice/ingestion/ingest.py:19-23 | appending a newline-free line to newline-terminated text adds exactly that line to what `readlines` returns |
| HashLedger.StripDigestLine | vectordb_practice/ingestion/ingest.py:19-23 | a saved line, an MD5 hex digest and a newline, strips back to the digest |
| HashLedger.ReadLinesAfterSave | vectordb_practice/ingestion/ingest.py:19-23 | after saving a digest to a terminated ledger, reading it gives the old lines and then the digest's line |
| HashLedger.HashesAfterSave | vectordb_practice/ingestion/ingest.py:15-23 | after saving a digest to a newline-terminated ledger, the existing hashes are the earlier ones plus that digest, and the ledger stays terminated |
| HashLedger.HashesAfterSaves | vectordb_practice/ingestion/ingest.py:15-23 | after a sequence of saves, the existing hashes are the earlier ones plus every saved digest |
| HashLedger.LedgerFile.GetExistingHashes | vectordb_practice/ingestion/ingest.py:15-19 | returns the hashes of the file as it is |
| HashLedger.LedgerFile.SaveHash | vectordb_practice/ingestion/ingest.py:21-23 | the file becomes the saved file: created if missing, the digest and a newline appended |
| Ingestion.SourceOf | vectordb_practice/ingestion/ingest.py:38 | the `source` metadata entry, or `"unknown"` when there is none |
| Ingestion.Decide | vectordb_practice/ingestion/ingest.py:40-44 | a document is passed through exactly when it is not tracked; a recorded digest is the file's digest and is new to the snapshot; a skipped document's digest is in the snapshot |
| Ingestion.DecideSpec | vectordb_practice/ingestion/ingest.py:40-45 | a document is skipped exactly when its source is known, exists and hashes into the snapshot; recorded, with that hash, exactly when it is known and exists but the hash is new; passed through otherwise |
| Ingestion.Stamp | vectordb_practice/ingestion/ingest.py:48-50 | stamping keeps the number of chunks, and an unknown source leaves them as they were |
| Ingestion.StampSpec | vectordb_practice/ingestion/ingest.py:47-50 | stamping keeps the number and the text of the chunks and sets only their `source` entry, except for an unknown source, which leaves the chunks as they were |
| Ingestion.RecordedLength | vectordb_practice/ingestion/ingest.py:37-45 | a run records at most one digest per document |
| Ingestion.VectorStore.AddDocuments | vectordb_practice/ingestion/ingest.py:54 | the chunks are added as one more batch |
| Ingestion.IngestDocument | vectordb_practice/ingestion/ingest.py:38-51 | one pass of the loop body: a skipped document returns no chunks and leaves the ledger alone; a recorded one has its digest saved before its chunks are stamped and returned; any other has its chunks stamped and returned |
| Ingestion.IngestDocuments | vectordb_practice/ingestion/ingest.py:37-51 | the loop leaves the ledger with the digests the run records appended in document order, and returns the run's chunks in document order |
| Ingestion.Ingest | vectordb_practice/ingestion/ingest.py:25-56 | a failed load changes nothing. Otherwise the ledger gains the recorded digests, against the snapshot read before the loop. If the add succeeds, the store gains the new chunks as one batch, even when empty, and the count is returned; `ingest()` itself returns nothing and only logs the count (`ingest.py:53`), which the returned count stands for. If it fails, the store is unchanged but the digests stay recorded |
| Ingestion.RecordedAppend | vectordb_practice/ingestion/ingest.py:37-45 | against one snapshot, a run over `a + b` records what `a` records, then what `b` records |
| Ingestion.NewChunksAppend | vectordb_practice/ingestion/ingest.py:37-51 | against one snapshot, a run over `a + b` produces the chunks of `a`, then those of `b` |
| Ingestion.IngestOne | vectordb_practice/ingestion/ingest.py:40-51 | a skipped document contributes no digest and no chunk; a new digest is recorded and the document chunked; an untracked document is chunked without hashing |
| Ingestion.SnapshotNotRefreshed | vectordb_practice/ingestion/ingest.py:30-51 | two documents of one run whose digests are both new are both recorded, in order, and both chunked, even when the digests are equal |
| Ingestion.SharedSourceRecordedTwice | vectordb_practice/ingestion/ingest.py:30-51 | documents sharing a new source, such as the pages of one PDF, each append the file's digest again and are each chunked |
| Ingestion.TrackedDigestsAccounted | vectordb_practice/ingestion/ingest.py:40-45 | after a run, each tracked document's digest is in the snapshot or among the recorded digests |
| Ingestion.AllSkipped | vectordb_practice/ingestion/ingest.py:42-44 | a run in which every document is skipped records nothing and adds no chunk |
| Ingestion.RecordedAreDigests | vectordb_practice/ingestion/ingest.py:41-45 | every recorded digest is an MD5 hex digest when `file_hash` returns one |
| Ingestion.AccountedAreSkipped | vectordb_practice/ingestion/ingest.py:40-44 | against a snapshot holding the old one and every recorded digest, the same tracked documents are all skipped |
| Ingestion.RerunAddsNothing | vectordb_practice/ingestion/ingest.py:15-56 | re-running over the same tracked files, against the ledger the first run left, records nothing and adds no chunk, even when the first run's add failed and its chunks never reached the store |

## Left out

- The Flask app, CORS, static file serving and JSON encoding are left out. The chat handler is modelled from the parsed request (or the error raised while reading it) to a status and a `response` string.
- `initialize_rag`, and the module-level globals it sets, are left out. So is the startup check for the Chroma directory, in the server and in the console client. Concurrency between requests is left out with them.
- `requests.post`, `raise_for_status` and the JSON decoding of the model server's reply are one abstract call that returns the `response` text or an error text. The exact wording of `str(e)` is not modelled. The payload is not modelled either: model name, temperature, max tokens and streaming flag.
- The prompt template's text and `PromptTemplate.format` are an abstract function of the context and the question.
- Embeddings, Chroma similarity ranking and persistence are left out. The search is an abstract function of the query and `k`; the store is the sequence of batches added to it.
- `file_hash` (MD5 over the file's bytes, in `vectordb_practice/ingestion/utils.py`) is not part of this model. It is an opaque function from a path to a string, and read errors are not modelled. So is `os.path.exists`.
- The text splitter's chunk size, overlap and boundaries are left out. The splitter is an opaque function from a document to its chunks.
- Ingestion.Ingest: the chunks' metadata is stamped on values, not through aliases. Mutating a chunk's metadata dictionary in place, and anything else sharing that dictionary, is not modelled.
- Ingestion.Ingest: a failing `add_documents` is modelled as adding nothing. A partial write to the store is not modelled. A failure while reading the ledger, hashing a file, splitting, or appending to the ledger is not modelled.
- The directory scans and the SQL loader's internals are left out. Each loader is the `Result` of its `load()` call.
- `print`, `input` prompts and logging are left out. The console's input is the sequence of lines it reads; running out of lines stands for `input` raising at end of file.
- QaConsole.LowerChar and QaConsole.Lower: only ASCII capitals are lowered, while Python's `str.lower` also lowers non-ASCII letters. This cannot change the exit test: no non-ASCII code point lowers to `e`, `x`, `i` or `t` (U+0130 lowers to two code points, U+212A to `k`), so `QaConsole.IsExit` agrees with `query.lower() == 'exit'` on every string.
- HashLedger.ReadLines: the file is read with universal newlines in Python. The model splits at `'\n'` only; `"\r\n"` and `'\r'` are not translated.
- ChatServer.Query: a non-string `"message"` value is not modelled. The request body is a map from strings to strings.
- Documents.GetRelevantDocuments: its contract is the pass-through itself. The function has no behaviour of its own beyond the default `k`.
- Loader failures are not tolerated per source: as in `vectordb_practice/ingestion/loaders.py`, the first failure propagates.
- ui/frontend/chat.js is not part of this model.
