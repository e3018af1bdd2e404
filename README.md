# DocChat core in Dafny

DocChat answers questions about uploaded documents. The web app keeps a
session with a fingerprint of the uploads. When the uploads change, it
re-indexes them: the documents are split into pages, sentences and windows
of ten sentences. Every window with more than ten words becomes a chunk with
the id `<file>_<page>_<start>`, and the chunks are embedded and sent to a
vector store in one batch. A question is embedded and the store returns its
nearest chunks. Those scoring at least 0.05 by dot product are numbered
into a fixed prompt. The generative model's streamed answer is shown as it
grows, and every failure that escapes becomes one red error box.

The model has one module per source file, plus two shared ones:

- `Wrappers`: `Option` and `Result`.
- `Text`: the Python string operations the core uses. These are Python's
  whitespace set, `strip`, `split()`, ASCII `lower`, `join`, `endswith`,
  decimal rendering and its parse, and the last index of a character.
- `Chunker` (processor.py 47-61): windows, the full-stop repair, the length
  filter, chunk ids and their parse, and the per-page loop.
- `Processor` (processor.py): the extension dispatch, the whole indexing
  run as a method, the batch it upserts, and the uniqueness of chunk ids.
- `VectorSearch` (vector_search.py): the top-k cut, the dot-product scores,
  the threshold filter as a loop, and the result rows.
- `PromptLlm` (DocChat/prompt_llm.py): the prompt template, the streamed
  answer reader and `ask`.
- `App` (app.py): the upload fingerprint, the re-index decision, the
  session object updated in place, and the growing answer.

Code that loops or updates state is a method proved against a function of
its inputs:

- the page and window loops;
- the retrieval filter;
- the stream reader;
- the fingerprint loop;
- the answer accumulator;
- `process_question` on a `Session` object.

Lemmas about those functions state what the code promises.

Everything outside the core is a parameter:

- the document readers: `reader`, which says whether the format-specific
  read succeeds and which pages the page walk delivers before it stops;
- the sentencizer: `split`;
- the embedding model: `embed`;
- the store's nearest-neighbour ranking: `ranking`;
- the generative model's HTTP stream: `generate`, which gives the lines it
  delivers and whether the connection broke;
- SHA-256 and the file system.

## Behaviour of the code worth knowing

- Retrieval results keep the store's order and are never re-sorted by
  score (`VectorSearch.OrderIsNotByScore` shows a kept pair in increasing
  score order).
- A supported file whose format-specific read fails does not skip that file
  alone. The read at processor.py:28-38 is outside the `try`, so the
  exception ends the whole run and nothing is upserted
  (`Processor.FailedReadAbortsRun`).
- Chunks of every supported format come from the PDF page walk inside the
  `try` (processor.py:43-62). The text the format-specific readers return is
  discarded, so the model keeps only whether that read raised.
- The comment at DocChat/prompt_llm.py:33 speaks of ten results, but
  `retrieve_relevant_chunks` is called with its default of 5
  (`VectorSearch.DefaultTopK`).
- Chunk ids use only the base name. Two supported paths with the same base
  name in different directories give the same id to equal pages and
  windows, and the store then rejects the whole batch with an exception
  that escapes the run (`Processor.ProcessAndIndexFiles`,
  `Processor.UpsertIdsDistinct`).
- When the store returns no candidates, `util.dot_score` gets an empty
  tensor that it cannot pair with the query vector, and the exception
  escapes `retrieve_relevant_chunks` (`VectorSearch.Scorable`).
- `process_question` ignores the status string of the indexing run. The
  session is marked ready even when no chunk was found.

## Model

| member | source | states |
|---|---|---|
| Text.LowerChar | processor.py:28 | An ASCII capital lowers to its small letter. Any other character is unchanged. No result is an ASCII capital. |
| Text.LowerIdempotent | processor.py:28 | Lower-casing a lower-cased string changes nothing. |
| Text.StripLeft | processor.py:48 | The result is a suffix of the input. The part dropped is all whitespace, and the result does not start with whitespace. |
| Text.StripRight | processor.py:48 | The result is a prefix of the input. The part dropped is all whitespace, and the result does not end with whitespace. |
| Text.StripRun | processor.py:48 | `strip()` returns a contiguous run of the input, the one that starts right after its leading whitespace. |
| Text.StripEnds | processor.py:48 | The result of `strip()` neither starts nor ends with whitespace. |
| Text.ReplaceChar | processor.py:48 | Same length. Every newline becomes a space and every other character is kept. |
| Text.JoinPartAt | processor.py:52 | In `sep.join(parts)` (`Join`), part k stands whole at its start offset (`PartStart`). The separator directly precedes every part but the first. |
| Text.PartStartStep | processor.py:52 | Part k starts right after part k - 1 and one separator. |
| Text.JoinWords | processor.py:52-56 | The words of the space-joined sentences are the words of each sentence, in sentence order. |
| Text.WordsOfWord | processor.py:56 | A non-empty run without whitespace splits (`Words`) into itself alone. |
| Text.WordsSplitAtSpace | processor.py:56 | Splitting at a whitespace character gives the words before it followed by the words after it, so word counts (`WordCount`) add across it. |
| Text.WordsAreWords | processor.py:56 | Every word `split()` yields is non-empty and contains no whitespace. |
| Text.WordsKeepText | processor.py:56 | The words of `split()`, concatenated, are exactly the non-whitespace characters of the text, in order. |
| Text.NatToString | processor.py:58 | The decimal rendering is non-empty and all digits. |
| Text.NatToStringNoLeadingZero | processor.py:58 | The decimal rendering starts with '0' exactly when the number is 0. |
| Text.ParseNatToString | processor.py:58 | Parsing the decimal rendering of n gives back n. |
| Text.LastIndexOfSplit | processor.py:25 | The last '/' of a path is the one after which no '/' follows. |
| Chunker.RangeFrom | processor.py:51 | The window starts from `from` are from + 10k, all below n, and their count is the ceiling of (n - from) / 10. |
| Chunker.WindowStarts | processor.py:51 | The starts are 0, 10, 20, ... There are ceil(n / 10) of them, and every multiple of 10 below n is one. |
| Chunker.Windows | processor.py:51-52 | There are ceil(n / 10) windows. |
| Chunker.WindowsAt | processor.py:51-52 | The k-th window is the slice of up to ten sentences starting at 10k. |
| Chunker.WindowsPartition | processor.py:51-52 | The windows, concatenated, are the sentences. Each window holds between 1 and 10 sentences. |
| Chunker.Repair | processor.py:53 | The repair never shortens the text and keeps its first character. |
| Chunker.RepairLeavesNoDotCapital | processor.py:53 | After the repair, no full stop is directly followed by an ASCII capital. |
| Chunker.RepairOnlyInsertsSpaces | processor.py:53 | The repair only inserts spaces, exactly one per full stop directly followed by a capital. |
| Chunker.RepairFixesRepaired | processor.py:53 | Text with no full stop directly followed by a capital is left unchanged. |
| Chunker.RepairIdempotent | processor.py:53 | Repairing twice is the same as repairing once. |
| Chunker.KeepLong | processor.py:56 | Exactly the chunks of more than ten words are kept, and no others. |
| Chunker.ChunkIdRoundTrip | processor.py:58 | Splitting a chunk id at its last two underscores gives back the file name, page number and window start. This holds even when the file name contains underscores. |
| Chunker.ChunkIdInjective | processor.py:58 | Equal chunk ids come from the same file name, page and window start. |
| Chunker.CandidateChunks | processor.py:51-61 | There is one candidate chunk per window. |
| Chunker.CandidatesAtWindowStarts | processor.py:51-60 | The k-th candidate is the chunk of the window at the k-th start (0, 10, 20, ...): its id, repaired text and metadata. |
| Chunker.PageChunksAreKeptWindows | processor.py:51-61 | The chunks of a page are its window chunks of more than ten words, in window order. |
| Chunker.PageChunksWellFormed | processor.py:51-61 | Every chunk of a page has more than ten words and no full stop directly before a capital. Its id reads back as its own file, page and a window start that is a multiple of 10. |
| Chunker.AppendPageChunks | processor.py:51-61 | The window loop appends exactly the page's chunks to those gathered so far. |
| Processor.BaseName | processor.py:25 | The base name contains no '/' and ends the path. It is the whole path or directly follows a '/'. |
| Processor.SupportedIgnoresCase | processor.py:28-36 | The extension test (`Supported`) ignores letter case: a path and its lower-cased form are both supported or both not. |
| Processor.PageTextClean | processor.py:48-49 | The page text handed to the sentencizer (`PageSentences`) holds no newline and neither starts nor ends with whitespace. |
| Processor.FirstRaiseIsFirst | processor.py:24-41 | The run raises at the first supported path whose format-specific read fails. No earlier path raises. |
| Processor.FailedReadAbortsRun | processor.py:28-38 | If any supported path's read fails, the run raises, and it does so at that path or an earlier one. |
| Processor.UnsupportedPathSkipped | processor.py:39-41 | A path with an unsupported extension never raises and adds no chunk wherever it stands. |
| Processor.RunChunksAppend | processor.py:24-64 | The chunks of a run (`RunChunks`) are the chunks of its first files followed by those of the rest. |
| Processor.AppendFileChunks | processor.py:47-61 | The page loop appends each delivered page's chunks in page order, numbering pages from 0. |
| Processor.PayloadAligned | processor.py:71-76 | The four upsert lists (`Payload`) hold one entry per chunk, in order. Entry k is chunk k's id, text and metadata, and the embedding of that text. |
| Processor.ProcessAndIndexFiles | processor.py:15-87 | The run stops with the read's exception (`Raised`) exactly when a supported path's format-specific read fails, naming the first such path. Otherwise, with no chunks it returns "No valid text chunks found." and upserts nothing; a batch with a repeated id makes the store's upsert raise (`Rejected`); and otherwise it upserts the payload of all chunks and reports their count. |
| Processor.UpsertRowsConsistent | processor.py:57-84 | In every upsert, the four lists have equal lengths. Each id reads back as its metadata's file and page, each document has more than ten words, and each embedding is that of its document. |
| Processor.UpsertIdsDistinct | processor.py:24-84 | When the supported paths have distinct base names, the batch is never rejected and the upserted ids are pairwise distinct. |
| Processor.FileChunksWellFormed | processor.py:47-61 | Every chunk of a document (`FileChunks`) is well formed, and its metadata names this file and one of the delivered pages. |
| Processor.RunChunksWellFormed | processor.py:24-61 | Every chunk of a run (`RunChunks`) is well formed, and its metadata names the base name of a supported path. |
| Processor.PageIdsDistinct | processor.py:51-58 | The chunk ids of one page are pairwise distinct. |
| Processor.FileIdsDistinct | processor.py:47-58 | The chunk ids of one document are pairwise distinct. Each reads back as this file and one of its pages. |
| Processor.RunIdsDistinct | processor.py:24-58 | When the supported paths have distinct base names, the chunk ids of the whole batch are pairwise distinct. |
| VectorSearch.DotSymmetric | vector_search.py:39 | The dot product (`Dot`, the `Score` of a candidate) does not depend on which side the query is on. |
| VectorSearch.TopK | vector_search.py:28-32 | The store returns a prefix of its ranking, with `top_k` entries when it holds that many. |
| VectorSearch.RowOf | vector_search.py:46-47 | A result row is the candidate's metadata plus `sentence_chunk` holding the document. Every other key keeps its value. |
| VectorSearch.Relevant | vector_search.py:41-50 | There are no more results than candidates, and every row holds `sentence_chunk`. |
| VectorSearch.KeptIndicesExact | vector_search.py:42-48 | A candidate is kept if and only if its `Score`, the dot product with the query, is at least the threshold. |
| VectorSearch.KeptIndicesIncrease | vector_search.py:42-48 | The kept candidates appear in the store's order. |
| VectorSearch.RelevantAtKept | vector_search.py:42-48 | The k-th result is the row and score of the k-th kept candidate. |
| VectorSearch.RelevantAboveThreshold | vector_search.py:19-48 | Every result scores at least 0.05. |
| VectorSearch.OrderIsNotByScore | vector_search.py:41-50 | The results are not sorted by score: two kept candidates stay in increasing-score order. |
| VectorSearch.RetrieveRelevantChunks | vector_search.py:21-50 | It fails exactly when the candidates cannot be scored against the query: an embedding's dimension differs from the query's, or the store returned no candidates for a non-empty query vector. Otherwise it returns the kept rows and scores in the store's order. |
| PromptLlm.ContextExtends | DocChat/prompt_llm.py:9 | Each further chunk adds a newline and its numbered line (`NumberedLine`) to the `Context`. The first chunk's line is the whole context. |
| PromptLlm.NumberedLineStartsWithNumber | DocChat/prompt_llm.py:9 | The k-th context line starts with the decimal of k + 1 followed by ". ", and that number parses back to k + 1. |
| PromptLlm.ContextLines | DocChat/prompt_llm.py:9 | Every chunk's numbered line stands whole in the `Context`, at its start offset. |
| PromptLlm.ContextLinesInOrder | DocChat/prompt_llm.py:9 | Line k + 1 starts right after line k and one newline, so the lines appear in chunk order. |
| PromptLlm.PromptContents | DocChat/prompt_llm.py:8-25 | The prompt (`FormatPrompt`) holds the fallback sentence right after the instructions and the context right after the fixed head. It ends with the question and the `Answer:` cue. |
| PromptLlm.StopIndex | DocChat/prompt_llm.py:50-56 | This is the first line that ends the reading (a finished record or a line that is not a JSON object). No earlier line does. |
| PromptLlm.StreamRunsOut | DocChat/prompt_llm.py:50-59 | With no line that ends the reading, the stream (`StreamFragments`) yields every record's response, skipping blank lines. One connection-error fragment follows if the connection broke. |
| PromptLlm.StreamStopsAtDone | DocChat/prompt_llm.py:50-56 | A finished record ends the reading. The responses up to and including its own are yielded, and nothing after. |
| PromptLlm.StreamStopsAtMalformed | DocChat/prompt_llm.py:50-59 | A line that is not a JSON object ends the reading: invalid JSON, or JSON such as a list, string, number or `null` on which the key lookups raise. The earlier responses are yielded, then one error fragment. |
| PromptLlm.StreamAnswer | DocChat/prompt_llm.py:41-59 | The reading loop yields exactly the fragments the three stream lemmas above describe: it skips blank lines, stops at a finished record or a line that is not a JSON object, and yields an error fragment if the connection broke. |
| PromptLlm.GreetingIgnoresCase | DocChat/prompt_llm.py:29 | The greeting test (`IsGreeting`) ignores letter case: a query and its lower-cased form are both greetings or both not. |
| PromptLlm.GreetingShortcut | DocChat/prompt_llm.py:29-31 | A greeting yields only the greeting reply (`AskSpec`), whatever retrieval and the model would do. |
| PromptLlm.NotFoundShortcut | DocChat/prompt_llm.py:34-37 | When scoring succeeds but no chunk is relevant, `ask` yields only the not-found reply and makes no request. |
| PromptLlm.AskRaises | DocChat/prompt_llm.py:27-37 | An exception escapes `ask` exactly when the query is not a greeting and the candidates cannot be scored against it. Nothing has been yielded then. |
| PromptLlm.StreamingAnswer | DocChat/prompt_llm.py:39-59 | Otherwise `ask` yields the stream fragments of the model's answer to the composed prompt. |
| PromptLlm.Ask | DocChat/prompt_llm.py:27-59 | The generator yields the fragments of `AskSpec` and raises as it says. |
| App.ErrorBoxMessage | app.py:55-59 | The message reads back from its error box (`ErrorBox`), so different messages give different boxes. |
| App.FileHashes | app.py:10-31 | The fingerprint (`Fingerprint`) is the set of content hashes of the uploads that resolve to a readable file. It is empty when nothing is uploaded. |
| App.FingerprintIgnoresOrder | app.py:11-31 | Upload lists with the same entries have the same fingerprint, whatever their order and repetitions. |
| App.UnreadableUploadIgnored | app.py:15-29 | An upload that is missing, unreadable or unrecognised does not change the fingerprint. |
| App.BlankIsWhitespaceOnly | app.py:35 | A question is `Blank` exactly when every character of it is whitespace, the empty question included. |
| App.IndexPaths | app.py:44 | The paths exist exactly when every upload is a string or a named object. Path k is then upload k's string or name. |
| App.CumulativeGrows | app.py:48-52 | Each output extends the previous one by exactly the next fragment. The first output is the first fragment, and the last is the whole answer. |
| App.Accumulate | app.py:48-52 | The loop yields the running answer after each fragment. |
| App.BlankQuestionRejected | app.py:35-36 | A blank question yields exactly the "cannot be empty" error box (`QuestionSpec`). Indexing does not run and the session is unchanged, whatever the uploads and the outside world. |
| App.SessionAfterTurn | app.py:38-46 | Indexing runs exactly when the question is not blank, there are uploads, and the session is not ready or the fingerprint changed (`ShouldReindex`). Its outcome is then the driver's outcome on the upload paths. The session afterwards holds the current fingerprint and is ready exactly when the driver returned a status. In every other case the session is unchanged. |
| App.NoReindexWhenUnchanged | app.py:43-46 | After a completed re-index, the same uploads do not trigger another. |
| App.AnswerOutputs | app.py:43-59 | If indexing raised, the turn yields one error box. Otherwise it yields the running answer and, if `ask` raised, one error box, which is then the only output. |
| App.Reindex | app.py:38-46 | The indexing step returns what it did. When it completed, the session object holds the new fingerprint and is ready; otherwise the object is untouched. |
| App.Answer | app.py:48-59 | The answering step yields the running answer, then an error box if `ask` raised. |
| App.ProcessQuestion | app.py:33-59 | One turn's outputs, the session it leaves and its indexing step are those `QuestionSpec` and the lemmas above describe. A fresh session is made when none was given and the question is not blank. |
| App.Session.constructor | app.py:40 | A new session has an empty fingerprint and is not ready. |

## Left out

- Logging is not modelled: the console prints, progress bars and traceback output.
- The Gradio interface (`main` in app.py) is not modelled.
- Document parsing with PyMuPDF, python-docx and file reads is a `reader` parameter.
- The sentencizer is the `split` parameter.
- The embedding model is the `embed` parameter. Its 32-bit floats are modelled as reals, so rounding in the dot product is not captured.
- The vector store is not modelled:
  - creating the client and collection (processor.py:19-20, vector_search.py:6-15);
  - upsert semantics, such as replacing entries with an existing id. Of the store's checks on a batch, only the rejection of duplicate ids is modelled.
- `Processor.ProcessAndIndexFiles`: the run returns the batch it would upsert rather than changing a store.
- The retrieval ranking is a parameter that is not tied to what earlier runs upserted.
- Device selection and tensor conversion in vector_search.py are not modelled.
- The HTTP request and JSON decoding are not modelled. The stream is given as lines that are blank, records (JSON objects) or not JSON objects.
- A `response` value that is not a string, where the concatenation in app.py would raise, is not modelled.
- SHA-256 is a parameter, and so are file existence and file reading.
- `Processor.BaseName`: takes POSIX paths and splits only at '/'. On Windows `os.path.basename` also splits at a backslash, which is not modelled.
- The file system seen when hashing uploads (`fs`) and the document reader used when indexing (`reader`) are independent parameters. The model does not tie a file's hashed content to the pages the reader delivers for it.
- `Text.LowerChar`: lower-cases ASCII letters only. Python's full Unicode lower-casing cannot turn another character into a letter of the greetings or the supported extensions, so the greeting test and the extension test are unaffected.
- Exception messages raised inside libraries are one `libraryError` parameter. When several exceptions could be raised, which one's message appears is not modelled.
- `App.ProcessQuestion`: handles a question that is a string. A `None` question is treated like the empty string by the source and is not a separate input here.
- An object with a `name` attribute is taken to name a path. Other objects and dictionaries make the indexing driver raise (the base name of a non-string). The model records such a turn as `BadEntry` and does not say whether an earlier path's read raised first.
