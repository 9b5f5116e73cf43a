# Retrieval core of the career-document chatbot backend

The backend reads one PDF when it starts. It cuts the extracted text into
chunks of at most 500 characters and embeds each chunk with the embedding
model. The chunks and their embeddings are kept in an in-memory list,
`vectorDB`. Each `POST /ask` request is handled in four steps:

1. the question is embedded;
2. every stored chunk is scored against the question;
3. the three best chunks are joined with newlines into a context;
4. a prompt is built from a fixed instruction, the context and the
   question, and passed to the generation model, whose text becomes the
   answer.

The Dafny project models these steps and proves properties about them. It
has six modules:

- `JsValues`: strings as sequences of UTF-16 code units, and
  `Array.prototype.join("\n")`.
- `Chunker`: the chunking expression `text.match(/(.|[\r\n]){1,500}/g) || []`,
  with the ECMAScript semantics of `.`, the greedy bounded quantifier, the
  scan of a global match, and the `null` result when nothing matches.
- `Services`: the embedding and generation services as oracles, that is,
  functions from input to reply, where a reply is either a value or the
  message of the error the call throws.
- `Retrieval`: score, stable sort by non-increasing score, `slice(0, 3)`,
  and join.
- `AskHandler`: the `/ask` handler as a function from the store, the
  request's `question` field and the oracles to the response. It also
  returns the list of outbound calls, in order.
- `Server`: the process state. The `Backend` class holds `vectorDB` as a
  field. Its `LoadPdf` and `StoreChunks` methods append to that field with a
  loop, as the loader does, and its `Ask` method only reads it.

One would expect the chunks always to fit back together into the document
text. In ECMAScript, though, `.` matches neither U+2028 LINE SEPARATOR nor
U+2029 PARAGRAPH SEPARATOR, and the class `[\r\n]` does not include them
either. So every such unit is skipped by the global match, and a text made
only of them gives `null` and then `[]`. The model follows the code:

- `Chunker.ChunksReassemble` states what the chunks put back together
  really are.
- `Chunker.PlainTextRoundTrip` and `Chunker.PlainTextWindows` state the
  expected round trip and the ceil(L/500) windows, for texts without those
  two units.

## Model

| member | source | states |
|---|---|---|
| Chunker.MatchesAtom | backend/index.js:58 | one iteration of the group `(.\|[\r\n])`: `.` without the `s` flag refuses the four line terminators and the class gives CR and LF back; specified by AtomRejectsOnlySeparators |
| Chunker.AtomRejectsOnlySeparators | backend/index.js:58 | the group `(.\|[\r\n])` accepts a code unit exactly when it is neither U+2028 nor U+2029 |
| Chunker.GreedyRun | backend/index.js:58 | the `{1,500}` quantifier at one position takes the longest run of acceptable units, at most 500 long: every unit taken is acceptable, and it stops early only at an unacceptable unit |
| Chunker.Matches | backend/index.js:58 | every match of the global scan has 1 to 500 units, all of them acceptable; there are no matches exactly when no unit of the text is acceptable |
| Chunker.Match | backend/index.js:58 | `match` with a global pattern returns null exactly when nothing matches, and otherwise a non-empty list of the matches |
| Chunker.Chunks | backend/index.js:58 | `\|\| []` turns null into the empty list: the chunks are the matches, and the empty text has no chunks |
| Chunker.MatchesStep | backend/index.js:58 | where a match begins, it is the longest acceptable prefix, and the scan resumes right after it |
| Chunker.ChunksReassemble | backend/index.js:58 | the chunks put back together are the text with its U+2028 and U+2029 units removed, in original order |
| Chunker.PlainTextStep | backend/index.js:58 | on a non-empty text without those units, the first chunk is the first min(500, length) units, and the rest are the chunks of the remainder |
| Chunker.PlainTextChunkCount | backend/index.js:58 | a text of length L without those units gives ceil(L/500) chunks |
| Chunker.PlainTextChunkAt | backend/index.js:58 | on such a text, chunk k is the window of units 500k up to min(500k+500, L) |
| Chunker.PlainTextWindows | backend/index.js:58 | on such a text, the chunks are exactly the ceil(L/500) consecutive windows of 500 units, in order |
| Chunker.PlainTextRoundTrip | backend/index.js:58 | on such a text, the chunks put back together are the text itself |
| Chunker.PlainTextFullChunks | backend/index.js:58 | on such a text, every chunk but the last has exactly 500 units, and the last holds the remainder |
| Server.Ingest | backend/index.js:59-62 | the entries pushed are the chunks in order, each with its embedding, up to but not including the first chunk whose embedding fails; a shorter result means that chunk's embedding failed |
| Server.IngestAll | backend/index.js:59-62 | when every embedding succeeds, every chunk is stored, in order, with its embedding |
| Server.IngestStopsAtFirstFailure | backend/index.js:59-62 | when chunk i is the first whose embedding fails, exactly chunks 0 to i-1 are stored |
| Server.IngestFrom | backend/index.js:59-62 | one loop step: a failed embedding stores nothing more; a successful one stores the chunk and then continues with the next chunk |
| Server.Backend.constructor | backend/index.js:34 | the store starts empty |
| Server.Backend.StoreChunks | backend/index.js:59-64 | the loop leaves the store as the old store followed by the ingested entries; a failure is not rolled back; the outcome is the stored count when all chunks went in, and otherwise the message of the failing embedding |
| Server.Backend.LoadPdf | backend/index.js:52-68 | a failed read or parse leaves the store unchanged and reports its message; otherwise the store grows by exactly the ingested entries of the text's chunks, with the outcome as above |
| Server.Backend.Ask | backend/index.js:71-94 | a request is answered by the handler against the current store, and the store is not changed |
| Server.StartUp | backend/index.js:96-99 | loading a text without U+2028/U+2029 into the fresh store, with every embedding succeeding, stores ceil(L/500) entries; entry k holds window k of the text and that window's embedding; the load reports that count |
| Retrieval.ScoreAll | backend/index.js:79 | `map(obj => ({ ...obj, score }))`: each entry, in store order, copied with the similarity of the question's embedding to its embedding; specified by SelectionPartitionsStore and SelectionKeepsTieOrder, which relate the selection to it |
| Retrieval.Ranking | backend/index.js:80 | the scored store stably sorted by non-increasing score; specified by SortByScore and StableSortsAgree |
| Retrieval.Insert | backend/index.js:80 | inserting into a list adds exactly that element: the length grows by one and the multiset of elements grows by it |
| Retrieval.InsertDescending | backend/index.js:80 | inserting into a non-increasing list keeps it non-increasing |
| Retrieval.InsertTies | backend/index.js:80 | the inserted element comes before every element of equal score, so the tie order is the one of the input |
| Retrieval.SortByScore | backend/index.js:80 | the sort returns the same elements, as a multiset, in non-increasing score order, and keeps entries of equal score in their input order (stable) |
| Retrieval.StableSortIsUnique | backend/index.js:80 | two non-increasing lists with the same tie order for every score are equal, so any stable sort gives the same ranking |
| Retrieval.StableSortsAgree | backend/index.js:80 | any non-increasing list that keeps the input's tie order is the result of SortByScore |
| Retrieval.TiesAppend | backend/index.js:80 | the entries of one score in a concatenation are those of the first part followed by those of the second |
| Retrieval.SelectedCountAndOrder | backend/index.js:78-81 | `slice(0, 3)` keeps min(3, store size) entries, in non-increasing score order |
| Retrieval.Selected | backend/index.js:81 | `slice(0, 3)` of the ranking; specified by SelectedCountAndOrder, SelectionPartitionsStore, OutscoringEntriesAreSelected and SelectionKeepsTieOrder |
| Retrieval.Texts | backend/index.js:82 | `map(obj => obj.text)`: the texts of the selection in its order; specified by ContextLayout |
| Retrieval.Context | backend/index.js:78-83 | the whole pipeline from store and question embedding to the context string; specified by ContextLayout, ContextOfSmallStore and ContextExample |
| Retrieval.SelectionPartitionsStore | backend/index.js:78-81 | the selected and unselected entries together are the scored store, and no unselected entry scores above a selected one |
| Retrieval.OutscoringEntriesAreSelected | backend/index.js:78-81 | a stored chunk that scores above some selected chunk is itself selected |
| Retrieval.SelectionKeepsTieOrder | backend/index.js:78-81 | among chunks of equal score, the selected ones are the earliest in store order, and the unselected ones come after them |
| Retrieval.ContextLayout | backend/index.js:78-83 | the context holds the min(3, store size) selected texts in ranking order, each at its offset, with one newline after every text but the last, and it has the matching length |
| Retrieval.ContextOfSmallStore | backend/index.js:78-83 | an empty store gives the empty context, and a one-entry store gives that entry's text unchanged |
| Retrieval.ExampleRanking | backend/index.js:78-80 | three chunks A, B, C scoring 0.9, 0.5, 0.8 rank A, C, B |
| Retrieval.ContextExample | backend/index.js:78-83 | the context of those three chunks is "A\nC\nB" |
| JsValues.JoinLines | backend/index.js:83 | `join("\n")`: no parts give "", one part gives that part, otherwise the parts with one LF between neighbours; specified by JoinLinesLayout |
| JsValues.JoinLinesLayout | backend/index.js:83 | `join("\n")`: part k sits at its offset, a newline follows every part but the last, and the length is the total of the parts plus one unit per separator |
| JsValues.Units | backend/index.js:74 | a string literal of the handler becomes its code units, one per character and with the same values |
| AskHandler.IsFalsy | backend/index.js:74 | `!question` on the values modelled: the question is falsy exactly when the field is missing (or null) or the empty string; every non-empty string, whitespace included, is truthy; specified by HandleAsk and StatusOfHandleAsk |
| AskHandler.Status | backend/index.js:74-92 | the status codes: 400 for the missing question, 200 for the answer, 500 for a caught error; specified by StatusOfHandleAsk |
| AskHandler.Prompt | backend/index.js:86 | the prompt is the fixed instruction and a newline, then the context, then "\n\nQuestion: ", then the question; each part sits at its position and the length is the sum |
| AskHandler.PromptDeterminesParts | backend/index.js:86 | given the question's length, one prompt comes from exactly one context and one question |
| AskHandler.HandleAsk | backend/index.js:71-94 | a falsy question, and only that, gives status 400 with "Question is required" and makes no outbound call; otherwise the question is embedded first; the generation call, if made, is second and carries the prompt of the retrieved context; the answer is the generated text unchanged, exactly when both calls succeed; a server error carries the message of the failed call, which was the last one made |
| AskHandler.StatusOfHandleAsk | backend/index.js:74-92 | the status is always 400, 200 or 500; 400 exactly for a falsy question; for a truthy question, 200 exactly when the question's embedding succeeds and the generation for the prompt of its retrieved context succeeds, and 500 exactly when either of the two calls fails |

## Left out

- `cosineSim` (backend/index.js:44-49) is not part of this model. The score is an arbitrary function of the two embeddings with a real result. Floating point, NaN scores (a zero vector) and the comparator's behaviour on NaN are not modelled.
- The two Gemini calls are oracles: deterministic functions from input to a reply or an error message. Latency, retries, quotas and the real models are not modelled. The same text is assumed to get the same reply each time it is sent.
- Reading `career.pdf` and `pdf-parse` are boundaries: `LoadPdf` receives their result, either the extracted text or the error message.
- The Express application is not modelled: JSON body parsing, CORS, `dotenv`, the port and `listen` are left out. The `question` field is modelled as absent or a string; other JSON values (numbers, objects, `false`) are left out.
- Logging (`console.log`, `console.error`) is a side effect that is not modelled. The loader's outcome is returned instead of printed.
- Concurrency is left out: `loadPDF` is started by `listen` without being awaited, so a request can be answered against a partly filled store. `Ask` answers against whatever store it is given, but the interleaving of requests with the loader is not modelled.
- JsValues.Units: characters outside the Basic Multilingual Plane would be surrogate pairs in UTF-16, but they become U+FFFD here. This does not matter for the model, because the only literals converted are the handler's fixed ASCII strings.
- `getEmbedding` (backend/index.js:37-41) is left out. Its reading of `embedding.values` is folded into the embedding oracle's reply.
- The frontend is not part of this model.
