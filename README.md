# PDF retrieval pipeline: a Dafny model of `PDFProcessor`

This project models `PDFProcessor` from `utils.py`, the retrieval core of a
chat-with-your-PDFs application, and proves properties of it. The class turns a
PDF into text, then into overlapping chunks. It embeds the chunks with a
sentence-transformer model, appends the vectors to a flat L2 index, and answers
a query by mapping the index's nearest positions back to chunk text.

The model keeps the source's shape. `Processor.PdfProcessor` is a class with
the same fields:
- the index (`index`);
- whether the index has been given its width (`isIndexInitialized`);
- the current chunk list (`textChunks`);
- the configuration constants of `__init__`.

Its methods are the source's loops, written as `while`/`for` loops with
invariants. Each method is proved against a specification function in its own
module:

| module | what it specifies |
|---|---|
| `PyStr` | Python's slice with negative and out-of-range bounds, list indexing with a negative index, `str.isspace`, `str.strip` |
| `Batching` | the ranges `range(0, n, size)` / `[i:min(i+size, n)]` and their concatenation |
| `Extraction` | page text (a failing `get_text` gives `""`) and the joined document text |
| `Chunking` | the `chunk_text` loop as a state machine indexed by iteration count, with fuel |
| `Embedding` | batches of five, skipped batches, progress values |
| `VectorIndex` | the index's width and rows, what `build_index` does to them |
| `Retrieval` | the `zip`, filter and lookup loop of `search` |
| `ChunkExamples` | two concrete chunker runs, worked out in full |

The libraries are oracles passed in as values:
- `page.get_text()` is a `Page = Option<string>`, where `None` means the call raised.
- `model.encode(batch)` is an `Encoder`, a function giving `Option<seq<Vector>>`.
- `index.search(q, k)` is a `Knn`, a function giving `Option<(positions, distances)>`. Only its first row is modelled.

`process_pdf` is given the document as `Option<seq<Page>>`: the pages, or None
when reading the document raises, either in `fitz.open` or when a page is
loaded with `doc[j]` (utils.py:32, utils.py:37). Both exceptions leave
`extract_text_from_pdf` and are caught by `process_pdf`.

## What the chunker really does

The loop in `chunk_text` (utils.py:57-67) does not always terminate. Once a
window reaches the end of the text, `start` becomes `len(text) - chunk_overlap`.
With a positive overlap that is still below the text length, so the same tail window
is examined again and again:
- A non-blank tail is appended on every pass until `max_chunks` chunks exist (`Chunking.TailFillsToCap`).
- A blank tail is never appended, and the loop never exits (`Chunking.BlankTailNeverStops`).
- An all-whitespace text never exits either (`Chunking.BlankTextNeverStops`).
- On any non-empty text with a positive overlap, the loop ends only at the cap (`Chunking.StopsOnlyAtCap`).

The model therefore gives `chunk_text` fuel, a bound on the number of loop
iterations. When the loop is still running after that many iterations, the
result is `OutOfFuel`.

`ChunkExamples.FourBlocksExample` works one run out in full: "AAAA BBBB CCCC
DDDD" with chunk_size 8 and chunk_overlap 2 gives "AAAA BBB", "BBB CCCC",
"CC DDDD", then the tail "DD" repeated up to `max_chunks`.

`start` can also go negative, when the text is shorter than the overlap. Python
then counts the slice start from the end of the text and clamps it at 0, and
`Chunking.NegativeStart` shows that case.

## Model

| member | source | states |
|---|---|---|
| Processor.PdfProcessor.constructor | utils.py:11-20 | the index starts as an empty index of width 384, with no chunks and the flag unset; the encoder is the given model |
| Processor.PdfProcessor.ExtractTextFromPdf | utils.py:30-48 | the batched loop over pages returns the texts of the page batches `doc[i:i+10]` joined batch after batch, which is the document's page texts joined in page order |
| Extraction.DocumentTextInBatches | utils.py:36-48 | joining the page texts batch after batch, over the batches `doc[i:i+size]`, gives every page's text once, in page order |
| Extraction.PageTexts | utils.py:22-28 | one text per page, in order: the page's text, or "" when get_text raises |
| Extraction.DocumentTextAppend | utils.py:36-48 | the text of a document is the text of its first pages followed by that of the rest, so batching does not reorder pages |
| Extraction.FailedPageContributesNothing | utils.py:22-28 | a page whose get_text raises contributes "" and the later pages still contribute their text |
| Batching.BatchesCover | utils.py:36-37 | the ranges `[i, min(i+size, n))` for i in `range(0, n, size)`, concatenated, give back the whole sequence: every element once, in order |
| Batching.BatchesShape | utils.py:36-37 | batch t is `s[t*size : min((t+1)*size, n)]`, non-empty, and there are ceil(n / size) batches |
| Processor.PdfProcessor.ChunkText | utils.py:50-73 | the while loop returns exactly what the chunker specification gives for the same fuel: `chunks[:max_chunks]` when the loop stops, OutOfFuel when it is still running |
| PyStr.StripEmptyIffBlank | utils.py:64 | `chunk.strip()` is empty exactly when the chunk is empty or all whitespace |
| PyStr.SliceNormalises | utils.py:61 | `text[start:end]` reads its bounds as Python does: in range it is the plain subsequence; a negative bound down to -len means that bound plus len; a start below -len is 0 and an end beyond len is len; a non-negative end at or before the start gives "" |
| Chunking.LoopStep | utils.py:57-67 | one pass of the loop body while the condition holds takes the state after k passes to the state after k+1 passes |
| Chunking.ChunkRunStops | utils.py:57-73 | if the loop condition first fails before pass K and the fuel allows K passes, the result is the chunks collected in those K passes |
| Chunking.ChunkRunReturns | utils.py:57-73 | conversely, a run that returns stopped at some K within the fuel and returns what K passes collected |
| Chunking.ChunkRunStillRunning | utils.py:57 | a run that is out of fuel found the loop condition true before each of its passes |
| Chunking.ChunksAreNonBlankWindows | utils.py:57-73 | at most max_chunks chunks are returned; each is a window `text[start:min(start+chunk_size, len)]` of some pass whose start was below len(text), is not blank and is at most chunk_size long |
| Chunking.EmptyTextGivesNothing | utils.py:54-57 | an empty text gives [] |
| Chunking.StartsAdvanceByStep | utils.py:58-67 | until some window reaches the end of the text, the k-th start is k * (chunk_size - chunk_overlap) |
| Chunking.ConsecutiveWindowsOverlap | utils.py:58-67 | while no window has reached the end, window k is a full chunk_size slice, window k+1 begins with its last chunk_overlap characters, and the two glued at the overlap give back the text they span |
| Chunking.WindowReachesEnd | utils.py:58-67 | with overlap < size, some pass's window reaches the end of the text, and it is the first pass whose start is within chunk_size of the end |
| Chunking.StartsAtTail | utils.py:58-67 | once a window has reached the end, every later start is `len(text) - chunk_overlap` |
| Chunking.StartsBelowLength | utils.py:57-67 | with a positive overlap on a non-empty text, `start < text_length` never fails |
| Chunking.StopsOnlyAtCap | utils.py:57-73 | hence such a run can only return with exactly max_chunks chunks |
| Chunking.TailFillsToCap | utils.py:57-67 | after the window that reaches the end, a non-blank tail is appended on every pass: the result is the chunks so far followed by copies of the tail up to max_chunks, or OutOfFuel with less fuel |
| Chunking.BlankTailNeverStops | utils.py:57-67 | after the window that reaches the end, a blank tail is never appended and the loop never exits, whatever the fuel |
| Chunking.BlankTextNeverStops | utils.py:57-67 | a non-empty all-whitespace text never exits the loop when overlap and cap are positive |
| Chunking.NegativeStart | utils.py:61-67 | a text shorter than the overlap drives start below 0, and the next window is read with Python's negative-start slice |
| ChunkExamples.FourBlocksExample | utils.py:50-73 | "AAAA BBBB CCCC DDDD" with size 8 and overlap 2 gives "AAAA BBB", "BBB CCCC", "CC DDDD", then "DD" until max_chunks (OutOfFuel before that) |
| ChunkExamples.BlankTailExample | utils.py:50-73 | "AB  " with size 3 and overlap 2 keeps two chunks and then never terminates |
| Processor.PdfProcessor.ProcessPdf | utils.py:79-87 | a failure to open the document or load a page gives [] and leaves the chunks; otherwise the chunks are replaced (not extended) by the chunker's result for the document text |
| Processor.PdfProcessor.GenerateEmbeddings | utils.py:89-112 | the loop returns the specified embeddings and, with a callback, exactly the specified progress values |
| Embedding.EmbeddingsAreSuccesses | utils.py:93-110 | the embeddings are the in-order concatenation of the outputs of the batches of five whose encoding succeeds; a failing batch adds nothing and later batches still run |
| Embedding.EmbeddingsLength | utils.py:91-112 | with an encoder giving one vector per text, there are at most as many vectors as chunks, and exactly as many when no batch fails |
| Embedding.EmbeddingsAligned | utils.py:95-99 | with an encoder that, whenever it succeeds, embeds each text on its own, and no batch of these chunks failing, there is one vector per chunk and vector j is the embedding of chunk j |
| Embedding.ProgressIncreases | utils.py:101-103 | the values passed to progress_callback lie in (0, 1] and strictly increase |
| Embedding.LastProgressIsOne | utils.py:101-103 | the last value passed is 1 exactly when the final batch succeeds |
| Processor.PdfProcessor.BuildIndex | utils.py:114-124 | the new index and flag are those the build function gives for the old ones, and every row keeps the index's width |
| VectorIndex.AddTwice | utils.py:122 | adding two non-empty batches in turn succeeds exactly when adding them stacked does, and gives the same index: the old rows, then the first batch, then the second |
| VectorIndex.BuildFirst | utils.py:117-124 | the first call with embeddings sets the flag and the width of the first row, and holds those embeddings when they form a matrix (a failing add leaves the new empty index and the flag set); an empty call changes nothing |
| VectorIndex.BuildLater | utils.py:117-124 | later calls keep the flag and width and only append; earlier rows stay in order |
| VectorIndex.BuildWellShaped | utils.py:114-124 | every row of an initialised index has the index's width |
| VectorIndex.BuildTwice | utils.py:114-124 | two builds with matrices of the same width give an index holding both, in order |
| Processor.PdfProcessor.Search | utils.py:126-139 | the loop returns the specified search results |
| PyStr.GetNegative | utils.py:135 | `text_chunks[idx]` fails exactly outside [-len, len); a negative position reads the same chunk as that position plus len; what it reads is one of the chunks |
| Retrieval.Zip | utils.py:133 | `zip` pairs positions and distances up to the shorter of the two |
| Retrieval.Kept | utils.py:134 | the kept pairs are those whose position is below len(text_chunks), and only those |
| Retrieval.KeptAppend | utils.py:133-134 | the filter keeps the index's order: filtering a list is filtering its first part followed by filtering the rest |
| Retrieval.KeptSingle | utils.py:134 | a single pair is kept exactly when its position is below len(text_chunks) |
| Retrieval.MapHitsRaises | utils.py:133-139 | the lookup raises, and the search gives [], exactly when some position is below -len(text_chunks) |
| Retrieval.MapHitsKept | utils.py:133-136 | otherwise the hits are the kept pairs, in the index's order, each with its chunk read by Python indexing and its distance |
| Retrieval.SearchResultsAnswered | utils.py:126-139 | when encoder and index answer, the search gives [] on a bad position and otherwise the kept pairs' chunks and distances |
| Retrieval.SearchResultsAreChunks | utils.py:126-139 | every result's text is one of the current chunks |
| Retrieval.PaddingReadsLastChunk | utils.py:133-135 | a padding position -1 passes the filter and reads the last chunk |
| Retrieval.NoChunksNoResults | utils.py:126-139 | with no chunks the search returns nothing |
| Processor.EmbeddingsRectangular | utils.py:112-118 | with a fixed-width encoder that embeds each text alone and no failing batch, the embeddings form a matrix of that width, one row per chunk |
| Processor.StalePositions | utils.py:83-135 | after two documents the index holds both documents' rows, but a position is read against the second document's chunks only, or dropped when that list is shorter |

## Left out

- The `MemoryError` branch of `chunk_text` (utils.py:74-77) is not modelled: no program input can trigger it.
- Processor.PdfProcessor.ChunkText: the fuel bound reports a loop still running after `fuel` passes as OutOfFuel. The source does not return at that point; for the inputs that never stop, the model proves that no fuel is enough.
- Chunking.TailFillsToCap and Chunking.BlankTailNeverStops assume chunk_overlap ≤ chunk_size. With a larger overlap `start` can move backwards. For such runs only the lemmas without that assumption apply: Chunking.StartsAdvanceByStep, Chunking.ChunksAreNonBlankWindows, Chunking.ChunkRunStops and Chunking.ChunkRunReturns.
- `ThreadPoolExecutor` concurrency and its worker cap (utils.py:40-41) are not modelled. `executor.map` keeps page order, so extraction is modelled sequentially.
- `gc.collect()` calls (utils.py:45, utils.py:70-71, utils.py:106) and `print` logging are left out: they have no effect on results.
- The model download in `__init__` (utils.py:12) is left out: the encoder is a constructor parameter.
- `fitz.open`, page loading and `doc.close()` (utils.py:32, utils.py:37, utils.py:47) are file I/O.
- Processor.PdfProcessor.ExtractTextFromPdf is modelled for a document whose pages all load. In the source, a failed `doc[j]` at utils.py:37 is outside the page's `try`, so it aborts the whole document; the model covers that only through `ProcessPdf`'s None case ([] returned, chunks kept).
- Floats are modelled as reals. This covers float32 vectors, the `astype('float32')` casts, the distance conversion and the progress fraction; rounding is not modelled.
- Distances and ranking inside the faiss index are not modelled; the search is an oracle. So the model does not state that results are sorted or that there are min(k, N) of them.
- `np.array(embeddings)` on rows of different widths (utils.py:112) is not modelled. A ragged list is modelled as "not a matrix", so `add` fails.
- A `progress_callback` that raises is not modelled. In the source the batch's vectors are already kept by then and only `gc.collect()` is skipped. The model treats the callback as a recorder of the values it is passed.
- app.py (the Streamlit interface) and groq_api.py (the language-model client) are not part of this model.
