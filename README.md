# Website RAG bot: the text and retrieval pipeline in Dafny

This project models the parts of the website question-answering bot that do not depend on any external service:

- **Crawler** (`Crawler.crawl`): a breadth-first crawl. It keeps a FIFO queue of `(url, depth)` pairs and a visited set. It stops when the queue runs out or the page budget (by default 10 pages) is reached. Entries deeper than the depth bound (by default 5) are dropped without a fetch, and only links in the seed's registrable domain are followed.
- **Cleaner** (`Cleaner.clean_html`): text assembly after HTML parsing. Candidate blocks are filtered by length and deduplicated with the first occurrence kept. The kept blocks are joined with blank lines. A body-text fallback covers documents with no candidate block.
- **Chunker** (`Chunker.chunk_text`): paragraph chunking. Texts are split on newlines, short paragraphs are dropped, and long paragraphs are cut into 1500-character windows.
- **Embedder and vector store**: `Embedder.embed_texts` sends texts in batches. `FaissStore` keeps a vector index with a parallel list of texts, and can add, search, save and load.
- **Orchestrator** (`QAEngine`): `indexing` filters the cleaned pages and chunks them with its own 50/2000 thresholds. `fetch_context` refuses an empty index and formats the search results. `get_recent_conversation` truncates the chat history. `generate_response` replies with a fixed text, without calling the model, when there is nothing to go on.

External collaborators become values the model is given:

- the network and URL libraries, as a `Crawler.Web` record;
- HTML parsing, as `parse`;
- the embedding service, as `Service`;
- FAISS search, as `Nearest`;
- score formatting, as `formatScore`;
- the language model, as `llm`.

Files written by `save` are two fields of the store. Python exceptions are `Result` values carrying an `Errors.Error`.

Modules:

| module | file | contents |
|---|---|---|
| `Wrappers` | Wrappers.dfy | `Option`, `Result` |
| `Errors` | Errors.dfy | one constructor per exception raised |
| `Text` | Text.dfy | `str.split`, `sep.join` and `range(0, len, w)` windows, with their round trips |
| `Chunker` | Chunker.dfy | the chunking loops; its specification functions and their properties |
| `Cleaner` | Cleaner.dfy | the candidate loop with its `seen` set; `Keep` and its reference definition |
| `Crawler` | Crawler.dfy | `extract_links`, the BFS loop, and the invariants that hold of the visited pages and of the queue |
| `Embeddings` | Embeddings.dfy | batching; the `FaissStore` class |
| `QA` | QA.dfy | the `QAEngine` class, with the functions that specify its methods |

## Model

| member | source | states |
|---|---|---|
| Text.Split | chunker.py:8 | `text.split("\n")` always has at least one piece, and no piece contains the separator |
| Text.JoinSplit | chunker.py:8 | joining the pieces of a split with the separator gives back the original string |
| Text.SplitJoin | chunker.py:8 | the converse round trip of `text.split("\n")`: splitting a join of separator-free pieces gives back the pieces |
| Text.JoinDoubled | cleaner.py:76 | joining with the separator twice is joining, with the separator once, the pieces with an empty piece between neighbours |
| Text.SplitJoinDoubled | cleaner.py:76 | splitting a `"\n\n".join` of newline-free blocks on `"\n"` gives the blocks with an empty piece between neighbours |
| Text.FlatMapStep | chunker.py:7-9 | one turn of a loop that appends `f(x)` for the next element `x` leaves exactly the rest of the elements to do |
| Text.FlatMapAppend | chunker.py:7-9 | mapping and flattening `a + b` gives the results of `a` followed by those of `b` |
| Text.FlatMapOrigin | chunker.py:7-9 | every element of a flattened result comes from one input element |
| Text.WindowsConcat | chunker.py:13-14 | the windows `s[i:i+w]` for `i in range(0, len(s), w)` concatenate back to `s` |
| Text.WindowsCount | chunker.py:13 | there are ceil(len/w) windows |
| Text.WindowsSizes | chunker.py:14 | every window is non-empty and at most `w` long, and all but the last are exactly `w` long |
| Text.WindowsFacts | chunker.py:13-14 | the windows `s[i:i+w]` for `i in range(0, len(s), w)` concatenate back to `s`; there are ceil(len/w) of them; each is non-empty and at most `w` long; all but the last are exactly `w` long |
| Text.WindowsAt | chunker.py:13-14 | one loop turn takes the window at `i`, clamped to the end, and the remaining windows are those of the rest |
| Chunker.ChunkText | chunker.py:5-17 | `chunk_text` returns `Chunks(texts, 200, 3000)`, the chunks of the texts' newline-separated paragraphs in order. Each chunk is non-empty, at most 3000 characters long and free of newlines, and is either a paragraph of 201 to 3000 characters kept whole or a 1500-character window of a longer paragraph |
| Chunker.ChunkParagraphs | chunker.py:5-17 | for any thresholds, the nested loops produce exactly the text-by-text, paragraph-by-paragraph chunk list; an empty input gives no chunks |
| Chunker.AddText | chunker.py:8-16 | one text appends the chunks of its newline-separated paragraphs |
| Chunker.AddParagraph | chunker.py:10-16 | one paragraph appends nothing, itself, or its windows |
| Chunker.CutWindows | chunker.py:13-14 | the `range(0, len(para), 1500)` loop appends the 1500-character windows in order |
| Chunker.ParaChunksShape | chunker.py:10-16 | a paragraph contributes nothing exactly when its length is at most the minimum. A paragraph above the minimum and at most the maximum is emitted unchanged. A longer one becomes ceil(len/1500) windows: all but the last are exactly 1500 long, and together they concatenate back to the paragraph |
| Chunker.ParaChunkBounds | chunker.py:10-16 | a paragraph's chunk is the paragraph itself, when it is longer than the minimum and at most the maximum, or one of its 1500-character windows, when it is longer than both. The chunk is non-empty, newline-free when the paragraph is, and at most the maximum long when the window fits |
| Chunker.ChunkOrigin | chunker.py:7-9 | every chunk comes from one paragraph of one input text, and the lemma names both |
| Chunker.ChunkBounds | chunker.py:6-16 | every chunk is non-empty, newline-free and at most the maximum long. It is a paragraph of some input text, kept whole because it is longer than the minimum and at most the maximum, or a window of a paragraph longer than the maximum (`FromSomeParagraph`) |
| Chunker.SpacedChunks | chunker.py:10 | empty pieces between paragraphs add no chunk |
| Chunker.BlocksAreParagraphs | chunker.py:7-16 | a `"\n\n".join` of newline-free blocks is chunked block by block, each block one paragraph |
| Chunker.ChunksAppend | chunker.py:7 | the chunks of `a + b` are the chunks of `a` followed by those of `b`, so output order follows text order |
| Chunker.ParasChunksAppend | chunker.py:9 | within a text, paragraphs keep their order |
| Cleaner.Keep | cleaner.py:63-73 | kept blocks are candidate texts of at least 50 characters, pairwise distinct, and every such text is kept |
| Cleaner.CleanHtml | cleaner.py:53-76 | the body fallback or `""` when there is no candidate. Otherwise it is the kept blocks joined with `"\n\n"`, which is `""` when no block is long enough. The blocks are the candidates' texts, each `" ".join(c.stripped_strings)` (`BlockTexts`), in document order |
| Cleaner.KeepStep | cleaner.py:64-73 | one candidate is skipped when short or already seen, and appended otherwise |
| Cleaner.NoLongBlock | cleaner.py:67-68 | when every candidate is shorter than 50 characters, nothing is kept |
| Cleaner.KeepIsFirstOccurrences | cleaner.py:63-73 | the `seen`-set loop keeps exactly the first occurrence of every long block, in order |
| Cleaner.KeepFixpoint | cleaner.py:63-73 | a list of distinct long blocks passes through the filter unchanged |
| Cleaner.KeepIdempotent | cleaner.py:63-73 | filtering and deduplicating the kept list again returns it unchanged |
| Crawler.FetchContent | crawler.py:15-28 | content is returned only for a URL the validator accepts |
| Crawler.SameDomainIsEquivalence | crawler.py:30-33 | `is_same_domain` is reflexive, symmetric and transitive |
| Crawler.ExtractLinks | crawler.py:35-43 | the links are the hrefs resolved against the page URL whose scheme is http or https, and all of them are kept |
| Crawler.LinkedFromGrows | crawler.py:58 | a queued or visited URL stays linked from a visited page when more pages are recorded |
| Crawler.PopKeeps | crawler.py:51 | dropping the head of the queue keeps its breadth-first shape |
| Crawler.DistinctGrows | crawler.py:52-59 | recording a URL that has not been visited keeps the page URLs pairwise distinct |
| Crawler.FetchedGrows | crawler.py:56-58 | every recorded page was fetched with non-empty content, within the depth bound |
| Crawler.LinkedGrows | crawler.py:58-66 | every recorded page after the seed is a same-domain link of an earlier page one level up |
| Crawler.BreadthFirstGrows | crawler.py:51-58 | recorded depths stay non-decreasing |
| Crawler.VisitKeepsPages | crawler.py:56-59 | visiting the head of the queue keeps every invariant of the page list |
| Crawler.VisitKeepsQueue | crawler.py:51-58 | after a visit, the rest of the queue is at the visited depth or one level deeper, and no page is deeper |
| Crawler.EnqueueKeeps | crawler.py:64-66 | appending a same-domain link of the page just visited, one level deeper, keeps the queue's invariants |
| Crawler.DuringDone | crawler.py:64-66 | once the links are queued, the queue has its breadth-first shape again |
| Crawler.EnqueueLinks | crawler.py:64-66 | the old queue is a prefix of the new one. Every appended entry is an unvisited same-domain link of the page, at depth + 1. Every such link is appended, and no URL is appended twice |
| Crawler.AppendedAdd | crawler.py:64-66 | queueing a qualifying link taken from the set keeps the appended part exactly the qualifying links taken so far |
| Crawler.AppendedSkip | crawler.py:65 | passing over a visited or foreign link keeps the same |
| Crawler.SkipKeeps | crawler.py:51-57 | skipping a visited, too deep or contentless entry keeps the loop invariant |
| Crawler.SkipCovers | crawler.py:51-57 | skipping such an entry loses no link: every same-domain link with content of a page above the depth bound stays visited, or pending at most one level below that page |
| Crawler.VisitCoversOld | crawler.py:51-59 | after a visit, the links pending before are visited or still pending at the same bound |
| Crawler.VisitCovers | crawler.py:51-66 | after a visit, the new page's qualifying links are pending one level below it, and every visited URL is a recorded page |
| Crawler.VisitHead | crawler.py:56-66 | a visit appends the page and marks its URL visited. It queues exactly the page's unvisited same-domain links, once each, one level down. All three loop invariants hold afterwards |
| Crawler.VisitLevel | crawler.py:50-66 | after a visit, every same-domain link with content of a page two or more levels above the new page is the URL of an earlier page: the FIFO queue is sorted by depth, so such a link cannot still be pending |
| Crawler.NotLinkedGrows | crawler.py:56-58 | recording a page at depth `d` changes which pages link a URL one level up only for depth `d + 1` and only beyond the old pages |
| Crawler.SkipOrders | crawler.py:51-57 | dropping a visited, too deep or contentless head keeps the FIFO order: every entry still comes after an entry for each unvisited link with content of an earlier page one level up |
| Crawler.OldEntryOrdered | crawler.py:51-66 | after a visit, an entry that was behind the head still comes after the entries it came after |
| Crawler.NewEntryOrdered | crawler.py:64-66 | a link the visit has just queued comes after an entry for every unvisited link with content of an earlier page on the visited page's level |
| Crawler.VisitOrdersQueue | crawler.py:51-66 | a visit keeps that order for the whole queue |
| Crawler.VisitOrdersPages | crawler.py:51-59 | the page visited now comes after every same-domain link with content of each page, one level up, that comes before the first page linking it |
| Crawler.VisitOrders | crawler.py:51-66 | a visit keeps the order of the queue and the order within each level |
| Crawler.CrawlDone | crawler.py:50-68 | when the loop ends, the loop invariants give everything `Crawler.CrawlOk` states |
| Crawler.DoneCovers | crawler.py:50 | with the queue empty, every covered link is the URL of a recorded page |
| Crawler.VisitKeeps | crawler.py:56-66 | recording a page, marking it visited and queueing its links keeps the loop invariant |
| Crawler.CrawlTurn | crawler.py:51-66 | a visited, too deep or contentless head is dropped, and nothing is fetched into the output or marked visited. Otherwise the page is appended and its URL marked visited. Behind the rest of the queue come exactly its unvisited same-domain links, once each, one level down. All three loop invariants hold afterwards |
| Crawler.Crawl | crawler.py:45-68 | see below |
| Embeddings.EmbedTexts | embeddings.py:14-34 | the result is the batches' vectors in batch order; the first failing request fails the call; an empty list, or a negative batch size, gives `[]` without a request |
| Embeddings.PrependTwice | embeddings.py:31-32 | appending two batches' vectors one after the other is appending their concatenation |
| Embeddings.EmbedOnePerText | embeddings.py:18-34 | when the service answers each batch with one vector per text, the output has exactly one vector per input text, in input order (`EmbedEach`) |
| Embeddings.EmbedBatchesEach | embeddings.py:18-32 | the same for any list of batches, against the concatenation of the batches |
| Embeddings.EmbedEachAppend | embeddings.py:31-32 | the per-text vectors of `a + b` are those of `a` followed by those of `b` |
| Embeddings.PyIndex | embeddings.py:58 | Python indexing succeeds exactly for `-len <= i < len` |
| Embeddings.Admitted | embeddings.py:57 | the hits the `idx < len(texts)` guard admits: at most as many as given, each one from the input and below the bound |
| Embeddings.HitsResultsOk | embeddings.py:55-58 | `search` fails with `IndexError` exactly when some hit is below `-len(texts)`; the guard has no lower bound |
| Embeddings.HitsResultsEntries | embeddings.py:55-58 | a successful search has one entry per admitted hit, in the index's order, with the hit's score and the text Python indexing reads for it |
| Embeddings.HitsInRange | embeddings.py:55-58 | when every hit is in `0 .. len(texts)-1`, the results are the hits' texts and scores, one for one |
| Embeddings.PaddingReadsLast | embeddings.py:57-58 | FAISS's `-1` padding passes the guard and returns the last stored text |
| Embeddings.AtMostK | embeddings.py:53-58 | for one query row of `k` hits, `search` returns at most `k` entries |
| Embeddings.FaissStore.constructor | embeddings.py:38-43 | a new store has an empty index and text list |
| Embeddings.FaissStore.Add | embeddings.py:45-49 | the vectors go into the index; the texts are appended in order; earlier entries and the files are unchanged |
| Embeddings.FaissStore.Search | embeddings.py:51-59 | the nested loops return the search result of the flattened rows of hits |
| Embeddings.FaissStore.Save | embeddings.py:61-66 | with an empty index path it fails before writing anything; otherwise both files hold the current index and texts |
| Embeddings.FaissStore.Load | embeddings.py:68-72 | a missing index file fails and changes nothing. A present one replaces the index. A missing texts file then fails with the old texts still in place. Otherwise the texts are replaced too |
| Embeddings.SaveLoad | embeddings.py:61-72 | loading after a successful save gives back the same index and texts |
| QA.PageTextsSound | qa.py:31-35 | every text `indexing` keeps is non-empty, longer than 30 characters and the cleaned text of a crawled page |
| QA.PageTextsComplete | qa.py:31-35 | every page whose cleaned text passes the filter contributes it |
| QA.PageTextsAppend | qa.py:31-35 | the kept texts follow crawl order |
| QA.CleanedTextChunks | qa.py:31-51 | a page cleaned from candidate blocks, none containing a newline, is chunked block by block: its chunks are those of the kept blocks taken as paragraphs |
| QA.IndexChunksOne | qa.py:41-51 | the chunks of one text are those of its paragraphs |
| QA.IndexChunkBounds | qa.py:41-51 | the inline chunker's chunks are non-empty, newline-free and at most 2000 characters long. Each is a paragraph of one of the texts of 51 to 2000 characters kept whole, or a 1500-character window of a paragraph longer than 2000 |
| QA.ContextEntries | qa.py:68-71 | the context is the formatted entries of the results, one per result in result order, and it is empty exactly when there is no result |
| QA.JoinChars | qa.py:108 | `"\n\n".join(retrieved)` is empty exactly when `retrieved` is |
| QA.ModelSkippedExactly | qa.py:104-106 | the reply is independent of the language model exactly when the retrieved context and the recent conversation are both empty |
| QA.QAEngine.constructor | qa.py:18-23 | the engine holds its collaborators and an empty store |
| QA.QAEngine.CleanPages | qa.py:31-35 | the page loop keeps the cleaned texts that are non-empty and longer than 30 characters, in crawl order |
| QA.QAEngine.Indexing | qa.py:25-59 | see below |
| QA.QAEngine.FormatContext | qa.py:68-71 | the result loop builds the context, which is empty exactly when there is no result |
| QA.QAEngine.FetchContext | qa.py:61-71 | a missing file fails. A failed load keeps the old index when the index file is missing. When only the texts file is missing, it leaves the new index next to the old texts. An empty loaded text list raises "No index loaded". Otherwise the result is the formatted search results for the embedded question |
| QA.QAEngine.GetRecentConversation | qa.py:73-79 | a copy of `previous[-max_turns:]` (start `TailStart`): for a positive count, the last min(count, len) turns in order; for 0, the whole history |
| QA.QAEngine.GenerateResponse | qa.py:99-109 | a failed retrieval fails, leaving the store as a failed load does. With no context and no recent turns the reply is `FAILED_CONTEXT_RETRIEVAL`. Otherwise it is the model's answer to the question, the joined context and the recent turns |

Two rows hold too much for one cell:

- `Crawler.Crawl`:
  - the visited pages have distinct URLs;
  - each page was fetched with content, within the depth bound;
  - the seed comes first at depth 0;
  - every later page is a same-domain link of an earlier page one level up;
  - depths are non-decreasing (breadth-first);
  - no more than `max_pages` pages are returned;
  - a fetchable seed gives at least one page;
  - a crawl returning fewer than `max_pages` pages has visited every same-domain link with content of every page above the depth bound;
  - pages come level by level: a page two or more levels below page `i` comes after every same-domain link with content of page `i`;
  - within a level, pages come in the order of the pages that first linked them: a page one level below page `m` that no page up to `m` links comes after every same-domain link with content of page `m`.

  The predicate `Crawler.CrawlOk` collects these facts.
- `QA.QAEngine.Indexing`:
  - the ghost pages and depths are those of a crawl from the URL with the default depth bound: they satisfy `Crawler.CrawlOk`, so a fetchable URL gives at least one page and a crawl ended below the budget covers every qualifying link;
  - when no page survives the filter, it raises "No usable content" and leaves the store untouched;
  - an embedding failure leaves the store untouched;
  - otherwise the store gains exactly the vectors and the chunks;
  - it returns the chunk count, or the save error, which comes after the add.

## Left out

- HTML parsing is not modelled. BeautifulSoup, `decompose` and the ad-class pattern are a `parse` function from HTML to candidate strings and body strings; the crawler sees only the hrefs of a page.
- The network, `validators.url`, `urljoin`, `urlparse` and `tldextract` are not modelled. They are fields of `Crawler.Web`; only their results are used. `Web.get` is a function of the URL, so a site that answers differently from one request to the next is not modelled: a URL that failed once fails every time it is dequeued, and a recorded page's HTML is what a fetch of its URL returns.
- The Gemini embedding and generation services are not modelled. They are functions returning `None` on failure; the model does not capture retries, the prompt text or `strip()`.
- Floating point is not modelled: L2 normalisation, inner-product scores, float32 arrays and `{score:.3f}`. `Nearest` returns the hits and scores, and `formatScore` renders a score.
- Files are not modelled. FAISS and pickle files are two optional fields of the store, and the two paths matter only through the empty-path check.
- The `print` calls, `app.py`, `memory.py` and `constants.py` are not part of this model. The constants used by the core are repeated as Dafny constants.
- The `urls` list built by `indexing` is never read, so it is not modelled.
- `dim` and `output_dimensionality` are not modelled, because vectors are not sized.
- Embeddings.EmbedTexts: requires a non-zero batch size, because Python's `range` raises `ValueError` on a step of 0. A negative size is modelled: the range is empty and no request is made.
- Crawler.Crawl: the ensures do not fix the order among the links of one page. Python iterates a `set`, whose order the model leaves open. Every other ordering is stated: level by level, and within a level by the first page that links each page. So the contract states the invariants, the coverage and the order of the result rather than one exact list.
- QA.QAEngine.Indexing: when no chunk survives, the model adds an empty batch. The numpy and FAISS calls would reject an empty one-dimensional array, and that library behaviour is not modelled.
- QA.QAEngine.GetRecentConversation: history entries are `Turn` values with exactly a question and an answer. A dictionary missing one of those keys, which raises `KeyError`, is not modelled.
- Embeddings.AtMostK: the bound rests on FAISS returning exactly `k` hits per query row. That is taken as the row's length, not derived.
