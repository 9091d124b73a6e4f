/** `QAEngine`, the orchestrator: `indexing` crawls a site, cleans and
    filters its pages, chunks them, embeds the chunks and saves them in the
    vector store; `fetch_context` loads the store and formats the passages
    nearest to a question; `get_recent_conversation` keeps the last turns
    of the chat; `generate_response` answers a question, without asking the
    language model when there is neither context nor conversation. */
module QA {
  import opened Wrappers
  import opened Errors
  import opened Text
  import Chunker
  import Cleaner
  import Crawler
  import opened Embeddings

  /** A cleaned page is kept only when longer than this. */
  const MIN_TEXT_LENGTH: nat := 30
  /** The thresholds of the chunking loop inside `indexing`. */
  const MIN_CHUNK_PARA: nat := 50
  const MAX_CHUNK_PARA: nat := 2000
  const TOP_K := 5
  const MAX_TURNS := 5
  const FAILED_CONTEXT_RETRIEVAL := "The answer is not available on the provided website."

  /** One exchange of the chat history. */
  datatype Turn = Turn(question: string, answer: string)

  /** `if parsed_text and len(parsed_text) > 30`. */
  predicate Usable(text: string)
  {
    text != "" && |text| > MIN_TEXT_LENGTH
  }

  /** `Cleaner.clean_html`: parse, then assemble the text of the document. */
  function CleanerOf(parse: string -> Cleaner.Document): string -> string
  {
    html => Cleaner.CleanedText(parse(html))
  }

  /** The cleaned text of one crawled page. */
  function PageText(clean: string -> string, page: Crawler.Page): string
  {
    clean(page.html)
  }

  /** What one page contributes to the texts `indexing` keeps. */
  function PageContribution(clean: string -> string, page: Crawler.Page): seq<string>
  {
    if Usable(PageText(clean, page)) then [PageText(clean, page)] else []
  }

  /** The texts `indexing` keeps, in crawl order. */
  function PageTexts(clean: string -> string, pages: seq<Crawler.Page>): seq<string>
  {
    if pages == [] then []
    else PageContribution(clean, pages[0]) + PageTexts(clean, pages[1..])
  }

  /** The chunks `indexing` embeds and stores. */
  function IndexChunks(texts: seq<string>): seq<string>
  {
    Chunker.Chunks(texts, MIN_CHUNK_PARA, MAX_CHUNK_PARA)
  }

  /** Every kept text is usable and is the cleaned text of a crawled page. */
  lemma {:induction false} PageTextsSound(clean: string -> string, pages: seq<Crawler.Page>)
    ensures forall t :: t in PageTexts(clean, pages) ==>
      Usable(t) && exists i :: 0 <= i < |pages| && t == PageText(clean, pages[i])
  {
    if pages != [] {
      PageTextsSound(clean, pages[1..]);
      forall t | t in PageTexts(clean, pages)
        ensures Usable(t) && exists i :: 0 <= i < |pages| && t == PageText(clean, pages[i])
      {
        if t in PageTexts(clean, pages[1..]) {
          var i :| 0 <= i < |pages| - 1 && t == PageText(clean, pages[1..][i]);
          assert pages[1..][i] == pages[i + 1];
        } else {
          assert t == PageText(clean, pages[0]);
        }
      }
    }
  }

  /** Every page whose cleaned text is usable contributes it. */
  lemma {:induction false} PageTextsComplete(clean: string -> string, pages: seq<Crawler.Page>, i: nat)
    requires i < |pages| && Usable(PageText(clean, pages[i]))
    ensures PageText(clean, pages[i]) in PageTexts(clean, pages)
  {
    if i > 0 {
      PageTextsComplete(clean, pages[1..], i - 1);
      assert pages[1..][i - 1] == pages[i];
    }
  }

  /** Crawl order is preserved: the texts of `a + b` are those of `a`
      followed by those of `b`. */
  lemma {:induction false} PageTextsAppend(clean: string -> string, a: seq<Crawler.Page>, b: seq<Crawler.Page>)
    ensures PageTexts(clean, a + b) == PageTexts(clean, a) + PageTexts(clean, b)
  {
    if a == [] {
      assert a + b == b;
    } else {
      assert (a + b)[0] == a[0];
      assert (a + b)[1..] == a[1..] + b;
      PageTextsAppend(clean, a[1..], b);
    }
  }

  /** The chunks stored by `indexing` are non-empty, newline-free and at most
      2000 characters long; each is a paragraph of one of the texts of 51 to
      2000 characters kept whole, or a 1500-character window of a paragraph
      longer than 2000. */
  lemma IndexChunkBounds(texts: seq<string>)
    ensures forall c :: c in IndexChunks(texts) ==>
      0 < |c| <= MAX_CHUNK_PARA && '\n' !in c && Chunker.FromSomeParagraph(texts, c, MIN_CHUNK_PARA, MAX_CHUNK_PARA)
  {
    Chunker.ChunkBounds(texts, MIN_CHUNK_PARA, MAX_CHUNK_PARA);
  }

  /** A page cleaned from candidate blocks reaches the inline chunker block
      by block: when no kept block contains a newline, the chunks of the
      cleaned text are those of the kept blocks taken as paragraphs. */
  lemma CleanedTextChunks(doc: Cleaner.Document)
    requires doc.candidates != []
    requires forall t :: t in Cleaner.Keep(Cleaner.BlockTexts(doc.candidates)) ==> '\n' !in t
    ensures IndexChunks([Cleaner.CleanedText(doc)]) ==
            Chunker.ParasChunks(Cleaner.Keep(Cleaner.BlockTexts(doc.candidates)), MIN_CHUNK_PARA, MAX_CHUNK_PARA)
  {
    var kept := Cleaner.Keep(Cleaner.BlockTexts(doc.candidates));
    var text := Cleaner.CleanedText(doc);
    assert text == Join(kept, "\n\n");
    IndexChunksOne(text);
    assert forall i :: 0 <= i < |kept| ==> kept[i] in kept;
    Chunker.BlocksAreParagraphs(kept, MIN_CHUNK_PARA, MAX_CHUNK_PARA);
  }

  lemma IndexChunksOne(text: string)
    ensures IndexChunks([text]) == Chunker.TextChunks(text, MIN_CHUNK_PARA, MAX_CHUNK_PARA)
  {
    var f := t => Chunker.TextChunks(t, MIN_CHUNK_PARA, MAX_CHUNK_PARA);
    assert [text][0] == text && [text][1..] == [];
    assert FlatMap(f, [text]) == f(text) + FlatMap(f, []);
  }

  /** Python's `s[-m:]` start position for a list of length `n`. */
  function TailStart(n: nat, m: int): (r: nat)
    ensures r <= n
  {
    if m > 0 then (if m < n then n - m else 0)
    else if -m < n then -m
    else n
  }

  /** The formatted entry of one search result. */
  function Entry(formatScore: real -> string, result: (string, real)): string
  {
    "[score=" + formatScore(result.1) + "] " + result.0 + " \n\n"
  }

  /** The context `fetch_context` assembles from the search results. */
  function Context(formatScore: real -> string, results: seq<(string, real)>): string
  {
    if results == [] then ""
    else Context(formatScore, results[..|results| - 1]) + Entry(formatScore, results[|results| - 1])
  }

  /** The context is the entries of the results, one per result, in result
      order; it is empty exactly when there is no result. */
  lemma {:induction false} ContextEntries(formatScore: real -> string, results: seq<(string, real)>)
    ensures Context(formatScore, results) ==
            Concat(seq(|results|, i requires 0 <= i < |results| => Entry(formatScore, results[i])))
    ensures Context(formatScore, results) == "" <==> results == []
  {
    if results != [] {
      var n := |results| - 1;
      ContextEntries(formatScore, results[..n]);
      var front := seq(n, i requires 0 <= i < n => Entry(formatScore, results[..n][i]));
      var all := seq(|results|, i requires 0 <= i < |results| => Entry(formatScore, results[i]));
      assert all == front + [Entry(formatScore, results[n])];
      ConcatAppend(front, [Entry(formatScore, results[n])]);
      assert Concat([Entry(formatScore, results[n])]) == Entry(formatScore, results[n]) + Concat([]);
      assert |Entry(formatScore, results[n])| > 0;
    }
  }

  /** What `fetch_context` yields once the store is loaded. */
  function Retrieve(texts: seq<string>, vectors: seq<Vector>, question: string, k: int,
                    service: Service, nearest: Nearest, formatScore: real -> string): Result<string, Error>
  {
    if texts == [] then Err(NoIndexLoaded)
    else
      match EmbedBatches(Windows([question], BATCH_SIZE), service)
      case Err(e) => Err(e)
      case Ok(q) =>
        match HitsResults(texts, Concat(nearest(vectors, q, k)))
        case Err(e) => Err(e)
        case Ok(results) => Ok(Context(formatScore, results))
  }

  /** `"\n\n".join(retrieved)` over a string: its characters, separated by
      blank lines. */
  function JoinChars(s: string): (r: string)
    ensures s == "" <==> r == ""
  {
    Join(seq(|s|, i requires 0 <= i < |s| => [s[i]]), "\n\n")
  }

  /** The decision of `generate_response`, given what the language model
      would answer: the fixed reply when nothing was retrieved and there is
      no recent conversation, otherwise the model's answer. */
  function Respond(retrieved: string, recent: seq<Turn>, answer: Option<string>): Result<string, Error>
  {
    if retrieved == "" && recent == [] then Ok(FAILED_CONTEXT_RETRIEVAL)
    else if answer.Some? then Ok(answer.value)
    else Err(ServiceError)
  }

  /** The reply does not depend on the language model exactly when both
      the retrieved context and the recent conversation are empty. */
  lemma ModelSkippedExactly(retrieved: string, recent: seq<Turn>)
    ensures (forall a, b :: Respond(retrieved, recent, a) == Respond(retrieved, recent, b)) <==>
            (retrieved == "" && recent == [])
  {
    if !(retrieved == "" && recent == []) {
      assert Respond(retrieved, recent, None) != Respond(retrieved, recent, Some(""));
    }
  }

  /** The orchestrator. Its collaborators are fixed when it is built. */
  class QAEngine {
    const web: Crawler.Web
    const parse: string -> Cleaner.Document       // BeautifulSoup parsing and tree surgery
    const service: Service                        // the embedding service
    const nearest: Nearest                        // FAISS search
    const formatScore: real -> string             // `f"{score:.3f}"`
    const llm: (string, string, seq<Turn>) -> Option<string>   // the generation call, after `strip()`
    const store: FaissStore

    constructor (web: Crawler.Web, parse: string -> Cleaner.Document, service: Service, nearest: Nearest,
                 formatScore: real -> string, llm: (string, string, seq<Turn>) -> Option<string>,
                 indexPath: string, indexFile: Option<seq<Vector>>, textsFile: Option<seq<string>>)
      ensures this.web == web && this.parse == parse && this.service == service && this.nearest == nearest
      ensures this.formatScore == formatScore && this.llm == llm
      ensures fresh(store) && store.vectors == [] && store.texts == []
      ensures store.indexPath == indexPath && store.indexFile == indexFile && store.textsFile == textsFile
    {
      this.web, this.parse, this.service, this.nearest := web, parse, service, nearest;
      this.formatScore, this.llm := formatScore, llm;
      store := new FaissStore(indexPath, indexFile, textsFile);
    }

    /** The page loop of `indexing`: clean every page and keep the usable
        texts. */
    method CleanPages(pages: seq<Crawler.Page>) returns (texts: seq<string>)
      ensures texts == PageTexts(CleanerOf(parse), pages)
      ensures forall t :: t in texts ==> |t| > MIN_TEXT_LENGTH
    {
      texts := [];
      for i := 0 to |pages|
        invariant texts == PageTexts(CleanerOf(parse), pages[..i])
      {
        assert pages[..i + 1] == pages[..i] + [pages[i]];
        PageTextsAppend(CleanerOf(parse), pages[..i], [pages[i]]);
        assert PageTexts(CleanerOf(parse), [pages[i]]) == PageContribution(CleanerOf(parse), pages[i]) + PageTexts(CleanerOf(parse), []);
        var parsedText := Cleaner.CleanHtml(parse(pages[i].html));
        assert parsedText == PageText(CleanerOf(parse), pages[i]);
        if parsedText != "" && |parsedText| > MIN_TEXT_LENGTH {
          texts := texts + [parsedText];
        }
      }
      assert pages[..|pages|] == pages;
      PageTextsSound(CleanerOf(parse), pages);
    }

    /** `indexing`: crawl, clean and filter, chunk, embed, add, save. Nothing
        reaches the store when no page survives the filter or the embedding
        service fails; a failed save leaves the chunks added in memory. The
        ghost `pages` and `depths` are what the crawl returned. */
    method Indexing(url: string, maxPages: int := Crawler.MAX_PAGES)
      returns (r: Result<nat, Error>, ghost pages: seq<Crawler.Page>, ghost depths: seq<int>)
      modifies store
      ensures Crawler.CrawlOk(web, url, maxPages, Crawler.MAX_DEPTH, pages, depths)
      ensures PageTexts(CleanerOf(parse), pages) == [] ==> r == Err(NoUsableContent) && unchanged(store)
      ensures PageTexts(CleanerOf(parse), pages) != [] ==>
        var chunks := IndexChunks(PageTexts(CleanerOf(parse), pages));
        match EmbedBatches(Windows(chunks, BATCH_SIZE), service)
        case Err(e) => r == Err(e) && unchanged(store)
        case Ok(vs) =>
          && store.vectors == old(store.vectors) + vs
          && store.texts == old(store.texts) + chunks
          && (store.indexPath == "" ==> r == Err(IndexPathRequired) && store.indexFile == old(store.indexFile) && store.textsFile == old(store.textsFile))
          && (store.indexPath != "" ==> r == Ok(|chunks|) && store.indexFile == Some(store.vectors) && store.textsFile == Some(store.texts))
    {
      var crawled;
      crawled, depths := Crawler.Crawl(web, url, maxPages);
      pages := crawled;
      var texts := CleanPages(crawled);
      if texts == [] {
        return Err(NoUsableContent), pages, depths;
      }
      var chunks := Chunker.ChunkParagraphs(texts, MIN_CHUNK_PARA, MAX_CHUNK_PARA);
      var embeddings := EmbedTexts(chunks, BATCH_SIZE, service);
      if embeddings.Err? {
        return Err(embeddings.error), pages, depths;
      }
      store.Add(embeddings.value, chunks);
      var saved := store.Save();
      if saved.Err? {
        return Err(saved.error), pages, depths;
      }
      r := Ok(|chunks|);
    }

    /** The result loop of `fetch_context`. */
    method FormatContext(results: seq<(string, real)>) returns (answer: string)
      ensures answer == Context(formatScore, results)
      ensures answer == "" <==> results == []
    {
      answer := "";
      for i := 0 to |results|
        invariant answer == Context(formatScore, results[..i])
      {
        assert results[..i + 1][..i] == results[..i];
        answer := answer + "[score=" + formatScore(results[i].1) + "] " + results[i].0 + " \n\n";
      }
      assert results[..|results|] == results;
      ContextEntries(formatScore, results);
    }

    /** `fetch_context`: load the store, refuse an empty one, embed the
        question, search and format. */
    method FetchContext(question: string, k: int) returns (r: Result<string, Error>)
      modifies store
      ensures store.indexFile == old(store.indexFile) && store.textsFile == old(store.textsFile)
      ensures store.indexFile.None? || store.textsFile.None? ==> r == Err(FileNotFound)
      ensures store.indexFile.None? ==> store.vectors == old(store.vectors) && store.texts == old(store.texts)
      ensures store.indexFile.Some? ==> store.vectors == store.indexFile.value
      ensures store.textsFile.None? ==> store.texts == old(store.texts)
      ensures store.indexFile.Some? && store.textsFile.Some? ==>
        && store.vectors == store.indexFile.value && store.texts == store.textsFile.value
        && r == Retrieve(store.texts, store.vectors, question, k, service, nearest, formatScore)
    {
      var loaded := store.Load();
      if loaded.Err? {
        return Err(loaded.error);
      }
      if store.texts == [] {
        return Err(NoIndexLoaded);
      }
      var query := EmbedTexts([question], BATCH_SIZE, service);
      if query.Err? {
        return Err(query.error);
      }
      var results := store.Search(query.value, k, nearest);
      if results.Err? {
        return Err(results.error);
      }
      var answer := FormatContext(results.value);
      r := Ok(answer);
    }

    /** `get_recent_conversation`: a copy of `previous[-maxTurns:]`, which
        for a positive `maxTurns` is the last min(maxTurns, len) turns in
        their original order, and for `0` is the whole history. */
    method GetRecentConversation(previous: seq<Turn>, maxTurns: int) returns (recent: seq<Turn>)
      ensures recent == previous[TailStart(|previous|, maxTurns)..]
      ensures maxTurns > 0 ==> |recent| == (if maxTurns < |previous| then maxTurns else |previous|)
      ensures maxTurns > 0 ==> recent == previous[|previous| - |recent|..]
      ensures maxTurns == 0 ==> recent == previous
    {
      var start := TailStart(|previous|, maxTurns);
      recent := [];
      for i := start to |previous|
        invariant recent == previous[start..i]
      {
        var chat := previous[i];
        recent := recent + [Turn(chat.question, chat.answer)];
        assert previous[start..i + 1] == previous[start..i] + [previous[i]];
      }
    }

    /** `generate_response`: the fixed reply, without a model call, when no
        context was retrieved and there is no recent conversation; otherwise
        the model's answer to the question with the context and the recent
        turns. */
    method GenerateResponse(question: string, previous: seq<Turn>) returns (r: Result<string, Error>)
      modifies store
      ensures store.indexFile == old(store.indexFile) && store.textsFile == old(store.textsFile)
      ensures store.indexFile.None? || store.textsFile.None? ==> r == Err(FileNotFound)
      ensures store.indexFile.None? ==> store.vectors == old(store.vectors) && store.texts == old(store.texts)
      ensures store.indexFile.Some? ==> store.vectors == store.indexFile.value
      ensures store.textsFile.None? ==> store.texts == old(store.texts)
      ensures store.indexFile.Some? && store.textsFile.Some? ==> store.texts == store.textsFile.value
      ensures store.indexFile.Some? && store.textsFile.Some? ==>
        match Retrieve(store.textsFile.value, store.indexFile.value, question, TOP_K, service, nearest, formatScore)
        case Err(e) => r == Err(e)
        case Ok(retrieved) =>
          var recent := previous[TailStart(|previous|, MAX_TURNS)..];
          r == Respond(retrieved, recent, llm(JoinChars(retrieved), question, recent))
    {
      var retrieved := FetchContext(question, TOP_K);
      if retrieved.Err? {
        return Err(retrieved.error);
      }
      var recent := GetRecentConversation(previous, MAX_TURNS);
      if retrieved.value == "" && recent == [] {
        return Ok(FAILED_CONTEXT_RETRIEVAL);
      }
      var context := JoinChars(retrieved.value);
      var answer := llm(context, question, recent);
      if answer.None? {
        return Err(ServiceError);
      }
      r := Ok(answer.value);
    }
  }
}
