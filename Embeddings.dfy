/** The embedding side of the pipeline: `Embedder.embed_texts`, which sends
    the texts to the embedding service in consecutive batches, and
    `FaissStore`, a vector index kept next to a parallel list of the texts
    the vectors came from. The embedding service and the FAISS
    nearest-neighbour search are collaborators given as functions; the
    files the store saves to are two fields of the store. */
module Embeddings {
  import opened Wrappers
  import opened Errors
  import opened Text

  /** An embedding; its 768 float32 components are not modelled as such. */
  type Vector = seq<real>

  /** One request to the embedding service: the vectors of a batch, in
      order, or nothing when the request fails (an exception in the client). */
  type Service = seq<string> -> Option<seq<Vector>>

  /** The default `batch_size` of `embed_texts`. */
  const BATCH_SIZE: nat := 50

  /** The vectors of a list of batches, requested one batch after the other;
      the first failing request makes the whole call fail. */
  function EmbedBatches(batches: seq<seq<string>>, service: Service): Result<seq<Vector>, Error>
  {
    if batches == [] then Ok([])
    else
      match service(batches[0])
      case None => Err(ServiceError)
      case Some(vs) => Prepend(vs, EmbedBatches(batches[1..], service))
  }

  /** `vs` in front of a successful result; a failure stays a failure. */
  function Prepend<T>(vs: seq<T>, r: Result<seq<T>, Error>): Result<seq<T>, Error>
  {
    match r
    case Ok(rest) => Ok(vs + rest)
    case Err(e) => Err(e)
  }

  /** `embed_texts`: the texts are cut into the batches `texts[i : i + batchSize]`
      and the vectors of every batch are appended in order. An empty list
      makes no request, and neither does a negative batch size, for which
      `range(0, len(texts), batchSize)` is empty. */
  method EmbedTexts(texts: seq<string>, batchSize: int, service: Service) returns (r: Result<seq<Vector>, Error>)
    requires batchSize != 0
    ensures batchSize > 0 ==> r == EmbedBatches(Windows(texts, batchSize), service)
    ensures batchSize < 0 ==> r == Ok([])
    ensures texts == [] ==> r == Ok([])
  {
    if batchSize < 0 {
      return Ok([]);
    }
    var all: seq<Vector> := [];
    var i := 0;
    assert texts[i..] == texts;
    ghost var whole := EmbedBatches(Windows(texts, batchSize), service);
    if whole.Ok? {
      assert [] + whole.value == whole.value;
    }
    while i < |texts|
      invariant 0 <= i <= |texts|
      invariant EmbedBatches(Windows(texts, batchSize), service) ==
                Prepend(all, EmbedBatches(Windows(texts[i..], batchSize), service))
    {
      var end := if i + batchSize < |texts| then i + batchSize else |texts|;
      var batch := texts[i..end];
      WindowsAt(texts, batchSize, i, end);
      assert ([batch] + Windows(texts[end..], batchSize))[1..] == Windows(texts[end..], batchSize);
      var result := service(batch);
      if result.None? {
        return Err(ServiceError);
      }
      PrependTwice(all, result.value, EmbedBatches(Windows(texts[end..], batchSize), service));
      all := all + result.value;
      i := end;
    }
    assert texts[i..] == [];
    assert all + [] == all;
    r := Ok(all);
  }

  lemma PrependTwice<T>(a: seq<T>, b: seq<T>, r: Result<seq<T>, Error>)
    ensures Prepend(a, Prepend(b, r)) == Prepend(a + b, r)
  {
    if r.Ok? {
      assert a + (b + r.value) == (a + b) + r.value;
    }
  }

  /** The vectors a per-text embedding gives a list of texts, in order. */
  function EmbedEach(embed: string -> Vector, texts: seq<string>): seq<Vector>
  {
    seq(|texts|, i requires 0 <= i < |texts| => embed(texts[i]))
  }

  /** When the service answers every batch with one vector per text, in
      order, batching is invisible: the result holds exactly one vector per
      input text, in input order. */
  lemma EmbedOnePerText(texts: seq<string>, batchSize: nat, service: Service, embed: string -> Vector)
    requires batchSize > 0
    requires forall b :: service(b) == Some(EmbedEach(embed, b))
    ensures EmbedBatches(Windows(texts, batchSize), service) == Ok(EmbedEach(embed, texts))
  {
    WindowsFacts(texts, batchSize);
    EmbedBatchesEach(Windows(texts, batchSize), service, embed);
  }

  lemma {:induction false} EmbedBatchesEach(batches: seq<seq<string>>, service: Service, embed: string -> Vector)
    requires forall b :: service(b) == Some(EmbedEach(embed, b))
    ensures EmbedBatches(batches, service) == Ok(EmbedEach(embed, Concat(batches)))
  {
    if batches != [] {
      EmbedBatchesEach(batches[1..], service, embed);
      EmbedEachAppend(embed, batches[0], Concat(batches[1..]));
    } else {
      assert EmbedEach(embed, []) == [];
    }
  }

  lemma EmbedEachAppend(embed: string -> Vector, a: seq<string>, b: seq<string>)
    ensures EmbedEach(embed, a + b) == EmbedEach(embed, a) + EmbedEach(embed, b)
  {
    assert forall i :: 0 <= i < |a| ==> (a + b)[i] == a[i];
    assert forall i :: |a| <= i < |a| + |b| ==> (a + b)[i] == b[i - |a|];
  }

  /** One neighbour reported by the index: the position of a stored vector
      (FAISS pads with `-1` when it has fewer than `k` vectors) and its score. */
  datatype Hit = Hit(idx: int, score: real)

  /** `index.search(queries, k)` over the stored vectors: one row of hits per
      query, best first. L2 normalisation and inner-product scoring happen
      inside it. */
  type Nearest = (seq<Vector>, seq<Vector>, int) -> seq<seq<Hit>>

  /** Python's `s[i]`: a negative index counts from the end; out of range
      raises `IndexError`, here `None`. */
  function PyIndex<T>(s: seq<T>, i: int): (r: Option<T>)
    ensures r.Some? <==> -|s| <= i < |s|
  {
    if 0 <= i < |s| then Some(s[i])
    else if -|s| <= i < 0 then Some(s[|s| + i])
    else None
  }

  /** The entries one hit contributes: none when `idx >= len(texts)`,
      otherwise the text Python indexing reads, or `IndexError`. */
  function HitEntry(texts: seq<string>, h: Hit): Result<seq<(string, real)>, Error>
  {
    if h.idx < |texts| then
      match PyIndex(texts, h.idx)
      case None => Err(IndexOutOfRange)
      case Some(t) => Ok([(t, h.score)])
    else Ok([])
  }

  /** The result entries of a flat list of hits, in order; the first
      `IndexError` ends the search. */
  function HitsResults(texts: seq<string>, hits: seq<Hit>): Result<seq<(string, real)>, Error>
  {
    if hits == [] then Ok([])
    else
      match HitEntry(texts, hits[0])
      case Err(e) => Err(e)
      case Ok(es) => Prepend(es, HitsResults(texts, hits[1..]))
  }

  /** The hits the `idx < len(texts)` guard lets through, in order. */
  function Admitted(hits: seq<Hit>, count: int): (r: seq<Hit>)
    ensures |r| <= |hits|
    ensures forall h :: h in r ==> h in hits && h.idx < count
  {
    if hits == [] then []
    else (if hits[0].idx < count then [hits[0]] else []) + Admitted(hits[1..], count)
  }

  /** `search` over a flat list of hits fails exactly when some hit lies
      below `-len(texts)`: that is the only `IndexError` the guard lets
      through. */
  lemma {:induction false} HitsResultsOk(texts: seq<string>, hits: seq<Hit>)
    ensures HitsResults(texts, hits).Ok? <==> forall i :: 0 <= i < |hits| ==> -|texts| <= hits[i].idx
  {
    if hits != [] {
      HitsResultsOk(texts, hits[1..]);
      assert forall i :: 1 <= i < |hits| ==> hits[1..][i - 1] == hits[i];
    }
  }

  /** When it succeeds, `search` holds one entry per admitted hit, in order,
      with that hit's score and the text Python indexing reads for it. */
  lemma {:induction false} HitsResultsEntries(texts: seq<string>, hits: seq<Hit>)
    requires HitsResults(texts, hits).Ok?
    ensures var rs, adm := HitsResults(texts, hits).value, Admitted(hits, |texts|);
      && |rs| == |adm|
      && forall i :: 0 <= i < |rs| ==> rs[i].1 == adm[i].score && PyIndex(texts, adm[i].idx) == Some(rs[i].0)
  {
    if hits != [] {
      var h, tail := hits[0], hits[1..];
      var es := HitEntry(texts, h).value;
      assert HitsResults(texts, hits) == Prepend(es, HitsResults(texts, tail));
      HitsResultsEntries(texts, tail);
      var rs, rs' := HitsResults(texts, hits).value, HitsResults(texts, tail).value;
      var adm, adm' := Admitted(hits, |texts|), Admitted(tail, |texts|);
      if h.idx < |texts| {
        assert rs == [(PyIndex(texts, h.idx).value, h.score)] + rs';
        assert adm == [h] + adm';
      } else {
        assert rs == rs' && adm == adm';
      }
    }
  }

  /** With every hit in `0 .. len(texts) - 1` the results are the hits'
      texts and scores, one for one. */
  lemma {:induction false} HitsInRange(texts: seq<string>, hits: seq<Hit>)
    requires forall i :: 0 <= i < |hits| ==> 0 <= hits[i].idx < |texts|
    ensures HitsResults(texts, hits).Ok?
    ensures |HitsResults(texts, hits).value| == |hits|
    ensures forall i :: 0 <= i < |hits| ==> HitsResults(texts, hits).value[i] == (texts[hits[i].idx], hits[i].score)
  {
    if hits != [] {
      assert forall i :: 0 <= i < |hits| - 1 ==> hits[1..][i] == hits[i + 1];
      HitsInRange(texts, hits[1..]);
      var es := [(texts[hits[0].idx], hits[0].score)];
      assert HitEntry(texts, hits[0]) == Ok(es);
      assert HitsResults(texts, hits) == Prepend(es, HitsResults(texts, hits[1..]));
    }
  }

  /** The missing lower bound: FAISS's `-1` padding passes the guard and
      reads the last text. */
  lemma PaddingReadsLast(texts: seq<string>, score: real)
    requires texts != []
    ensures HitsResults(texts, [Hit(-1, score)]) == Ok([(texts[|texts| - 1], score)])
  {
    var hits := [Hit(-1, score)];
    assert hits[1..] == [];
    assert HitEntry(texts, hits[0]) == Ok([(texts[|texts| - 1], score)]);
    assert [(texts[|texts| - 1], score)] + [] == [(texts[|texts| - 1], score)];
  }

  /** The vector store. `vectors` is the FAISS index, `texts` the parallel
      list; `indexFile` and `textsFile` are the contents of the files
      `<index_path>.index` and `<chunk_path>.texts.pkl`, absent when the file
      does not exist. */
  class FaissStore {
    var vectors: seq<Vector>
    var texts: seq<string>
    const indexPath: string
    var indexFile: Option<seq<Vector>>
    var textsFile: Option<seq<string>>

    /** A store with an empty index, over whatever files already exist. */
    constructor (indexPath: string, indexFile: Option<seq<Vector>>, textsFile: Option<seq<string>>)
      ensures vectors == [] && texts == []
      ensures this.indexPath == indexPath && this.indexFile == indexFile && this.textsFile == textsFile
    {
      vectors, texts := [], [];
      this.indexPath := indexPath;
      this.indexFile, this.textsFile := indexFile, textsFile;
    }

    /** `add`: the vectors go into the index, the texts onto the end of the
        list; earlier entries and the files stay as they were. */
    method Add(embeddings: seq<Vector>, newTexts: seq<string>)
      modifies this
      ensures vectors == old(vectors) + embeddings
      ensures texts == old(texts) + newTexts
      ensures indexFile == old(indexFile) && textsFile == old(textsFile)
    {
      vectors := vectors + embeddings;
      texts := texts + newTexts;
    }

    /** `search`: every hit of every query row, in the order the index
        returns them, filtered by `idx < len(texts)`. */
    method Search(query: seq<Vector>, k: int, nearest: Nearest) returns (r: Result<seq<(string, real)>, Error>)
      ensures r == HitsResults(texts, Concat(nearest(vectors, query, k)))
    {
      var rows := nearest(vectors, query, k);
      var results: seq<(string, real)> := [];
      ghost var all := HitsResults(texts, Concat(rows));
      if all.Ok? {
        assert [] + all.value == all.value;
      }
      for i := 0 to |rows|
        invariant all == Prepend(results, HitsResults(texts, Concat(rows[i..])))
      {
        var row := rows[i];
        ghost var rest := Concat(rows[i + 1..]);
        assert rows[i..][1..] == rows[i + 1..];
        assert row[0..] == row;
        for j := 0 to |row|
          invariant all == Prepend(results, HitsResults(texts, row[j..] + rest))
        {
          var hit := row[j];
          assert (row[j..] + rest)[0] == hit && (row[j..] + rest)[1..] == row[j + 1..] + rest;
          if hit.idx < |texts| {
            var text := PyIndex(texts, hit.idx);
            if text.None? {
              return Err(IndexOutOfRange);
            }
            PrependTwice(results, [(text.value, hit.score)], HitsResults(texts, row[j + 1..] + rest));
            results := results + [(text.value, hit.score)];
          } else {
            PrependTwice(results, [], HitsResults(texts, row[j + 1..] + rest));
            assert results + [] == results;
          }
        }
        assert row[|row|..] + rest == rest;
      }
      assert rows[|rows|..] == [];
      assert results + [] == results;
      r := Ok(results);
    }

    /** `save`: without an index path nothing is written; otherwise both
        files receive the current index and texts. */
    method Save() returns (r: Result<(), Error>)
      modifies this
      ensures vectors == old(vectors) && texts == old(texts)
      ensures indexPath == "" ==> r == Err(IndexPathRequired) && indexFile == old(indexFile) && textsFile == old(textsFile)
      ensures indexPath != "" ==> r == Ok(()) && indexFile == Some(vectors) && textsFile == Some(texts)
    {
      if indexPath == "" {
        return Err(IndexPathRequired);
      }
      indexFile := Some(vectors);
      textsFile := Some(texts);
      r := Ok(());
    }

    /** `load`: the index file is read first, then the texts file; a missing
        file stops the load where it is, so a missing texts file leaves the
        new index next to the old texts. */
    method Load() returns (r: Result<(), Error>)
      modifies this
      ensures indexFile == old(indexFile) && textsFile == old(textsFile)
      ensures indexFile.None? ==> r == Err(FileNotFound) && vectors == old(vectors) && texts == old(texts)
      ensures indexFile.Some? ==> vectors == indexFile.value
      ensures indexFile.Some? && textsFile.None? ==> r == Err(FileNotFound) && texts == old(texts)
      ensures indexFile.Some? && textsFile.Some? ==> r == Ok(()) && texts == textsFile.value
    {
      if indexFile.None? {
        return Err(FileNotFound);
      }
      vectors := indexFile.value;
      if textsFile.None? {
        return Err(FileNotFound);
      }
      texts := textsFile.value;
      r := Ok(());
    }
  }

  /** For a single query row of `k` hits, `search` returns at most `k`
      entries. */
  lemma AtMostK(texts: seq<string>, row: seq<Hit>, k: int)
    requires |row| == k
    requires HitsResults(texts, Concat([row])).Ok?
    ensures |HitsResults(texts, Concat([row])).value| <= k
  {
    assert Concat([row]) == row + Concat([]);
    assert row + [] == row;
    HitsResultsEntries(texts, row);
  }

  /** Saving and then loading gives back the index and the texts. */
  method SaveLoad(store: FaissStore) returns (r: Result<(), Error>)
    requires store.indexPath != ""
    modifies store
    ensures r == Ok(())
    ensures store.vectors == old(store.vectors) && store.texts == old(store.texts)
  {
    var saved := store.Save();
    r := store.Load();
  }
}
