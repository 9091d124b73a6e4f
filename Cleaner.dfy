/** The text-assembly half of `Cleaner.clean_html`. Parsing the HTML and
    removing scripts, layout chrome and ad-like elements belong to the HTML
    library; what reaches this module is the parsed document's candidate
    blocks (`article`, `main`, `section`, `div` and `p` elements, in
    document order), each given by its stripped strings, and the stripped
    strings of the body when there is one. */
module Cleaner {
  import opened Wrappers
  import opened Text

  /** Blocks shorter than this are dropped. */
  const MIN_BLOCK_LENGTH: nat := 50
  /** Kept blocks are joined with a blank line. */
  const BLOCK_SEPARATOR := "\n\n"

  datatype Document = Document(candidates: seq<seq<string>>, body: Option<seq<string>>)

  /** `" ".join(c.stripped_strings)`. */
  function BlockText(strings: seq<string>): string
  {
    Join(strings, " ")
  }

  /** The block text of every candidate, in document order. */
  function BlockTexts(candidates: seq<seq<string>>): seq<string>
  {
    seq(|candidates|, i requires 0 <= i < |candidates| => BlockText(candidates[i]))
  }

  /** The filter and deduplication of the candidate loop: a block is kept
      when it is long enough and no equal block was kept before. Kept blocks
      are long, distinct, and include every long block text. */
  function Keep(blocks: seq<string>): (r: seq<string>)
    ensures forall t :: t in r ==> t in blocks && |t| >= MIN_BLOCK_LENGTH
    ensures forall t :: t in blocks && |t| >= MIN_BLOCK_LENGTH ==> t in r
    ensures forall i, j :: 0 <= i < j < |r| ==> r[i] != r[j]
  {
    if blocks == [] then []
    else
      var kept := Keep(blocks[..|blocks| - 1]);
      var t := blocks[|blocks| - 1];
      assert blocks == blocks[..|blocks| - 1] + [t];
      if |t| < MIN_BLOCK_LENGTH || t in kept then kept else kept + [t]
  }

  /** Reference definition of "first occurrence wins": block `i` is kept
      exactly when it is long enough and does not occur among blocks
      `0 .. i - 1`. */
  function FirstOccurrences(blocks: seq<string>): seq<string>
  {
    if blocks == [] then []
    else
      var n := |blocks| - 1;
      FirstOccurrences(blocks[..n]) +
        (if |blocks[n]| >= MIN_BLOCK_LENGTH && blocks[n] !in blocks[..n] then [blocks[n]] else [])
  }

  /** The cleaned text of a parsed document. */
  function CleanedText(doc: Document): string
  {
    if doc.candidates == [] then
      (if doc.body.Some? then Join(doc.body.value, " ") else "")
    else Join(Keep(BlockTexts(doc.candidates)), BLOCK_SEPARATOR)
  }

  /** Lines 53-76 of `clean_html`: the body fallback when there is no
      candidate, otherwise the candidate loop with its `seen` set and the
      blank-line join. */
  method CleanHtml(doc: Document) returns (text: string)
    ensures text == CleanedText(doc)
    ensures doc.candidates == [] && doc.body.None? ==> text == ""
    ensures doc.candidates != [] && (forall c :: c in doc.candidates ==> |BlockText(c)| < MIN_BLOCK_LENGTH) ==> text == ""
  {
    var candidates := doc.candidates;
    if |candidates| == 0 {
      if doc.body.Some? {
        return Join(doc.body.value, " ");
      }
      return "";
    }
    ghost var blocks := BlockTexts(candidates);
    var seen: set<string> := {};
    var texts: seq<string> := [];
    for i := 0 to |candidates|
      invariant texts == Keep(blocks[..i])
      invariant forall t :: t in seen <==> t in texts
    {
      var t := BlockText(candidates[i]);
      KeepStep(blocks, i);
      if |t| < MIN_BLOCK_LENGTH {
        continue;
      }
      if t in seen {
        continue;
      }
      seen := seen + {t};
      texts := texts + [t];
    }
    assert blocks[..|candidates|] == blocks;
    NoLongBlock(candidates);
    text := Join(texts, BLOCK_SEPARATOR);
  }

  /** One turn of the candidate loop. */
  lemma KeepStep(blocks: seq<string>, i: nat)
    requires i < |blocks|
    ensures Keep(blocks[..i + 1]) ==
      if |blocks[i]| < MIN_BLOCK_LENGTH || blocks[i] in Keep(blocks[..i]) then Keep(blocks[..i])
      else Keep(blocks[..i]) + [blocks[i]]
  {
    assert blocks[..i + 1][..i] == blocks[..i];
  }

  /** When every candidate is short, nothing is kept. */
  lemma NoLongBlock(candidates: seq<seq<string>>)
    ensures (forall c :: c in candidates ==> |BlockText(c)| < MIN_BLOCK_LENGTH) ==> Keep(BlockTexts(candidates)) == []
  {
    var kept := Keep(BlockTexts(candidates));
    if kept != [] {
      var k := kept[0];
      var i :| 0 <= i < |candidates| && BlockTexts(candidates)[i] == k;
      assert candidates[i] in candidates && |BlockText(candidates[i])| >= MIN_BLOCK_LENGTH;
    }
  }

  /** The seen-set loop keeps exactly the first occurrence of every long
      block, in order. */
  lemma {:induction false} KeepIsFirstOccurrences(blocks: seq<string>)
    ensures Keep(blocks) == FirstOccurrences(blocks)
  {
    if blocks != [] {
      var n := |blocks| - 1;
      KeepIsFirstOccurrences(blocks[..n]);
      var t := blocks[n];
      if |t| >= MIN_BLOCK_LENGTH {
        assert t in Keep(blocks[..n]) <==> t in blocks[..n];
      }
    }
  }

  /** A list of distinct long blocks is its own filtered list. */
  lemma {:induction false} KeepFixpoint(blocks: seq<string>)
    requires forall t :: t in blocks ==> |t| >= MIN_BLOCK_LENGTH
    requires forall i, j :: 0 <= i < j < |blocks| ==> blocks[i] != blocks[j]
    ensures Keep(blocks) == blocks
  {
    if blocks != [] {
      var n := |blocks| - 1;
      KeepFixpoint(blocks[..n]);
      assert blocks[n] !in blocks[..n];
      assert blocks[..n] + [blocks[n]] == blocks;
    }
  }

  /** Filtering and deduplicating the kept blocks again changes nothing. */
  lemma KeepIdempotent(blocks: seq<string>)
    ensures Keep(Keep(blocks)) == Keep(blocks)
  {
    KeepFixpoint(Keep(blocks));
  }
}
