/** Paragraph chunking (`Chunker.chunk_text`): every text is split on
    newlines; paragraphs not longer than the minimum are dropped, mid-size
    paragraphs are kept whole and paragraphs over the maximum are cut into
    consecutive 1500-character windows. The thresholds are parameters
    because the orchestrator runs the same loop with 50/2000 instead of the
    200/3000 of the chunker's constants. */
module Chunker {
  import opened Text

  const MIN_PARA_LENGTH: nat := 200
  const MAX_PARA_LENGTH: nat := 3000
  /** The size of the pieces an over-long paragraph is cut into. */
  const WINDOW: nat := 1500

  /** The chunks one paragraph contributes. */
  function ParaChunks(para: string, minLen: nat, maxLen: nat): seq<string>
  {
    if |para| <= minLen then []
    else if |para| > maxLen then Windows(para, WINDOW)
    else [para]
  }

  /** The chunks of a list of paragraphs, paragraph by paragraph. */
  function ParasChunks(paras: seq<string>, minLen: nat, maxLen: nat): seq<string>
  {
    FlatMap(p => ParaChunks(p, minLen, maxLen), paras)
  }

  /** The chunks of one text: those of its newline-separated paragraphs. */
  function TextChunks(text: string, minLen: nat, maxLen: nat): seq<string>
  {
    ParasChunks(Split(text, '\n'), minLen, maxLen)
  }

  /** The chunks of a list of texts, text by text. */
  function Chunks(texts: seq<string>, minLen: nat, maxLen: nat): seq<string>
  {
    FlatMap(t => TextChunks(t, minLen, maxLen), texts)
  }

  /** The chunking loop, with the thresholds as parameters. */
  method ChunkParagraphs(texts: seq<string>, minLen: nat, maxLen: nat) returns (chunks: seq<string>)
    ensures chunks == Chunks(texts, minLen, maxLen)
    ensures texts == [] ==> chunks == []
  {
    ghost var f := t => TextChunks(t, minLen, maxLen);
    chunks := [];
    assert texts[0..] == texts;
    for t := 0 to |texts|
      invariant Chunks(texts, minLen, maxLen) == chunks + FlatMap(f, texts[t..])
    {
      ghost var before := chunks;
      chunks := AddText(chunks, texts[t], minLen, maxLen);
      FlatMapStep(f, texts, t, before, chunks);
    }
    assert texts[|texts|..] == [];
    assert chunks + [] == chunks;
  }

  /** The body of the text loop: split on newlines and handle each paragraph. */
  method AddText(chunks: seq<string>, text: string, minLen: nat, maxLen: nat) returns (out: seq<string>)
    ensures out == chunks + TextChunks(text, minLen, maxLen)
  {
    ghost var f := p => ParaChunks(p, minLen, maxLen);
    out := chunks;
    var paras := Split(text, '\n');
    assert paras[0..] == paras;
    for j := 0 to |paras|
      invariant chunks + ParasChunks(paras, minLen, maxLen) == out + FlatMap(f, paras[j..])
    {
      ghost var before := out;
      out := AddParagraph(out, paras[j], minLen, maxLen);
      FlatMapStep(f, paras, j, before, out);
    }
    assert paras[|paras|..] == [];
    assert out + [] == out;
  }

  /** The body of the paragraph loop: drop, keep whole, or cut into windows. */
  method AddParagraph(chunks: seq<string>, para: string, minLen: nat, maxLen: nat) returns (out: seq<string>)
    ensures out == chunks + ParaChunks(para, minLen, maxLen)
  {
    out := chunks;
    if |para| > minLen {
      if |para| > maxLen {
        var pieces := CutWindows(para);
        out := out + pieces;
      } else {
        out := out + [para];
      }
    }
  }

  /** The inner `for i in range(0, len(para), 1500)` loop: the windows of
      `para`, in order. */
  method CutWindows(para: string) returns (pieces: seq<string>)
    ensures pieces == Windows(para, WINDOW)
  {
    pieces := [];
    var i := 0;
    assert para[i..] == para;
    while i < |para|
      invariant 0 <= i <= |para|
      invariant Windows(para, WINDOW) == pieces + Windows(para[i..], WINDOW)
    {
      var end := if i + WINDOW < |para| then i + WINDOW else |para|;
      WindowsAt(para, WINDOW, i, end);
      pieces := pieces + [para[i..end]];
      i := end;
    }
    assert para[i..] == [];
  }

  /** `Chunker.chunk_text` with the chunker's own thresholds: every chunk is
      non-empty, at most `MAX_PARA_LENGTH` long, free of newlines, and a
      paragraph of 201 to 3000 characters or a window of a longer one. */
  method ChunkText(texts: seq<string>) returns (chunks: seq<string>)
    ensures chunks == Chunks(texts, MIN_PARA_LENGTH, MAX_PARA_LENGTH)
    ensures forall c :: c in chunks ==>
      0 < |c| <= MAX_PARA_LENGTH && '\n' !in c && FromSomeParagraph(texts, c, MIN_PARA_LENGTH, MAX_PARA_LENGTH)
  {
    chunks := ChunkParagraphs(texts, MIN_PARA_LENGTH, MAX_PARA_LENGTH);
    ChunkBounds(texts, MIN_PARA_LENGTH, MAX_PARA_LENGTH);
  }

  /** What one paragraph contributes: nothing when it is not longer than the
      minimum, itself when it fits under the maximum, and otherwise
      ceil(|para| / 1500) windows of exactly 1500 characters (the last one
      possibly shorter) that concatenate back to the paragraph. */
  lemma ParaChunksShape(para: string, minLen: nat, maxLen: nat)
    ensures ParaChunks(para, minLen, maxLen) == [] <==> |para| <= minLen
    ensures minLen < |para| <= maxLen ==> ParaChunks(para, minLen, maxLen) == [para]
    ensures minLen < |para| && maxLen < |para| ==>
      var r := ParaChunks(para, minLen, maxLen);
      && Concat(r) == para
      && |r| == (|para| + WINDOW - 1) / WINDOW
      && (forall i :: 0 <= i < |r| - 1 ==> |r[i]| == WINDOW)
      && 0 < |r[|r| - 1]| <= WINDOW
  {
    WindowsFacts(para, WINDOW);
  }

  /** `c` is a chunk paragraph `p` may contribute: `p` itself when it is
      longer than the minimum and not longer than the maximum, or one of its
      windows when it is longer than both. */
  predicate FromParagraph(p: string, c: string, minLen: nat, maxLen: nat)
  {
    minLen < |p| && ((c == p && |p| <= maxLen) || (maxLen < |p| && c in Windows(p, WINDOW)))
  }

  /** `c` is a chunk some paragraph of one of `texts` may contribute. */
  ghost predicate FromSomeParagraph(texts: seq<string>, c: string, minLen: nat, maxLen: nat)
  {
    exists i, j :: 0 <= i < |texts| && 0 <= j < |Split(texts[i], '\n')| &&
                   FromParagraph(Split(texts[i], '\n')[j], c, minLen, maxLen)
  }

  /** Every chunk of a paragraph is the paragraph kept whole or a window of
      an over-long one, is non-empty, has no newline when the paragraph has
      none, and is at most the maximum when the window fits. */
  lemma ParaChunkBounds(para: string, minLen: nat, maxLen: nat, c: string)
    requires c in ParaChunks(para, minLen, maxLen)
    ensures FromParagraph(para, c, minLen, maxLen)
    ensures 0 < |c| && (WINDOW <= maxLen ==> |c| <= maxLen)
    ensures '\n' !in para ==> '\n' !in c
  {
    if |para| > maxLen {
      WindowsFacts(para, WINDOW);
      var k :| 0 <= k < |Windows(para, WINDOW)| && Windows(para, WINDOW)[k] == c;
      if '\n' in c {
        WindowsElements(para, WINDOW, k, '\n');
      }
    }
  }

  /** Every chunk comes from one paragraph of one input text. */
  lemma ChunkOrigin(texts: seq<string>, minLen: nat, maxLen: nat, c: string) returns (i: nat, j: nat)
    requires c in Chunks(texts, minLen, maxLen)
    ensures i < |texts| && j < |Split(texts[i], '\n')|
    ensures c in ParaChunks(Split(texts[i], '\n')[j], minLen, maxLen)
  {
    i := FlatMapOrigin(t => TextChunks(t, minLen, maxLen), texts, c);
    j := FlatMapOrigin(p => ParaChunks(p, minLen, maxLen), Split(texts[i], '\n'), c);
  }

  /** Every chunk is non-empty, free of newlines, at most `maxLen` long (the
      1500-character window is within both call sites' maximum), and is
      either a paragraph of some input text that is longer than `minLen` and
      not longer than `maxLen`, kept whole, or a window of a paragraph longer
      than `maxLen`. */
  lemma ChunkBounds(texts: seq<string>, minLen: nat, maxLen: nat)
    requires WINDOW <= maxLen
    ensures forall c :: c in Chunks(texts, minLen, maxLen) ==>
      0 < |c| <= maxLen && '\n' !in c && FromSomeParagraph(texts, c, minLen, maxLen)
  {
    forall c | c in Chunks(texts, minLen, maxLen)
      ensures 0 < |c| <= maxLen && '\n' !in c && FromSomeParagraph(texts, c, minLen, maxLen)
    {
      var i, j := ChunkOrigin(texts, minLen, maxLen, c);
      ParaChunkBounds(Split(texts[i], '\n')[j], minLen, maxLen, c);
    }
  }

  /** Empty pieces contribute nothing, so the chunks of the spaced-out
      paragraphs are those of the paragraphs themselves. */
  lemma {:induction false} SpacedChunks(paras: seq<string>, minLen: nat, maxLen: nat)
    ensures ParasChunks(Spaced(paras), minLen, maxLen) == ParasChunks(paras, minLen, maxLen)
  {
    if |paras| > 1 {
      var f := p => ParaChunks(p, minLen, maxLen);
      SpacedChunks(paras[1..], minLen, maxLen);
      FlatMapAppend(f, [paras[0], ""], Spaced(paras[1..]));
      FlatMapAppend(f, [paras[0]], paras[1..]);
      assert [paras[0]] + paras[1..] == paras;
      assert FlatMap(f, [paras[0], ""]) == ParaChunks(paras[0], minLen, maxLen) + ([] + []);
      assert FlatMap(f, [paras[0]]) == ParaChunks(paras[0], minLen, maxLen) + [];
    }
  }

  /** Text cleaned into blocks joined by a blank line (`"\n\n".join`) reaches
      the chunker block by block: when no block contains a newline, each
      block is one paragraph and the blank lines between them add nothing. */
  lemma BlocksAreParagraphs(blocks: seq<string>, minLen: nat, maxLen: nat)
    requires forall i :: 0 <= i < |blocks| ==> '\n' !in blocks[i]
    ensures TextChunks(Join(blocks, "\n\n"), minLen, maxLen) == ParasChunks(blocks, minLen, maxLen)
  {
    if blocks == [] {
      assert Split("", '\n') == [""];
      assert ParasChunks([""], minLen, maxLen) == ParaChunks("", minLen, maxLen) + [];
    } else {
      SplitJoinDoubled(blocks, '\n');
      SpacedChunks(blocks, minLen, maxLen);
    }
  }

  /** Output order follows input order: the chunks of `a + b` are those of
      `a` followed by those of `b`. */
  lemma ChunksAppend(a: seq<string>, b: seq<string>, minLen: nat, maxLen: nat)
    ensures Chunks(a + b, minLen, maxLen) == Chunks(a, minLen, maxLen) + Chunks(b, minLen, maxLen)
  {
    FlatMapAppend(t => TextChunks(t, minLen, maxLen), a, b);
  }

  /** Within one text, paragraphs keep their order too. */
  lemma ParasChunksAppend(a: seq<string>, b: seq<string>, minLen: nat, maxLen: nat)
    ensures ParasChunks(a + b, minLen, maxLen) == ParasChunks(a, minLen, maxLen) + ParasChunks(b, minLen, maxLen)
  {
    FlatMapAppend(p => ParaChunks(p, minLen, maxLen), a, b);
  }
}
