/**
 * Sentence chunking and upsert preparation for the vector index
 * (src/data_processor.py). The sentence splitter is external: the model
 * starts from its list of sentences.
 */
module Chunker {
  import opened Text

  /** The running `current_length` of a group of sentences: the sum of their word counts. */
  function SumWords(group: seq<string>): nat {
    if group == [] then 0 else WordCount(group[0]) + SumWords(group[1..])
  }

  lemma {:induction false} SumWordsAppend(group: seq<string>, s: string)
    ensures SumWords(group + [s]) == SumWords(group) + WordCount(s)
  {
    if group != [] {
      assert (group + [s])[1..] == group[1..] + [s];
      SumWordsAppend(group[1..], s);
    }
  }

  /** A chunk's text has as many words as its sentences have together. */
  lemma {:induction false} WordCountJoin(group: seq<string>)
    ensures WordCount(Join(group, " ")) == SumWords(group)
  {
    if |group| == 1 {
      assert group[1..] == [];
    } else if |group| > 1 {
      WordsAroundSpace(group[0], Join(group[1..], " "));
      WordCountJoin(group[1..]);
    }
  }

  /** A group over the limit holds at most one sentence: the limit is soft. */
  ghost predicate SoftLimit(groups: seq<seq<string>>, maxChunkSize: int) {
    forall i :: 0 <= i < |groups| && SumWords(groups[i]) > maxChunkSize ==> |groups[i]| <= 1
  }

  /** Greedy closing: every group after the first is non-empty, and its first sentence would not have fitted in the group before it. */
  ghost predicate ClosedGreedily(groups: seq<seq<string>>, maxChunkSize: int) {
    forall i :: 0 < i < |groups| ==>
      groups[i] != [] && SumWords(groups[i - 1]) + WordCount(groups[i][0]) > maxChunkSize
  }

  /** Each chunk is its group joined by single spaces and has the group's word count. */
  ghost predicate Rendered(chunks: seq<string>, groups: seq<seq<string>>) {
    && |chunks| == |groups|
    && forall i :: 0 <= i < |groups| ==> chunks[i] == Join(groups[i], " ") && WordCount(chunks[i]) == SumWords(groups[i])
  }

  /**
   * What `chunk_text` computes: the chunks render the groups, the groups are
   * the sentences in order, packed greedily under a soft limit, and the only
   * empty group is a leading one, closed when the first sentence alone is
   * over the limit.
   */
  ghost predicate GreedyChunks(sentences: seq<string>, maxChunkSize: int, chunks: seq<string>, groups: seq<seq<string>>) {
    // each chunk is its sentences joined by single spaces, and its word count is theirs
    && Rendered(chunks, groups)
    // coverage: every sentence exactly once, in order
    && Flatten(groups) == sentences
    && (groups == [] <==> sentences == [])
    // a chunk over the limit holds at most one sentence
    && SoftLimit(groups, maxChunkSize)
    // the next chunk's first sentence would not have fitted
    && ClosedGreedily(groups, maxChunkSize)
    // the only empty chunk is a leading one, emitted when the first sentence alone is over the limit
    && forall i :: 0 <= i < |groups| ==>
         (groups[i] == [] <==> i == 0 && WordCount(sentences[0]) > maxChunkSize)
  }

  /**
   * The state of `chunk_text` after its first `j` sentences: the closed
   * chunks render the closed groups, and the closed groups followed by the
   * open one are those sentences, packed greedily.
   */
  ghost predicate Packed(sentences: seq<string>, maxChunkSize: int, j: nat,
                         chunks: seq<string>, groups: seq<seq<string>>, current: seq<string>)
  {
    && 0 < j <= |sentences|
    && current != []
    && Rendered(chunks, groups)
    && Flatten(groups) + current == sentences[..j]
    && SoftLimit(groups + [current], maxChunkSize)
    && ClosedGreedily(groups + [current], maxChunkSize)
    && (WordCount(sentences[0]) > maxChunkSize <==> groups != [] && groups[0] == [])
  }

  /**
   * `chunk_text` after sentence splitting. Sentences are packed greedily:
   * one joins the current chunk while the chunk's word count stays within
   * `maxChunkSize`, otherwise the current chunk is closed and the sentence
   * starts the next one. `groups` are the sentences of each chunk.
   */
  method ChunkText(sentences: seq<string>, maxChunkSize: int) returns (chunks: seq<string>, groups: seq<seq<string>>)
    ensures GreedyChunks(sentences, maxChunkSize, chunks, groups)
  {
    chunks, groups := [], [];
    var current: seq<string> := [];
    var currentLength := 0;
    for j := 0 to |sentences|
      invariant j == 0 ==> chunks == [] && groups == [] && current == []
      invariant j > 0 ==> Packed(sentences, maxChunkSize, j, chunks, groups, current)
      invariant currentLength == SumWords(current)
    {
      var sentenceLength := WordCount(sentences[j]);
      if currentLength + sentenceLength <= maxChunkSize {
        PackAppend(sentences, maxChunkSize, j, chunks, groups, current);
        current := current + [sentences[j]];
        currentLength := currentLength + sentenceLength;
      } else {
        PackClose(sentences, maxChunkSize, j, chunks, groups, current);
        chunks := chunks + [Join(current, " ")];
        groups := groups + [current];
        current := [sentences[j]];
        currentLength := sentenceLength;
      }
    }
    if current != [] {
      PackFinish(sentences, maxChunkSize, chunks, groups, current);
      chunks := chunks + [Join(current, " ")];
      groups := groups + [current];
    }
  }

  /** A sentence that fits joins the open group. */
  lemma PackAppend(sentences: seq<string>, maxChunkSize: int, j: nat,
                   chunks: seq<string>, groups: seq<seq<string>>, current: seq<string>)
    requires j < |sentences|
    requires j == 0 ==> chunks == [] && groups == [] && current == []
    requires j > 0 ==> Packed(sentences, maxChunkSize, j, chunks, groups, current)
    requires SumWords(current) + WordCount(sentences[j]) <= maxChunkSize
    ensures Packed(sentences, maxChunkSize, j + 1, chunks, groups, current + [sentences[j]])
    ensures SumWords(current + [sentences[j]]) == SumWords(current) + WordCount(sentences[j])
  {
    var s := sentences[j];
    SumWordsAppend(current, s);
    assert sentences[..j + 1] == sentences[..j] + [s];
    if j == 0 {
      assert current + [s] == [s];
      assert groups + [current + [s]] == [[s]];
    } else {
      AppendToLast(groups, current, s, maxChunkSize);
    }
  }

  /** A sentence that does not fit closes the open group and opens the next one. */
  lemma PackClose(sentences: seq<string>, maxChunkSize: int, j: nat,
                  chunks: seq<string>, groups: seq<seq<string>>, current: seq<string>)
    requires j < |sentences|
    requires j == 0 ==> chunks == [] && groups == [] && current == []
    requires j > 0 ==> Packed(sentences, maxChunkSize, j, chunks, groups, current)
    requires SumWords(current) + WordCount(sentences[j]) > maxChunkSize
    ensures Packed(sentences, maxChunkSize, j + 1, chunks + [Join(current, " ")], groups + [current], [sentences[j]])
  {
    if j == 0 {
      PackCloseFirst(sentences, maxChunkSize);
    } else {
      PackCloseNext(sentences, maxChunkSize, j, chunks, groups, current);
    }
  }

  /** A first sentence longer than the limit closes an empty group before it. */
  lemma PackCloseFirst(sentences: seq<string>, maxChunkSize: int)
    requires sentences != [] && WordCount(sentences[0]) > maxChunkSize
    ensures Packed(sentences, maxChunkSize, 1, [Join([], " ")], [[]], [sentences[0]])
  {
    var s := sentences[0];
    RenderedAppend([], [], []);
    FlattenAppend<string>([], []);
    assert sentences[..1] == [s];
    assert [[]] + [[s]] == [[], [s]];
  }

  lemma PackCloseNext(sentences: seq<string>, maxChunkSize: int, j: nat,
                      chunks: seq<string>, groups: seq<seq<string>>, current: seq<string>)
    requires 0 < j < |sentences|
    requires Packed(sentences, maxChunkSize, j, chunks, groups, current)
    requires SumWords(current) + WordCount(sentences[j]) > maxChunkSize
    ensures Packed(sentences, maxChunkSize, j + 1, chunks + [Join(current, " ")], groups + [current], [sentences[j]])
  {
    var s := sentences[j];
    RenderedAppend(chunks, groups, current);
    FlattenAppend(groups, current);
    assert sentences[..j + 1] == sentences[..j] + [s];
    CloseGroup(groups, current, s, maxChunkSize);
    assert (groups + [current])[0] == if groups == [] then current else groups[0];
  }

  /** Closing a group renders it as the next chunk. */
  lemma RenderedAppend(chunks: seq<string>, groups: seq<seq<string>>, current: seq<string>)
    requires Rendered(chunks, groups)
    ensures Rendered(chunks + [Join(current, " ")], groups + [current])
  {
    WordCountJoin(current);
  }

  /** After the loop the open group is closed, and the groups meet every clause of `ChunkText`. */
  lemma PackFinish(sentences: seq<string>, maxChunkSize: int,
                   chunks: seq<string>, groups: seq<seq<string>>, current: seq<string>)
    requires Packed(sentences, maxChunkSize, |sentences|, chunks, groups, current)
    ensures GreedyChunks(sentences, maxChunkSize, chunks + [Join(current, " ")], groups + [current])
  {
    var gs := groups + [current];
    RenderedAppend(chunks, groups, current);
    FlattenAppend(groups, current);
    assert sentences[..|sentences|] == sentences;
    forall i | 0 <= i < |gs| ensures gs[i] == [] <==> i == 0 && WordCount(sentences[0]) > maxChunkSize {
      if 0 < i {
        assert gs[i] != [];
      }
    }
  }

  /** Adding a sentence that fits to the open group keeps both properties. */
  lemma AppendToLast(groups: seq<seq<string>>, current: seq<string>, s: string, maxChunkSize: int)
    requires SoftLimit(groups + [current], maxChunkSize) && ClosedGreedily(groups + [current], maxChunkSize)
    requires SumWords(current) + WordCount(s) <= maxChunkSize
    requires SumWords(current + [s]) == SumWords(current) + WordCount(s)
    ensures SoftLimit(groups + [current + [s]], maxChunkSize) && ClosedGreedily(groups + [current + [s]], maxChunkSize)
  {
    var before, after := groups + [current], groups + [current + [s]];
    forall i | 0 <= i < |after| && SumWords(after[i]) > maxChunkSize ensures |after[i]| <= 1 {
      assert after[i] == before[i];
    }
    forall i | 0 < i < |after| ensures after[i] != [] && SumWords(after[i - 1]) + WordCount(after[i][0]) > maxChunkSize {
      assert after[i - 1] == before[i - 1];
      if i < |groups| {
        assert after[i] == before[i];
      } else {
        assert after[i][0] == before[i][0];
      }
    }
  }

  /** Closing the open group and starting a new one with a sentence that did not fit keeps both properties. */
  lemma CloseGroup(groups: seq<seq<string>>, current: seq<string>, s: string, maxChunkSize: int)
    requires SoftLimit(groups + [current], maxChunkSize) && ClosedGreedily(groups + [current], maxChunkSize)
    requires SumWords(current) + WordCount(s) > maxChunkSize
    ensures SoftLimit(groups + [current] + [[s]], maxChunkSize) && ClosedGreedily(groups + [current] + [[s]], maxChunkSize)
  {
    var before, after := groups + [current], groups + [current] + [[s]];
    forall i | 0 <= i < |after| && SumWords(after[i]) > maxChunkSize ensures |after[i]| <= 1 {
      if i < |before| {
        assert after[i] == before[i];
      }
    }
    forall i | 0 < i < |after| ensures after[i] != [] && SumWords(after[i - 1]) + WordCount(after[i][0]) > maxChunkSize {
      assert after[i - 1] == before[i - 1];
      if i < |before| {
        assert after[i] == before[i];
      }
    }
  }

  /** The default `max_chunk_size` of `chunk_text`. */
  const DefaultMaxChunkSize: int := 250

  // ---------------------------------------------------------------------------
  // Records and upsert batches

  /** An upsert record without its embedding vector. */
  datatype Record = Record(id: string, text: string, source: string)

  /** The id `f"chunk-{i}"`. */
  function ChunkId(i: nat): string {
    "chunk-" + NatToString(i)
  }

  lemma ChunkIdsDistinct(i: nat, j: nat)
    requires i != j
    ensures ChunkId(i) != ChunkId(j)
  {
    if ChunkId(i) == ChunkId(j) {
      assert ChunkId(i)[6..] == NatToString(i);
      assert ChunkId(j)[6..] == NatToString(j);
      NatToStringInjective(i, j);
    }
  }

  /** One record per chunk, in chunk order, with id `chunk-i` and the source path. */
  method BuildRecords(chunks: seq<string>, dataPath: string) returns (records: seq<Record>)
    ensures |records| == |chunks|
    ensures forall i :: 0 <= i < |chunks| ==> records[i] == Record(ChunkId(i), chunks[i], dataPath)
    ensures forall i, j :: 0 <= i < j < |records| ==> records[i].id != records[j].id
  {
    records := [];
    for i := 0 to |chunks|
      invariant |records| == i
      invariant forall k :: 0 <= k < i ==> records[k] == Record(ChunkId(k), chunks[k], dataPath)
    {
      records := records + [Record(ChunkId(i), chunks[i], dataPath)];
    }
    forall i, j | 0 <= i < j < |records| ensures records[i].id != records[j].id {
      ChunkIdsDistinct(i, j);
    }
  }

  const UpsertBatchSize: nat := 100

  function Min(a: int, b: int): int { if a <= b then a else b }

  /**
   * The upsert loop `for i in range(0, len(records), 100)`: consecutive
   * slices of at most 100 records, all full but the last, covering the list.
   */
  method Batches<T>(records: seq<T>) returns (batches: seq<seq<T>>)
    ensures Flatten(batches) == records
    ensures forall b :: 0 <= b < |batches| ==> 0 < |batches[b]| <= UpsertBatchSize
    ensures forall b :: 0 <= b < |batches| - 1 ==> |batches[b]| == UpsertBatchSize
    ensures forall b :: 0 <= b < |batches| ==> b * UpsertBatchSize < |records|
    ensures forall b :: 0 <= b < |batches| ==>
      batches[b] == records[b * UpsertBatchSize..Min(b * UpsertBatchSize + UpsertBatchSize, |records|)]
  {
    batches := [];
    var i := 0;
    while i < |records|
      invariant i == |batches| * UpsertBatchSize
      invariant batches != [] ==> i - UpsertBatchSize < |records|
      invariant Flatten(batches) == records[..Min(i, |records|)]
      invariant forall b :: 0 <= b < |batches| ==> 0 < |batches[b]| <= UpsertBatchSize
      invariant i <= |records| ==> forall b :: 0 <= b < |batches| ==> |batches[b]| == UpsertBatchSize
      invariant forall b :: 0 <= b < |batches| - 1 ==> |batches[b]| == UpsertBatchSize
      invariant forall b :: 0 <= b < |batches| ==> b * UpsertBatchSize < |records|
      invariant forall b :: 0 <= b < |batches| ==>
        batches[b] == records[b * UpsertBatchSize..Min(b * UpsertBatchSize + UpsertBatchSize, |records|)]
    {
      var batch := records[i..Min(i + UpsertBatchSize, |records|)];
      FlattenAppend(batches, batch);
      assert records[..Min(i + UpsertBatchSize, |records|)] == records[..i] + batch;
      batches := batches + [batch];
      i := i + UpsertBatchSize;
    }
    assert records[..Min(i, |records|)] == records;
  }

  /**
   * `process_and_upsert_data` without the file read, the embedding and the
   * network: the batches of records it hands to the upsert call.
   */
  method ProcessAndUpsert(sentences: seq<string>, dataPath: string)
    returns (chunks: seq<string>, batches: seq<seq<Record>>, ghost groups: seq<seq<string>>)
    // the chunks are `chunk_text`'s greedy packing with its default limit
    ensures GreedyChunks(sentences, DefaultMaxChunkSize, chunks, groups)
    ensures |Flatten(batches)| == |chunks|
    ensures forall i :: 0 <= i < |chunks| ==> Flatten(batches)[i] == Record(ChunkId(i), chunks[i], dataPath)
    ensures forall b :: 0 <= b < |batches| ==> 0 < |batches[b]| <= UpsertBatchSize
    ensures forall b :: 0 <= b < |batches| - 1 ==> |batches[b]| == UpsertBatchSize
  {
    chunks, groups := ChunkText(sentences, DefaultMaxChunkSize);
    var records := BuildRecords(chunks, dataPath);
    batches := Batches(records);
  }
}
