/**
 * Chunk identifiers of the ingestion pipeline: every chunk gets the id
 * "<source>:<page>:<index>", where the index counts the chunks just before it,
 * in an unbroken run, that come from the same source and page.
 */
module ChunkIds {
  import opened Wrappers
  import opened Render
  import opened Sequences

  /**
   * A chunk produced by the text splitter. Its text and its source and page metadata
   * are fixed once it exists; the "id" metadata entry is written by CalculateChunkIds.
   * A metadata entry the loader did not set reads as `None`.
   */
  class Chunk {
    const text: string
    const source: Option<string>
    const page: Option<int>
    var id: Option<string>

    constructor (text: string, source: Option<string>, page: Option<int>)
      ensures this.text == text && this.source == source && this.page == page
      ensures id == None
    {
      this.text := text;
      this.source := source;
      this.page := page;
      id := None;
    }
  }

  /** `f"{source}"`: Python formats a missing value as "None". */
  function ShowSource(source: Option<string>): string {
    match source
    case None => "None"
    case Some(s) => s
  }

  /** `f"{page}"` for an integer page number or a missing one. */
  function ShowPage(page: Option<int>): string {
    match page
    case None => "None"
    case Some(p) => IntToString(p)
  }

  /** A shown page never contains ':', so the last ':' of a page key ends the source. */
  lemma ShowPageHasNoColon(page: Option<int>)
    ensures ':' !in ShowPage(page)
  {
    if page.Some? {
      IntToStringRoundTrip(page.value);
    }
  }

  /** The page key `f"{source}:{page}"` that the scan compares between neighbours. */
  function PageKey(source: Option<string>, page: Option<int>): string {
    ShowSource(source) + ":" + ShowPage(page)
  }

  /** The chunk id `f"{current_page_id}:{current_chunk_index}"`. */
  function ChunkId(pageKey: string, index: nat): string {
    pageKey + ":" + NatToString(index)
  }

  /** The page keys of a sequence of chunks, position by position. */
  function Keys(chunks: seq<Chunk>): (keys: seq<string>)
    ensures |keys| == |chunks|
  {
    if |chunks| == 0 then []
    else Keys(chunks[..|chunks| - 1]) + [PageKey(chunks[|chunks| - 1].source, chunks[|chunks| - 1].page)]
  }

  /** The key at a position is the page key of the chunk there. */
  lemma {:induction false} KeyAt(chunks: seq<Chunk>, i: nat)
    requires i < |chunks|
    ensures Keys(chunks)[i] == PageKey(chunks[i].source, chunks[i].page)
  {
    if i < |chunks| - 1 {
      var init := chunks[..|chunks| - 1];
      KeyAt(init, i);
      assert init[i] == chunks[i];
    }
  }

  /**
   * The index the scan gives position i: 0 at the start and wherever the key differs
   * from the previous one, the previous index plus one otherwise.
   */
  function RunIndex<T(==)>(keys: seq<T>, i: nat): nat
    requires i < |keys|
  {
    if i == 0 || keys[i] != keys[i - 1] then 0 else RunIndex(keys, i - 1) + 1
  }

  /** The ids the scan assigns to chunks with the given page keys. */
  function AssignedIds(keys: seq<string>): (ids: seq<string>)
    ensures |ids| == |keys|
    ensures forall i {:trigger ids[i]} :: 0 <= i < |keys| ==> ids[i] == ChunkId(keys[i], RunIndex(keys, i))
  {
    seq(|keys|, i requires 0 <= i < |keys| => ChunkId(keys[i], RunIndex(keys, i)))
  }

  /**
   * An independent reading of the index: k is the number of positions immediately
   * before i, in an unbroken run, that carry the same key as position i.
   */
  ghost predicate IsRunLength<T>(keys: seq<T>, i: nat, k: nat)
    requires i < |keys|
  {
    k <= i
    && (forall m :: i - k <= m <= i ==> keys[m] == keys[i])
    && (k < i ==> keys[i - k - 1] != keys[i])
  }

  /** Every key's positions form one contiguous block. */
  ghost predicate Grouped<T>(keys: seq<T>) {
    forall i, m, j :: 0 <= i <= m <= j < |keys| && keys[i] == keys[j] ==> keys[m] == keys[i]
  }

  /** Every chunk carries the id the scan assigns at its position. */
  ghost predicate Tagged(chunks: seq<Chunk>)
    reads chunks
  {
    var ids := AssignedIds(Keys(chunks));
    forall i :: 0 <= i < |chunks| ==> chunks[i].id == Some(ids[i])
  }

  /**
   * The ids the scan has written after its first n steps, in order: the loop's running
   * copy of `AssignedIds`, built one id per step (`ScannedIdsArePrefix` relates the two).
   */
  function ScannedIds(keys: seq<string>, n: nat): (ids: seq<string>)
    requires n <= |keys|
    ensures |ids| == n
  {
    if n == 0 then [] else ScannedIds(keys, n - 1) + [ChunkId(keys[n - 1], RunIndex(keys, n - 1))]
  }

  /** The first n steps of the scan write the first n ids that AssignedIds gives. */
  lemma {:induction false} ScannedIdsArePrefix(keys: seq<string>, n: nat)
    requires n <= |keys|
    ensures ScannedIds(keys, n) == AssignedIds(keys)[..n]
  {
    if n > 0 {
      ScannedIdsArePrefix(keys, n - 1);
      assert AssignedIds(keys)[..n] == AssignedIds(keys)[..n - 1] + [AssignedIds(keys)[n - 1]];
    }
  }

  /** Chunks carrying, position by position, the ids of a complete scan are tagged. */
  lemma {:induction false} TaggedByScan(chunks: seq<Chunk>, written: seq<string>)
    requires written == ScannedIds(Keys(chunks), |chunks|)
    requires forall k :: 0 <= k < |chunks| ==> chunks[k].id == Some(written[k])
    ensures Tagged(chunks)
  {
    var keys := Keys(chunks);
    ScannedIdsArePrefix(keys, |chunks|);
    assert written == AssignedIds(keys);
  }

  /**
   * `calculate_chunk_ids`: one left-to-right scan that keeps the previous page key and a
   * running index and writes each chunk's "id" in place; returns the same chunks.
   */
  method CalculateChunkIds(chunks: seq<Chunk>) returns (result: seq<Chunk>)
    requires forall a, b :: 0 <= a < b < |chunks| ==> chunks[a] != chunks[b]
    modifies chunks
    ensures result == chunks
    ensures Tagged(chunks)
  {
    ghost var keys := Keys(chunks);
    ghost var written: seq<string> := [];
    var lastPageId: Option<string> := None;
    var currentChunkIndex: nat := 0;
    for i := 0 to |chunks|
      invariant written == ScannedIds(keys, i)
      invariant forall k :: 0 <= k < i ==> chunks[k].id == Some(written[k])
      invariant i == 0 ==> lastPageId == None
      invariant i > 0 ==> lastPageId == Some(keys[i - 1]) && currentChunkIndex == RunIndex(keys, i - 1)
    {
      var chunk := chunks[i];
      var currentPageId := PageKey(chunk.source, chunk.page);
      KeyAt(chunks, i);
      assert Some(currentPageId) == Some(keys[i]);
      if lastPageId == Some(currentPageId) {
        currentChunkIndex := currentChunkIndex + 1;
      } else {
        currentChunkIndex := 0;
      }
      assert currentChunkIndex == RunIndex(keys, i);
      var chunkId := ChunkId(currentPageId, currentChunkIndex);
      lastPageId := Some(currentPageId);
      chunk.id := Some(chunkId);
      written := written + [chunkId];
    }
    TaggedByScan(chunks, written);
    result := chunks;
  }

  /** The index really is the length of the run of equal keys just before the position. */
  lemma {:induction false} RunIndexIsRunLength<T>(keys: seq<T>, i: nat, k: nat)
    requires i < |keys|
    ensures IsRunLength(keys, i, k) <==> k == RunIndex(keys, i)
  {
    if i > 0 && keys[i] == keys[i - 1] {
      RunIndexIsRunLength(keys, i - 1, RunIndex(keys, i - 1));
      if k > 0 {
        RunIndexIsRunLength(keys, i - 1, k - 1);
        if IsRunLength(keys, i, k) {
          assert IsRunLength(keys, i - 1, k - 1);
        }
        if k - 1 == RunIndex(keys, i - 1) {
          assert IsRunLength(keys, i - 1, k - 1);
        }
      } else {
        assert !IsRunLength(keys, i, k) by { assert keys[i - 0 - 1] == keys[i]; }
      }
    } else if k > 0 {
      assert !IsRunLength(keys, i, k) by {
        if k <= i { assert keys[i - 1] != keys[i]; }
      }
    }
  }

  /** Across a block of equal keys the index grows by one per position. */
  lemma {:induction false} RunIndexAcrossBlock<T>(keys: seq<T>, i: nat, j: nat)
    requires i <= j < |keys|
    requires forall m :: i <= m <= j ==> keys[m] == keys[j]
    ensures RunIndex(keys, j) == RunIndex(keys, i) + (j - i)
  {
    if i < j {
      assert keys[j - 1] == keys[j];
      RunIndexAcrossBlock(keys, i, j - 1);
    }
  }

  /** Two chunk ids are equal only when their page keys and their indexes are. */
  lemma ChunkIdInjective(k1: string, i1: nat, k2: string, i2: nat)
    ensures ChunkId(k1, i1) == ChunkId(k2, i2) ==> k1 == k2 && i1 == i2
  {
    if ChunkId(k1, i1) == ChunkId(k2, i2) {
      NatToStringRoundTrip(i1);
      NatToStringRoundTrip(i2);
      SplitAtLastColon(k1, NatToString(i1), k2, NatToString(i2));
      NatToStringInjective(i1, i2);
    }
  }

  /** `a:b` determines a and b when b holds no colon. */
  lemma SplitAtLastColon(a: string, b: string, c: string, d: string)
    requires ':' !in b && ':' !in d
    requires a + ":" + b == c + ":" + d
    ensures a == c && b == d
  {
    var s := a + ":" + b;
    assert s[|s| - |b| - 1] == ':' && s[|s| - |d| - 1] == ':';
    assert forall k :: |s| - |b| <= k < |s| ==> s[k] == b[k - (|s| - |b|)];
    assert forall k :: |s| - |d| <= k < |s| ==> s[k] == d[k - (|s| - |d|)];
    assert |b| == |d|;
    assert a == s[..|a|] == c;
    assert b == s[|a| + 1..] == d;
  }

  /** Within a grouped sequence, equal keys at two positions carry different indexes. */
  lemma GroupedIndexesDiffer<T>(keys: seq<T>, i: nat, j: nat)
    requires Grouped(keys)
    requires i < j < |keys| && keys[i] == keys[j]
    ensures RunIndex(keys, i) < RunIndex(keys, j)
  {
    RunIndexAcrossBlock(keys, i, j);
  }

  /** Outside a grouped sequence, some key starts two separate runs, both at index 0. */
  lemma UngroupedRunsRestart<T>(keys: seq<T>) returns (a: nat, b: nat)
    requires !Grouped(keys)
    ensures a < b < |keys| && keys[a] == keys[b]
    ensures RunIndex(keys, a) == 0 && RunIndex(keys, b) == 0
  {
    var i, m, j :| 0 <= i <= m <= j < |keys| && keys[i] == keys[j] && keys[m] != keys[i];
    RunIndexIsRunLength(keys, i, RunIndex(keys, i));
    RunIndexIsRunLength(keys, j, RunIndex(keys, j));
    a := i - RunIndex(keys, i);
    b := j - RunIndex(keys, j);
    RunIndexIsRunLength(keys, a, 0);
    RunIndexIsRunLength(keys, b, 0);
  }

  /** Ids are pairwise distinct exactly when the chunks of each page key are contiguous. */
  lemma IdsDistinctIffGrouped(keys: seq<string>)
    ensures Distinct(AssignedIds(keys)) <==> Grouped(keys)
  {
    var ids := AssignedIds(keys);
    DistinctIffPairwise(ids);
    if Grouped(keys) {
      forall i, j | 0 <= i < j < |keys| ensures ids[i] != ids[j] {
        ChunkIdInjective(keys[i], RunIndex(keys, i), keys[j], RunIndex(keys, j));
        if keys[i] == keys[j] {
          GroupedIndexesDiffer(keys, i, j);
        }
      }
    } else {
      var a, b := UngroupedRunsRestart(keys);
      assert ids[a] == ids[b];
    }
  }

  /** The (source, page) each chunk comes from, a missing source shown as Python shows it. */
  function Origins(chunks: seq<Chunk>): (origins: seq<(string, Option<int>)>)
    ensures |origins| == |chunks|
    ensures forall i :: 0 <= i < |chunks| ==> origins[i] == (ShowSource(chunks[i].source), chunks[i].page)
  {
    seq(|chunks|, i requires 0 <= i < |chunks| => (ShowSource(chunks[i].source), chunks[i].page))
  }

  /** Two page keys agree exactly when the shown sources and the pages agree. */
  lemma PageKeyInjective(s1: Option<string>, p1: Option<int>, s2: Option<string>, p2: Option<int>)
    ensures PageKey(s1, p1) == PageKey(s2, p2) <==> ShowSource(s1) == ShowSource(s2) && p1 == p2
  {
    if PageKey(s1, p1) == PageKey(s2, p2) {
      ShowPageHasNoColon(p1);
      ShowPageHasNoColon(p2);
      SplitAtLastColon(ShowSource(s1), ShowPage(p1), ShowSource(s2), ShowPage(p2));
      match (p1, p2)
      case (Some(x), Some(y)) => IntToStringInjective(x, y);
      case (Some(x), None) => IntToStringRoundTrip(x);
      case (None, Some(y)) => IntToStringRoundTrip(y);
      case (None, None) =>
    }
  }

  /**
   * When all chunks from the same source and page are adjacent (as the splitter emits
   * them, document by document), the scan gives every chunk a different id.
   */
  lemma IdsDistinctWhenOriginsGrouped(chunks: seq<Chunk>)
    requires Grouped(Origins(chunks))
    ensures Distinct(AssignedIds(Keys(chunks)))
  {
    KeysGroupedWhenOriginsGrouped(chunks);
    IdsDistinctIffGrouped(Keys(chunks));
  }

  /** Adjacent origins give adjacent page keys, since equal keys mean equal origins. */
  lemma KeysGroupedWhenOriginsGrouped(chunks: seq<Chunk>)
    requires Grouped(Origins(chunks))
    ensures Grouped(Keys(chunks))
  {
    var keys, origins := Keys(chunks), Origins(chunks);
    forall i, m, j | 0 <= i <= m <= j < |keys| && keys[i] == keys[j] ensures keys[m] == keys[i] {
      KeyAt(chunks, i);
      KeyAt(chunks, m);
      KeyAt(chunks, j);
      PageKeyInjective(chunks[m].source, chunks[m].page, chunks[i].source, chunks[i].page);
      PageKeyInjective(chunks[i].source, chunks[i].page, chunks[j].source, chunks[j].page);
      assert origins[i] == origins[j];
    }
  }

  /**
   * Two documents, doc1.pdf page 0 split into three chunks and doc2.pdf page 0 into two,
   * give the ids doc1.pdf:0:0, doc1.pdf:0:1, doc1.pdf:0:2, doc2.pdf:0:0, doc2.pdf:0:1.
   */
  lemma TwoDocumentIds()
    ensures var k1, k2 := PageKey(Some("doc1.pdf"), Some(0)), PageKey(Some("doc2.pdf"), Some(0));
      AssignedIds([k1, k1, k1, k2, k2])
      == ["doc1.pdf:0:0", "doc1.pdf:0:1", "doc1.pdf:0:2", "doc2.pdf:0:0", "doc2.pdf:0:1"]
  {
    assert NatToString(0) == "0" && NatToString(1) == "1" && NatToString(2) == "2";
    assert PageKey(Some("doc1.pdf"), Some(0)) == "doc1.pdf:0";
    assert PageKey(Some("doc2.pdf"), Some(0)) == "doc2.pdf:0";
    var keys := ["doc1.pdf:0", "doc1.pdf:0", "doc1.pdf:0", "doc2.pdf:0", "doc2.pdf:0"];
    assert RunIndex(keys, 0) == 0 && RunIndex(keys, 1) == 1 && RunIndex(keys, 2) == 2;
    assert RunIndex(keys, 3) == 0 && RunIndex(keys, 4) == 1;
    var ids := AssignedIds(keys);
    assert ids[0] == "doc1.pdf:0:0" && ids[1] == "doc1.pdf:0:1" && ids[2] == "doc1.pdf:0:2";
    assert ids[3] == "doc2.pdf:0:0" && ids[4] == "doc2.pdf:0:1";
  }
}
