/** The append-only block log, walked backwards, and the index of artifacts kept beside it. */
module BlockLog {
  import opened Common
  import opened LogFormat

  /** A block id holds the block's number and the rest of a hash. */
  datatype BlockId = BlockId(num: nat, rest: Bytes)

  /** What the index stores for a block; the number is the place it is stored at. */
  datatype Chunk = Chunk(word: Bytes, rest: Bytes)

  datatype Artifacts = Artifacts(pos: nat, size: int, attributes: Attributes, id: BlockId)

  type Index = map<nat, Chunk>

  /** What a walk reports of a block. */
  datatype Found = Found(num: nat, pos: nat, size: nat, attributes: Attributes)

  // ---- Writing the index ----

  datatype Entry = Entry(num: nat, chunk: Chunk)

  function OneByOne(index: Index, entries: seq<Entry>): Index
  {
    if entries == [] then index else
      var last := entries[|entries| - 1];
      OneByOne(index, entries[..|entries| - 1])[last.num := last.chunk]
  }

  /** A run of chunks written in one go, the first at `lowest`. */
  function Flushed(index: Index, lowest: nat, chunks: seq<Chunk>): Index
    decreases |chunks|
  {
    if chunks == [] then index else Flushed(index, lowest + 1, chunks[1..])[lowest := chunks[0]]
  }

  /** A chunk put in front of the buffered ones counts as one more write. */
  lemma FlushedFront(index: Index, lowest: nat, chunks: seq<Chunk>, c: Chunk)
    requires lowest > 0
    ensures Flushed(index, lowest - 1, [c] + chunks) == Flushed(index, lowest, chunks)[lowest - 1 := c]
  {
    assert ([c] + chunks)[1..] == chunks;
  }

  class ArtifactFile {
    var index: Index

    constructor ()
      ensures index == map[]
    {
      index := map[];
    }

    method Store(num: nat, chunk: Chunk)
      modifies this
      ensures index == old(index)[num := chunk]
    {
      index := index[num := chunk];
    }

    method Flush(buffer: array<Chunk>, count: nat, lowest: nat)
      requires count <= buffer.Length
      modifies this
      ensures index == Flushed(old(index), lowest, buffer[buffer.Length - count..])
    {
      index := Flushed(index, lowest, buffer[buffer.Length - count..]);
    }

    /** Chunks that mostly come in descending order are gathered in a buffer, filled from its end, and written
        in batches. Whatever the order, the file ends up as if they had been written one at a time. */
    method WriteBatched(entries: seq<Entry>, batch: nat, interval: nat)
      requires batch > 0
      modifies this
      ensures index == OneByOne(old(index), entries)
    {
      hide Flushed, OneByOne;
      var buffer := new Chunk[batch];
      var count, lowest, idx := 0, 0, 0;
      NothingFlushed(index, lowest, buffer[batch..]);
      NoneWritten(index);
      for i := 0 to |entries|
        invariant count <= batch == buffer.Length
        invariant Flushed(index, lowest, buffer[batch - count..]) == OneByOne(old(index), entries[..i])
      {
        var num, c := entries[i].num, entries[i].chunk;
        OneMoreWritten(old(index), entries, i);
        if count > 0 && (count >= batch || num + 1 != lowest) {
          Flush(buffer, count, lowest);
          count := 0;
        }
        if count == 0 {
          NothingFlushed(index, lowest, buffer[batch..]);
          NothingFlushed(index, num + 1, buffer[batch..]);
        }
        FlushedFront(index, num + 1, buffer[batch - count..], c);
        Put(buffer, count, c);
        lowest, count := num, count + 1;
        if idx >= interval {
          Flush(buffer, count, lowest);
          count, idx := 0, 0;
          NothingFlushed(index, lowest, buffer[batch..]);
        }
        idx := idx + 1;
      }
      assert entries[..|entries|] == entries;
      Flush(buffer, count, lowest);
    }

    /** The buffer is filled from its end. */
    static method Put(buffer: array<Chunk>, count: nat, c: Chunk)
      requires count < buffer.Length
      modifies buffer
      ensures buffer[buffer.Length - count - 1..] == [c] + old(buffer[buffer.Length - count..])
    {
      buffer[buffer.Length - count - 1] := c;
    }
  }

  lemma NothingFlushed(index: Index, lowest: nat, chunks: seq<Chunk>)
    requires chunks == []
    ensures Flushed(index, lowest, chunks) == index
  {
  }

  lemma NoneWritten(index: Index)
    ensures OneByOne(index, []) == index
  {
  }

  lemma OneMoreWritten(index: Index, entries: seq<Entry>, i: nat)
    requires i < |entries|
    ensures OneByOne(index, entries[..i + 1]) == OneByOne(index, entries[..i])[entries[i].num := entries[i].chunk]
  {
    assert entries[..i + 1][..i] == entries[..i];
  }

  // ---- The index that belongs to a log ----

  function ChunkOf(blocks: seq<Block>, idOf: Block -> BlockId, i: nat): Chunk
    requires i < |blocks|
  {
    Chunk(Packed(Offset(blocks, i), blocks[i].attributes), idOf(blocks[i]).rest)
  }

  function FoundAt(blocks: seq<Block>, i: nat): Found
    requires i < |blocks|
  {
    Found(i + 1, Offset(blocks, i), |blocks[i].data|, blocks[i].attributes)
  }

  function ArtifactsOf(blocks: seq<Block>, idOf: Block -> BlockId, i: nat): Artifacts
    requires i < |blocks|
  {
    Artifacts(Offset(blocks, i), |blocks[i].data|, blocks[i].attributes, BlockId(i + 1, idOf(blocks[i]).rest))
  }

  /** The index holds one chunk, under the block's number, for every block from the index `low` on. */
  ghost predicate IndexesFrom(index: Index, blocks: seq<Block>, idOf: Block -> BlockId, low: nat)
  {
    && (forall n: nat :: n in index <==> low < n <= |blocks|)
    && (forall i :: low <= i < |blocks| ==> i + 1 in index && index[i + 1] == ChunkOf(blocks, idOf, i))
  }

  ghost predicate Indexes(index: Index, blocks: seq<Block>, idOf: Block -> BlockId)
  {
    IndexesFrom(index, blocks, idOf, 0)
  }

  lemma ChunkKept(blocks: seq<Block>, b: Block, idOf: Block -> BlockId, i: nat)
    requires i < |blocks|
    ensures ChunkOf(blocks + [b], idOf, i) == ChunkOf(blocks, idOf, i)
    ensures Offset(blocks + [b], i) == Offset(blocks, i)
  {
    assert (blocks + [b])[..i] == blocks[..i];
  }

  lemma IndexesMore(index: Index, blocks: seq<Block>, b: Block, idOf: Block -> BlockId)
    requires Indexes(index, blocks, idOf)
    ensures Offset(blocks + [b], |blocks|) == |Encoded(blocks)|
    ensures Encoded(blocks + [b]) == Encoded(blocks) + b.data + Packed(|Encoded(blocks)|, b.attributes)
    ensures Indexes(index[|blocks| + 1 := Chunk(Packed(|Encoded(blocks)|, b.attributes), idOf(b).rest)], blocks + [b],
        idOf)
  {
    EncodedMore(blocks, b);
    hide Packed, Encoded, Offset;
    NewChunk(blocks, b, idOf);
    forall i | 0 <= i < |blocks| ensures ChunkOf(blocks + [b], idOf, i) == ChunkOf(blocks, idOf, i) {
      ChunkKept(blocks, b, idOf, i);
    }
    hide ChunkOf;
  }

  lemma EncodedMore(blocks: seq<Block>, b: Block)
    ensures Offset(blocks + [b], |blocks|) == |Encoded(blocks)|
    ensures Encoded(blocks + [b]) == Encoded(blocks) + b.data + Packed(|Encoded(blocks)|, b.attributes)
  {
    hide Packed;
    assert (blocks + [b])[..|blocks|] == blocks;
  }

  lemma NewChunk(blocks: seq<Block>, b: Block, idOf: Block -> BlockId)
    ensures ChunkOf(blocks + [b], idOf, |blocks|) == Chunk(Packed(|Encoded(blocks)|, b.attributes), idOf(b).rest)
  {
    EncodedMore(blocks, b);
    hide Packed, Encoded, Offset;
  }

  /** Positions below the limit of the format. */
  ghost predicate Fits(blocks: seq<Block>)
  {
    forall i :: 0 <= i < |blocks| ==> Offset(blocks, i) < LIMIT
  }

  lemma FitsMore(blocks: seq<Block>, b: Block, idOf: Block -> BlockId)
    requires Fits(blocks) && |Encoded(blocks)| < LIMIT
    ensures Fits(blocks + [b])
  {
    forall i | 0 <= i < |blocks| ensures Offset(blocks + [b], i) < LIMIT { ChunkKept(blocks, b, idOf, i); }
    assert (blocks + [b])[..|blocks|] == blocks;
  }

  class BlockLog {
    /** The id a block's contents give it. */
    const idOf: Block -> BlockId
    var file: Bytes
    var size: nat
    var head: Option<Block>
    const artifacts: ArtifactFile
    ghost var blocks: seq<Block>

    ghost predicate Valid()
      reads this, artifacts
    {
      && file == Encoded(blocks) && size == |file| && Fits(blocks)
      && head == (if blocks == [] then None else Some(blocks[|blocks| - 1]))
      && (forall i :: 0 <= i < |blocks| ==> idOf(blocks[i]).num == i + 1)
      && Indexes(artifacts.index, blocks, idOf)
    }

    constructor (idOf: Block -> BlockId)
      ensures Valid() && blocks == [] && fresh(artifacts) && this.idOf == idOf
    {
      this.idOf := idOf;
      file, size, head, blocks := [], 0, None, [];
      artifacts := new ArtifactFile();
    }

    function HeadNum(): nat
      reads this
    {
      if head.None? then 0 else idOf(head.value).num
    }

    /** A block is written behind the others, with its own position after it, and its artifacts are stored. */
    method Append(num: nat, b: Block) returns (ok: bool, pos: nat)
      requires Valid()
      modifies this, artifacts
      ensures Valid() && pos == |old(file)|
      ensures ok <==> num == |old(blocks)| + 1 && idOf(b).num == num && |old(file)| < LIMIT
      ensures blocks == if ok then old(blocks) + [b] else old(blocks)
      ensures !ok ==> file == old(file) && artifacts.index == old(artifacts.index)
    {
      hide Encoded, Indexes, Packed, Fits;
      pos := size;
      ok := num == HeadNum() + 1 && idOf(b).num == num && size < LIMIT;
      if ok {
        IndexesMore(artifacts.index, blocks, b, idOf);
        FitsMore(blocks, b, idOf);
        var word := Packed(pos, b.attributes);
        file := file + b.data + word;
        size := size + |b.data| + TRAILER;
        artifacts.Store(num, Chunk(word, idOf(b).rest));
        blocks, head := blocks + [b], Some(b);
      }
    }

    /** From the end of the log to its start, one trailer leads to the next. Fails at an empty block, and only there. */
    method ForEachBlockPosition(limit: nat) returns (ok: bool, found: seq<Found>)
      requires Valid()
      ensures |found| <= |blocks| && forall k :: 0 <= k < |found| ==>
        found[k] == FoundAt(blocks, |blocks| - 1 - k) && found[k].size > 0
      ensures ok ==> |found| == |blocks| || |found| == (if limit == 0 then 1 else limit)
      ensures !ok ==> |found| < |blocks| && blocks[|blocks| - 1 - |found|].data == []
    {
      hide Encoded, Packed, UnpackedPosition, UnpackedAttributes, Indexes;
      found := [];
      if size == 0 {
        NoBytes(blocks);
        return true, found;
      }
      var num := HeadNum();
      SomeBlocks(blocks);
      var pos: int := size - TRAILER;
      assert blocks[..|blocks|] == blocks;
      while num >= 1
        invariant num == |blocks| - |found|
        invariant num >= 1 ==> pos == Offset(blocks, num) - TRAILER
        invariant forall k :: 0 <= k < |found| ==> found[k] == FoundAt(blocks, |blocks| - 1 - k) && found[k].size > 0
        invariant |found| == 0 || |found| < limit
        decreases num
      {
        BlockAt(blocks, num - 1);
        var higher := pos;
        var word := file[higher..higher + TRAILER];
        PackingRoundTrip(Offset(blocks, num - 1), blocks[num - 1].attributes);
        FitsAt(blocks, num - 1);
        pos := UnpackedPosition(word);
        if higher <= pos {
          return false, found;
        }
        found := found + [Found(num, pos, higher - pos, UnpackedAttributes(word))];
        if |found| >= limit {
          return true, found;
        }
        pos := pos - TRAILER;
        num := num - 1;
      }
      ok := true;
    }

    /** The last block, straight from the file. */
    method ReadRawHeadBlock() returns (b: Option<Block>)
      requires Valid()
      ensures b == head
    {
      hide Encoded, Packed, UnpackedPosition, UnpackedAttributes, Indexes;
      if size < TRAILER {
        SomeBlocks(blocks);
        return None;
      }
      SomeBlocks(blocks);
      ghost var last := |blocks| - 1;
      BlockAt(blocks, last);
      PackingRoundTrip(Offset(blocks, last), blocks[last].attributes);
      FitsAt(blocks, last);
      assert blocks[..|blocks|] == blocks;
      var word := file[size - TRAILER..];
      assert word == file[size - TRAILER..size];
      var pos := UnpackedPosition(word);
      var length := size - pos - TRAILER;
      b := Some(Block(file[pos..pos + length], UnpackedAttributes(word)));
    }

    /** Where a block is and how long: the next chunk says where it ends, so there is none to say it of the head. */
    method ReadArtifacts(num: nat) returns (a: Option<Artifacts>)
      requires Valid()
      ensures a.Some? <==> 1 <= num < |blocks|
      ensures a.Some? ==> a.value == ArtifactsOf(blocks, idOf, num - 1)
    {
      hide Encoded, Packed, UnpackedPosition, UnpackedAttributes;
      if num == HeadNum() || num !in artifacts.index || num + 1 !in artifacts.index {
        return None;
      }
      var c, next := artifacts.index[num], artifacts.index[num + 1];
      ChunkTells(blocks, idOf, num - 1);
      ChunkTells(blocks, idOf, num);
      OffsetNext(blocks, num - 1);
      var pos := UnpackedPosition(c.word);
      a := Some(Artifacts(pos, UnpackedPosition(next.word) - pos - TRAILER,
          UnpackedAttributes(c.word), BlockId(num, c.rest)));
    }

    /** The same for a run of blocks, read with one chunk more than there are blocks; and how many bytes they take
        in all. */
    method ReadArtifactsRange(first: nat, count: nat) returns (ok: bool, found: seq<Artifacts>, total: nat)
      requires Valid() && count > 0
      ensures ok <==> 1 <= first && first + count <= |blocks|
      ensures ok ==> |found| == count && forall k :: 0 <= k < count ==>
        found[k] == ArtifactsOf(blocks, idOf, first - 1 + k)
      ensures ok ==> total == Offset(blocks, first - 1 + count) - Offset(blocks, first - 1)
    {
      hide Encoded, Packed, UnpackedPosition, UnpackedAttributes;
      found, total := [], 0;
      ok := first != HeadNum() && forall n :: first <= n <= first + count ==> n in artifacts.index;
      RangeIn(artifacts.index, |blocks|, first, count);
      if !ok { return; }
      var chunk := artifacts.index[first];
      ChunkTells(blocks, idOf, first - 1);
      var pos := UnpackedPosition(chunk.word);
      for i := 1 to count + 1
        invariant |found| == i - 1 && chunk == artifacts.index[first + i - 1] && pos == Offset(blocks, first + i - 2)
        invariant forall k :: 0 <= k < i - 1 ==> found[k] == ArtifactsOf(blocks, idOf, first - 1 + k)
        invariant total == Offset(blocks, first + i - 2) - Offset(blocks, first - 1)
      {
        var next := artifacts.index[first + i];
        ChunkTells(blocks, idOf, first + i - 2);
        ChunkTells(blocks, idOf, first + i - 1);
        OffsetNext(blocks, first + i - 2);
        var end := UnpackedPosition(next.word);
        var length := end - pos - TRAILER;
        found := found + [Artifacts(pos, length, UnpackedAttributes(chunk.word), BlockId(first + i - 1, chunk.rest))];
        total := total + length + TRAILER;
        chunk, pos := next, end;
      }
    }

    /** One read of the file, cut up by the artifacts. */
    method ReadFromDisk(first: nat, count: nat) returns (ok: bool, result: seq<Block>)
      requires Valid() && first > 0 && count > 0
      ensures ok <==> first + count <= |blocks|
      ensures ok ==> result == blocks[first - 1..first - 1 + count]
    {
      hide Encoded, Indexes, Offset, Fits, ChunkOf;
      result := [];
      var found, total;
      ok, found, total := ReadArtifactsRange(first, count);
      if !ok { return; }
      SliceOf(blocks, first - 1, count, 0);
      var start := found[0].pos;
      var data := file[start..start + total];
      for i := 0 to count
        invariant result == blocks[first - 1..first - 1 + i]
      {
        var a := found[i];
        SliceOf(blocks, first - 1, count, i);
        result := result + [Block(data[a.pos - start..a.pos - start + a.size], a.attributes)];
      }
    }

    /** A run of blocks; the head comes from memory. */
    method ReadRange(first: nat, count: nat) returns (ok: bool, result: seq<Block>)
      requires Valid() && first > 0
      ensures ok <==> first > |blocks| || first + count - 1 <= |blocks|
      ensures ok && first > |blocks| ==> result == []
      ensures ok && first <= |blocks| ==> result == blocks[first - 1..first - 1 + count]
    {
      hide Encoded, Indexes, Offset, Fits;
      result := [];
      if head.None? || first > HeadNum() {
        return true, [];
      }
      var withHead := first + count - 1 == HeadNum();
      var fromDisk := if withHead then count - 1 else count;
      ok := true;
      if fromDisk > 0 {
        ok, result := ReadFromDisk(first, fromDisk);
      }
      if withHead {
        result := result + [head.value];
      }
    }

    /** The index rebuilt from the log alone, back to front and in batches, is the one that was kept while appending. */
    method RegenerateArtifacts(batch: nat, interval: nat) returns (ok: bool, rebuilt: ArtifactFile)
      requires Valid() && batch > 0
      ensures ok <==> forall i :: 0 <= i < |blocks| ==> blocks[i].data != []
      ensures fresh(rebuilt) && (ok ==> rebuilt.index == artifacts.index)
    {
      hide Encoded, Packed, FoundAt, OneByOne;
      var found;
      ok, found := ForEachBlockPosition(HeadNum() + 1);
      AllNonEmpty(blocks, found, ok);
      if !ok {
        rebuilt := new ArtifactFile();
        return;
      }
      var entries := [];
      for i := 0 to |found|
        invariant |entries| == i
        invariant forall k :: 0 <= k < i ==> entries[k] == EntryOf(blocks, idOf, |blocks| - 1 - k)
      {
        var f := found[i];
        FoundThere(blocks, |blocks| - 1 - i);
        var id := idOf(Block(file[f.pos..f.pos + f.size], f.attributes));
        entries := entries + [Entry(f.num, Chunk(Packed(f.pos, f.attributes), id.rest))];
      }
      rebuilt := new ArtifactFile();
      rebuilt.WriteBatched(entries, batch, interval);
      IndexRebuilt(blocks, idOf, entries, artifacts.index);
    }
  }

  function EntryOf(blocks: seq<Block>, idOf: Block -> BlockId, i: nat): Entry
    requires i < |blocks|
  {
    Entry(i + 1, ChunkOf(blocks, idOf, i))
  }

  lemma AllNonEmpty(blocks: seq<Block>, found: seq<Found>, ok: bool)
    requires |found| <= |blocks| && forall k :: 0 <= k < |found| ==>
      found[k] == FoundAt(blocks, |blocks| - 1 - k) && found[k].size > 0
    requires ok ==> |found| == |blocks|
    requires !ok ==> |found| < |blocks| && blocks[|blocks| - 1 - |found|].data == []
    ensures ok <==> forall i :: 0 <= i < |blocks| ==> blocks[i].data != []
  {
    if ok {
      forall i | 0 <= i < |blocks| ensures blocks[i].data != [] {
        assert found[|blocks| - 1 - i] == FoundAt(blocks, i);
      }
    }
  }

  lemma FoundThere(blocks: seq<Block>, i: nat)
    requires i < |blocks|
    ensures var f := FoundAt(blocks, i);
      && f.pos + f.size <= |Encoded(blocks)|
      && Block(Encoded(blocks)[f.pos..f.pos + f.size], f.attributes) == blocks[i]
      && f.num == i + 1 && f.pos == Offset(blocks, i) && f.attributes == blocks[i].attributes
  {
    hide Encoded;
    BlockAt(blocks, i);
  }

  /** Writing the chunks from the last to the first leaves the index of the log. */
  lemma {:induction false} AllWritten(blocks: seq<Block>, idOf: Block -> BlockId, entries: seq<Entry>)
    requires |entries| <= |blocks| && forall k :: 0 <= k < |entries| ==>
      entries[k] == EntryOf(blocks, idOf, |blocks| - 1 - k)
    ensures IndexesFrom(OneByOne(map[], entries), blocks, idOf, |blocks| - |entries|)
    decreases |entries|
  {
    hide ChunkOf;
    if entries != [] { AllWritten(blocks, idOf, entries[..|entries| - 1]); }
  }

  lemma IndexRebuilt(blocks: seq<Block>, idOf: Block -> BlockId, entries: seq<Entry>, index: Index)
    requires |entries| == |blocks| && forall k :: 0 <= k < |entries| ==>
      entries[k] == EntryOf(blocks, idOf, |blocks| - 1 - k)
    requires Indexes(index, blocks, idOf)
    ensures OneByOne(map[], entries) == index
  {
    hide ChunkOf, OneByOne;
    AllWritten(blocks, idOf, entries);
    SameIndex(OneByOne(map[], entries), index, blocks, idOf);
  }

  lemma SameIndex(a: Index, b: Index, blocks: seq<Block>, idOf: Block -> BlockId)
    requires Indexes(a, blocks, idOf) && Indexes(b, blocks, idOf)
    ensures a == b
  {
    hide ChunkOf;
    forall n | n in a ensures n in b && a[n] == b[n] {
      assert a[n - 1 + 1] == ChunkOf(blocks, idOf, n - 1) == b[n - 1 + 1];
    }
  }

  lemma RangeIn(index: Index, n: nat, first: nat, count: nat)
    requires (forall k: nat :: k in index <==> 0 < k <= n) && count > 0
    ensures (first != n && forall k :: first <= k <= first + count ==> k in index) <==> 1 <= first && first + count <= n
  {
    if first != n && forall k :: first <= k <= first + count ==> k in index {
      assert first in index && first + count in index;
    }
  }

  /** A chunk says where its block starts, and how it is stored. */
  lemma ChunkTells(blocks: seq<Block>, idOf: Block -> BlockId, i: nat)
    requires Fits(blocks) && i < |blocks|
    ensures var c := ChunkOf(blocks, idOf, i);
      && |c.word| == TRAILER && c.rest == idOf(blocks[i]).rest
      && UnpackedPosition(c.word) == Offset(blocks, i) && UnpackedAttributes(c.word) == blocks[i].attributes
  {
    PackingRoundTrip(Offset(blocks, i), blocks[i].attributes);
  }

  /** A block cut out of a longer stretch of the file. */
  lemma SliceOf(blocks: seq<Block>, first: nat, count: nat, i: nat)
    requires i < count && first + count <= |blocks|
    ensures var start, end := Offset(blocks, first), Offset(blocks, first + count);
      var pos, size := Offset(blocks, first + i), |blocks[first + i].data|;
      && start <= pos <= pos + size <= end <= |Encoded(blocks)|
      && Encoded(blocks)[start..end][pos - start..pos - start + size] == blocks[first + i].data
  {
    hide Encoded, Offset;
    OffsetsAscend(blocks, first, first + i);
    BlockAt(blocks, first + i);
    OffsetsAscend(blocks, first + i + 1, first + count);
    EncodedPrefix(blocks, first + count);
    SliceOfSlice(Encoded(blocks), Offset(blocks, first), Offset(blocks, first + count),
                 Offset(blocks, first + i), Offset(blocks, first + i) + |blocks[first + i].data|);
  }

  lemma SliceOfSlice(s: Bytes, start: nat, end: nat, from: nat, to: nat)
    requires start <= from <= to <= end <= |s|
    ensures s[start..end][from - start..to - start] == s[from..to]
  {
    assert s[start..end] == s[start..from] + s[from..to] + s[to..end];
  }

  lemma NoBytes(blocks: seq<Block>)
    requires |Encoded(blocks)| < TRAILER
    ensures blocks == []
  {
    hide Packed;
  }

  lemma SomeBlocks(blocks: seq<Block>)
    ensures blocks == [] <==> |Encoded(blocks)| < TRAILER
  {
    hide Packed;
  }

  lemma FitsAt(blocks: seq<Block>, i: nat)
    requires Fits(blocks) && i < |blocks|
    ensures Offset(blocks, i) < LIMIT
  {
  }

  /** A log the walk fails on: its only block is empty. */
  method EmptyBlockLog(limit: nat) returns (log: BlockLog, ok: bool, found: seq<Found>)
    ensures fresh(log) && log.Valid() && log.blocks == [Block([], Attributes(false, None))] && !ok
  {
    hide Encoded, Packed, Indexes;
    log := new BlockLog(b => BlockId(1, []));
    NoneEncoded();
    var pos;
    ok, pos := log.Append(1, Block([], Attributes(false, None)));
    ok, found := log.ForEachBlockPosition(limit);
    FoundNonEmpty(log.blocks, found);
  }

  lemma FoundNonEmpty(blocks: seq<Block>, found: seq<Found>)
    requires |found| <= |blocks| && forall k :: 0 <= k < |found| ==>
      found[k] == FoundAt(blocks, |blocks| - 1 - k) && found[k].size > 0
    ensures |found| > 0 ==> blocks[|blocks| - 1].data != []
  {
    if |found| > 0 { assert found[0] == FoundAt(blocks, |blocks| - 1); }
  }

  lemma NoneEncoded()
    ensures Encoded([]) == []
  {
  }
}
