/** The bytes of the block log: each block is followed by eight bytes that say where it starts and how it is stored. */
module LogFormat {
  import opened Common

  type Byte = x: int | 0 <= x < 256

  type Bytes = seq<Byte>

  /** Whether a block is compressed, and with which custom dictionary if any. */
  datatype Attributes = Attributes(zstd: bool, dictionary: Option<Byte>)

  /** Positions take six bytes. */
  const POSITION_BYTES: nat := 6
  const LIMIT: nat := 0x1_0000_0000_0000
  const TRAILER: nat := 8

  function Power(k: nat): nat
  {
    if k == 0 then 1 else 256 * Power(k - 1)
  }

  /** A number in `k` bytes, lowest first; what does not fit is lost. */
  function ToBytes(n: nat, k: nat): (b: Bytes)
    ensures |b| == k
  {
    if k == 0 then [] else [n % 256] + ToBytes(n / 256, k - 1)
  }

  function FromBytes(b: Bytes): nat
  {
    if b == [] then 0 else b[0] + 256 * FromBytes(b[1..])
  }

  lemma {:induction false} BytesRoundTrip(n: nat, k: nat)
    requires n < Power(k)
    ensures FromBytes(ToBytes(n, k)) == n
    decreases k
  {
    if k > 0 {
      assert ToBytes(n, k)[1..] == ToBytes(n / 256, k - 1);
      BytesRoundTrip(n / 256, k - 1);
    }
  }

  lemma {:induction false} BytesBounded(b: Bytes)
    ensures FromBytes(b) < Power(|b|)
  {
    if b != [] { BytesBounded(b[1..]); }
  }

  lemma PositionLimit()
    ensures Power(POSITION_BYTES) == LIMIT
  {
    assert Power(3) == 256 * 256 * 256;
    assert Power(6) == 256 * (256 * (256 * Power(3)));
  }

  /** What is left of a number above its `k` lowest bytes. */
  function High(n: nat, k: nat): nat
  {
    if k == 0 then n else High(n / 256, k - 1)
  }

  lemma {:induction false} BytesSplit(n: nat, j: nat, k: nat)
    ensures ToBytes(n, j + k) == ToBytes(n, j) + ToBytes(High(n, j), k)
    ensures High(n, j) == 0 <==> n < Power(j)
    decreases j
  {
    if j > 0 { BytesSplit(n / 256, j - 1, k); }
  }

  function Bits(k: nat): nat
  {
    if k == 0 then 1 else 2 * Bits(k - 1)
  }

  /** The lowest `k` bits of two numbers, one or the other set. */
  function Or(x: nat, y: nat, k: nat): (r: nat)
    ensures r < Bits(k)
  {
    if k == 0 then 0 else 2 * Or(x / 2, y / 2, k - 1) + if x % 2 == 1 || y % 2 == 1 then 1 else 0
  }

  lemma {:induction false} OrNothing(y: nat, k: nat)
    requires y < Bits(k)
    ensures Or(0, y, k) == y
    decreases k
  {
    if k > 0 { OrNothing(y / 2, k - 1); }
  }

  lemma ByteBits()
    ensures Bits(8) == 256
  {
    assert Bits(4) == 16;
  }

  function OrByte(x: Byte, y: Byte): Byte
  {
    ByteBits();
    Or(x, y, 8)
  }

  function DictionaryByte(a: Attributes): Byte
  {
    if a.dictionary.Some? then a.dictionary.value else 0
  }

  /** A bit at each end: compressed, and custom dictionary used. */
  function FlagByte(a: Attributes): Byte
  {
    (if a.zstd then 128 else 0) + if a.dictionary.Some? then 1 else 0
  }

  /** The eight bytes of the position, with the attributes set on top of the two highest. */
  function Packed(pos: nat, a: Attributes): (b: Bytes)
    ensures |b| == TRAILER
  {
    var word := ToBytes(pos, TRAILER);
    word[..POSITION_BYTES] + [OrByte(word[6], DictionaryByte(a)), OrByte(word[7], FlagByte(a))]
  }

  function UnpackedPosition(b: Bytes): nat
    requires |b| == TRAILER
  {
    FromBytes(b[..POSITION_BYTES])
  }

  function UnpackedAttributes(b: Bytes): Attributes
    requires |b| == TRAILER
  {
    Attributes(b[7] / 128 == 1, if b[7] % 2 == 1 then Some(b[6]) else None)
  }

  lemma PositionBytes(pos: nat)
    ensures ToBytes(pos, TRAILER)[..POSITION_BYTES] == ToBytes(pos, POSITION_BYTES)
    ensures pos < LIMIT ==> ToBytes(pos, TRAILER)[6] == ToBytes(pos, TRAILER)[7] == 0
  {
    BytesSplit(pos, POSITION_BYTES, 2);
    PositionLimit();
    if pos < LIMIT { assert ToBytes(0, 2) == [0, 0]; }
  }

  /** Below the limit of the format position and attributes survive packing; above it the position does not. */
  lemma PackingRoundTrip(pos: nat, a: Attributes)
    ensures UnpackedPosition(Packed(pos, a)) == pos && UnpackedAttributes(Packed(pos, a)) == a <==> pos < LIMIT
  {
    var b := Packed(pos, a);
    PositionBytes(pos);
    assert b[..POSITION_BYTES] == ToBytes(pos, POSITION_BYTES);
    PositionLimit();
    BytesBounded(ToBytes(pos, POSITION_BYTES));
    if pos < LIMIT {
      BytesRoundTrip(pos, POSITION_BYTES);
      ByteBits();
      OrNothing(DictionaryByte(a), 8);
      OrNothing(FlagByte(a), 8);
    }
  }

  /** Above the limit the attributes can be lost as well: at this position every block reads as compressed. */
  lemma PackingOverrun(a: Attributes)
    ensures UnpackedAttributes(Packed(0x8000_0000_0000_0000, a)).zstd
  {
    var pos := 0x8000_0000_0000_0000;
    BytesSplit(pos, POSITION_BYTES, 2);
    assert High(pos, 3) == 0x80_0000_0000;
    assert High(0x80_0000_0000, 3) == 0x8000;
    HighTwice(pos, 3, 3);
    assert ToBytes(0x8000, 2) == [0, 128];
    var y := FlagByte(a);
    assert Or(128, y, 8) >= 128 by { OrKeeps(128, y, 8); }
  }

  lemma {:induction false} HighTwice(n: nat, j: nat, k: nat)
    ensures High(n, j + k) == High(High(n, j), k)
    decreases j
  {
    if j > 0 { HighTwice(n / 256, j - 1, k); }
  }

  lemma {:induction false} OrKeeps(x: nat, y: nat, k: nat)
    requires x < Bits(k)
    ensures x <= Or(x, y, k)
    decreases k
  {
    if k > 0 { OrKeeps(x / 2, y / 2, k - 1); }
  }

  // ---- The whole file ----

  datatype Block = Block(data: Bytes, attributes: Attributes)

  function Encoded(blocks: seq<Block>): Bytes
  {
    if blocks == [] then [] else
      var before := Encoded(blocks[..|blocks| - 1]);
      var last := blocks[|blocks| - 1];
      before + last.data + Packed(|before|, last.attributes)
  }

  /** Where the block with index `i` starts. */
  function Offset(blocks: seq<Block>, i: nat): nat
    requires i <= |blocks|
  {
    |Encoded(blocks[..i])|
  }

  lemma OffsetNext(blocks: seq<Block>, i: nat)
    requires i < |blocks|
    ensures Offset(blocks, i + 1) == Offset(blocks, i) + |blocks[i].data| + TRAILER
    ensures Encoded(blocks[..i + 1])
         == Encoded(blocks[..i]) + blocks[i].data + Packed(Offset(blocks, i), blocks[i].attributes)
  {
    assert blocks[..i + 1][..i] == blocks[..i];
  }

  /** A longer log starts with the shorter one. */
  lemma {:induction false} EncodedPrefix(blocks: seq<Block>, i: nat)
    requires i <= |blocks|
    ensures Offset(blocks, i) <= |Encoded(blocks)| && Encoded(blocks)[..Offset(blocks, i)] == Encoded(blocks[..i])
    decreases |blocks| - i
  {
    if i == |blocks| {
      assert blocks[..i] == blocks;
    } else {
      OffsetNext(blocks, i);
      EncodedPrefix(blocks, i + 1);
      var whole, next, here := Encoded(blocks), Encoded(blocks[..i + 1]), Encoded(blocks[..i]);
      assert whole[..|here|] == whole[..|next|][..|here|] == next[..|here|] == here;
    }
  }

  /** The bytes of one block, and its trailer, are found at its offset. */
  lemma BlockAt(blocks: seq<Block>, i: nat)
    requires i < |blocks|
    ensures var file, pos, size := Encoded(blocks), Offset(blocks, i), |blocks[i].data|;
      && pos + size + TRAILER == Offset(blocks, i + 1) <= |file|
      && file[pos..pos + size] == blocks[i].data
      && file[pos + size..pos + size + TRAILER] == Packed(pos, blocks[i].attributes)
  {
    OffsetNext(blocks, i);
    EncodedPrefix(blocks, i + 1);
    var file, pos, size := Encoded(blocks), Offset(blocks, i), |blocks[i].data|;
    var next := Encoded(blocks[..i + 1]);
    assert file[..|next|] == next;
    assert next[pos..pos + size] == blocks[i].data;
    assert next[pos + size..] == Packed(pos, blocks[i].attributes);
    assert file[pos..pos + size] == file[..|next|][pos..pos + size];
    assert file[pos + size..|next|] == file[..|next|][pos + size..];
  }

  lemma {:induction false} OffsetsAscend(blocks: seq<Block>, i: nat, j: nat)
    requires i <= j <= |blocks|
    ensures Offset(blocks, i) + TRAILER * (j - i) <= Offset(blocks, j)
    decreases j - i
  {
    if i < j {
      OffsetNext(blocks, j - 1);
      OffsetsAscend(blocks, i, j - 1);
    }
  }
}
