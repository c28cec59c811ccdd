/** Runs of bits packed eight to a byte, lowest first, as replies carry them. */
module BitPacking {
  import opened Words

  function Min(a: nat, b: nat): nat { if a < b then a else b }

  /** The bits of byte j among the first i bits. */
  function Chunk(bits: seq<bool>, i: nat, j: nat): (c: seq<bool>)
    requires i <= |bits|
    ensures |c| <= 8
  {
    if 8 * j < i then bits[8 * j..Min(8 * j + 8, i)] else []
  }

  /** m bytes holding the first i bits. */
  function PackedUpTo(bits: seq<bool>, i: nat, m: nat): (bytes: seq<Byte>)
    requires i <= |bits|
    ensures |bytes| == m
  {
    seq(m, j requires 0 <= j < m => PackChunk(Chunk(bits, i, j)))
  }

  function PackChunk(c: seq<bool>): Byte
    requires |c| <= 8
  {
    PackBound(c);
    Pow2Grows(|c|, 8);
    Pow2Values();
    Pack(c)
  }

  function PackBytes(bits: seq<bool>): (bytes: seq<Byte>)
    ensures |bytes| == (|bits| + 7) / 8
  {
    PackedUpTo(bits, |bits|, (|bits| + 7) / 8)
  }

  lemma ChunkBit(bits: seq<bool>, i: nat)
    ensures var c := Chunk(bits, |bits|, i / 8);
            (i % 8 < |c| <==> i < |bits|) && (i < |bits| ==> c[i % 8] == bits[i])
  {
    if i < |bits| {
      assert 8 * (i / 8) + i % 8 == i;
    }
  }

  /** Bit i % 8 of byte i / 8 is bit i; the padding bits are 0. */
  lemma PackedBits(bits: seq<bool>, i: nat)
    requires i < 8 * |PackBytes(bits)|
    ensures Bit(PackBytes(bits)[i / 8], i % 8) == (i < |bits| && bits[i])
  {
    hide Chunk, Pack, Bit;
    ChunkBit(bits, i);
    PackBit(Chunk(bits, |bits|, i / 8), i % 8);
  }

  /** Bits recovered from a packed run. */
  function Unpack(bytes: seq<Byte>, n: nat): (bits: seq<bool>)
    requires n <= 8 * |bytes|
    ensures |bits| == n
  {
    seq(n, i requires 0 <= i < n => Bit(bytes[i / 8], i % 8))
  }

  lemma UnpackPacked(bits: seq<bool>)
    ensures Unpack(PackBytes(bits), |bits|) == bits
  {
    forall i: nat | i < |bits|
      ensures Unpack(PackBytes(bits), |bits|)[i] == bits[i]
    {
      PackedBits(bits, i);
    }
  }

  lemma PackedNothing(bits: seq<bool>, m: nat)
    ensures PackedUpTo(bits, 0, m) == seq(m, _ => 0)
  {
  }

  /** Or-ing bit i into its byte extends the packed run by one bit. */
  lemma PackedNext(bits: seq<bool>, i: nat, m: nat)
    requires i < |bits| && i / 8 < m
    ensures var before := PackedUpTo(bits, i, m);
            PackedUpTo(bits, i + 1, m) ==
            (if bits[i] then before[i / 8 := PutBit8(before[i / 8], i % 8, true)] else before)
  {
    hide Chunk, Pack, Bit, WithBit;
    var before, after := PackedUpTo(bits, i, m), PackedUpTo(bits, i + 1, m);
    var k := i / 8;
    var c := Chunk(bits, i, k);
    ChunkNext(bits, i, k);
    PackAppend(c, bits[i]);
    PackBit(c, i % 8);
    WithBitValue(before[k], i % 8, true);
    forall j | 0 <= j < m && j != k
      ensures after[j] == before[j]
    {
      ChunkNext(bits, i, j);
    }
  }

  /** One more bit belongs to one byte. */
  lemma ChunkNext(bits: seq<bool>, i: nat, j: nat)
    requires i < |bits|
    ensures j == i / 8 ==> |Chunk(bits, i, j)| == i % 8 && Chunk(bits, i + 1, j) == Chunk(bits, i, j) + [bits[i]]
    ensures j != i / 8 ==> Chunk(bits, i + 1, j) == Chunk(bits, i, j)
  {
    if j == i / 8 {
      assert bits[8 * j..i + 1] == bits[8 * j..i] + [bits[i]];
    }
  }

  /** buffer[base + i / 8] |= 1 << (i % 8), when on. */
  method OrBit(buffer: array<Byte>, base: nat, i: nat, on: bool, ghost m: nat, ghost bits: seq<bool>)
    requires i < |bits| && i / 8 < m && base + m <= buffer.Length && on == bits[i]
    requires buffer[base..base + m] == PackedUpTo(bits, i, m)
    modifies buffer
    ensures buffer[base..base + m] == PackedUpTo(bits, i + 1, m)
    ensures buffer[..base] == old(buffer[..base]) && buffer[base + m..] == old(buffer[base + m..])
  {
    hide PackedUpTo;
    PackedNext(bits, i, m);
    ghost var before := buffer[base..base + m];
    if on {
      assert buffer[base + i / 8] == before[i / 8];
      buffer[base + i / 8] := PutBit8(buffer[base + i / 8], i % 8, true);
      assert buffer[base..base + m] == before[i / 8 := PutBit8(before[i / 8], i % 8, true)];
    }
  }
}
