/** Monitor Mode: a watch list is written, sampled, and the packed result read back. */
module FxMonitor {
  import opened Words
  import opened Devices
  import opened FxAddr
  import opened BitPacking

  const LIST_ADDR: Word := 0x1400
  const RESULT_ADDR: Word := 0x1790
  const LIST_BYTES: nat := 912
  const RESULT_BYTES: nat := 128

  type WatchList = l: seq<Byte> | |l| == LIST_BYTES witness Repeat(0, LIST_BYTES)

  function Le16(s: seq<Byte>, i: nat): Word
    requires i + 1 < |s|
  {
    FromBytes(s[i], s[i + 1])
  }

  function WordCount(list: WatchList): nat { list[0] }

  function BitCount(list: WatchList): nat { Le16(list, 2) }

  function SampleLength(list: WatchList): nat { 2 * WordCount(list) + (BitCount(list) + 7) / 8 }

  /** The marker is right and both buffers are large enough. */
  predicate Samplable(list: WatchList) {
    && list[1] == 0x81
    && 4 + 2 * WordCount(list) + 2 * BitCount(list) <= LIST_BYTES
    && SampleLength(list) <= RESULT_BYTES
  }

  function WordAddr(list: WatchList, i: nat): Word
    requires 5 + 2 * i < LIST_BYTES
  {
    Le16(list, 4 + 2 * i)
  }

  /** Two device bytes per watched word. */
  function WordSamples(p: Plant, list: WatchList, n: nat): (bytes: seq<Byte>)
    requires 4 + 2 * n <= LIST_BYTES
    ensures |bytes| == 2 * n
  {
    seq(2 * n, k requires 0 <= k < 2 * n => ByteAt(p, Wrap16(WordAddr(list, k / 2) + k % 2)))
  }

  /** The watched relays, in the force address space. */
  function BitSamples(p: Plant, list: WatchList): (bits: seq<bool>)
    requires Samplable(list)
    ensures |bits| == BitCount(list)
  {
    seq(BitCount(list), i requires 0 <= i < BitCount(list) => ForceRead(p.img, WordAddr(list, WordCount(list) + i)))
  }

  /** The readable result of sampling: word bytes, then packed bits; nothing for any other list. */
  function Sampled(p: Plant, list: WatchList): seq<Byte> {
    if Samplable(list) then WordSamples(p, list, WordCount(list)) + PackBytes(BitSamples(p, list)) else []
  }

  /** Sampling is exact: a list is sampled when its second byte is 0x81, its words and bits fit in the 912 bytes of the
      list, and their states in the 128 bytes of the result; then the length and the two bytes of every watched word. */
  lemma SampleExact(p: Plant, list: WatchList)
    ensures var words, bits := list[0] as nat, list[2] as nat + 256 * (list[3] as nat);
            && (Samplable(list) <==>
                  list[1] == 0x81 && 4 + 2 * words + 2 * bits <= 912 && 2 * words + (bits + 7) / 8 <= 128)
            && |Sampled(p, list)| == (if Samplable(list) then 2 * words + (bits + 7) / 8 else 0)
    ensures Samplable(list) ==> forall i: nat :: i < WordCount(list) ==>
              (Sampled(p, list)[2 * i] == ByteAt(p, WordAddr(list, i)) &&
               Sampled(p, list)[2 * i + 1] == ByteAt(p, Wrap16(WordAddr(list, i) + 1)))
  {
    forall i: nat | Samplable(list) && i < WordCount(list)
      ensures Sampled(p, list)[2 * i] == ByteAt(p, WordAddr(list, i))
      ensures Sampled(p, list)[2 * i + 1] == ByteAt(p, Wrap16(WordAddr(list, i) + 1))
    {
      SampledWord(p, list, i);
    }
  }

  /** Packed bit i is the force-space state of watched relay i; the padding bits are 0. */
  lemma SampledBit(p: Plant, list: WatchList, i: nat)
    requires Samplable(list) && i < 8 * ((BitCount(list) + 7) / 8)
    ensures Bit(Sampled(p, list)[2 * WordCount(list) + i / 8], i % 8) ==
            (i < BitCount(list) && ForceRead(p.img, WordAddr(list, WordCount(list) + i)))
  {
    hide ByteAt, ForceRead, PackBytes;
    var bits := BitSamples(p, list);
    PackedBits(bits, i);
    assert Sampled(p, list)[2 * WordCount(list) + i / 8] == PackBytes(bits)[i / 8];
  }

  lemma WordSample(p: Plant, list: WatchList, n: nat, i: nat)
    requires 4 + 2 * n <= LIST_BYTES && i < n
    ensures WordSamples(p, list, n)[2 * i] == ByteAt(p, WordAddr(list, i))
    ensures WordSamples(p, list, n)[2 * i + 1] == ByteAt(p, Wrap16(WordAddr(list, i) + 1))
  {
    hide ByteAt, Le16;
    assert (2 * i) / 2 == i && (2 * i + 1) / 2 == i;
    assert Wrap16(WordAddr(list, i) + 0) == WordAddr(list, i);
  }

  lemma SampledWord(p: Plant, list: WatchList, i: nat)
    requires Samplable(list) && i < WordCount(list)
    ensures Sampled(p, list)[2 * i] == ByteAt(p, WordAddr(list, i))
    ensures Sampled(p, list)[2 * i + 1] == ByteAt(p, Wrap16(WordAddr(list, i) + 1))
  {
    hide ByteAt, ForceRead, PackBytes, WordSamples, BitSamples, Le16, WordAddr;
    WordSample(p, list, WordCount(list), i);
  }

  class Monitor {
    const bus: Bus
    const list: array<Byte>
    const result: array<Byte>
    var resultLen: nat

    ghost predicate Valid()
      reads this
    {
      && bus.Valid() && list.Length == LIST_BYTES && result.Length == RESULT_BYTES && resultLen <= RESULT_BYTES
      && list != result && list !in bus.Repr() && result !in bus.Repr()
    }

    constructor (bus: Bus)
      requires bus.Valid()
      ensures Valid() && this.bus == bus && fresh(list) && fresh(result) && resultLen == 0
    {
      this.bus := bus;
      list, result, resultLen := new Byte[LIST_BYTES](_ => 0), new Byte[RESULT_BYTES](_ => 0), 0;
    }

    ghost function List(): WatchList
      requires Valid()
      reads this, list
    {
      list[..]
    }

    /** What can be read back. */
    ghost function Readable(): seq<Byte>
      requires Valid()
      reads this, result
    {
      result[..resultLen]
    }

    predicate OwnsWrite(addr: Word) { LIST_ADDR <= addr < RESULT_ADDR }

    predicate OwnsRead(addr: Word)
      reads this
    {
      addr >= RESULT_ADDR && addr - RESULT_ADDR < resultLen
    }

    method WriteList(addr: Word, v: Byte)
      requires Valid() && OwnsWrite(addr)
      modifies list
      ensures Valid() && List() == old(List())[addr - LIST_ADDR := v]
    {
      list[addr - LIST_ADDR] := v;
    }

    /** fx_monitor_sample. */
    method Sample()
      requires Valid()
      modifies this`resultLen, result
      ensures Valid() && Readable() == Sampled(bus.Now(), List())
    {
      hide ByteAt, ForceRead, Bus.Now, WordSamples, BitSamples, PackBytes;
      var w: nat := list[0];
      var b: nat := FromBytes(list[2], list[3]);
      if list[1] != 0x81 || 4 + 2 * w + 2 * b > LIST_BYTES || 2 * w + (b + 7) / 8 > RESULT_BYTES {
        resultLen := 0;
        return;
      }
      resultLen := 2 * w + (b + 7) / 8;
      ClearResult();
      SampleWords(w);
      SampleBits(w, b);
      assert result[..resultLen] == result[..2 * w] + result[2 * w..resultLen];
    }

    method ClearResult()
      requires Valid()
      modifies result
      ensures forall j :: 0 <= j < resultLen ==> result[j] == 0
    {
      for i := 0 to resultLen
        invariant forall j :: 0 <= j < i ==> result[j] == 0
      {
        result[i] := 0;
      }
    }

    method SampleWords(w: nat)
      requires Valid() && 4 + 2 * w <= LIST_BYTES && 2 * w <= resultLen
      modifies result
      ensures result[..2 * w] == WordSamples(bus.Now(), List(), w)
      ensures forall j :: 2 * w <= j < RESULT_BYTES ==> result[j] == old(result[j])
    {
      hide ByteAt, Bus.Now, WordSamples;
      ghost var p, l := bus.Now(), List();
      assert result[..0] == WordSamples(p, l, 0);
      for i := 0 to w
        invariant bus.Now() == p && List() == l
        invariant result[..2 * i] == WordSamples(p, l, i)
        invariant forall j :: 2 * w <= j < RESULT_BYTES ==> result[j] == old(result[j])
      {
        SampleWord(i);
      }
    }

    /** Adds the two bytes of watched word i. */
    method SampleWord(i: nat)
      requires Valid() && 6 + 2 * i <= LIST_BYTES && 2 * i + 2 <= resultLen
      requires result[..2 * i] == WordSamples(bus.Now(), List(), i)
      modifies result
      ensures result[..2 * i + 2] == WordSamples(bus.Now(), List(), i + 1)
      ensures forall j :: 2 * i + 2 <= j < RESULT_BYTES ==> result[j] == old(result[j])
    {
      hide ByteAt, Bus.Now, WordSamples;
      var addr: int := FromBytes(list[4 + 2 * i], list[5 + 2 * i]);
      var lo := bus.ReadByte(addr);
      var hi := bus.ReadByte(Wrap16(addr + 1));
      NextWord(bus.Now(), List(), i);
      result[2 * i], result[2 * i + 1] := lo, hi;
      assert result[..2 * i + 2] == result[..2 * i] + [lo, hi];
    }

    method SampleBits(w: nat, b: nat)
      requires Valid() && Samplable(List()) && w == WordCount(List()) && b == BitCount(List())
      requires resultLen == SampleLength(List()) && forall j :: 2 * w <= j < resultLen ==> result[j] == 0
      modifies result
      ensures result[..2 * w] == old(result[..2 * w])
      ensures result[2 * w..resultLen] == PackBytes(BitSamples(bus.Now(), List()))
    {
      hide ForceRead, PackedUpTo, Bus.Now, BitSamples;
      ghost var p, l := bus.Now(), List();
      ghost var bits := BitSamples(p, l);
      ghost var m := (b + 7) / 8;
      PackedNothing(bits, m);
      assert result[2 * w..2 * w + m] == seq(m, _ => 0);
      for i := 0 to b
        invariant bus.Now() == p && List() == l
        invariant result[2 * w..2 * w + m] == PackedUpTo(bits, i, m)
        invariant result[..2 * w] == old(result[..2 * w])
      {
        SampleBit(w, i, m, bits);
      }
    }

    /** Adds watched relay i to the bits packed behind the w words. */
    method SampleBit(w: nat, i: nat, ghost m: nat, ghost bits: seq<bool>)
      requires Valid() && Samplable(List()) && w == WordCount(List()) && i < BitCount(List()) == |bits|
      requires m == (|bits| + 7) / 8 && bits == BitSamples(bus.Now(), List())
      requires result[2 * w..2 * w + m] == PackedUpTo(bits, i, m)
      modifies result
      ensures result[..2 * w] == old(result[..2 * w])
      ensures result[2 * w..2 * w + m] == PackedUpTo(bits, i + 1, m)
    {
      hide ForceRead, PackedUpTo, Bus.Now;
      var addr := FromBytes(list[4 + 2 * w + 2 * i], list[5 + 2 * w + 2 * i]);
      assert addr == WordAddr(List(), w + i);
      var on := Watched(addr);
      OrBit(result, 2 * w, i, on, m, bits);
    }

    function Watched(addr: Word): (on: bool)
      requires Valid()
      reads this, bus.Repr()
      ensures on == ForceRead(bus.Now().img, addr)
    {
      bus.ForceState(addr)
    }
  }

  lemma NextWord(p: Plant, list: WatchList, i: nat)
    requires 6 + 2 * i <= LIST_BYTES
    ensures WordSamples(p, list, i + 1) ==
            WordSamples(p, list, i) + [ByteAt(p, WordAddr(list, i)), ByteAt(p, Wrap16(WordAddr(list, i) + 1))]
  {
    hide ByteAt, Le16;
    WordSample(p, list, i + 1, i);
    var before, after := WordSamples(p, list, i), WordSamples(p, list, i + 1);
    assert after[..2 * i] == before;
    hide WordSamples, WordAddr;
    assert after == after[..2 * i] + [after[2 * i], after[2 * i + 1]];
  }
}
