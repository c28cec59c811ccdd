/** The applied instructions that loop over devices in place. */
module BlockMoves {
  import opened Words
  import opened Devices
  import opened Instructions
  import opened Applied
  import opened PlcMemory

  // --------------------------------------------------------- bit windows

  /** Writing `v` to cell i of a written window gives the window with `want` there, if they agree where it matters. */
  lemma CellWrite(img: Image, kind: Byte, num: Byte, w: seq<bool>, i: nat, v: bool, want: bool)
    requires num + |w| <= 256 && i < |w|
    requires Writable(kind, num + i) ==> v == want
    ensures Devices.WriteBit(WriteRun(img, kind, num, w), kind, num + i, v) == WriteRun(img, kind, num, w[i := want])
  {
    hide Devices.WriteBit, Writable, WriteRun;
    WriteRunUpdate(img, kind, num, w, i, want);
    if !Writable(kind, num + i) {
      UnwritableIgnored(WriteRun(img, kind, num, w), kind, num + i, v);
      UnwritableIgnored(WriteRun(img, kind, num, w), kind, num + i, want);
    }
  }

  /** Within a window the devices that exist are the lower ones; an S relay beyond S999 reads false. */
  lemma WindowEdge(img: Image, kind: Byte, low: Byte, high: Byte)
    requires low <= high
    ensures Writable(kind, high) ==> Writable(kind, low)
    ensures Writable(kind, low) && !Writable(kind, high) ==> !Devices.ReadBit(img, kind, high)
  {
  }

  /** During an upward pass: cells above i already hold their lower neighbour's old value. */
  function UpTo(w: seq<bool>, i: nat): (r: seq<bool>)
    ensures |r| == |w|
  {
    seq(|w|, j requires 0 <= j < |w| => if j > i then w[j - 1] else w[j])
  }

  /** During a downward pass: cells below i already hold their upper neighbour's old value. */
  function DownTo(w: seq<bool>, i: nat): (r: seq<bool>)
    ensures |r| == |w|
  {
    seq(|w|, j requires 0 <= j < |w| => if j < i && j + 1 < |w| then w[j + 1] else w[j])
  }

  lemma UpPass(w: seq<bool>, p: nat, source: bool)
    requires w != [] && p < |w|
    ensures UpTo(ShiftUp(w, p, source), 0)[0 := p == 0 && source] == ShiftUp(w, p + 1, source)
  {
  }

  lemma DownPass(w: seq<bool>, p: nat, source: bool)
    requires w != [] && p < |w|
    ensures DownTo(ShiftDown(w, p, source), |w| - 1)[|w| - 1 := p == 0 && source] == ShiftDown(w, p + 1, source)
  {
  }

  /** One move of an upward pass. */
  lemma MoveUp(img: Image, kind: Byte, num: Byte, w: seq<bool>, i: nat)
    requires num + |w| <= 256 && 0 < i < |w|
    ensures var now := WriteRun(img, kind, num, UpTo(w, i));
            Devices.WriteBit(now, kind, num + i, Devices.ReadBit(now, kind, num + i - 1)) ==
            WriteRun(img, kind, num, UpTo(w, i - 1))
  {
    hide Devices.ReadBit, Devices.WriteBit, Writable, WriteRun;
    var now := WriteRun(img, kind, num, UpTo(w, i));
    ReadOverWriteRun(img, kind, num, UpTo(w, i), kind, num + i - 1);
    WindowEdge(img, kind, num + i - 1, num + i);
    CellWrite(img, kind, num, UpTo(w, i), i, Devices.ReadBit(now, kind, num + i - 1), w[i - 1]);
    assert UpTo(w, i)[i := w[i - 1]] == UpTo(w, i - 1);
  }

  /** One move of a downward pass. */
  lemma MoveDown(img: Image, kind: Byte, num: Byte, w: seq<bool>, i: nat)
    requires num + |w| <= 256 && i + 1 < |w| && ShowsDevices(kind, num, w)
    ensures var now := WriteRun(img, kind, num, DownTo(w, i));
            Devices.WriteBit(now, kind, num + i, Devices.ReadBit(now, kind, num + i + 1)) ==
            WriteRun(img, kind, num, DownTo(w, i + 1))
  {
    hide Devices.ReadBit, Devices.WriteBit, Writable, WriteRun;
    var now := WriteRun(img, kind, num, DownTo(w, i));
    ReadOverWriteRun(img, kind, num, DownTo(w, i), kind, num + i + 1);
    WindowEdge(img, kind, num, num + i);
    WindowEdge(img, kind, num + i, num + i + 1);
    CellWrite(img, kind, num, DownTo(w, i), i, Devices.ReadBit(now, kind, num + i + 1), w[i + 1]);
    assert DownTo(w, i)[i := w[i + 1]] == DownTo(w, i + 1);
  }

  /** One pass of SFTL: every cell takes its lower neighbour's value, highest first. */
  method PassUp(mem: Memory, window: Device, n: nat, ghost img: Image, ghost w: seq<bool>)
    requires mem.Valid() && |w| == n > 0 && window.num + n <= 256
    requires mem.Img() == WriteRun(img, window.kind, window.num, w)
    modifies mem.Repr()
    ensures mem.Img() == WriteRun(img, window.kind, window.num, UpTo(w, 0))
  {
    hide Devices.ReadBit, Devices.WriteBit, Writable, WriteRun, Memory.Img;
    assert UpTo(w, n - 1) == w;
    var i := n - 1;
    while i > 0
      invariant i < n
      invariant mem.Img() == WriteRun(img, window.kind, window.num, UpTo(w, i))
    {
      var v := mem.ReadBit(window.kind, window.num + i - 1);
      MoveUp(img, window.kind, window.num, w, i);
      mem.WriteBit(window.kind, window.num + i, v);
      i := i - 1;
    }
  }

  method SftlInPlace(mem: Memory, bit: Device, window: Device, n: nat, k: nat)
    requires mem.Valid() && n > 0 && k <= n && window.num + n <= 256
    modifies mem.Repr()
    ensures mem.Img() == SftlEffect(old(mem.Img()), bit, window, n, k)
  {
    hide Devices.ReadBit, Devices.WriteBit, Writable, WriteRun, Memory.Img;
    ghost var img := mem.Img();
    ghost var w := ReadRun(img, window.kind, window.num, n);
    var source := mem.ReadBit(bit.kind, bit.num);
    WriteRunSame(img, window.kind, window.num, n);
    assert ShiftUp(w, 0, source) == w;
    for pass := 0 to k
      invariant mem.Img() == WriteRun(img, window.kind, window.num, ShiftUp(w, pass, source))
    {
      ghost var now := ShiftUp(w, pass, source);
      PassUp(mem, window, n, img, now);
      UpPass(w, pass, source);
      CellWrite(img, window.kind, window.num, UpTo(now, 0), 0, pass == 0 && source, pass == 0 && source);
      mem.WriteBit(window.kind, window.num, if pass == 0 then source else false);
    }
  }

  /** The window of SFTR holds nothing but false in cells that do not exist, if any of its cells exists. */
  predicate ShowsDevices(kind: Byte, num: Byte, w: seq<bool>)
    requires num + |w| <= 256
  {
    forall j :: 0 <= j < |w| && w[j] && Writable(kind, num) ==> Writable(kind, num + j)
  }

  method PassDown(mem: Memory, window: Device, n: nat, ghost img: Image, ghost w: seq<bool>)
    requires mem.Valid() && |w| == n > 0 && window.num + n <= 256 && ShowsDevices(window.kind, window.num, w)
    requires mem.Img() == WriteRun(img, window.kind, window.num, w)
    modifies mem.Repr()
    ensures mem.Img() == WriteRun(img, window.kind, window.num, DownTo(w, n - 1))
  {
    hide Devices.ReadBit, Devices.WriteBit, Writable, WriteRun, Memory.Img;
    assert DownTo(w, 0) == w;
    for i := 0 to n - 1
      invariant mem.Img() == WriteRun(img, window.kind, window.num, DownTo(w, i))
    {
      var v := mem.ReadBit(window.kind, window.num + i + 1);
      MoveDown(img, window.kind, window.num, w, i);
      mem.WriteBit(window.kind, window.num + i, v);
    }
  }

  lemma ShowsShifted(img: Image, kind: Byte, num: Byte, n: nat, p: nat, source: bool)
    requires n > 0 && num + n <= 256 && (source ==> Writable(kind, num + n - 1))
    ensures ShowsDevices(kind, num, ShiftDown(ReadRun(img, kind, num, n), p, source))
  {
    hide Devices.ReadBit, Writable;
    var w := ReadRun(img, kind, num, n);
    var r := ShiftDown(w, p, source);
    forall j | 0 <= j < n && r[j] && Writable(kind, num)
      ensures Writable(kind, num + j)
    {
      WindowEdge(img, kind, num + j, num + n - 1);
      if j + p < n {
        assert w[j + p];
        WindowEdge(img, kind, num, num + j + p);
        WindowEdge(img, kind, num + j, num + j + p);
      }
    }
  }

  method SftrInPlace(mem: Memory, bit: Device, window: Device, n: nat, k: nat)
    requires mem.Valid() && n > 0 && k <= n && window.num + n <= 256
    modifies mem.Repr()
    ensures mem.Img() == SftrEffect(old(mem.Img()), bit, window, n, k)
  {
    hide Devices.ReadBit, Devices.WriteBit, Writable, WriteRun, Memory.Img;
    ghost var img := mem.Img();
    ghost var w := ReadRun(img, window.kind, window.num, n);
    var source := mem.ReadBit(bit.kind, bit.num);
    ghost var entering := source && Writable(window.kind, window.num + n - 1);
    WriteRunSame(img, window.kind, window.num, n);
    assert ShiftDown(w, 0, entering) == w;
    for pass := 0 to k
      invariant mem.Img() == WriteRun(img, window.kind, window.num, ShiftDown(w, pass, entering))
    {
      ghost var now := ShiftDown(w, pass, entering);
      ShowsShifted(img, window.kind, window.num, n, pass, entering);
      PassDown(mem, window, n, img, now);
      DownPass(w, pass, entering);
      CellWrite(img, window.kind, window.num, DownTo(now, n - 1), n - 1, pass == 0 && source, pass == 0 && entering);
      mem.WriteBit(window.kind, window.num + n - 1, if pass == 0 then source else false);
    }
  }

  // --------------------------------------------------- runs of bit devices

  lemma RunExtends(img: Image, kind: Byte, num: Byte, bits: seq<bool>, i: nat)
    requires i < |bits|
    ensures WriteRun(img, kind, num, bits[..i + 1]) ==
            Devices.WriteBit(WriteRun(img, kind, num, bits[..i]), kind, (num + i) % 256, bits[i])
  {
    hide Devices.WriteBit;
    assert bits[..i + 1][..i] == bits[..i];
  }

  method ClearRun(mem: Memory, kind: Byte, lowest: Byte, highest: Byte)
    requires mem.Valid() && lowest <= highest
    modifies mem.Repr()
    ensures mem.Img() == WriteRun(old(mem.Img()), kind, lowest, Repeat(false, highest - lowest + 1))
  {
    hide Devices.WriteBit, WriteRun;
    ghost var img := mem.Img();
    ghost var bits := Repeat(false, highest - lowest + 1);
    EmptyRun(img, kind, lowest);
    var i: nat := lowest;
    while i <= highest
      invariant lowest <= i <= highest + 1
      invariant mem.Img() == WriteRun(img, kind, lowest, bits[..i - lowest])
    {
      RunExtends(img, kind, lowest, bits, i - lowest);
      mem.WriteBit(kind, i, false);
      i := i + 1;
    }
    assert bits[..highest + 1 - lowest] == bits;
  }

  lemma EmptyRun(img: Image, kind: Byte, num: Byte)
    ensures WriteRun(img, kind, num, []) == img
  {
  }

  /** MOV between bit arrays: 16 bits through a temporary, so that the two may overlap. */
  method CopyBits(mem: Memory, from: Device, to: Device)
    requires mem.Valid()
    modifies mem.Repr()
    ensures mem.Img() == WriteRun(old(mem.Img()), to.kind, to.num, ReadRun(old(mem.Img()), from.kind, from.num, 16))
  {
    hide Devices.ReadBit, Devices.WriteBit, WriteRun, ReadRun, Memory.Img;
    ghost var img := mem.Img();
    ghost var all := ReadRun(img, from.kind, from.num, 16);
    var bits := ReadBits(mem, from);
    EmptyRun(img, to.kind, to.num);
    for i := 0 to 16
      invariant bits[..] == all
      invariant mem.Img() == WriteRun(img, to.kind, to.num, all[..i])
    {
      RunExtends(img, to.kind, to.num, all, i);
      mem.WriteBit(to.kind, (to.num + i) % 256, bits[i]);
    }
    assert all[..16] == all;
  }

  method ReadBits(mem: Memory, from: Device) returns (bits: array<bool>)
    requires mem.Valid()
    ensures fresh(bits) && bits.Length == 16 && bits[..] == ReadRun(mem.Img(), from.kind, from.num, 16)
  {
    hide Devices.ReadBit;
    bits := new bool[16];
    for i := 0 to 16
      invariant forall j :: 0 <= j < i ==> bits[j] == ReadRun(mem.Img(), from.kind, from.num, 16)[j]
    {
      bits[i] := mem.ReadBit(from.kind, (from.num + i) % 256);
    }
  }

  // ------------------------------------------------------- register blocks

  /** d with cells dst+lo .. dst+hi-1 already copied from the block at `from`. */
  function Copied(d: seq<Word>, from: nat, dst: nat, n: nat, lo: nat, hi: nat): (r: seq<Word>)
    requires from + n <= |d| && dst + n <= |d| && hi <= n
    ensures |r| == |d|
  {
    seq(|d|, j requires 0 <= j < |d| => if dst + lo <= j < dst + hi then d[from + j - dst] else d[j])
  }

  method MoveBlockInPlace(mem: Memory, from: nat, dst: nat, n: nat)
    requires mem.Valid() && from + n <= NUM_D && dst + n <= NUM_D
    modifies mem.d, mem.dSpecial
    ensures mem.Img() == old(mem.Img()).(d := MoveBlock(old(mem.Img()).d, from, dst, n))
  {
    hide Copied, MoveBlock, Memory.Img;
    if dst > from && dst < from + n {
      MoveBackward(mem, from, dst, n);
    } else {
      MoveForward(mem, from, dst, n);
    }
    CopiedIsMove(old(mem.Img()).d, from, dst, n);
  }

  lemma CopiedIsMove(d: seq<Word>, from: nat, dst: nat, n: nat)
    requires from + n <= |d| && dst + n <= |d|
    ensures Copied(d, from, dst, n, 0, n) == MoveBlock(d, from, dst, n)
  {
    forall j | 0 <= j < |d|
      ensures Copied(d, from, dst, n, 0, n)[j] == MoveBlock(d, from, dst, n)[j]
    {
    }
  }

  method MoveBackward(mem: Memory, from: nat, dst: nat, n: nat)
    requires mem.Valid() && from + n <= NUM_D && dst + n <= NUM_D && from < dst
    modifies mem.d, mem.dSpecial
    ensures mem.Img() == old(mem.Img()).(d := Copied(old(mem.Img()).d, from, dst, n, 0, n))
  {
    ghost var img := mem.Img();
    assert Copied(img.d, from, dst, n, n, n) == img.d;
    var i := n;
    while i > 0
      invariant 0 <= i <= n
      invariant mem.Img() == img.(d := Copied(img.d, from, dst, n, i, n))
    {
      i := i - 1;
      var v := mem.GetD(from + i);
      mem.SetD(dst + i, v);
      assert mem.Img().d == Copied(img.d, from, dst, n, i, n);
    }
  }

  method MoveForward(mem: Memory, from: nat, dst: nat, n: nat)
    requires mem.Valid() && from + n <= NUM_D && dst + n <= NUM_D && !(from < dst < from + n)
    modifies mem.d, mem.dSpecial
    ensures mem.Img() == old(mem.Img()).(d := Copied(old(mem.Img()).d, from, dst, n, 0, n))
  {
    ghost var img := mem.Img();
    assert Copied(img.d, from, dst, n, 0, 0) == img.d;
    for i := 0 to n
      invariant mem.Img() == img.(d := Copied(img.d, from, dst, n, 0, i))
    {
      var v := mem.GetD(from + i);
      mem.SetD(dst + i, v);
      assert mem.Img().d == Copied(img.d, from, dst, n, 0, i + 1);
    }
  }

  method FillBlockInPlace(mem: Memory, dst: nat, n: nat, v: Word)
    requires mem.Valid() && dst + n <= NUM_D
    modifies mem.d, mem.dSpecial
    ensures mem.Img() == old(mem.Img()).(d := FillBlock(old(mem.Img()).d, dst, n, v))
  {
    ghost var img := mem.Img();
    assert FillBlock(img.d, dst, 0, v) == img.d;
    for i := 0 to n
      invariant mem.Img() == img.(d := FillBlock(img.d, dst, i, v))
    {
      mem.SetD(dst + i, v);
      assert mem.Img().d == FillBlock(img.d, dst, i + 1, v);
    }
  }

  /** The queue instructions. */
  method FifoWrite(mem: Memory, a: Word, table: nat, n: Word)
    requires mem.Valid() && n >= 2
    modifies mem.Repr()
    ensures mem.Img() == SfwrEffect(old(mem.Img()), a, table, n)
  {
    var pointer := mem.GetD(table);
    var full := pointer >= n - 1;
    mem.SetM(8022, full);
    if !full {
      pointer := pointer + 1;
      mem.SetD(table, pointer);
      mem.SetD((table + pointer) % 0x1_0000, a);
    }
  }

  method FifoRead(mem: Memory, table: nat, dst: nat)
    requires mem.Valid()
    modifies mem.Repr()
    ensures mem.Img() == SfrdEffect(old(mem.Img()), table, dst)
  {
    hide Devices.SetD, Devices.GetD;
    var pointer := mem.GetD(table);
    mem.SetM(8020, pointer == 0);
    if pointer > 0 {
      var first := mem.GetD((table + 1) % 0x1_0000);
      mem.SetD(dst, first);
      ghost var taken := mem.Img();
      var i := 1;
      while i < pointer
        invariant 1 <= i <= pointer
        invariant CloseUp(mem.Img(), table, i, pointer) == CloseUp(taken, table, 1, pointer)
      {
        var v := mem.GetD((table + i + 1) % 0x1_0000);
        mem.SetD((table + i) % 0x1_0000, v);
        i := i + 1;
      }
      mem.SetD(table, pointer - 1);
    }
  }

  /** ENCO: the position of the highest bit that is on. */
  method EncodeWord(a: Word, limit: nat) returns (encoded: nat)
    ensures encoded == HighestOn(BitsOf(a, limit))
  {
    ghost var bits := BitsOf(a, limit);
    encoded := 0;
    for i := 0 to limit
      invariant encoded == HighestOn(bits[..i])
    {
      assert bits[..i + 1][..i] == bits[..i];
      if Bit(a, i) {
        encoded := i;
      }
    }
    assert bits[..limit] == bits;
  }

  method EncodeBits(mem: Memory, first: Device, limit: nat) returns (encoded: nat)
    requires mem.Valid()
    ensures encoded == HighestOn(ReadRun(mem.Img(), first.kind, first.num, limit))
  {
    hide Devices.ReadBit;
    ghost var bits := ReadRun(mem.Img(), first.kind, first.num, limit);
    encoded := 0;
    for i := 0 to limit
      invariant encoded == HighestOn(bits[..i])
    {
      assert bits[..i + 1][..i] == bits[..i];
      var on := mem.ReadBit(first.kind, (first.num + i) % 256);
      if on {
        encoded := i;
      }
    }
    assert bits[..limit] == bits;
  }

  // ------------------------------------------- what the shifts mean per device

  /** SFTL by k: every surviving bit moves up by exactly k, the source as it was before lands at offset k-1,
      the other vacated bits are false, and nothing outside the window changes. */
  lemma SftlMoves(img: Image, bit: Device, window: Device, n: nat, k: nat, dev: Byte, m: Byte)
    requires k <= n && window.num + n <= 256
    ensures var after := SftlEffect(img, bit, window, n, k);
            && Devices.ReadBit(after, dev, m) ==
               (if dev == window.kind && window.num <= m < window.num + n && Writable(dev, m) then
                  if m - window.num >= k then Devices.ReadBit(img, dev, m - k)
                  else m - window.num == k - 1 && Devices.ReadBit(img, bit.kind, bit.num)
                else Devices.ReadBit(img, dev, m))
            && after.t == img.t && after.c == img.c && after.d == img.d && after.ds == img.ds
  {
    hide Devices.ReadBit, Writable, WriteRun;
    var w := ShiftUp(ReadRun(img, window.kind, window.num, n), k, Devices.ReadBit(img, bit.kind, bit.num));
    ReadOverWriteRun(img, window.kind, window.num, w, dev, m);
    WriteRunFrame(img, window.kind, window.num, w);
  }

  /** SFTR by k moves every surviving bit down by exactly k; the source lands at offset n-k. */
  lemma SftrMoves(img: Image, bit: Device, window: Device, n: nat, k: nat, dev: Byte, m: Byte)
    requires 0 < n && k <= n && window.num + n <= 256
    ensures var after := SftrEffect(img, bit, window, n, k);
            var top := window.num + n - 1;
            && Devices.ReadBit(after, dev, m) ==
               (if dev == window.kind && window.num <= m <= top && Writable(dev, m) then
                  if m + k <= top then Devices.ReadBit(img, dev, m + k)
                  else m + k == top + 1 && Devices.ReadBit(img, bit.kind, bit.num) && Writable(dev, top)
                else Devices.ReadBit(img, dev, m))
            && after.t == img.t && after.c == img.c && after.d == img.d && after.ds == img.ds
  {
    hide Devices.ReadBit, Writable, WriteRun;
    var source := Devices.ReadBit(img, bit.kind, bit.num) && Writable(window.kind, window.num + n - 1);
    var w := ShiftDown(ReadRun(img, window.kind, window.num, n), k, source);
    ReadOverWriteRun(img, window.kind, window.num, w, dev, m);
    WriteRunFrame(img, window.kind, window.num, w);
  }
}
