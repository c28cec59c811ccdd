/** What the applied instructions compute, in closed form. */
module Applied {
  import opened Words
  import opened Devices
  import opened Instructions

  function Eval(img: Image, src: Source): Word {
    match src
    case Register(i) => GetD(img, i)
    case TimerCurrent(i) => if i < NUM_T then img.t[i].current else 0
    case Constant(v) => v
  }

  function Eval32(img: Image, lo: Source, hi: Source): DWord { Eval(img, lo) + 0x1_0000 * Eval(img, hi) }

  /** A window moved k places toward higher numbers; the source enters first, then false. */
  function ShiftUp(w: seq<bool>, k: nat, source: bool): (r: seq<bool>)
    ensures |r| == |w|
  {
    seq(|w|, i requires 0 <= i < |w| => if i >= k then w[i - k] else i == k - 1 && source)
  }

  /** A window moved k places toward lower numbers. */
  function ShiftDown(w: seq<bool>, k: nat, source: bool): (r: seq<bool>)
    ensures |r| == |w|
  {
    seq(|w|, i requires 0 <= i < |w| => if i + k < |w| then w[i + k] else i + k == |w| && source)
  }

  function SftlEffect(img: Image, bit: Device, window: Device, n: nat, k: nat): Image {
    WriteRun(img, window.kind, window.num,
             ShiftUp(ReadRun(img, window.kind, window.num, n), k, ReadBit(img, bit.kind, bit.num)))
  }

  /** The source enters at the top of the window, so it is lost if that device does not exist. */
  function SftrEffect(img: Image, bit: Device, window: Device, n: nat, k: nat): Image
    requires n > 0
  {
    var source := ReadBit(img, bit.kind, bit.num) && Writable(window.kind, (window.num + n - 1) % 256);
    WriteRun(img, window.kind, window.num, ShiftDown(ReadRun(img, window.kind, window.num, n), k, source))
  }

  /** Registers from..from+n-1 copied to dst..dst+n-1, all read before any is written. */
  function MoveBlock(d: seq<Word>, from: nat, dst: nat, n: nat): (r: seq<Word>)
    requires from + n <= |d| && dst + n <= |d|
    ensures |r| == |d|
  {
    d[..dst] + d[from..from + n] + d[dst + n..]
  }

  function FillBlock(d: seq<Word>, dst: nat, n: nat, v: Word): (r: seq<Word>)
    requires dst + n <= |d|
    ensures |r| == |d|
  {
    d[..dst] + Repeat(v, n) + d[dst + n..]
  }

  /** Queue write: D(table) counts the entries, which follow it. M8022 reports a full queue. */
  function SfwrEffect(img: Image, a: Word, table: nat, n: Word): Image
    requires n >= 2
  {
    var pointer := GetD(img, table);
    var full := pointer >= n - 1;
    var flagged := SetM(img, 8022, full);
    if full then flagged
    else SetD(SetD(flagged, table, pointer + 1), (table + pointer + 1) % 0x1_0000, a)
  }

  /** Entries i..pointer-1 of a queue each take the value of the next one, lowest first. */
  function CloseUp(img: Image, table: nat, i: nat, pointer: nat): Image
    decreases pointer - i
  {
    if i >= pointer then img
    else CloseUp(SetD(img, (table + i) % 0x1_0000, GetD(img, (table + i + 1) % 0x1_0000)), table, i + 1, pointer)
  }

  /** Queue read: the oldest entry leaves to dst. M8020 reports an empty queue. */
  function SfrdEffect(img: Image, table: nat, dst: nat): Image {
    var pointer := GetD(img, table);
    var flagged := SetM(img, 8020, pointer == 0);
    if pointer == 0 then flagged
    else
      var taken := SetD(flagged, dst, GetD(flagged, (table + 1) % 0x1_0000));
      SetD(CloseUp(taken, table, 1, pointer), table, pointer - 1)
  }

  /** The position of the highest bit that is on, 0 when none is. */
  function HighestOn(bits: seq<bool>): (k: nat)
    ensures bits != [] ==> k < |bits|
    ensures (k < |bits| && bits[k]) || (k == 0 && forall i :: 0 <= i < |bits| ==> !bits[i])
    ensures forall i :: k < i < |bits| ==> !bits[i]
  {
    if bits == [] then 0
    else if bits[|bits| - 1] then |bits| - 1
    else HighestOn(bits[..|bits| - 1])
  }

  function BitsOf(v: Word, n: nat): (bits: seq<bool>)
    ensures |bits| == n
  {
    seq(n, i requires 0 <= i < n => Bit(v, i))
  }

  function ArithResult(fn: ArithFn, a: Word, b: Word): Word
    requires fn != Mul && fn != Div
  {
    match fn
    case Add => Wrap16(a + b)
    case Sub => Wrap16(a - b)
    case Wand => Bitwise(BitAnd, a, b)
    case Wor => Bitwise(BitOr, a, b)
    case Wxor => Bitwise(BitXor, a, b)
  }

  function ArithEffect(img: Image, fn: ArithFn, a: Word, b: Word, dst: nat): Image
    requires fn == Div ==> b != 0
  {
    if fn == Mul then SetD32(img, dst, (Signed16(a) * Signed16(b)) % 0x1_0000_0000)
    else if fn == Div then
      SetD(SetD(img, dst, Wrap16(TruncDiv(Signed16(a), Signed16(b)))), (dst + 1) % 0x1_0000,
           Wrap16(TruncMod(Signed16(a), Signed16(b))))
    else SetD(img, dst, ArithResult(fn, a, b))
  }

  function Adjusted(fn: AdjustFn, v: Word): Word {
    match fn
    case Inc => Wrap16(v + 1)
    case Dec => Wrap16(v - 1)
    case Neg => Wrap16(0x1_0000 - v)
  }

  function Rotated(right: bool, v: Word, n: nat): Word
    requires n < 16
  {
    if right then RotateRight(v, n) else RotateLeft(v, n)
  }

  /** The position of the leading bit. */
  function Log2(a: nat): (e: nat)
    requires a > 0
    ensures Pow2(e) <= a < 2 * Pow2(e)
  {
    if a == 1 then 0 else 1 + Log2(a / 2)
  }

  /** a << k. */
  function Shifted(a: nat, k: nat): nat {
    if k == 0 then a else 2 * Shifted(a, k - 1)
  }

  lemma {:induction false} ShiftedRange(a: nat, e: nat, k: nat)
    requires Pow2(e) <= a < 2 * Pow2(e)
    ensures Pow2(e + k) <= Shifted(a, k) < 2 * Pow2(e + k)
  {
    if k > 0 {
      ShiftedRange(a, e, k - 1);
    }
  }

  lemma LeadingBitBound(a: nat)
    requires 0 < a <= 0x8000
    ensures Log2(a) <= 15
  {
    hide Log2, Pow2;
    Pow2Values();
    if Log2(a) > 15 {
      Pow2Grows(16, Log2(a));
    }
  }

  lemma Pow2Of23()
    ensures Pow2(23) == 0x80_0000
  {
    Pow2Values();
    assert Pow2(19) == 8 * Pow2(16);
  }

  /** A 16-bit magnitude, shifted until its leading bit is bit 23, still fits: no rounding happens. */
  lemma Normalized(a: nat)
    requires 0 < a <= 0x8000
    ensures Log2(a) <= 15
    ensures 0x80_0000 <= Shifted(a, 23 - Log2(a)) < 0x100_0000
  {
    hide Log2, Pow2, Shifted;
    LeadingBitBound(a);
    ShiftedRange(a, Log2(a), 23 - Log2(a));
    Pow2Of23();
  }

  /** The IEEE 754 single with the value of a 16-bit integer: sign, biased exponent, fraction. */
  function FloatBits(v: int): DWord
    requires -0x8000 <= v < 0x8000
  {
    if v == 0 then 0
    else
      var a: nat := if v < 0 then -v else v;
      Normalized(a);
      (if v < 0 then 0x8000_0000 else 0) + (127 + Log2(a)) * 0x80_0000 + (Shifted(a, 23 - Log2(a)) - 0x80_0000)
  }
}
