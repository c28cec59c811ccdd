/** The applied and block instructions executed on device memory. */
module AppliedOps {
  import opened Words
  import opened Devices
  import opened Instructions
  import opened Applied
  import opened Ladder
  import opened PlcMemory
  import opened BlockMoves

  /** read_word_operand, once its type is known to be well formed. */
  function Load(mem: Memory, src: Source): (v: Word)
    requires mem.Valid()
    reads mem.Repr()
    ensures v == Eval(mem.Img(), src)
  {
    match src
    case Register(i) => mem.GetD(i)
    case TimerCurrent(i) => if i < NUM_T then mem.t[i].current else 0
    case Constant(c) => c
  }

  function Load32(mem: Memory, lo: Source, hi: Source): (v: DWord)
    requires mem.Valid()
    reads mem.Repr()
    ensures v == Eval32(mem.Img(), lo, hi)
  {
    Load(mem, lo) + 0x1_0000 * Load(mem, hi)
  }

  /** The operations that write registers. */
  predicate WritesWords(op: Op) {
    op.Dmov? || op.DdivTime? || op.Bmov? || op.Fmov? || op.Arith? || op.Adjust? || op.Rotate? || op.Flt?
  }

  function AllowedWords(mem: Memory, op: Op): (ok: bool)
    requires mem.Valid() && WritesWords(op)
    reads mem.Repr()
    ensures ok == OpValid(mem.Img(), op)
  {
    hide Eval, Eval32, Memory.Img, Load, Load32;
    if op.Dmov? then Load(mem, op.pad) == 0
    else if op.DdivTime? then Load(mem, op.pad) == 0 && Load32(mem, op.blo, op.bhi) != 0
    else if op.Bmov? then op.from + Load(mem, op.n) <= NUM_D && op.dst + Load(mem, op.n) <= NUM_D
    else if op.Fmov? then op.dst + Load(mem, op.n) <= NUM_D
    else op.Arith? && op.fn == Div ==> Load(mem, op.b) != 0
  }

  function AllowedBits(mem: Memory, op: Op): (ok: bool)
    requires mem.Valid() && !WritesWords(op)
    reads mem.Repr()
    ensures ok == OpValid(mem.Img(), op)
  {
    hide Eval, Devices.GetD, Memory.Img, Load;
    match op
    case Cmp(_, _, _) => true
    case Sftr(_, window, n, k) =>
      Load(mem, n) > 0 && Load(mem, k) <= Load(mem, n) && window.num + Load(mem, n) <= 256
    case Sfwr(_, table, n) => Load(mem, n) >= 2 && table + Load(mem, n) <= NUM_D
    case Sfrd(table, _, n) => Load(mem, n) >= 2 && table + Load(mem, n) <= NUM_D
    case EncoWord(_, _, n) => 1 <= Load(mem, n) <= 4
    case EncoBits(first, _, n) => 1 <= Load(mem, n) <= 4 && first.num + Pow2(Load(mem, n)) <= 256
    case Bon(bit, bitGroup, target, targetGroup, n) =>
      && Load(mem, n) <= 15
      && bit.num + (if bitGroup then mem.GetD(28) + Load(mem, n) else 0) <= 255
      && target.num + (if targetGroup then mem.GetD(28) + Load(mem, n) else 0) <= 255
    case Malformed => false
  }

  /** The checks on operand values. */
  function Allowed(mem: Memory, op: Op): (ok: bool)
    requires mem.Valid()
    reads mem.Repr()
    ensures ok == OpValid(mem.Img(), op)
  {
    hide OpValid, Memory.Img;
    if WritesWords(op) then AllowedWords(mem, op) else AllowedBits(mem, op)
  }

  method Compare(mem: Memory, a: Word, b: Word, flags: Device)
    requires mem.Valid()
    modifies mem.Repr()
    ensures mem.Img() == CmpEffect(old(mem.Img()), a, b, flags)
  {
    hide Devices.WriteBit, Signed16, Memory.Img;
    var x, y := Signed16(a), Signed16(b);
    mem.WriteBit(flags.kind, flags.num, x > y);
    mem.WriteBit(flags.kind, (flags.num + 1) % 256, x == y);
    mem.WriteBit(flags.kind, (flags.num + 2) % 256, x < y);
  }

  method Calculate(mem: Memory, fn: ArithFn, a: Word, b: Word, dst: nat)
    requires mem.Valid() && (fn == Div ==> b != 0)
    modifies mem.Repr()
    ensures mem.Img() == ArithEffect(old(mem.Img()), fn, a, b, dst)
  {
    hide Signed16, TruncDiv, TruncMod, ArithResult, Devices.SetD;
    if fn == Mul {
      mem.SetD32(dst, (Signed16(a) * Signed16(b)) % 0x1_0000_0000);
    } else if fn == Div {
      Signed16NonZero(b);
      mem.SetD(dst, Wrap16(TruncDiv(Signed16(a), Signed16(b))));
      mem.SetD((dst + 1) % 0x1_0000, Wrap16(TruncMod(Signed16(a), Signed16(b))));
    } else {
      mem.SetD(dst, ArithResult(fn, a, b));
    }
  }

  lemma Signed16NonZero(b: Word)
    ensures b != 0 ==> Signed16(b) != 0
  {
  }

  method DivideTime(mem: Memory, a: DWord, b: DWord, dst: nat)
    requires mem.Valid() && b != 0
    modifies mem.Repr()
    ensures mem.Img() == DivTimeEffect(old(mem.Img()), a, b, dst)
  {
    hide Devices.SetD32;
    mem.SetD32(dst, a / b);
    mem.SetD32((dst + 2) % 0x1_0000, a % b);
  }

  method BitOn(mem: Memory, bit: Device, bitGroup: bool, target: Device, targetGroup: bool, n: Word)
    requires mem.Valid()
    modifies mem.Repr()
    ensures mem.Img() == BonEffect(old(mem.Img()), bit, bitGroup, target, targetGroup, n)
  {
    hide Devices.WriteBit, Devices.ReadBit, Devices.GetD;
    var index := mem.GetD(28);
    if targetGroup && !bitGroup {
      mem.WriteBit(target.kind, (target.num + index + n) % 256, mem.ReadBit(bit.kind, bit.num));
    } else {
      mem.WriteBit(target.kind, target.num,
                   mem.ReadBit(bit.kind, (bit.num + n + (if bitGroup then index else 0)) % 256));
    }
  }

  method ApplyWords(mem: Memory, op: Op)
    requires mem.Valid() && OpValid(mem.Img(), op) && WritesWords(op)
    modifies mem.Repr()
    ensures mem.Img() == OpEffect(old(mem.Img()), op)
  {
    hide Eval, Eval32, Devices.SetD32, Devices.SetD, Devices.GetD, ArithEffect, DivTimeEffect, FloatBits, Adjusted,
         Rotated, Load, Load32;
    hide Memory.Img;
    match op
    case Dmov(lo, hi, dst, _) => mem.SetD32(dst, Load32(mem, lo, hi));
    case DdivTime(alo, ahi, blo, bhi, dst, _) => DivideTime(mem, Load32(mem, alo, ahi), Load32(mem, blo, bhi), dst);
    case Bmov(from, dst, n) => MoveBlockInPlace(mem, from, dst, Load(mem, n));
    case Fmov(a, dst, n) => FillBlockInPlace(mem, dst, Load(mem, n), Load(mem, a));
    case Arith(fn, a, b, dst) => Calculate(mem, fn, Load(mem, a), Load(mem, b), dst);
    case Adjust(fn, dst) => mem.SetD(dst, Adjusted(fn, mem.GetD(dst)));
    case Rotate(right, dst, n) => mem.SetD(dst, Rotated(right, mem.GetD(dst), Load(mem, n) % 16));
    case Flt(a, dst) => mem.SetD32(dst, FloatBits(Signed16(Load(mem, a))));
  }

  method ApplyBits(mem: Memory, op: Op)
    requires mem.Valid() && OpValid(mem.Img(), op) && !WritesWords(op)
    modifies mem.Repr()
    ensures mem.Img() == OpEffect(old(mem.Img()), op)
  {
    hide Eval, Devices.SetD, Devices.GetD, CmpEffect, SftrEffect, SfwrEffect, SfrdEffect, HighestOn, BitsOf, ReadRun,
         BonEffect, Load;
    hide Memory.Img;
    match op
    case Cmp(a, b, flags) => Compare(mem, Load(mem, a), Load(mem, b), flags);
    case Sftr(bit, window, n, k) => SftrInPlace(mem, bit, window, Load(mem, n), Load(mem, k));
    case Sfwr(a, table, n) => FifoWrite(mem, Load(mem, a), table, Load(mem, n));
    case Sfrd(table, dst, _) => FifoRead(mem, table, dst);
    case EncoWord(a, dst, n) =>
      var encoded := EncodeWord(Load(mem, a), Pow2(Load(mem, n)));
      mem.SetD(dst, encoded % 0x1_0000);
    case EncoBits(first, dst, n) =>
      var encoded := EncodeBits(mem, first, Pow2(Load(mem, n)));
      mem.SetD(dst, encoded % 0x1_0000);
    case Bon(bit, bitGroup, target, targetGroup, n) => BitOn(mem, bit, bitGroup, target, targetGroup, Load(mem, n));
  }

  /** execute_applied, for a valid instruction on a powered rung. */
  method Apply(mem: Memory, op: Op)
    requires mem.Valid() && OpValid(mem.Img(), op)
    modifies mem.Repr()
    ensures mem.Img() == OpEffect(old(mem.Img()), op)
  {
    hide OpEffect, OpValid, Memory.Img;
    if WritesWords(op) {
      ApplyWords(mem, op);
    } else {
      ApplyBits(mem, op);
    }
  }

  /** ABSD: output i follows its pair of thresholds. */
  method DriveDrum(mem: Memory, table: nat, counter: Byte, first: Device, n: nat)
    requires mem.Valid() && n <= 64 && first.num + n <= 256
    modifies mem.Repr()
    ensures var img := old(mem.Img());
            mem.Img() == WriteRun(img, first.kind, first.num, DrumBits(img, table, img.c[counter].current, n))
  {
    hide Devices.WriteBit, WriteRun, Devices.GetD;
    ghost var img := mem.Img();
    var current := mem.c[counter].current;
    ghost var bits := DrumBits(img, table, current, n);
    EmptyRun(img, first.kind, first.num);
    for i := 0 to n
      invariant mem.Img() == WriteRun(img, first.kind, first.num, bits[..i])
    {
      RunKeepsRegisters(img, first.kind, first.num, bits[..i], (table + 2 * i) % 0x1_0000);
      RunKeepsRegisters(img, first.kind, first.num, bits[..i], (table + 2 * i + 1) % 0x1_0000);
      var onAt := mem.GetD((table + 2 * i) % 0x1_0000);
      var offAt := mem.GetD((table + 2 * i + 1) % 0x1_0000);
      RunExtends(img, first.kind, first.num, bits, i);
      mem.WriteBit(first.kind, (first.num + i) % 256, onAt <= current < offAt);
    }
    assert bits[..n] == bits;
  }

  lemma RunKeepsRegisters(img: Image, kind: Byte, num: Byte, bits: seq<bool>, i: nat)
    ensures Devices.GetD(WriteRun(img, kind, num, bits), i) == Devices.GetD(img, i)
  {
    hide WriteRun;
    WriteRunFrame(img, kind, num, bits);
  }

  /** DECO: one output of n is on, the one the counter selects. */
  method DriveOneHot(mem: Memory, counter: Byte, first: Device, n: nat)
    requires mem.Valid() && first.num + n <= 256
    modifies mem.Repr()
    ensures var img := old(mem.Img());
            mem.Img() == WriteRun(img, first.kind, first.num, OneHotBits(img.c[counter].current, n))
  {
    hide Devices.WriteBit, WriteRun;
    ghost var img := mem.Img();
    var selected := mem.c[counter].current;
    ghost var bits := OneHotBits(selected, n);
    EmptyRun(img, first.kind, first.num);
    for i := 0 to n
      invariant mem.Img() == WriteRun(img, first.kind, first.num, bits[..i])
    {
      RunExtends(img, first.kind, first.num, bits, i);
      mem.WriteBit(first.kind, (first.num + i) % 256, selected >= 0 && selected == i);
    }
    assert bits[..n] == bits;
  }
}
