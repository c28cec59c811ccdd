/** A canonical encoding of the whole instruction set, which the decoder accepts and inverts. */
module Assembler {
  import opened Words
  import opened Devices
  import opened Instructions
  import opened Listing

  /** An operand is two typed words. */
  datatype Arg =
    | Value(src: Source)
    | Target(reg: nat)
    | Bits(dev: Device)
    | Group(dev: Device)
    | Raw(lo: Word, hi: Word)

  predicate GoodSource(src: Source) {
    match src
    case Register(i) => i < 0x8000
    case TimerCurrent(i) => i < NUM_T
    case Constant(_) => true
  }

  predicate GoodArg(arg: Arg) {
    match arg
    case Value(src) => GoodSource(src)
    case Target(reg) => reg < NUM_D
    case _ => true
  }

  /** The two words of type bytes t and u that carry a 16-bit value. */
  function Typed(t: Byte, u: Byte, v: Word): (Word, Word) { (FromBytes(Low(v), t), FromBytes(High(v), u)) }

  function SourceWords(src: Source): (Word, Word)
    requires GoodSource(src)
  {
    match src
    case Register(i) => Typed(0x86, 0x80, 2 * i)
    case TimerCurrent(i) => Typed(0x86, 0x82, 2 * i)
    case Constant(v) => Typed(0x80, 0x80, v)
  }

  function ArgWords(arg: Arg): (Word, Word)
    requires GoodArg(arg)
  {
    match arg
    case Value(src) => SourceWords(src)
    case Target(reg) => Typed(0x86, 0x86, 2 * reg)
    case Bits(dev) => (FromBytes(dev.num, 0x84), FromBytes(dev.kind, 0x80))
    case Group(dev) => (FromBytes(dev.num, 0xA4), FromBytes(dev.kind, 0x80))
    case Raw(lo, hi) => (lo, hi)
  }

  /** The operands stand at p, four bytes each. */
  predicate ArgsAt(code: Code, p: nat, args: seq<Arg>)
    requires forall i :: 0 <= i < |args| ==> GoodArg(args[i])
  {
    forall i: nat :: i < |args| ==>
      Fetch(code, p + 4 * i) == ArgWords(args[i]).0 && Fetch(code, p + 4 * i + 2) == ArgWords(args[i]).1
  }

  lemma TypedParts(t: Byte, u: Byte, v: Word)
    ensures var (lo, hi) := Typed(t, u, v);
            High(lo) == t && High(hi) == u && Instructions.Raw(lo, hi) == v
  {
    BytesOfWord(Low(v), t);
    BytesOfWord(High(v), u);
    WordOfBytes(v);
  }

  lemma ValueDecodes(code: Code, p: nat, src: Source)
    requires GoodSource(src) && Fetch(code, p) == SourceWords(src).0 && Fetch(code, p + 2) == SourceWords(src).1
    ensures WordOperand(code, p) == Some(src) && BitOperand(code, p) == None
  {
    hide Fetch, Typed, High, Instructions.Raw;
    match src
    case Register(i) => TypedParts(0x86, 0x80, 2 * i);
    case TimerCurrent(i) => TypedParts(0x86, 0x82, 2 * i);
    case Constant(v) => TypedParts(0x80, 0x80, v);
  }

  lemma TargetDecodes(code: Code, p: nat, reg: nat)
    requires reg < NUM_D && (Fetch(code, p), Fetch(code, p + 2)) == Typed(0x86, 0x86, 2 * reg)
    ensures RegisterOperand(code, p) == Some(reg) && PairOperand(code, p) == Some(reg)
  {
    hide Fetch, Typed, High, Instructions.Raw;
    TypedParts(0x86, 0x86, 2 * reg);
  }

  lemma BitsDecode(code: Code, p: nat, group: bool, dev: Device)
    requires Fetch(code, p) == FromBytes(dev.num, if group then 0xA4 else 0x84)
    requires Fetch(code, p + 2) == FromBytes(dev.kind, 0x80)
    ensures BitOperand(code, p) == Some(dev) && WordOperand(code, p) == None && IsGroup(Fetch(code, p)) == group
  {
    hide Fetch, High, Low, FromBytes, Bit;
    BytesOfWord(dev.num, if group then 0xA4 else 0x84);
    BytesOfWord(dev.kind, 0x80);
    TypeBits();
  }

  /** What each kind of operand decodes to. */
  lemma ArgDecodes(code: Code, p: nat, arg: Arg)
    requires GoodArg(arg) && Fetch(code, p) == ArgWords(arg).0 && Fetch(code, p + 2) == ArgWords(arg).1
    ensures arg.Value? ==> WordOperand(code, p) == Some(arg.src) && BitOperand(code, p) == None
    ensures arg.Target? ==> RegisterOperand(code, p) == Some(arg.reg) && PairOperand(code, p) == Some(arg.reg)
    ensures arg.Bits? ==> BitOperand(code, p) == Some(arg.dev) && WordOperand(code, p) == None
    ensures arg.Bits? ==> !IsGroup(Fetch(code, p))
    ensures arg.Group? ==> BitOperand(code, p) == Some(arg.dev) && IsGroup(Fetch(code, p))
  {
    hide Fetch, WordOperand, BitOperand, RegisterOperand, PairOperand, IsGroup, Typed, SourceWords, FromBytes;
    match arg
    case Value(src) => ValueDecodes(code, p, src);
    case Target(reg) => TargetDecodes(code, p, reg);
    case Bits(dev) => BitsDecode(code, p, false, dev);
    case Group(dev) => BitsDecode(code, p, true, dev);
    case Raw(_, _) =>
  }

  lemma TypeBits()
    ensures !Bit(0x84, 5) && Bit(0xA4, 5)
  {
    assert Bit(0x84, 5) == Bit(0x42, 4) == Bit(0x21, 3) == Bit(0x10, 2);
    assert Bit(0xA4, 5) == Bit(0x52, 4) == Bit(0x29, 3) == Bit(0x14, 2);
  }

  // -------------------------------------------------- applied instructions

  /** The operand byte of an applied instruction: 0x10 + 2 * FNC for the ordinary forms. */
  function OpCode(op: Op): Byte
    requires !op.Malformed?
  {
    match op
    case Dmov(_, _, _, _) => 0x29
    case DdivTime(_, _, _, _, _, _) => 0x3F
    case Cmp(_, _, _) => 0x24
    case Bmov(_, _, _) => 0x2E
    case Fmov(_, _, _) => 0x30
    case Arith(fn, _, _, _) =>
      (match fn
       case Add => 0x38
       case Sub => 0x3A
       case Mul => 0x3C
       case Div => 0x3E
       case Wand => 0x44
       case Wor => 0x46
       case Wxor => 0x48)
    case Adjust(fn, _) => (match fn case Inc => 0x40 case Dec => 0x42 case Neg => 0x4A)
    case Rotate(right, _, _) => if right then 0x4C else 0x4E
    case Sftr(_, _, _, _) => 0x54
    case Sfwr(_, _, _) => 0x5C
    case Sfrd(_, _, _) => 0x5E
    case EncoWord(_, _, _) => 0x64
    case EncoBits(_, _, _) => 0x64
    case Bon(_, _, _, _, _) => 0x68
    case Flt(_, _) => 0x72
  }

  function Named(group: bool, dev: Device): Arg { if group then Group(dev) else Bits(dev) }

  function OpArgs(op: Op): seq<Arg> {
    match op
    case Dmov(lo, hi, dst, pad) => [Value(lo), Value(hi), Target(dst), Value(pad)]
    case DdivTime(alo, ahi, blo, bhi, dst, pad) =>
      [Value(alo), Value(ahi), Value(blo), Value(bhi), Target(dst), Value(pad)]
    case Cmp(a, b, flags) => [Value(a), Value(b), Bits(flags)]
    case Bmov(from, dst, n) => [Target(from), Target(dst), Value(n)]
    case Fmov(a, dst, n) => [Value(a), Target(dst), Value(n)]
    case Arith(_, a, b, dst) => [Value(a), Value(b), Target(dst)]
    case Adjust(_, dst) => [Target(dst)]
    case Rotate(_, dst, n) => [Target(dst), Value(n)]
    case Sftr(bit, window, n, k) => [Bits(bit), Bits(window), Value(n), Value(k)]
    case Sfwr(a, table, n) => [Value(a), Target(table), Value(n)]
    case Sfrd(table, dst, n) => [Target(table), Target(dst), Value(n)]
    case EncoWord(a, dst, n) => [Value(a), Target(dst), Value(n)]
    case EncoBits(first, dst, n) => [Bits(first), Target(dst), Value(n)]
    case Bon(bit, bitGroup, target, targetGroup, n) => [Named(bitGroup, bit), Named(targetGroup, target), Value(n)]
    case Flt(a, dst) => [Value(a), Target(dst)]
    case Malformed => []
  }

  predicate GoodArgs(args: seq<Arg>) { forall i :: 0 <= i < |args| ==> GoodArg(args[i]) }

  /** The static conditions on the operands: a destination pair or quadruple stays within D0-D7999, and the
      three flags of CMP within their 256 numbers. */
  predicate GoodOp(op: Op) {
    && !op.Malformed? && GoodArgs(OpArgs(op))
    && (op.Dmov? || op.Flt? || (op.Arith? && (op.fn == Mul || op.fn == Div)) ==> op.dst + 1 < NUM_D)
    && (op.DdivTime? ==> op.dst + 3 < NUM_D)
    && (op.Cmp? ==> op.flags.num <= 253)
  }

  /** Every applied instruction decodes from its own encoding, and takes exactly its operands. */
  lemma AppliedDecodes(code: Code, p: nat, op: Op)
    requires GoodOp(op) && ArgsAt(code, p, OpArgs(op))
    ensures ParseApplied(code, OpCode(op), p) == Some(Parsed(op, p + 4 * |OpArgs(op)|))
  {
    hide WordOperand, BitOperand, RegisterOperand, PairOperand, IsGroup, Fetch, ArgWords;
    var args := OpArgs(op);
    ArgDecodes(code, p, args[0]);
    if |args| > 1 { ArgDecodes(code, p + 4, args[1]); }
    if |args| > 2 { ArgDecodes(code, p + 8, args[2]); }
    if |args| > 3 { ArgDecodes(code, p + 12, args[3]); }
    if |args| > 4 { ArgDecodes(code, p + 16, args[4]); }
    if |args| > 5 { ArgDecodes(code, p + 20, args[5]); }
  }

  // ---------------------------------------------- the whole instruction set

  function RelationCode(relation: Relation): Word {
    match relation
    case Eq => 0x0
    case Gt => 0x2
    case Lt => 0x4
    case Ne => 0x8
    case Le => 0xA
    case Ge => 0xC
  }

  function JoinCode(join: Join): Word {
    match join case Start => 0x01D0 case And => 0x01E0 case Or => 0x01F0
  }

  /** The instructions that occupy several words, with operands the tool can name. */
  predicate Long(instr: Instr) {
    match instr
    case OutTimer(_, preset) => GoodSource(preset)
    case OutCounter(_, preset) => GoodSource(preset)
    case Call(pointer) => pointer.Some? && pointer.value < 128
    case Applied(op) => GoodOp(op)
    case Zrst(_, _, _) => true
    case Sftl(_, _, length, shifts) => GoodSource(length) && GoodSource(shifts)
    case Absd(table, _, _, count) => table < NUM_D && GoodSource(count)
    case Deco(_, _, width) => GoodSource(width)
    case MovBits(_, _) => true
    case Mov(src, dst) => !src.TimerCurrent? && GoodSource(src) && dst.Some? && dst.value < NUM_D
    case Compare(_, _, a, b) => GoodSource(a) && GoodSource(b)
    case _ => false
  }

  function Head(instr: Instr): Word
    requires Long(instr)
  {
    match instr
    case OutTimer(t, _) => 0x0600 + t
    case OutCounter(c, _) => 0x0E00 + c
    case Call(_) => 0x0012
    case Applied(op) => OpCode(op)
    case Zrst(_, _, _) => 0x0060
    case Sftl(_, _, _, _) => 0x0056
    case Absd(_, _, _, _) => 0x008C
    case Deco(_, _, _) => 0x0062
    case MovBits(_, _) => 0x0028
    case Mov(_, _) => 0x0028
    case Compare(join, relation, _, _) => JoinCode(join) + RelationCode(relation)
  }

  function Args(instr: Instr): (args: seq<Arg>)
    requires Long(instr)
    ensures GoodArgs(args)
  {
    match instr
    case OutTimer(_, preset) => [Value(preset)]
    case OutCounter(_, preset) => [Value(preset)]
    case Call(pointer) => [Arg.Raw(FromBytes(2 * pointer.value, 0x88), 0x8000)]
    case Applied(op) => OpArgs(op)
    case Zrst(kind, lowest, highest) => [Bits(Dev(kind, lowest)), Bits(Dev(kind, highest))]
    case Sftl(bit, window, length, shifts) => [Bits(bit), Bits(window), Value(length), Value(shifts)]
    case Absd(table, counter, first, count) =>
      [Target(table), Arg.Raw(FromBytes(counter, 0x86), 0x8400), Bits(first), Value(count)]
    case Deco(counter, first, width) => [Arg.Raw(FromBytes(counter, 0x86), 0x8400), Bits(first), Value(width)]
    case MovBits(from, to) => [Bits(from), Bits(to)]
    case Mov(src, dst) => [Value(src), Target(dst.value)]
    case Compare(_, _, a, b) => [Value(a), Value(b)]
  }

  /** The words of an instruction: the head, then two per operand. */
  function LongWords(instr: Instr): (words: seq<Word>)
    requires Long(instr)
    ensures |words| == 1 + 2 * |Args(instr)|
  {
    var args := Args(instr);
    [Head(instr)] + seq(2 * |args|, k requires 0 <= k < 2 * |args| =>
      if k % 2 == 0 then ArgWords(args[k / 2]).0 else ArgWords(args[k / 2]).1)
  }

  predicate WordsAt(code: Code, off: nat, words: seq<Word>) {
    forall i: nat :: i < |words| ==> Fetch(code, off + 2 * i) == words[i]
  }

  lemma OperandsFollow(code: Code, off: nat, instr: Instr)
    requires Long(instr) && WordsAt(code, off, LongWords(instr))
    ensures Fetch(code, off) == Head(instr) && ArgsAt(code, off + 2, Args(instr))
  {
    hide Fetch, ArgWords, Args, Head, Long;
    var args, words := Args(instr), LongWords(instr);
    assert Fetch(code, off + 2 * 0) == words[0];
    forall i: nat | i < |args|
      ensures Fetch(code, off + 2 + 4 * i) == ArgWords(args[i]).0
      ensures Fetch(code, off + 2 + 4 * i + 2) == ArgWords(args[i]).1
    {
      assert words[1 + 2 * i] == ArgWords(args[i]).0 && words[2 + 2 * i] == ArgWords(args[i]).1;
      assert off + 2 + 4 * i == off + 2 * (1 + 2 * i) && off + 2 + 4 * i + 2 == off + 2 * (2 + 2 * i);
    }
  }

  /** Type bytes and payload of an operand, for the instructions that look at them directly. */
  lemma ArgParts(code: Code, p: nat, args: seq<Arg>, i: nat)
    requires GoodArgs(args) && ArgsAt(code, p, args) && i < |args|
    ensures var lo, hi := Fetch(code, p + 4 * i), Fetch(code, p + 4 * i + 2);
            var arg := args[i];
            && (arg.Raw? ==> lo == arg.lo && hi == arg.hi)
            && (arg.Bits? ==> High(lo) == 0x84 && High(hi) == 0x80 && Low(lo) == arg.dev.num && Low(hi) == arg.dev.kind)
            && (arg.Target? ==> High(lo) == 0x86 && High(hi) == 0x86 && Instructions.Raw(lo, hi) == 2 * arg.reg)
            && (arg.Value? && arg.src.Register? ==> High(lo) == 0x86 && Instructions.Raw(lo, hi) == 2 * arg.src.i)
            && (arg.Value? && arg.src.Constant? ==> High(lo) == 0x80 && Instructions.Raw(lo, hi) == arg.src.v)
  {
    hide Fetch;
    match args[i]
    case Value(src) =>
      if src.Register? {
        TypedParts(0x86, 0x80, 2 * src.i);
      } else if src.Constant? {
        TypedParts(0x80, 0x80, src.v);
      }
    case Target(reg) => TypedParts(0x86, 0x86, 2 * reg);
    case Bits(dev) =>
      BytesOfWord(dev.num, 0x84);
      BytesOfWord(dev.kind, 0x80);
    case _ =>
  }

  lemma DecodeOfMisc(code: Code, off: nat, operand: Byte)
    requires Fetch(code, off) == operand
    ensures Decode(code, off) == DecodeMisc(code, operand, off + 2)
  {
    hide Fetch, DecodeMisc, DecodePreset, DecodeCompare, DecodeDevice, DecodeStack;
  }

  lemma PresetDecodes(code: Code, off: nat, instr: Instr)
    requires Long(instr) && (instr.OutTimer? || instr.OutCounter?)
    requires Fetch(code, off) == Head(instr) && ArgsAt(code, off + 2, Args(instr))
    ensures Decode(code, off) == Decoded(instr, off + 6)
  {
    hide Fetch, WordOperand, BitOperand, DecodeMisc, DecodeCompare, DecodeDevice, DecodeStack;
    ArgDecodes(code, off + 2, Args(instr)[0]);
    hide ArgsAt, GoodArg;
  }

  lemma CompareHead(join: Join, relation: Relation)
    ensures var word := JoinCode(join) + RelationCode(relation);
            && InlineRelation(word) == Some(relation) && InlineJoin(word) == join && High(word) == 0x01
  {
  }

  lemma CompareDecodes(code: Code, off: nat, instr: Instr)
    requires Long(instr) && instr.Compare?
    requires Fetch(code, off) == Head(instr) && ArgsAt(code, off + 2, Args(instr))
    ensures Decode(code, off) == Decoded(instr, off + 10)
  {
    hide Fetch, WordOperand, BitOperand, DecodeMisc, DecodePreset, DecodeDevice, DecodeStack, InlineRelation,
         InlineJoin;
    CompareHead(instr.join, instr.relation);
    ArgDecodes(code, off + 2, Args(instr)[0]);
    ArgDecodes(code, off + 6, Args(instr)[1]);
    hide ArgsAt, GoodArg, JoinCode, RelationCode;
  }

  lemma BlockDecodes(code: Code, off: nat, instr: Instr)
    requires Long(instr) && (instr.Sftl? || instr.Absd? || instr.Deco? || instr.MovBits?)
    requires Fetch(code, off) == Head(instr) && ArgsAt(code, off + 2, Args(instr))
    ensures Decode(code, off) == Decoded(instr, off + 2 + 4 * |Args(instr)|)
  {
    hide Fetch, WordOperand, BitOperand, Decode, ParseApplied;
    DecodeOfMisc(code, off, Head(instr));
    NotApplied(code, Head(instr), off + 2);
    var args, p := Args(instr), off + 2;
    ArgDecodes(code, p, args[0]);
    ArgDecodes(code, p + 4, args[1]);
    ArgParts(code, p, args, 0);
    ArgParts(code, p, args, 1);
    if |args| > 2 { ArgDecodes(code, p + 8, args[2]); }
    if |args| > 3 { ArgDecodes(code, p + 12, args[3]); }
    BytesOfWord(if instr.Absd? || instr.Deco? then instr.counter else 0, 0x86);
    hide ArgsAt, GoodArg, DecodeCall, DecodePrefix, DecodeReset, DecodeZrst;
  }

  lemma CallDecodes(code: Code, off: nat, pointer: Byte)
    requires pointer < 128 && Fetch(code, off) == 0x0012
    requires Fetch(code, off + 2) == FromBytes(2 * pointer, 0x88) && Fetch(code, off + 4) == 0x8000
    ensures Decode(code, off) == Decoded(Call(Some(pointer)), off + 6)
  {
    hide Fetch, Decode, ParseApplied;
    DecodeOfMisc(code, off, 0x12);
    NotApplied(code, 0x12, off + 2);
    BytesOfWord(2 * pointer, 0x88);
  }

  lemma ZrstDecodes(code: Code, off: nat, kind: Byte, lowest: Byte, highest: Byte)
    requires Fetch(code, off) == 0x0060
    requires ArgsAt(code, off + 2, [Bits(Dev(kind, lowest)), Bits(Dev(kind, highest))])
    ensures Decode(code, off) == Decoded(Zrst(kind, lowest, highest), off + 10)
  {
    hide Fetch, Decode, ParseApplied;
    var args := [Bits(Dev(kind, lowest)), Bits(Dev(kind, highest))];
    DecodeOfMisc(code, off, 0x60);
    NotApplied(code, 0x60, off + 2);
    ArgParts(code, off + 2, args, 0);
    ArgParts(code, off + 2, args, 1);
    hide ArgsAt;
  }

  lemma MovDecodes(code: Code, off: nat, src: Source, dst: nat)
    requires Fetch(code, off) == 0x0028 && GoodSource(src) && !src.TimerCurrent? && dst < NUM_D
    requires ArgsAt(code, off + 2, [Value(src), Target(dst)])
    ensures Decode(code, off) == Decoded(Mov(src, Some(dst)), off + 10)
  {
    hide Fetch, Decode, ParseApplied, BitOperand, WordOperand, High, Low, FromBytes, Instructions.Raw;
    var args := [Value(src), Target(dst)];
    DecodeOfMisc(code, off, 0x28);
    NotApplied(code, 0x28, off + 2);
    ArgDecodes(code, off + 2, args[0]);
    ArgParts(code, off + 2, args, 0);
    ArgParts(code, off + 2, args, 1);
    hide ArgsAt, DecodeCall, DecodePrefix, DecodeReset, DecodeZrst, DecodeSftl, DecodeAbsd, DecodeDeco;
  }

  lemma NotApplied(code: Code, operand: Byte, p: nat)
    requires operand in {0x12, 0x60, 0x56, 0x8C, 0x62, 0x28}
    ensures ParseApplied(code, operand, p) == None
  {
  }

  lemma OpDecodes(code: Code, off: nat, op: Op)
    requires GoodOp(op) && Fetch(code, off) == OpCode(op) && ArgsAt(code, off + 2, OpArgs(op))
    ensures Decode(code, off) == Decoded(Applied(op), off + 2 + 4 * |OpArgs(op)|)
  {
    hide Fetch, Decode, ParseApplied, OpArgs, OpCode;
    DecodeOfMisc(code, off, OpCode(op));
    AppliedDecodes(code, off + 2, op);
  }

  /** The decoder inverts the encoder on every instruction of several words, and takes exactly those words. */
  lemma LongDecodes(code: Code, off: nat, instr: Instr)
    requires Long(instr) && WordsAt(code, off, LongWords(instr))
    ensures Decode(code, off) == Decoded(instr, off + 2 * |LongWords(instr)|)
  {
    OperandsFollow(code, off, instr);
    hide Decode, Fetch, WordsAt;
    match instr
    case OutTimer(_, _) => PresetDecodes(code, off, instr);
    case OutCounter(_, _) => PresetDecodes(code, off, instr);
    case Applied(op) => OpDecodes(code, off, op);
    case Compare(_, _, _, _) => CompareDecodes(code, off, instr);
    case Call(pointer) =>
      ArgParts(code, off + 2, Args(instr), 0);
      CallDecodes(code, off, pointer.value);
    case Zrst(kind, lowest, highest) => ZrstDecodes(code, off, kind, lowest, highest);
    case Mov(src, dst) => MovDecodes(code, off, src, dst.value);
    case _ => BlockDecodes(code, off, instr);
  }

  /** The instructions of one word without a device, and those followed by one plain word. */
  predicate Short(instr: Instr) {
    || instr.End? || instr.Sret? || instr.SetState? || instr.RstState? || instr.OutState?
    || instr.ResetTimer? || instr.ResetCounter? || instr.CounterEnable?
  }

  function ShortWords(instr: Instr): (words: seq<Word>)
    requires Short(instr)
    ensures 1 <= |words| <= 2
  {
    match instr
    case End => [0x000F]
    case Sret => [0x0014]
    case SetState(n) => [0x0006, FromBytes(n, 0x80)]
    case RstState(n) => [0x0007, FromBytes(n, 0x80)]
    case OutState(n) => [0x0005, FromBytes(n, 0x80)]
    case ResetTimer(t) => [0x000C, FromBytes(t, 0x86)]
    case ResetCounter(c) => [0x000C, FromBytes(c, 0x8E)]
    case CounterEnable(x) => [0x01CA, FromBytes(x, 0x84)]
  }

  lemma ShortDecodes(code: Code, off: nat, instr: Instr)
    requires Short(instr) && WordsAt(code, off, ShortWords(instr))
    ensures Decode(code, off) == Decoded(instr, off + 2 * |ShortWords(instr)|)
  {
    hide Fetch, Decode;
    var words := ShortWords(instr);
    assert Fetch(code, off + 2 * 0) == words[0];
    if |words| == 2 {
      assert Fetch(code, off + 2 * 1) == words[1];
    }
    if instr.CounterEnable? {
      EnableDecodes(code, off, instr.x);
    } else {
      DecodeOfMisc(code, off, words[0]);
      MiscWord(code, off + 2, instr);
    }
  }

  lemma EnableDecodes(code: Code, off: nat, x: Byte)
    requires Fetch(code, off) == 0x01CA && Fetch(code, off + 2) == FromBytes(x, 0x84)
    ensures Decode(code, off) == Decoded(CounterEnable(x), off + 4)
  {
    hide Fetch, FromBytes, DecodeMisc, DecodeCompare, DecodePreset, DecodeDevice, DecodeStack;
    BytesOfWord(x, 0x84);
  }

  lemma MiscWord(code: Code, p: nat, instr: Instr)
    requires Short(instr) && !instr.CounterEnable?
    requires |ShortWords(instr)| == 2 ==> Fetch(code, p) == ShortWords(instr)[1]
    ensures DecodeMisc(code, ShortWords(instr)[0], p) == Decoded(instr, p + 2 * |ShortWords(instr)| - 2)
  {
    hide Fetch, FromBytes, High, Low, DecodeCall, DecodePrefix, DecodeZrst, DecodeSftl, DecodeAbsd, DecodeDeco,
         DecodeMov;
    match instr
    case SetState(n) => BytesOfWord(n, 0x80);
    case RstState(n) => BytesOfWord(n, 0x80);
    case OutState(n) => BytesOfWord(n, 0x80);
    case ResetTimer(t) => BytesOfWord(t, 0x86);
    case ResetCounter(c) => BytesOfWord(c, 0x8E);
    case _ =>
  }

  /** A pulse coil is two words: the prefix, which the decoder accepts only in front of such a coil, and it. */
  lemma PulseDecodes(code: Code, off: nat, falling: bool, dev: Operand)
    requires dev.kind != 0
    requires WordsAt(code, off, [if falling then 0x0009 else 0x0008, DeviceWord(8, dev)])
    ensures Decode(code, off) == Decoded(PulsePrefix(falling), off + 2)
    ensures Decode(code, off + 2) == Decoded(Pulse(dev), off + 4)
  {
    hide Fetch, DecodeStack, DecodeCompare, DecodePreset, WordOperand;
    var words := [if falling then 0x0009 else 0x0008, DeviceWord(8, dev)];
    assert Fetch(code, off + 2 * 0) == words[0] && Fetch(code, off + 2 * 1) == words[1];
    DeviceWordParts(8, dev);
    hide DeviceWord;
    DecodeOfMisc(code, off, if falling then 0x09 else 0x08);
    assert Dev(dev.kind, dev.num) == dev;
    hide DecodeCall, DecodeReset, DecodeZrst, DecodeSftl, DecodeAbsd, DecodeDeco, DecodeMov;
  }

  /** The encodings captured from the programming tool. */
  lemma CapturedEncodings()
    ensures LongWords(Zrst(0x5, 0, 3)) == [0x0060, 0x8400, 0x8005, 0x8403, 0x8005]
    ensures LongWords(Sftl(Dev(0xD, 0xF3), Dev(0x0, 10), Constant(9), Constant(1))) ==
            [0x0056, 0x84F3, 0x800D, 0x840A, 0x8000, 0x8009, 0x8000, 0x8001, 0x8000]
    ensures ShortWords(ResetCounter(0)) == [0x000C, 0x8E00] && ShortWords(ResetTimer(198)) == [0x000C, 0x86C6]
  {
  }

  lemma CapturedTables()
    ensures LongWords(Absd(300, 0, Dev(0x5, 0), Constant(4))) ==
            [0x008C, 0x8658, 0x8602, 0x8600, 0x8400, 0x8400, 0x8005, 0x8004, 0x8000]
    ensures LongWords(Deco(0, Dev(0x0, 9), Constant(4))) == [0x0062, 0x8600, 0x8400, 0x8409, 0x8000, 0x8004, 0x8000]
  {
  }

  /** Two encodings that agree are of the same instruction. */
  lemma EncodingIsUnambiguous(a: Instr, b: Instr)
    requires Long(a) && Long(b) && LongWords(a) == LongWords(b)
    ensures a == b
  {
    LongIsShort(a);
    hide Decode, LongWords, Long, WordsAt;
    var code := Place(LongWords(a));
    LongDecodes(code, CODE_OFFSET, a);
    LongDecodes(code, CODE_OFFSET, b);
  }

  lemma LongIsShort(instr: Instr)
    requires Long(instr)
    ensures |LongWords(instr)| <= 13
  {
    hide ArgWords, GoodArgs, GoodOp, GoodSource;
  }

  lemma Place(words: seq<Word>) returns (code: Code)
    requires |words| <= 13
    ensures WordsAt(code, CODE_OFFSET, words)
  {
    code := Assemble(words);
    forall i: nat | i < |words|
      ensures Fetch(code, CODE_OFFSET + 2 * i) == words[i]
    {
      AssembleFetch(words, i);
    }
  }
}
