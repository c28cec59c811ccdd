/** Program memory and the instruction words found there. Decoding reads program memory only. */
module Instructions {
  import opened Words
  import opened Devices

  const PROGRAM_BYTES: nat := 32000
  const CODE_OFFSET: nat := 0x5C
  const WORD_BLANK: Word := 0xFFFF

  type Code = c: seq<Byte> | |c| == PROGRAM_BYTES witness Repeat(0xFF, PROGRAM_BYTES)

  /** Reading beyond program memory yields erased bytes. */
  function ReadCode(code: Code, off: nat): Byte {
    if off < PROGRAM_BYTES then code[off] else 0xFF
  }

  function Fetch(code: Code, off: nat): Word {
    FromBytes(ReadCode(code, off), ReadCode(code, off + 1))
  }

  /** A bit device as an instruction names it: device nibble and 8-bit number. */
  datatype Device = Dev(kind: Byte, num: Byte)

  /** A word operand; whether it is well formed depends on its type bytes only. */
  datatype Source = Register(i: nat) | TimerCurrent(i: nat) | Constant(v: Word)

  datatype Relation = Eq | Gt | Lt | Ne | Le | Ge

  /** How a contact or comparison joins the running result. */
  datatype Join = Start | And | Or

  datatype ArithFn = Add | Sub | Mul | Div | Wand | Wor | Wxor

  datatype AdjustFn = Inc | Dec | Neg

  datatype Op =
    | Dmov(lo: Source, hi: Source, dst: nat, pad: Source)
    | DdivTime(alo: Source, ahi: Source, blo: Source, bhi: Source, dst: nat, pad: Source)
    | Cmp(a: Source, b: Source, flags: Device)
    | Bmov(from: nat, dst: nat, n: Source)
    | Fmov(a: Source, dst: nat, n: Source)
    | Arith(fn: ArithFn, a: Source, b: Source, dst: nat)
    | Adjust(adjust: AdjustFn, dst: nat)
    | Rotate(right: bool, dst: nat, n: Source)
    | Sftr(bit: Device, window: Device, n: Source, k: Source)
    | Sfwr(a: Source, table: nat, n: Source)
    | Sfrd(table: nat, dst: nat, n: Source)
    | EncoWord(a: Source, dst: nat, n: Source)
    | EncoBits(first: Device, dst: nat, n: Source)
    | Bon(bit: Device, bitGroup: bool, target: Device, targetGroup: bool, n: Source)
    | Flt(a: Source, dst: nat)
    | Malformed

  datatype Instr =
    | Blank
    | OutTimer(t: Byte, preset: Source)
    | OutCounter(c: Byte, preset: Source)
    | End
    | Call(pointer: Option<Byte>)
    | Sret
    | Applied(op: Op)
    | PulsePrefix(falling: bool)
    | ResetTimer(t: Byte)
    | ResetCounter(c: Byte)
    | SetState(n: Byte)
    | RstState(n: Byte)
    | OutState(n: Byte)
    | Zrst(kind: Byte, lowest: Byte, highest: Byte)
    | Sftl(bit: Device, window: Device, length: Source, shifts: Source)
    | Absd(table: nat, counter: Byte, first: Device, count: Source)
    | Deco(counter: Byte, first: Device, width: Source)
    | MovBits(from: Device, to: Device)
    | Mov(src: Source, dst: Option<nat>)
    | Mps
    | Mrd
    | Mpp
    | Anb
    | Orb
    | StlStep(n: Byte)
    | Ret
    | StrayConstant
    | Compare(join: Join, relation: Relation, a: Source, b: Source)
    | CounterEnable(x: Byte)
    | Contact(join: Join, negated: bool, dev: Device)
    | Out(dev: Device)
    | Set(dev: Device)
    | Rst(dev: Device)
    | Pulse(dev: Device)
    | Unknown(breaksRung: bool)

  // ------------------------------------------------------------ operands

  function Raw(lo: Word, hi: Word): Word { FromBytes(Low(lo), Low(hi)) }

  function WordOperand(code: Code, p: nat): Option<Source> {
    var lo, hi := Fetch(code, p), Fetch(code, p + 2);
    if High(lo) == 0x86 then
      if High(hi) == 0x82 && Raw(lo, hi) / 2 < NUM_T then Some(TimerCurrent(Raw(lo, hi) / 2))
      else Some(Register(Raw(lo, hi) / 2))
    else if High(lo) == 0x80 || High(lo) == 0x82 then Some(Constant(Raw(lo, hi)))
    else None
  }

  function RegisterOperand(code: Code, p: nat): (r: Option<nat>)
    ensures r.Some? ==> r.value < NUM_D
  {
    var lo, hi := Fetch(code, p), Fetch(code, p + 2);
    if High(lo) == 0x86 && (High(hi) == 0x86 || High(hi) == 0x80)
       && Raw(lo, hi) % 2 == 0 && Raw(lo, hi) / 2 < NUM_D
    then Some(Raw(lo, hi) / 2)
    else None
  }

  /** The destination of a 32-bit move: high type 0x88 selects the bank that starts at D1000. */
  function PairOperand(code: Code, p: nat): (r: Option<nat>)
    ensures r.Some? ==> r.value < NUM_D
  {
    var lo, hi := Fetch(code, p), Fetch(code, p + 2);
    if High(lo) == 0x86 && High(hi) == 0x88 then
      if Raw(lo, hi) % 2 == 0 && 1000 + Raw(lo, hi) / 2 < NUM_D then Some(1000 + Raw(lo, hi) / 2) else None
    else RegisterOperand(code, p)
  }

  function BitOperand(code: Code, p: nat): Option<Device> {
    var lo, hi := Fetch(code, p), Fetch(code, p + 2);
    if (High(lo) == 0x84 || High(lo) == 0xA4) && (High(hi) == 0x80 || High(hi) == 0x88)
    then Some(Dev(Low(hi), Low(lo)))
    else None
  }

  // -------------------------------------------------- applied instructions

  /** An operation and where the next word is fetched. A malformed operand stops the fetching early. */
  datatype Parsed = Parsed(op: Op, next: nat)

  function ParseCmp(code: Code, p: nat): Parsed {
    var a, b, f := WordOperand(code, p), WordOperand(code, p + 4), BitOperand(code, p + 8);
    if a.None? then Parsed(Malformed, p + 4)
    else if b.None? then Parsed(Malformed, p + 8)
    else if f.None? || f.value.num > 253 then Parsed(Malformed, p + 12)
    else Parsed(Cmp(a.value, b.value, f.value), p + 12)
  }

  function ParseDmov(code: Code, p: nat): Parsed {
    var lo, hi, dst, pad := WordOperand(code, p), WordOperand(code, p + 4), PairOperand(code, p + 8),
        WordOperand(code, p + 12);
    if lo.Some? && hi.Some? && dst.Some? && pad.Some? && dst.value + 1 < NUM_D
    then Parsed(Dmov(lo.value, hi.value, dst.value, pad.value), p + 16)
    else Parsed(Malformed, p + 16)
  }

  function ParseDdivTime(code: Code, p: nat): Parsed {
    var alo, ahi, blo, bhi := WordOperand(code, p), WordOperand(code, p + 4), WordOperand(code, p + 8),
        WordOperand(code, p + 12);
    var dst, pad := RegisterOperand(code, p + 16), WordOperand(code, p + 20);
    if alo.Some? && ahi.Some? && blo.Some? && bhi.Some? && dst.Some? && pad.Some? && dst.value + 3 < NUM_D
    then Parsed(DdivTime(alo.value, ahi.value, blo.value, bhi.value, dst.value, pad.value), p + 24)
    else Parsed(Malformed, p + 24)
  }

  function ParseBmov(code: Code, p: nat): Parsed {
    var a, dst, n := RegisterOperand(code, p), RegisterOperand(code, p + 4), WordOperand(code, p + 8);
    if a.None? then Parsed(Malformed, p + 4)
    else if dst.None? then Parsed(Malformed, p + 8)
    else if n.None? then Parsed(Malformed, p + 12)
    else Parsed(Bmov(a.value, dst.value, n.value), p + 12)
  }

  /** FMOV and SFWR: value, register, count. */
  function ParseFill(code: Code, p: nat, fifo: bool): Parsed {
    var a, dst, n := WordOperand(code, p), RegisterOperand(code, p + 4), WordOperand(code, p + 8);
    if a.None? then Parsed(Malformed, p + 4)
    else if dst.None? then Parsed(Malformed, p + 8)
    else if n.None? then Parsed(Malformed, p + 12)
    else Parsed(if fifo then Sfwr(a.value, dst.value, n.value) else Fmov(a.value, dst.value, n.value), p + 12)
  }

  function ParseArith(code: Code, p: nat, fn: ArithFn): Parsed {
    var a, b, dst := WordOperand(code, p), WordOperand(code, p + 4), RegisterOperand(code, p + 8);
    if a.None? then Parsed(Malformed, p + 4)
    else if b.None? then Parsed(Malformed, p + 8)
    else if dst.None? || ((fn == Mul || fn == Div) && dst.value + 1 >= NUM_D) then Parsed(Malformed, p + 12)
    else Parsed(Arith(fn, a.value, b.value, dst.value), p + 12)
  }

  function ParseAdjust(code: Code, p: nat, fn: AdjustFn): Parsed {
    var dst := RegisterOperand(code, p);
    if dst.None? then Parsed(Malformed, p + 4) else Parsed(Adjust(fn, dst.value), p + 4)
  }

  function ParseRotate(code: Code, p: nat, right: bool): Parsed {
    var dst, n := RegisterOperand(code, p), WordOperand(code, p + 4);
    if dst.None? then Parsed(Malformed, p + 4)
    else if n.None? then Parsed(Malformed, p + 8)
    else Parsed(Rotate(right, dst.value, n.value), p + 8)
  }

  function ParseSftr(code: Code, p: nat): Parsed {
    var s, d, n, k := BitOperand(code, p), BitOperand(code, p + 4), WordOperand(code, p + 8), WordOperand(code, p + 12);
    if s.None? then Parsed(Malformed, p + 4)
    else if d.None? then Parsed(Malformed, p + 8)
    else if n.None? then Parsed(Malformed, p + 12)
    else if k.None? then Parsed(Malformed, p + 16)
    else Parsed(Sftr(s.value, d.value, n.value, k.value), p + 16)
  }

  function ParseSfrd(code: Code, p: nat): Parsed {
    var a, dst, n := RegisterOperand(code, p), RegisterOperand(code, p + 4), WordOperand(code, p + 8);
    if a.None? then Parsed(Malformed, p + 4)
    else if dst.None? then Parsed(Malformed, p + 8)
    else if n.None? then Parsed(Malformed, p + 12)
    else Parsed(Sfrd(a.value, dst.value, n.value), p + 12)
  }

  function ParseEnco(code: Code, p: nat): Parsed {
    var w, s, dst, n := WordOperand(code, p), BitOperand(code, p), RegisterOperand(code, p + 4),
        WordOperand(code, p + 8);
    if w.None? && s.None? then Parsed(Malformed, p + 4)
    else if dst.None? then Parsed(Malformed, p + 8)
    else if n.None? then Parsed(Malformed, p + 12)
    else if w.Some? then Parsed(EncoWord(w.value, dst.value, n.value), p + 12)
    else Parsed(EncoBits(s.value, dst.value, n.value), p + 12)
  }

  /** Bit 5 of the low operand type marks an array operand. */
  predicate IsGroup(lo: Word) { Bit(High(lo), 5) }

  function ParseBon(code: Code, p: nat): Parsed {
    var s, d, n := BitOperand(code, p), BitOperand(code, p + 4), WordOperand(code, p + 8);
    if s.None? || d.None? then Parsed(Malformed, p + 8)
    else if n.None? then Parsed(Malformed, p + 12)
    else Parsed(Bon(s.value, IsGroup(Fetch(code, p)), d.value, IsGroup(Fetch(code, p + 4)), n.value), p + 12)
  }

  function ParseFlt(code: Code, p: nat): Parsed {
    var a, dst := WordOperand(code, p), RegisterOperand(code, p + 4);
    if a.None? then Parsed(Malformed, p + 4)
    else if dst.None? || dst.value + 1 >= NUM_D then Parsed(Malformed, p + 8)
    else Parsed(Flt(a.value, dst.value), p + 8)
  }

  /** The instructions executed by execute_applied; None for any other operand. */
  function ParseApplied(code: Code, operand: Byte, p: nat): Option<Parsed> {
    match operand
    case 0x29 => Some(ParseDmov(code, p))
    case 0x3F => Some(ParseDdivTime(code, p))
    case 0x24 => Some(ParseCmp(code, p))
    case 0x2E => Some(ParseBmov(code, p))
    case 0x30 => Some(ParseFill(code, p, false))
    case 0x38 => Some(ParseArith(code, p, Add))
    case 0x3A => Some(ParseArith(code, p, Sub))
    case 0x3C => Some(ParseArith(code, p, Mul))
    case 0x3E => Some(ParseArith(code, p, Div))
    case 0x44 => Some(ParseArith(code, p, Wand))
    case 0x46 => Some(ParseArith(code, p, Wor))
    case 0x48 => Some(ParseArith(code, p, Wxor))
    case 0x40 => Some(ParseAdjust(code, p, Inc))
    case 0x42 => Some(ParseAdjust(code, p, Dec))
    case 0x4A => Some(ParseAdjust(code, p, Neg))
    case 0x4C => Some(ParseRotate(code, p, true))
    case 0x4E => Some(ParseRotate(code, p, false))
    case 0x54 => Some(ParseSftr(code, p))
    case 0x5C => Some(ParseFill(code, p, true))
    case 0x5E => Some(ParseSfrd(code, p))
    case 0x64 => Some(ParseEnco(code, p))
    case 0x68 => Some(ParseBon(code, p))
    case 0x72 => Some(ParseFlt(code, p))
    case _ => None
  }

  // ------------------------------------------------------------ decoding

  datatype Decoded = Decoded(instr: Instr, next: nat)

  function DecodeMov(code: Code, p: nat): Instr {
    var s, d := BitOperand(code, p), BitOperand(code, p + 4);
    var slo, shi, dlo, dhi := Fetch(code, p), Fetch(code, p + 2), Fetch(code, p + 4), Fetch(code, p + 6);
    if s.Some? && d.Some? then MovBits(s.value, d.value)
    else
      Mov(if High(slo) == 0x86 then Register(Raw(slo, shi) / 2) else Constant(Raw(slo, shi)),
          if High(dlo) == 0x86 then Some(Raw(dlo, dhi) / 2) else None)
  }

  function DecodeZrst(code: Code, p: nat): Instr {
    var alo, ahi, blo, bhi := Fetch(code, p), Fetch(code, p + 2), Fetch(code, p + 4), Fetch(code, p + 6);
    if High(alo) == 0x84 && High(blo) == 0x84 && High(ahi) == 0x80 && High(bhi) == 0x80 && Low(ahi) == Low(bhi)
    then Zrst(Low(ahi), Low(alo), Low(blo))
    else Unknown(false)
  }

  function DecodeSftl(code: Code, p: nat): Instr {
    var s, d, n, k := BitOperand(code, p), BitOperand(code, p + 4), WordOperand(code, p + 8), WordOperand(code, p + 12);
    if s.Some? && d.Some? && n.Some? && k.Some? then Sftl(s.value, d.value, n.value, k.value) else Unknown(false)
  }

  function DecodeAbsd(code: Code, p: nat): Instr {
    var tlo, thi, clo, chi := Fetch(code, p), Fetch(code, p + 2), Fetch(code, p + 4), Fetch(code, p + 6);
    var d, n := BitOperand(code, p + 8), WordOperand(code, p + 12);
    if High(tlo) == 0x86 && High(thi) == 0x86 && High(clo) == 0x86 && High(chi) == 0x84 && Low(chi) == 0
       && d.Some? && n.Some?
    then Absd(Raw(tlo, thi) / 2, Low(clo), d.value, n.value)
    else Unknown(false)
  }

  function DecodeDeco(code: Code, p: nat): Instr {
    var slo, shi := Fetch(code, p), Fetch(code, p + 2);
    var d, n := BitOperand(code, p + 4), WordOperand(code, p + 8);
    if High(slo) == 0x86 && High(shi) == 0x84 && Low(shi) == 0 && d.Some? && n.Some?
    then Deco(Low(slo), d.value, n.value)
    else Unknown(false)
  }

  function DecodeCall(code: Code, p: nat): Instr {
    var lo, hi := Fetch(code, p), Fetch(code, p + 2);
    Call(if High(lo) == 0x88 && High(hi) == 0x80 && Low(lo) % 2 == 0 then Some(Low(lo) / 2) else None)
  }

  function DecodeReset(code: Code, p: nat): Instr {
    var target := Fetch(code, p);
    if High(target) == 0x8E then ResetCounter(Low(target))
    else if High(target) == 0x86 then ResetTimer(Low(target))
    else Unknown(false)
  }

  /** A pulse prefix stands only in front of a pulse coil word. */
  function DecodePrefix(code: Code, p: nat, falling: bool): Instr {
    var next := High(Fetch(code, p));
    if next / 16 != 8 || next == 0x80 then Unknown(false) else PulsePrefix(falling)
  }

  /** Opcode 0x00: the operand selects the instruction. */
  function DecodeMisc(code: Code, operand: Byte, p: nat): Decoded {
    var applied := ParseApplied(code, operand, p);
    if applied.Some? then Decoded(Applied(applied.value.op), applied.value.next)
    else
      match operand
      case 0x0F => Decoded(End, p)
      case 0x1C => Decoded(End, p)
      case 0x12 => Decoded(DecodeCall(code, p), p + 4)
      case 0x14 => Decoded(Sret, p)
      case 0x08 => Decoded(DecodePrefix(code, p, false), p)
      case 0x09 => Decoded(DecodePrefix(code, p, true), p)
      case 0x0C => Decoded(DecodeReset(code, p), p + 2)
      case 0x06 => Decoded(SetState(Low(Fetch(code, p))), p + 2)
      case 0x07 => Decoded(RstState(Low(Fetch(code, p))), p + 2)
      case 0x05 => Decoded(OutState(Low(Fetch(code, p))), p + 2)
      case 0x60 => Decoded(DecodeZrst(code, p), p + 8)
      case 0x56 => Decoded(DecodeSftl(code, p), p + 16)
      case 0x8C => Decoded(DecodeAbsd(code, p), p + 16)
      case 0x62 => Decoded(DecodeDeco(code, p), p + 12)
      case 0x28 => Decoded(DecodeMov(code, p), p + 8)
      case _ => Decoded(Unknown(false), p)
  }

  function DecodeStack(operand: Byte): Instr {
    match operand
    case 0xFA => Mps
    case 0xFB => Mrd
    case 0xFC => Mpp
    case 0xF8 => Anb
    case 0xF9 => Orb
    case _ => Unknown(false)
  }

  function RelationOf(code: Byte): Option<Relation> {
    match code
    case 0x0 => Some(Eq)
    case 0x2 => Some(Gt)
    case 0x4 => Some(Lt)
    case 0x8 => Some(Ne)
    case 0xA => Some(Le)
    case 0xC => Some(Ge)
    case _ => None
  }

  /** Words 0x01D0-0x01FF: bit 0 is ignored, the rest of the low nibble is the relation. */
  function InlineRelation(word: Word): Option<Relation> {
    if 0x01D0 <= word <= 0x01FF then RelationOf(word % 16 - word % 2) else None
  }

  function InlineJoin(word: Word): Join {
    if word / 16 == 0x01E then And else if word / 16 == 0x01F then Or else Start
  }

  function DecodeCompare(code: Code, word: Word, relation: Relation, p: nat): Instr {
    var a, b := WordOperand(code, p), WordOperand(code, p + 4);
    if a.Some? && b.Some? then Compare(InlineJoin(word), relation, a.value, b.value) else Unknown(true)
  }

  /** One-word instructions: operation nibble, device nibble, number. */
  function DecodeDevice(op: nat, dev: Device): Instr {
    match op
    case 0x2 => Contact(Start, false, dev)
    case 0x3 => Contact(Start, true, dev)
    case 0x4 => Contact(And, false, dev)
    case 0x5 => Contact(And, true, dev)
    case 0x6 => Contact(Or, false, dev)
    case 0x7 => Contact(Or, true, dev)
    case 0xC => Out(dev)
    case 0xD => Set(dev)
    case 0xE => Rst(dev)
    case 0x8 => Pulse(dev)
    case _ => Unknown(false)
  }

  function DecodePreset(code: Code, opcode: Byte, operand: Byte, p: nat): Instr {
    var preset := WordOperand(code, p);
    if preset.None? then Unknown(false)
    else if opcode == 0x06 then OutTimer(operand, preset.value)
    else OutCounter(operand, preset.value)
  }

  /** The instruction at off and the offset of the word after it. */
  function Decode(code: Code, off: nat): Decoded {
    var word, p := Fetch(code, off), off + 2;
    var opcode, operand := High(word), Low(word);
    if word == WORD_BLANK then Decoded(Blank, p)
    else if opcode == 0x06 || opcode == 0x0E then Decoded(DecodePreset(code, opcode, operand, p), p + 4)
    else if opcode == 0x00 then DecodeMisc(code, operand, p)
    else if opcode == 0xFF then Decoded(DecodeStack(operand), p)
    else if opcode == 0xF0 then Decoded(StlStep(operand), p)
    else if opcode == 0xF7 then Decoded(Ret, p)
    else if opcode == 0x80 then Decoded(StrayConstant, p)
    else if InlineRelation(word).Some? then Decoded(DecodeCompare(code, word, InlineRelation(word).value, p), p + 8)
    else if word == 0x01CA then
      Decoded(if High(Fetch(code, p)) == 0x84 then CounterEnable(Low(Fetch(code, p))) else Unknown(true), p + 2)
    else Decoded(DecodeDevice(opcode / 16, Dev(opcode % 16, operand)), p)
  }

  /** Decoding moves on by whole words, at least one. */
  lemma DecodeAdvances(code: Code, off: nat)
    ensures off + 2 <= Decode(code, off).next && Decode(code, off).next % 2 == off % 2
  {
    hide WordOperand, RegisterOperand, PairOperand, BitOperand, Fetch, IsGroup, DecodePreset, DecodeCompare,
         InlineRelation;
    hide DecodeDevice, DecodeStack, ParseApplied, DecodeMisc;
    if High(Fetch(code, off)) == 0x00 {
      MiscAdvances(code, Low(Fetch(code, off)), off + 2);
    }
  }

  lemma MiscAdvances(code: Code, operand: Byte, p: nat)
    ensures p <= DecodeMisc(code, operand, p).next && DecodeMisc(code, operand, p).next % 2 == p % 2
  {
    hide Fetch, DecodeCall, DecodePrefix, DecodeReset, DecodeZrst, DecodeSftl, DecodeAbsd, DecodeDeco, DecodeMov,
         ParseApplied;
    ParseAdvances(code, operand, p);
  }

  predicate AdvancesFrom(parsed: Option<Parsed>, p: nat) {
    parsed.Some? ==> p < parsed.value.next && parsed.value.next % 2 == p % 2
  }

  lemma ParseAdvances(code: Code, operand: Byte, p: nat)
    ensures AdvancesFrom(ParseApplied(code, operand, p), p)
  {
    hide AdvancesFrom, ParseApplied;
    if operand < 0x44 {
      LowAdvances(code, operand, p);
    } else {
      HighAdvances(code, operand, p);
    }
  }

  lemma LowAdvances(code: Code, operand: Byte, p: nat)
    requires operand < 0x44
    ensures AdvancesFrom(ParseApplied(code, operand, p), p)
  {
    hide WordOperand, RegisterOperand, PairOperand, BitOperand, Fetch, IsGroup;
  }

  lemma HighAdvances(code: Code, operand: Byte, p: nat)
    requires operand >= 0x44
    ensures AdvancesFrom(ParseApplied(code, operand, p), p)
  {
    hide WordOperand, RegisterOperand, PairOperand, BitOperand, Fetch, IsGroup;
  }

  /** The first program step at or after pos that holds the marker word, if any: its offset. */
  function FindMarker(code: Code, marker: Word, pos: nat): (at: nat)
    requires pos % 2 == 0 && pos <= PROGRAM_BYTES
    ensures at % 2 == 0 && pos <= at <= PROGRAM_BYTES
    ensures at < PROGRAM_BYTES ==> Fetch(code, at) == marker
    ensures forall q: nat :: pos <= q < at && q % 2 == 0 ==> Fetch(code, q) != marker
    decreases PROGRAM_BYTES - pos
  {
    if pos + 1 >= PROGRAM_BYTES then PROGRAM_BYTES
    else if Fetch(code, pos) == marker then pos
    else FindMarker(code, marker, pos + 2)
  }

  /** Where CALL P(pointer) continues: after the first marker word of that subroutine. */
  function FindSubroutine(code: Code, pointer: Byte): (target: nat)
    ensures target % 2 == 0 && target <= PROGRAM_BYTES
  {
    var at := FindMarker(code, 0xB000 + pointer, CODE_OFFSET);
    if at >= PROGRAM_BYTES then PROGRAM_BYTES else at + 2
  }
}
