/** The byte, bit and force address spaces of the programming port. */
module FxAddr {
  import opened Words
  import opened Devices
  import opened Instructions
  import opened PlcMemory

  const ADDR_X: Word := 0x0080
  const ADDR_Y: Word := 0x00A0
  const ADDR_T_CONTACT: Word := 0x00C0
  const ADDR_M: Word := 0x0100
  const ADDR_C_CONTACT: Word := 0x01C0
  const ADDR_M_SPECIAL: Word := 0x01E0
  const ADDR_BIT_END: Word := 0x0200
  const ADDR_T_CURRENT: Word := 0x0800
  const ADDR_C_CURRENT: Word := 0x0A00
  const ADDR_C_CURRENT32: Word := 0x0C00
  const ADDR_D_SPECIAL: Word := 0x0E00
  const ADDR_D: Word := 0x4000
  const ADDR_D_END: Word := 0x7E80
  const ADDR_PROGRAM: Word := 0x8000

  /** What the port reads and writes: the devices and program memory. */
  datatype Plant = Plant(img: Image, code: Code)

  // ------------------------------------------------------------ the bits

  function BitAt(img: Image, addr: Word, bit: nat): bool
    requires bit < 8
  {
    if addr < ADDR_X then GetFlag(img.s, addr * 8 + bit)
    else if addr < ADDR_Y then GetFlag(img.x, (addr - ADDR_X) * 8 + bit)
    else if addr < ADDR_T_CONTACT then GetFlag(img.y, (addr - ADDR_Y) * 8 + bit)
    else if addr < 0x00E0 then img.t[(addr - ADDR_T_CONTACT) * 8 + bit].done
    else if addr < ADDR_M then false
    else if addr < ADDR_C_CONTACT then GetM(img, (addr - ADDR_M) * 8 + bit)
    else if addr < ADDR_M_SPECIAL then img.c[(addr - ADDR_C_CONTACT) * 8 + bit].done
    else if addr < ADDR_BIT_END then GetM(img, M_SPECIAL_BASE + (addr - ADDR_M_SPECIAL) * 8 + bit)
    else false
  }

  function PutBitAt(img: Image, addr: Word, bit: nat, v: bool): Image
    requires bit < 8
  {
    if addr < ADDR_X then SetS(img, addr * 8 + bit, v)
    else if addr < ADDR_Y then SetX(img, (addr - ADDR_X) * 8 + bit, v)
    else if addr < ADDR_T_CONTACT then SetY(img, (addr - ADDR_Y) * 8 + bit, v)
    else if addr < 0x00E0 then
      var i := (addr - ADDR_T_CONTACT) * 8 + bit;
      img.(t := img.t[i := img.t[i].(done := v)])
    else if addr < ADDR_M then img
    else if addr < ADDR_C_CONTACT then SetM(img, (addr - ADDR_M) * 8 + bit, v)
    else if addr < ADDR_M_SPECIAL then
      var i := (addr - ADDR_C_CONTACT) * 8 + bit;
      img.(c := img.c[i := img.c[i].(done := v)])
    else if addr < ADDR_BIT_END then SetM(img, M_SPECIAL_BASE + (addr - ADDR_M_SPECIAL) * 8 + bit, v)
    else img
  }

  // ----------------------------------------------------------- the bytes

  /** Word devices are little-endian across their two byte addresses. */
  function WordByte(value: Word, addr: Word): Byte {
    if addr % 2 == 1 then High(value) else Low(value)
  }

  function WordMerge(before: Word, addr: Word, b: Byte): Word {
    if addr % 2 == 1 then FromBytes(Low(before), b) else FromBytes(b, High(before))
  }

  function BitsAt(img: Image, addr: Word): (bits: seq<bool>)
    ensures |bits| == 8
  {
    seq(8, i requires 0 <= i < 8 => BitAt(img, addr, i))
  }

  function PackByte(bits: seq<bool>): Byte
    requires |bits| <= 8
  {
    PackBound(bits);
    Pow2Grows(|bits|, 8);
    Pow2Values();
    Pack(bits)
  }

  /** Byte k of a 32-bit counter value. */
  function CounterByte(current: Int32, k: nat): Byte
    requires k < 4
  {
    var w: DWord := current % 0x1_0000_0000;
    if k == 0 then w % 256
    else if k == 1 then w / 0x100 % 256
    else if k == 2 then w / 0x1_0000 % 256
    else w / 0x100_0000
  }

  function ByteAt(p: Plant, addr: Word): Byte {
    if addr < ADDR_BIT_END then PackByte(BitsAt(p.img, addr))
    else if ADDR_T_CURRENT <= addr < ADDR_C_CURRENT then WordByte(p.img.t[(addr - ADDR_T_CURRENT) / 2].current, addr)
    else if ADDR_C_CURRENT <= addr < ADDR_C_CURRENT32 then
      var i := (addr - ADDR_C_CURRENT) / 2;
      if i < 200 then WordByte(p.img.c[i].current % 0x1_0000, addr) else 0
    else if ADDR_C_CURRENT32 <= addr < ADDR_D_SPECIAL then
      var i := 200 + (addr - ADDR_C_CURRENT32) / 4;
      if i < NUM_C then CounterByte(p.img.c[i].current, (addr - ADDR_C_CURRENT32) % 4) else 0
    else if ADDR_D_SPECIAL <= addr < ADDR_D then
      WordByte(GetD(p.img, D_SPECIAL_BASE + (addr - ADDR_D_SPECIAL) / 2), addr)
    else if addr >= ADDR_PROGRAM then ReadCode(p.code, addr - ADDR_PROGRAM)
    else if ADDR_D <= addr < ADDR_D_END then WordByte(GetD(p.img, (addr - ADDR_D) / 2), addr)
    else 0
  }

  /** The first n bits of v written to a bit address, lowest first. */
  function PutBits(img: Image, addr: Word, v: Byte, n: nat): Image
    requires n <= 8
  {
    if n == 0 then img else PutBitAt(PutBits(img, addr, v, n - 1), addr, n - 1, Bit(v, n - 1))
  }

  function WriteCode(code: Code, off: nat, v: Byte): Code {
    if off < PROGRAM_BYTES then code[off := v] else code
  }

  function MergeD(img: Image, i: nat, addr: Word, v: Byte): Image {
    SetD(img, i, WordMerge(GetD(img, i), addr, v))
  }

  /** A 16-bit counter keeps only the merged low word. 32-bit counters have no write case. */
  function PutByteAt(p: Plant, addr: Word, v: Byte): Plant {
    if addr < ADDR_BIT_END then p.(img := PutBits(p.img, addr, v, 8))
    else if ADDR_T_CURRENT <= addr < ADDR_C_CURRENT then
      var i := (addr - ADDR_T_CURRENT) / 2;
      var t := p.img.t[i];
      p.(img := p.img.(t := p.img.t[i := t.(current := WordMerge(t.current, addr, v))]))
    else if ADDR_C_CURRENT <= addr < ADDR_C_CURRENT32 then
      var i := (addr - ADDR_C_CURRENT) / 2;
      if i < 200 then
        var c := p.img.c[i];
        p.(img := p.img.(c := p.img.c[i := c.(current := WordMerge(c.current % 0x1_0000, addr, v))]))
      else p
    else if ADDR_D_SPECIAL <= addr < ADDR_D then
      p.(img := MergeD(p.img, D_SPECIAL_BASE + (addr - ADDR_D_SPECIAL) / 2, addr, v))
    else if addr >= ADDR_PROGRAM then p.(code := WriteCode(p.code, addr - ADDR_PROGRAM, v))
    else if ADDR_D <= addr < ADDR_D_END then p.(img := MergeD(p.img, (addr - ADDR_D) / 2, addr, v))
    else p
  }

  // ------------------------------------------------------ the memory law

  /** The byte addresses that hold what is written to them: S0-S999, X, Y, T contacts, M0-M1535, C contacts,
      M8000 up, T currents, C0-C199 currents, D8000-D8255, D0-D7999 and the program. */
  predicate Backed(addr: Word) {
    || addr < 0x007D
    || ADDR_X <= addr < 0x00E0
    || ADDR_M <= addr < ADDR_BIT_END
    || ADDR_T_CURRENT <= addr < ADDR_C_CURRENT + 400
    || ADDR_D_SPECIAL <= addr < ADDR_D_SPECIAL + 512
    || ADDR_D <= addr < ADDR_D_END
    || ADDR_PROGRAM <= addr < ADDR_PROGRAM + PROGRAM_BYTES
  }

  lemma LowBitOverBit(img: Image, a: Word, i: nat, v: bool, b: Word, j: nat)
    requires i < 8 && j < 8 && a < ADDR_BIT_END && b < ADDR_M
    ensures BitAt(PutBitAt(img, a, i, v), b, j) == (if a == b && i == j && Backed(a) then v else BitAt(img, b, j))
  {
    hide GetM;
  }

  lemma HighBitOverBit(img: Image, a: Word, i: nat, v: bool, b: Word, j: nat)
    requires i < 8 && j < 8 && a < ADDR_BIT_END && ADDR_M <= b < ADDR_BIT_END
    ensures BitAt(PutBitAt(img, a, i, v), b, j) == (if a == b && i == j && Backed(a) then v else BitAt(img, b, j))
  {
  }

  lemma BitOverBit(img: Image, a: Word, i: nat, v: bool, b: Word, j: nat)
    requires i < 8 && j < 8 && a < ADDR_BIT_END && b < ADDR_BIT_END
    ensures BitAt(PutBitAt(img, a, i, v), b, j) == (if a == b && i == j && Backed(a) then v else BitAt(img, b, j))
  {
    hide BitAt, PutBitAt, Backed;
    if b < ADDR_M {
      LowBitOverBit(img, a, i, v, b, j);
    } else {
      HighBitOverBit(img, a, i, v, b, j);
    }
  }

  lemma {:induction false} BitOverBits(img: Image, a: Word, v: Byte, n: nat, b: Word, j: nat)
    requires n <= 8 && j < 8 && a < ADDR_BIT_END && b < ADDR_BIT_END
    ensures BitAt(PutBits(img, a, v, n), b, j) == (if a == b && j < n && Backed(a) then Bit(v, j) else BitAt(img, b, j))
  {
    hide BitAt, PutBitAt, Backed;
    if n > 0 {
      BitOverBits(img, a, v, n - 1, b, j);
      BitOverBit(PutBits(img, a, v, n - 1), a, n - 1, Bit(v, n - 1), b, j);
    }
  }

  /** A byte is its eight bits. */
  lemma PackBits(v: Byte, bits: seq<bool>)
    requires |bits| == 8 && forall j: nat :: j < 8 ==> bits[j] == Bit(v, j)
    ensures PackByte(bits) == v
  {
    PackBound(bits);
    Pow2Values();
    forall j: nat | j < 8
      ensures Bit(Pack(bits), j) == Bit(v, j)
    {
      PackBit(bits, j);
    }
    BitsDetermine(Pack(bits), v, 8);
  }

  lemma {:induction false} PutBitsElsewhere(img: Image, a: Word, v: Byte, n: nat)
    requires n <= 8
    ensures var after := PutBits(img, a, v, n);
            && after.d == img.d && after.ds == img.ds
            && (forall k :: 0 <= k < NUM_T ==> after.t[k].current == img.t[k].current)
            && (forall k :: 0 <= k < NUM_C ==> after.c[k].current == img.c[k].current)
  {
    if n > 0 {
      PutBitsElsewhere(img, a, v, n - 1);
    }
  }

  lemma BytesOverBits(p: Plant, a: Word, v: Byte, b: Word)
    requires a < ADDR_BIT_END
    ensures ByteAt(PutByteAt(p, a, v), b) == (if a == b && Backed(a) then v else ByteAt(p, b))
  {
    hide PutBits, BitAt, Backed, PackByte;
    var after := PutBits(p.img, a, v, 8);
    if b < ADDR_BIT_END {
      forall j: nat | j < 8
        ensures BitAt(after, b, j) == (if a == b && Backed(a) then Bit(v, j) else BitAt(p.img, b, j))
      {
        BitOverBits(p.img, a, v, 8, b, j);
      }
      if a == b && Backed(a) {
        PackBits(v, BitsAt(after, b));
      } else {
        assert BitsAt(after, b) == BitsAt(p.img, b);
      }
    } else {
      PutBitsElsewhere(p.img, a, v, 8);
    }
  }

  lemma MergeRead(before: Word, a: Word, v: Byte, b: Word)
    requires a / 2 == b / 2
    ensures WordByte(WordMerge(before, a, v), b) == (if a == b then v else WordByte(before, b))
  {
  }

  /** Writes to words and to the program leave every bit address as it was. */
  lemma WordWritesKeepBits(p: Plant, a: Word, v: Byte, b: Word)
    requires a >= ADDR_BIT_END && b < ADDR_BIT_END
    ensures ByteAt(PutByteAt(p, a, v), b) == ByteAt(p, b)
  {
    hide PackByte, WordMerge, WriteCode;
    assert BitsAt(PutByteAt(p, a, v).img, b) == BitsAt(p.img, b);
  }

  /** Timer and counter values. */
  lemma BytesOverValues(p: Plant, a: Word, v: Byte, b: Word)
    requires a >= ADDR_BIT_END && ADDR_BIT_END <= b < ADDR_D_SPECIAL
    ensures ByteAt(PutByteAt(p, a, v), b) == (if a == b && Backed(a) then v else ByteAt(p, b))
  {
    hide CounterByte, WordMerge, WordByte, BitsAt, PackByte, WriteCode, MergeD;
    if a / 2 == b / 2 {
      forall before: Word {
        MergeRead(before, a, v, b);
      }
    }
    forall i: nat {
      MergeKeeps(p.img, i, a, v);
    }
  }

  lemma MergeKeeps(img: Image, i: nat, a: Word, v: Byte)
    ensures MergeD(img, i, a, v).t == img.t && MergeD(img, i, a, v).c == img.c
  {
    hide WordMerge;
  }

  /** Data registers and the program. */
  lemma BytesOverRegisters(p: Plant, a: Word, v: Byte, b: Word)
    requires a >= ADDR_BIT_END && b >= ADDR_D_SPECIAL
    ensures ByteAt(PutByteAt(p, a, v), b) == (if a == b && Backed(a) then v else ByteAt(p, b))
  {
    hide CounterByte, WordMerge, WordByte, BitsAt, PackByte;
    if a / 2 == b / 2 {
      forall before: Word {
        MergeRead(before, a, v, b);
      }
    }
  }

  /** The memory law: for all states and addresses, reading b after writing v to a gives v if a is b and holds
      what is written to it, and otherwise what b read before. */
  lemma ByteOverByte(p: Plant, a: Word, v: Byte, b: Word)
    ensures ByteAt(PutByteAt(p, a, v), b) == (if a == b && Backed(a) then v else ByteAt(p, b))
  {
    hide ByteAt, PutByteAt, Backed;
    if a < ADDR_BIT_END {
      BytesOverBits(p, a, v, b);
    } else if b < ADDR_BIT_END {
      WordWritesKeepBits(p, a, v, b);
    } else if b < ADDR_D_SPECIAL {
      BytesOverValues(p, a, v, b);
    } else {
      BytesOverRegisters(p, a, v, b);
    }
  }

  // ------------------------------------------------------ the force space

  const FORCE_Y: Word := 3072
  const FORCE_MS: Word := 3584
  const FORCE_X: Word := 4608
  const FORCE_S: Word := 0x1400

  predicate ForceKnown(a: Word) {
    || a < FORCE_Y || FORCE_Y <= a < FORCE_Y + 256 || FORCE_MS <= a < FORCE_MS + 256
    || FORCE_X <= a < FORCE_X + 256 || FORCE_S <= a < FORCE_S + 1000
  }

  function ForceRead(img: Image, a: Word): bool {
    if a < FORCE_Y then GetM(img, a)
    else if FORCE_Y <= a < FORCE_Y + 256 then GetFlag(img.y, a - FORCE_Y)
    else if FORCE_MS <= a < FORCE_MS + 256 then GetM(img, M_SPECIAL_BASE + a - FORCE_MS)
    else if FORCE_X <= a < FORCE_X + 256 then GetFlag(img.x, a - FORCE_X)
    else if FORCE_S <= a < FORCE_S + 1000 then GetFlag(img.s, a - FORCE_S)
    else false
  }

  function Force(img: Image, a: Word, on: bool): Image {
    if a < FORCE_Y then SetM(img, a, on)
    else if a < FORCE_Y + 256 then SetY(img, a - FORCE_Y, on)
    else if FORCE_MS <= a < FORCE_MS + 256 then SetM(img, M_SPECIAL_BASE + (a - FORCE_MS), on)
    else if FORCE_X <= a < FORCE_X + 256 then SetX(img, a - FORCE_X, on)
    else if FORCE_S <= a < FORCE_S + 1000 then SetS(img, a - FORCE_S, on)
    else img
  }

  /** Forcing follows the same law, and agrees with the byte space on the relays both can name. */
  lemma ForceLaw(img: Image, a: Word, on: bool, b: Word)
    ensures ForceRead(Force(img, a, on), b) == (if a == b && ForceKnown(a) then on else ForceRead(img, b))
  {
  }

  /** Bit k of a byte address is the force address of the same relay. */
  lemma ForceIsBit(img: Image, addr: Word, k: nat)
    requires k < 8
    ensures addr < 0x7D ==> BitAt(img, addr, k) == ForceRead(img, FORCE_S + 8 * addr + k)
    ensures ADDR_X <= addr < ADDR_Y ==> BitAt(img, addr, k) == ForceRead(img, FORCE_X + 8 * (addr - ADDR_X) + k)
    ensures ADDR_Y <= addr < ADDR_T_CONTACT ==> BitAt(img, addr, k) == ForceRead(img, FORCE_Y + 8 * (addr - ADDR_Y) + k)
    ensures ADDR_M <= addr < ADDR_C_CONTACT ==> BitAt(img, addr, k) == ForceRead(img, 8 * (addr - ADDR_M) + k)
    ensures ADDR_M_SPECIAL <= addr < ADDR_BIT_END ==>
              BitAt(img, addr, k) == ForceRead(img, FORCE_MS + 8 * (addr - ADDR_M_SPECIAL) + k)
  {
  }

  // -------------------------------------------- reading and writing in place

  /** Or-ing the next bit into a byte that holds the earlier ones. */
  lemma OrNext(bits: seq<bool>, on: bool)
    requires |bits| < 8
    ensures Pack(bits) < 256
    ensures Pack(bits + [on]) == (if on then WithBit(Pack(bits), |bits|, true) else Pack(bits))
  {
    PackBound(bits);
    Pow2Grows(|bits|, 8);
    Pow2Values();
    PackAppend(bits, on);
    PackBit(bits, |bits|);
    WithBitValue(Pack(bits), |bits|, true);
  }

  class Bus {
    const mem: Memory
    /** The program store; the interpreter sees the first 32000 bytes. */
    const program: array<Byte>

    ghost predicate Valid() {
      mem.Valid() && program.Length == 32512 && program !in mem.Repr()
    }

    ghost function Repr(): set<object> { mem.Repr() + {program} }

    function Code(): Code
      requires Valid()
      reads program
    {
      program[..PROGRAM_BYTES]
    }

    ghost function Now(): Plant
      requires Valid()
      reads Repr()
    {
      Plant(mem.Img(), Code())
    }

    constructor (mem: Memory, program: array<Byte>)
      requires mem.Valid() && program.Length == 32512 && program !in mem.Repr()
      ensures Valid() && this.mem == mem && this.program == program
    {
      this.mem, this.program := mem, program;
    }

    function ReadBit(addr: Word, bit: nat): (v: bool)
      requires Valid() && bit < 8
      reads Repr()
      ensures v == BitAt(mem.Img(), addr, bit)
    {
      if addr < ADDR_X then mem.GetS(addr * 8 + bit)
      else if addr < ADDR_Y then mem.GetX((addr - ADDR_X) * 8 + bit)
      else if addr < ADDR_T_CONTACT then mem.GetY((addr - ADDR_Y) * 8 + bit)
      else if addr < 0x00E0 then mem.t[(addr - ADDR_T_CONTACT) * 8 + bit].done
      else if addr < ADDR_M then false
      else if addr < ADDR_C_CONTACT then mem.GetM((addr - ADDR_M) * 8 + bit)
      else if addr < ADDR_M_SPECIAL then mem.c[(addr - ADDR_C_CONTACT) * 8 + bit].done
      else if addr < ADDR_BIT_END then mem.GetM(M_SPECIAL_BASE + (addr - ADDR_M_SPECIAL) * 8 + bit)
      else false
    }

    method WriteBit(addr: Word, bit: nat, v: bool)
      requires Valid() && bit < 8
      modifies mem.Repr()
      ensures mem.Img() == PutBitAt(old(mem.Img()), addr, bit, v)
    {
      if addr < ADDR_X {
        mem.SetS(addr * 8 + bit, v);
      } else if addr < ADDR_Y {
        mem.SetX((addr - ADDR_X) * 8 + bit, v);
      } else if addr < ADDR_T_CONTACT {
        mem.SetY((addr - ADDR_Y) * 8 + bit, v);
      } else if addr < 0x00E0 {
        var i := (addr - ADDR_T_CONTACT) * 8 + bit;
        mem.t[i] := mem.t[i].(done := v);
      } else if addr < ADDR_M {
      } else if addr < ADDR_C_CONTACT {
        mem.SetM((addr - ADDR_M) * 8 + bit, v);
      } else if addr < ADDR_M_SPECIAL {
        var i := (addr - ADDR_C_CONTACT) * 8 + bit;
        mem.c[i] := mem.c[i].(done := v);
      } else if addr < ADDR_BIT_END {
        mem.SetM(M_SPECIAL_BASE + (addr - ADDR_M_SPECIAL) * 8 + bit, v);
      }
    }

    method ReadByte(addr: Word) returns (v: Byte)
      requires Valid()
      ensures v == ByteAt(Now(), addr)
    {
      if addr < ADDR_BIT_END {
        v := ReadBits(addr);
      } else if ADDR_T_CURRENT <= addr < ADDR_C_CURRENT {
        v := WordByte(mem.t[(addr - ADDR_T_CURRENT) / 2].current, addr);
      } else if ADDR_C_CURRENT <= addr < ADDR_C_CURRENT32 {
        var i := (addr - ADDR_C_CURRENT) / 2;
        v := if i < 200 then WordByte(mem.c[i].current % 0x1_0000, addr) else 0;
      } else if ADDR_C_CURRENT32 <= addr < ADDR_D_SPECIAL {
        var off := addr - ADDR_C_CURRENT32;
        v := if 200 + off / 4 < NUM_C then CounterByte(mem.c[200 + off / 4].current, off % 4) else 0;
      } else if ADDR_D_SPECIAL <= addr < ADDR_D {
        v := WordByte(mem.GetD(D_SPECIAL_BASE + (addr - ADDR_D_SPECIAL) / 2), addr);
      } else if addr >= ADDR_PROGRAM {
        var off := addr - ADDR_PROGRAM;
        v := if off < PROGRAM_BYTES then program[off] else 0xFF;
      } else if ADDR_D <= addr < ADDR_D_END {
        v := WordByte(mem.GetD((addr - ADDR_D) / 2), addr);
      } else {
        v := 0;
      }
    }

    /** The eight bits of a bit address, or-ed together. */
    method ReadBits(addr: Word) returns (byte: Byte)
      requires Valid()
      ensures byte == PackByte(BitsAt(mem.Img(), addr))
    {
      hide BitAt, PackByte, WithBit;
      ghost var bits := BitsAt(mem.Img(), addr);
      byte := 0;
      for b := 0 to 8
        invariant byte == Pack(bits[..b])
      {
        OrNext(bits[..b], bits[b]);
        assert bits[..b + 1] == bits[..b] + [bits[b]];
        if ReadBit(addr, b) {
          byte := PutBit8(byte, b, true);
        }
      }
      assert bits[..8] == bits;
      PackByteIs(bits);
    }

    method WriteByte(addr: Word, v: Byte)
      requires Valid()
      modifies Repr()
      ensures Now() == PutByteAt(old(Now()), addr, v)
    {
      if addr < ADDR_BIT_END {
        WriteBits(addr, v);
      } else if addr >= ADDR_PROGRAM {
        if addr - ADDR_PROGRAM < PROGRAM_BYTES {
          program[addr - ADDR_PROGRAM] := v;
        }
      } else {
        WriteValue(addr, v);
      }
    }

    method WriteBits(addr: Word, v: Byte)
      requires Valid()
      modifies mem.Repr()
      ensures mem.Img() == PutBits(old(mem.Img()), addr, v, 8)
    {
      hide PutBitAt;
      for b := 0 to 8
        invariant mem.Img() == PutBits(old(mem.Img()), addr, v, b)
      {
        WriteBit(addr, b, Bit(v, b));
      }
    }

    /** Timer and counter values and data registers: merge one byte into the word. */
    method WriteValue(addr: Word, v: Byte)
      requires Valid() && ADDR_BIT_END <= addr < ADDR_PROGRAM
      modifies mem.Repr()
      ensures mem.Img() == PutByteAt(old(Now()), addr, v).img
    {
      hide WordMerge;
      if ADDR_T_CURRENT <= addr < ADDR_C_CURRENT {
        var i := (addr - ADDR_T_CURRENT) / 2;
        mem.t[i] := mem.t[i].(current := WordMerge(mem.t[i].current, addr, v));
      } else if ADDR_C_CURRENT <= addr < ADDR_C_CURRENT32 {
        var i := (addr - ADDR_C_CURRENT) / 2;
        if i < 200 {
          mem.c[i] := mem.c[i].(current := WordMerge(mem.c[i].current % 0x1_0000, addr, v));
        }
      } else if ADDR_D_SPECIAL <= addr < ADDR_D {
        var i := D_SPECIAL_BASE + (addr - ADDR_D_SPECIAL) / 2;
        mem.SetD(i, WordMerge(mem.GetD(i), addr, v));
      } else if ADDR_D <= addr < ADDR_D_END {
        var i := (addr - ADDR_D) / 2;
        mem.SetD(i, WordMerge(mem.GetD(i), addr, v));
      }
    }

    function ForceState(a: Word): (v: bool)
      requires Valid()
      reads Repr()
      ensures v == ForceRead(mem.Img(), a)
    {
      if a < FORCE_Y then mem.GetM(a)
      else if FORCE_Y <= a < FORCE_Y + 256 then mem.GetY(a - FORCE_Y)
      else if FORCE_MS <= a < FORCE_MS + 256 then mem.GetM(M_SPECIAL_BASE + a - FORCE_MS)
      else if FORCE_X <= a < FORCE_X + 256 then mem.GetX(a - FORCE_X)
      else if FORCE_S <= a < FORCE_S + 1000 then mem.GetS(a - FORCE_S)
      else false
    }

    method ForceBit(a: Word, on: bool)
      requires Valid()
      modifies mem.Repr()
      ensures mem.Img() == Force(old(mem.Img()), a, on)
    {
      if a < FORCE_Y {
        mem.SetM(a, on);
      } else if a < FORCE_Y + 256 {
        mem.SetY(a - FORCE_Y, on);
      } else if FORCE_MS <= a < FORCE_MS + 256 {
        mem.SetM(M_SPECIAL_BASE + (a - FORCE_MS), on);
      } else if FORCE_X <= a < FORCE_X + 256 {
        mem.SetX(a - FORCE_X, on);
      } else if FORCE_S <= a < FORCE_S + 1000 {
        mem.SetS(a - FORCE_S, on);
      }
    }
  }

  lemma PackByteIs(bits: seq<bool>)
    requires |bits| <= 8
    ensures PackByte(bits) == Pack(bits)
  {
  }
}
