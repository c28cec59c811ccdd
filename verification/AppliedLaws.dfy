/** What executed applied instructions leave in registers and relays, operation by operation. */
module AppliedLaws {
  import opened Words
  import opened Devices
  import opened Timers
  import opened Instructions
  import opened Applied
  import opened Ladder
  import opened LadderScan
  import opened BlockMoves
  import opened Fifo

  /** The next instruction is this one. */
  predicate Does(code: Code, st: State, op: Op) { Decode(code, st.off).instr == Applied(op) }

  /** The state after the words of the next instruction, with the devices as they were. */
  function Next(code: Code, st: State): State { GoOn(st, Decode(code, st.off).next) }

  /** The range checks of the source, operand by operand: 8000 registers, device numbers up to 255, no division by 0. */
  predicate Legal(img: Image, op: Op) {
    match op
    case Dmov(_, _, dst, pad) => dst + 2 <= 8000 && Eval(img, pad) == 0
    case DdivTime(_, _, blo, bhi, dst, pad) =>
      dst + 4 <= 8000 && Eval(img, pad) == 0 && !(Eval(img, blo) == 0 && Eval(img, bhi) == 0)
    case Cmp(_, _, flags) => flags.num + 2 <= 255
    case Bmov(from, dst, n) => from + Eval(img, n) <= 8000 && dst + Eval(img, n) <= 8000
    case Fmov(_, dst, n) => dst + Eval(img, n) <= 8000
    case Arith(fn, _, b, dst) =>
      && (fn == Mul || fn == Div ==> dst + 2 <= 8000)
      && (fn == Div ==> Eval(img, b) != 0)
    case Sftr(_, window, n, k) => 1 <= Eval(img, n) && Eval(img, k) <= Eval(img, n) && window.num + Eval(img, n) <= 256
    case Sfwr(_, table, n) => 2 <= Eval(img, n) && table + Eval(img, n) <= 8000
    case Sfrd(table, _, n) => 2 <= Eval(img, n) && table + Eval(img, n) <= 8000
    case EncoWord(_, _, n) => 1 <= Eval(img, n) <= 4
    case EncoBits(first, _, n) => 1 <= Eval(img, n) <= 4 && first.num + [0, 2, 4, 8, 16][Eval(img, n)] <= 256
    case Bon(bit, bitGroup, target, targetGroup, n) =>
      && Eval(img, n) <= 15
      && bit.num + (if bitGroup then GetD(img, 28) + Eval(img, n) else 0) <= 255
      && target.num + (if targetGroup then GetD(img, 28) + Eval(img, n) else 0) <= 255
    case Flt(_, dst) => dst + 2 <= 8000
    case Malformed => false
    case _ => true
  }

  /** Destinations that the decoder lets through are registers. */
  predicate Addressed(op: Op) {
    match op
    case Dmov(_, _, dst, _) => dst + 2 <= 8000
    case DdivTime(_, _, _, _, dst, _) => dst + 4 <= 8000
    case Cmp(_, _, flags) => flags.num + 2 <= 255
    case Bmov(from, dst, _) => from < 8000 && dst < 8000
    case Fmov(_, dst, _) => dst < 8000
    case Arith(fn, _, _, dst) => dst < 8000 && (fn == Mul || fn == Div ==> dst + 2 <= 8000)
    case Adjust(_, dst) => dst < 8000
    case Rotate(_, dst, _) => dst < 8000
    case Sfwr(_, table, _) => table < 8000
    case Sfrd(table, dst, _) => table < 8000 && dst < 8000
    case EncoWord(_, dst, _) => dst < 8000
    case EncoBits(_, dst, _) => dst < 8000
    case Flt(_, dst) => dst + 2 <= 8000
    case _ => true
  }

  lemma DecodedIsAddressed(code: Code, st: State, op: Op)
    requires Does(code, st, op)
    ensures Addressed(op)
  {
    hide Fetch, WordOperand, BitOperand, PairOperand, IsGroup;
    MiscOnly(code, st.off, op);
    ParsedIsAddressed(code, Low(Fetch(code, st.off)), st.off + 2);
  }

  lemma MiscOnly(code: Code, off: nat, op: Op)
    requires Decode(code, off).instr == Applied(op)
    ensures var parsed := ParseApplied(code, Low(Fetch(code, off)), off + 2);
            High(Fetch(code, off)) == 0 && parsed.Some? && parsed.value.op == op
  {
    hide Fetch, ParseApplied, WordOperand, BitOperand, RegisterOperand;
  }

  lemma ParsedIsAddressed(code: Code, operand: Byte, p: nat)
    ensures ParseApplied(code, operand, p).Some? ==> Addressed(ParseApplied(code, operand, p).value.op)
  {
    hide ParseApplied, Addressed;
    if operand < 0x44 {
      LowIsAddressed(code, operand, p);
    } else {
      HighIsAddressed(code, operand, p);
    }
  }

  lemma LowIsAddressed(code: Code, operand: Byte, p: nat)
    requires operand < 0x44
    ensures ParseApplied(code, operand, p).Some? ==> Addressed(ParseApplied(code, operand, p).value.op)
  {
    hide Fetch, WordOperand, BitOperand, IsGroup;
  }

  lemma HighIsAddressed(code: Code, operand: Byte, p: nat)
    requires operand >= 0x44
    ensures ParseApplied(code, operand, p).Some? ==> Addressed(ParseApplied(code, operand, p).value.op)
  {
    hide Fetch, WordOperand, BitOperand, IsGroup;
  }

  lemma LegalIsValid(img: Image, op: Op)
    requires Addressed(op)
    ensures Legal(img, op) <==> OpValid(img, op)
  {
    hide Eval, GetD;
    assert Pow2(1) == 2 && Pow2(2) == 4 && Pow2(3) == 8 && Pow2(4) == 16;
  }

  lemma StepIsApplied(code: Code, ticks: Ticks, st: State, op: Op)
    requires Does(code, st, op)
    ensures Step(code, ticks, st) == ExecApplied(Next(code, st), op, Fetch(code, st.off))
  {
    hide Decode, Fetch, ExecApplied;
  }

  /** An illegal applied instruction is refused, powered or not; a legal one changes nothing but devices, and those only
      with power. */
  lemma AppliedOutcome(code: Code, ticks: Ticks, st: State, op: Op)
    requires Does(code, st, op)
    ensures var after, next := Step(code, ticks, st), Next(code, st);
            if !Legal(st.img, op) then after == Refused(next, Fetch(code, st.off))
            else after == next.(img := after.img) && (!st.result ==> after.img == st.img)
  {
    hide Decode, Fetch, OpValid, OpEffect, Legal, Addressed, Step;
    DecodedIsAddressed(code, st, op);
    LegalIsValid(st.img, op);
    StepIsApplied(code, ticks, st, op);
  }

  /** With power, the effect. */
  lemma Powered(code: Code, ticks: Ticks, st: State, op: Op)
    requires Does(code, st, op) && st.result && Legal(st.img, op)
    ensures OpValid(st.img, op) && Addressed(op) && Step(code, ticks, st).img == OpEffect(st.img, op)
  {
    hide Decode, Fetch, OpValid, OpEffect, Legal, Addressed, Step;
    DecodedIsAddressed(code, st, op);
    LegalIsValid(st.img, op);
    StepIsApplied(code, ticks, st, op);
  }

  /** What a word operand stands for: a timer's value, a register or a number, by the upper bytes of its two words. */
  lemma OperandValue(code: Code, img: Image, p: nat)
    ensures var lo, hi, operand := Fetch(code, p), Fetch(code, p + 2), WordOperand(code, p);
            var raw := lo % 256 + 256 * (hi % 256);
            && (operand.Some? <==> lo / 256 == 0x80 || lo / 256 == 0x82 || lo / 256 == 0x86)
            && (operand.Some? ==>
                  Eval(img, operand.value) ==
                  if lo / 256 != 0x86 then raw
                  else if hi / 256 == 0x82 && raw < 512 then img.t[raw / 2].current
                  else GetD(img, raw / 2))
  {
    hide Fetch;
  }

  /** Nothing but n registers from first on has changed. */
  predicate OnlyRegisters(after: Image, before: Image, first: nat, n: nat) {
    && after == before.(d := after.d)
    && forall i: nat :: i < 8000 && !(first <= i < first + n) ==> after.d[i] == before.d[i]
  }

  // ---------------------------------------------------------- arithmetic

  lemma RegisterWritten(img: Image, dst: nat, v: Word)
    requires dst < 8000
    ensures OnlyRegisters(SetD(img, dst, v), img, dst, 1) && GetD(SetD(img, dst, v), dst) == v
  {
  }

  lemma PairWritten(img: Image, dst: nat, v: DWord)
    requires dst + 2 <= 8000
    ensures var after := SetD32(img, dst, v);
            && OnlyRegisters(after, img, dst, 2) && GetD(after, dst) + 0x1_0000 * GetD(after, dst + 1) == v
  {
  }

  /** ADD and SUB, modulo 2^16. */
  lemma AddSub(code: Code, ticks: Ticks, st: State, fn: ArithFn, a: Source, b: Source, dst: nat)
    requires Does(code, st, Arith(fn, a, b, dst)) && (fn == Add || fn == Sub) && st.result
    ensures var after, x, y := Step(code, ticks, st).img, Eval(st.img, a), Eval(st.img, b);
            && OnlyRegisters(after, st.img, dst, 1)
            && (GetD(after, dst) - (if fn == Add then x + y else x - y)) % 0x1_0000 == 0
  {
    hide Step, Does, Eval, SetD, GetD, OnlyRegisters;
    Powered(code, ticks, st, Arith(fn, a, b, dst));
    RegisterWritten(st.img, dst, ArithResult(fn, Eval(st.img, a), Eval(st.img, b)));
  }

  /** A register pair read as a signed 32-bit number. */
  function SignedPair(img: Image, dst: nat): int {
    var v := GetD(img, dst) + 0x1_0000 * GetD(img, dst + 1);
    if v < 0x8000_0000 then v else v - 0x1_0000_0000
  }

  function Magnitude(x: int): nat { if x < 0 then -x else x }

  lemma ProductFits(x: int, y: int)
    requires -0x8000 <= x < 0x8000 && -0x8000 <= y < 0x8000
    ensures -0x4000_0000 <= x * y <= 0x4000_0000
  {
    var m, n := Magnitude(x), Magnitude(y);
    var product: int := m * n;
    TimesGrows(m, n, 0x8000);
    TimesGrows(0x8000, m, 0x8000);
    assert x * y == product || x * y == -product by {
      SignedProduct(x, y);
    }
  }

  lemma SignedProduct(x: int, y: int)
    ensures x * y == (if (x < 0) == (y < 0) then 1 else -1) * (Magnitude(x) * Magnitude(y))
  {
    assert (-x) * y == -(x * y) && x * (-y) == -(x * y) && (-x) * (-y) == x * y;
  }

  /** MUL: the exact signed product in a register pair. */
  lemma Multiplied(code: Code, ticks: Ticks, st: State, a: Source, b: Source, dst: nat)
    requires Does(code, st, Arith(Mul, a, b, dst)) && st.result
    ensures var after := Step(code, ticks, st).img;
            && OnlyRegisters(after, st.img, dst, 2)
            && SignedPair(after, dst) == Signed16(Eval(st.img, a)) * Signed16(Eval(st.img, b))
  {
    hide Step, Does, Eval, SetD32, GetD, OnlyRegisters;
    DecodedIsAddressed(code, st, Arith(Mul, a, b, dst));
    Powered(code, ticks, st, Arith(Mul, a, b, dst));
    var product := Signed16(Eval(st.img, a)) * Signed16(Eval(st.img, b));
    ProductFits(Signed16(Eval(st.img, a)), Signed16(Eval(st.img, b)));
    PairWritten(st.img, dst, product % 0x1_0000_0000);
  }

  lemma Truncated(x: int, y: int)
    requires y != 0
    ensures var q, r := TruncDiv(x, y), TruncMod(x, y);
            && x == y * q + r && (if y < 0 then y < r < -y else -y < r < y)
            && (r != 0 ==> (r < 0 <==> x < 0))
  {
    var n := if x < 0 then -x else x;
    assert n == y * (n / y) + n % y;
    assert y * (-(n / y)) == -(y * (n / y));
  }

  lemma Smaller(n: nat, m: nat)
    requires m > 0
    ensures n / m <= n && (m >= 2 ==> 2 * (n / m) <= n)
  {
    var k := n / m;
    assert m * k <= n;
    TimesGrows(k, 1, m);
    if m >= 2 {
      TimesGrows(k, 2, m);
    }
  }

  lemma SignedQuotient(x: int, y: int)
    requires y != 0
    ensures TruncDiv(x, y) == (if (x < 0) == (y < 0) then 1 else -1) * (Magnitude(x) / Magnitude(y))
  {
    var n := Magnitude(x);
    assert y < 0 ==> n / y == -(n / -y);
  }

  lemma RemainderSmall(x: int, y: int)
    requires y != 0
    ensures Magnitude(TruncMod(x, y)) < Magnitude(y)
  {
    hide TruncDiv, TruncMod;
    Truncated(x, y);
  }

  /** The one quotient of 16-bit numbers that does not fit is -32768 / -1. */
  lemma QuotientFits(x: int, y: int)
    requires -0x8000 <= x < 0x8000 && -0x8000 <= y < 0x8000 && y != 0
    ensures -0x8000 <= TruncDiv(x, y) <= 0x8000
    ensures TruncDiv(x, y) == 0x8000 <==> x == -0x8000 && y == -1
    ensures -0x8000 < TruncMod(x, y) < 0x8000
  {
    hide TruncDiv, TruncMod;
    RemainderSmall(x, y);
    SignedQuotient(x, y);
    Smaller(Magnitude(x), Magnitude(y));
    if Magnitude(y) == 1 {
      assert Magnitude(x) / 1 == Magnitude(x);
    }
  }

  lemma SignedOfWrapped(v: int)
    requires -0x8000 <= v <= 0x8000
    ensures Signed16(Wrap16(v)) == if v == 0x8000 then -0x8000 else v
  {
  }

  lemma TwoWritten(img: Image, dst: nat, v: Word, w: Word)
    requires dst + 2 <= 8000
    ensures var after := SetD(SetD(img, dst, v), (dst + 1) % 0x1_0000, w);
            OnlyRegisters(after, img, dst, 2) && GetD(after, dst) == v && GetD(after, dst + 1) == w
  {
  }

  /** DIV: quotient and remainder of signed numbers, truncated toward zero; the one quotient that does not fit, of
      -32768 by -1, is stored as -32768. */
  lemma Divided(code: Code, ticks: Ticks, st: State, a: Source, b: Source, dst: nat)
    requires Does(code, st, Arith(Div, a, b, dst)) && st.result && Eval(st.img, b) != 0
    ensures var after, x, y := Step(code, ticks, st).img, Signed16(Eval(st.img, a)), Signed16(Eval(st.img, b));
            var q, r := Signed16(GetD(after, dst)), Signed16(GetD(after, dst + 1));
            && OnlyRegisters(after, st.img, dst, 2)
            && (if x == -0x8000 && y == -1 then q == -0x8000 && r == 0
                else x == y * q + r && Magnitude(r) < Magnitude(y) && (r != 0 ==> (r < 0 <==> x < 0)))
  {
    hide Step, Does, Eval, SetD, GetD, OnlyRegisters, TruncDiv, TruncMod;
    DecodedIsAddressed(code, st, Arith(Div, a, b, dst));
    Powered(code, ticks, st, Arith(Div, a, b, dst));
    var x, y := Signed16(Eval(st.img, a)), Signed16(Eval(st.img, b));
    Truncated(x, y);
    QuotientFits(x, y);
    SignedOfWrapped(TruncDiv(x, y));
    SignedOfWrapped(TruncMod(x, y));
    TwoWritten(st.img, dst, Wrap16(TruncDiv(x, y)), Wrap16(TruncMod(x, y)));
  }

  /** A register pair read as an unsigned 32-bit number. */
  function Pair(img: Image, dst: nat): nat { GetD(img, dst) + 0x1_0000 * GetD(img, dst + 1) }

  lemma PairsWritten(img: Image, dst: nat, v: DWord, w: DWord)
    requires dst + 4 <= 8000
    ensures var after := SetD32(SetD32(img, dst, v), (dst + 2) % 0x1_0000, w);
            OnlyRegisters(after, img, dst, 4) && Pair(after, dst) == v && Pair(after, dst + 2) == w
  {
  }

  /** DDIV: unsigned 32-bit quotient and remainder in two pairs. */
  lemma DividedTime(code: Code, ticks: Ticks, st: State, alo: Source, ahi: Source, blo: Source, bhi: Source, dst: nat,
        pad: Source)
    requires var op := DdivTime(alo, ahi, blo, bhi, dst, pad); Does(code, st, op) && Legal(st.img, op) && st.result
    ensures var after := Step(code, ticks, st).img;
            var a := Eval(st.img, alo) + 0x1_0000 * Eval(st.img, ahi);
            var b := Eval(st.img, blo) + 0x1_0000 * Eval(st.img, bhi);
            && OnlyRegisters(after, st.img, dst, 4)
            && a == b * Pair(after, dst) + Pair(after, dst + 2) && Pair(after, dst + 2) < b
  {
    hide Step, Does, Eval, SetD32, Pair, OnlyRegisters;
    Powered(code, ticks, st, DdivTime(alo, ahi, blo, bhi, dst, pad));
    var a, b := Eval32(st.img, alo, ahi), Eval32(st.img, blo, bhi);
    hide Eval32, Legal, Addressed;
    UnsignedDivision(a, b);
    PairsWritten(st.img, dst, a / b, a % b);
  }

  lemma UnsignedDivision(a: nat, b: nat)
    requires b != 0
    ensures a == b * (a / b) + a % b && a % b < b && 0 <= a / b <= a
  {
    hide *;
    Smaller(a, b);
  }

  /** DMOV copies a pair. */
  lemma PairMoved(code: Code, ticks: Ticks, st: State, lo: Source, hi: Source, dst: nat, pad: Source)
    requires Does(code, st, Dmov(lo, hi, dst, pad)) && Legal(st.img, Dmov(lo, hi, dst, pad)) && st.result
    ensures var after := Step(code, ticks, st).img;
            && OnlyRegisters(after, st.img, dst, 2)
            && GetD(after, dst) == Eval(st.img, lo) && GetD(after, dst + 1) == Eval(st.img, hi)
  {
    hide Step, Does, Eval;
    Powered(code, ticks, st, Dmov(lo, hi, dst, pad));
  }

  /** WAND, WOR and WXOR, bit by bit. */
  lemma BitByBit(code: Code, ticks: Ticks, st: State, fn: ArithFn, a: Source, b: Source, dst: nat, k: nat)
    requires Does(code, st, Arith(fn, a, b, dst)) && (fn == Wand || fn == Wor || fn == Wxor) && st.result && k < 16
    ensures var after, p, q := Step(code, ticks, st).img, Bit(Eval(st.img, a), k), Bit(Eval(st.img, b), k);
            && OnlyRegisters(after, st.img, dst, 1)
            && (fn == Wand ==> (Bit(GetD(after, dst), k) <==> p && q))
            && (fn == Wor ==> (Bit(GetD(after, dst), k) <==> p || q))
            && (fn == Wxor ==> (Bit(GetD(after, dst), k) <==> p != q))
  {
    hide Step, Does, Eval, SetD, GetD, OnlyRegisters, Bit, Bitwise;
    DecodedIsAddressed(code, st, Arith(fn, a, b, dst));
    Powered(code, ticks, st, Arith(fn, a, b, dst));
    var x, y := Eval(st.img, a), Eval(st.img, b);
    RegisterWritten(st.img, dst, ArithResult(fn, x, y));
    BitwiseBit(BitAnd, x, y, k);
    BitwiseBit(BitOr, x, y, k);
    BitwiseBit(BitXor, x, y, k);
  }

  /** Bit k has moved n places down or up, around the word. */
  predicate IsRotation(right: bool, was: Word, now: Word, n: Word) {
    && (right ==> forall k: nat :: k < 16 ==> Bit(now, k) == Bit(was, (k + n) % 16))
    && (!right ==> forall k: nat :: k < 16 ==> Bit(was, k) == Bit(now, (k + n) % 16))
  }

  lemma RotatedBit(right: bool, v: Word, n: Word)
    ensures IsRotation(right, v, Rotated(right, v, n % 16), n)
  {
    hide Bit, RotateRight;
    var places: nat := n % 16;
    forall k: nat | k < 16
      ensures right ==> Bit(Rotated(right, v, places), k) == Bit(v, (k + n) % 16)
      ensures !right ==> Bit(v, k) == Bit(Rotated(right, v, places), (k + n) % 16)
    {
      Around(k, n);
      RotateBit(v, places, k);
      RotateBit(v, 16 - places, (k + n) % 16);
    }
  }

  lemma Around(k: nat, n: nat)
    requires k < 16
    ensures (k + n % 16) % 16 == (k + n) % 16 && ((k + n) % 16 + (16 - n % 16)) % 16 == k
  {
  }

  /** ROR and ROL. */
  lemma RotatedBits(code: Code, ticks: Ticks, st: State, right: bool, dst: nat, n: Source)
    requires Does(code, st, Rotate(right, dst, n)) && st.result
    ensures var after := Step(code, ticks, st).img;
            && OnlyRegisters(after, st.img, dst, 1)
            && IsRotation(right, GetD(st.img, dst), GetD(after, dst), Eval(st.img, n))
  {
    hide Step, Does, Eval, SetD, GetD, OnlyRegisters, Rotated, IsRotation;
    DecodedIsAddressed(code, st, Rotate(right, dst, n));
    Powered(code, ticks, st, Rotate(right, dst, n));
    RegisterWritten(st.img, dst, Rotated(right, GetD(st.img, dst), Eval(st.img, n) % 16));
    RotatedBit(right, GetD(st.img, dst), Eval(st.img, n));
  }

  /** INC, DEC and NEG, modulo 2^16. */
  lemma AdjustedLaw(code: Code, ticks: Ticks, st: State, fn: AdjustFn, dst: nat)
    requires Does(code, st, Adjust(fn, dst)) && st.result
    ensures var after, was := Step(code, ticks, st).img, GetD(st.img, dst);
            && OnlyRegisters(after, st.img, dst, 1)
            && (fn == Inc ==> (GetD(after, dst) - was) % 0x1_0000 == 1)
            && (fn == Dec ==> (was - GetD(after, dst)) % 0x1_0000 == 1)
            && (fn == Neg ==> (GetD(after, dst) + was) % 0x1_0000 == 0)
  {
    hide Step, Does, SetD, GetD, OnlyRegisters, Adjusted;
    DecodedIsAddressed(code, st, Adjust(fn, dst));
    Powered(code, ticks, st, Adjust(fn, dst));
    RegisterWritten(st.img, dst, Adjusted(fn, GetD(st.img, dst)));
    AdjustedModulo(fn, GetD(st.img, dst));
  }

  lemma AdjustedModulo(fn: AdjustFn, v: Word)
    ensures fn == Inc ==> (Adjusted(fn, v) - v) % 0x1_0000 == 1
    ensures fn == Dec ==> (v - Adjusted(fn, v)) % 0x1_0000 == 1
    ensures fn == Neg ==> (Adjusted(fn, v) + v) % 0x1_0000 == 0
  {
  }

  lemma {:induction false} ShiftedValue(a: nat, k: nat)
    ensures Shifted(a, k) == a * Pow2(k)
  {
    if k > 0 {
      ShiftedValue(a, k - 1);
      assert 2 * (a * Pow2(k - 1)) == a * (2 * Pow2(k - 1));
    }
  }

  /** An IEEE 754 single with the value of an integer: sign bit, exponent e with 127 for 2^0, and 23 fraction bits below
      a leading one. */
  predicate IsSingle(bits: nat, v: int) {
    var sign, e, fraction := bits / 0x8000_0000, bits / 0x80_0000 % 256, bits % 0x80_0000;
    if v == 0 then bits == 0
    else
      && sign == (if v < 0 then 1 else 0) && 127 <= e <= 142
      && Magnitude(v) * 0x80_0000 == (0x80_0000 + fraction) * Pow2(e - 127)
  }

  /** FLT: the pair is the single with the value of the integer. */
  lemma Floated(code: Code, ticks: Ticks, st: State, a: Source, dst: nat)
    requires Does(code, st, Flt(a, dst)) && st.result
    ensures var after := Step(code, ticks, st).img;
            OnlyRegisters(after, st.img, dst, 2) && IsSingle(Pair(after, dst), Signed16(Eval(st.img, a)))
  {
    hide Step, Does, Eval, SetD32, GetD, OnlyRegisters, IsSingle, FloatBits;
    DecodedIsAddressed(code, st, Flt(a, dst));
    Powered(code, ticks, st, Flt(a, dst));
    var v := Signed16(Eval(st.img, a));
    PairWritten(st.img, dst, FloatBits(v));
    FloatParts(v);
  }

  lemma FloatParts(v: int)
    requires -0x8000 <= v < 0x8000
    ensures IsSingle(FloatBits(v), v)
  {
    if v != 0 {
      FloatFields(v);
    }
  }

  lemma FloatFields(v: int)
    requires -0x8000 <= v < 0x8000 && v != 0
    ensures IsSingle(FloatBits(v), v)
  {
    var a := Magnitude(v);
    var l := Log2(a);
    Normalized(a);
    var shifted := Shifted(a, 23 - l);
    assert FloatBits(v) == (if v < 0 then 0x8000_0000 else 0) + (127 + l) * 0x80_0000 + (shifted - 0x80_0000);
    hide Shifted, Log2, FloatBits, Pow2;
    Fields(if v < 0 then 1 else 0, 127 + l, shifted - 0x80_0000);
    NormalValue(a);
  }

  lemma NormalValue(a: nat)
    requires 0 < a <= 0x8000 && Log2(a) <= 15
    ensures a * 0x80_0000 == Shifted(a, 23 - Log2(a)) * Pow2(Log2(a))
  {
    hide Shifted, Log2, Pow2;
    var l := Log2(a);
    ShiftedValue(a, 23 - l);
    Pow2Sum(23 - l, l);
    Pow2Of23();
    Regroup(a, Pow2(23 - l), Pow2(l));
  }

  lemma Fields(sign: nat, e: nat, fraction: nat)
    requires sign <= 1 && e <= 255 && fraction < 0x80_0000
    ensures var bits := sign * 0x8000_0000 + e * 0x80_0000 + fraction;
            bits / 0x8000_0000 == sign && bits / 0x80_0000 % 256 == e && bits % 0x80_0000 == fraction
  {
  }

  lemma Regroup(a: nat, b: nat, c: nat)
    ensures a * b * c == a * (b * c)
  {
  }

  // --------------------------------------------------- relays and blocks

  /** Three flags in a row. */
  lemma FlagsWritten(img: Image, kind: Byte, num: Byte, p: bool, q: bool, r: bool, dev: Byte, m: Byte)
    requires num + 2 <= 255
    ensures var after := WriteBit(WriteBit(WriteBit(img, kind, num, p), kind, (num + 1) % 256, q),
                                  kind, (num + 2) % 256, r);
            && ReadBit(after, dev, m) ==
               (if dev == kind && num <= m <= num + 2 && Writable(dev, m) then [p, q, r][m - num]
                else ReadBit(img, dev, m))
            && after.t == img.t && after.c == img.c && after.d == img.d && after.ds == img.ds
  {
    hide ReadBit, WriteBit, Writable;
    var one := WriteBit(img, kind, num, p);
    var two := WriteBit(one, kind, num + 1, q);
    ReadOverWriteBit(img, kind, num, p, dev, m);
    ReadOverWriteBit(one, kind, num + 1, q, dev, m);
    ReadOverWriteBit(two, kind, num + 2, r, dev, m);
    WriteKeepsNumbers(img, kind, num, p);
    WriteKeepsNumbers(one, kind, num + 1, q);
    WriteKeepsNumbers(two, kind, num + 2, r);
  }

  lemma WriteKeepsNumbers(img: Image, kind: Byte, num: Byte, v: bool)
    ensures var after := WriteBit(img, kind, num, v);
            after.t == img.t && after.c == img.c && after.d == img.d && after.ds == img.ds
  {
  }

  /** CMP: of its three flags the first says greater, the second equal, the third less, as signed numbers; nothing else
      changes. */
  lemma Compared(code: Code, ticks: Ticks, st: State, a: Source, b: Source, flags: Device, dev: Byte, m: Byte)
    requires Does(code, st, Cmp(a, b, flags)) && st.result
    ensures var after, x, y := Step(code, ticks, st).img, Signed16(Eval(st.img, a)), Signed16(Eval(st.img, b));
            && ReadBit(after, dev, m) ==
               (if dev == flags.kind && flags.num <= m <= flags.num + 2 && Writable(dev, m) then
                  [x > y, x == y, x < y][m - flags.num]
                else ReadBit(st.img, dev, m))
            && after.t == st.img.t && after.c == st.img.c && after.d == st.img.d && after.ds == st.img.ds
  {
    hide Step, Does, Eval, WriteBit, ReadBit, Writable;
    DecodedIsAddressed(code, st, Cmp(a, b, flags));
    Powered(code, ticks, st, Cmp(a, b, flags));
    var x, y := Signed16(Eval(st.img, a)), Signed16(Eval(st.img, b));
    FlagsWritten(st.img, flags.kind, flags.num, x > y, x == y, x < y, dev, m);
  }

  /** BMOV: the source as it was, whatever the overlap. */
  lemma BlockMoved(code: Code, ticks: Ticks, st: State, from: nat, dst: nat, n: Source, i: nat)
    requires Does(code, st, Bmov(from, dst, n)) && Legal(st.img, Bmov(from, dst, n)) && st.result
    ensures var after := Step(code, ticks, st).img;
            && OnlyRegisters(after, st.img, dst, Eval(st.img, n))
            && (i < Eval(st.img, n) ==> GetD(after, dst + i) == GetD(st.img, from + i))
  {
    hide Step, Does, Eval;
    Powered(code, ticks, st, Bmov(from, dst, n));
  }

  /** FMOV. */
  lemma BlockFilled(code: Code, ticks: Ticks, st: State, a: Source, dst: nat, n: Source, i: nat)
    requires Does(code, st, Fmov(a, dst, n)) && Legal(st.img, Fmov(a, dst, n)) && st.result
    ensures var after := Step(code, ticks, st).img;
            && OnlyRegisters(after, st.img, dst, Eval(st.img, n))
            && (i < Eval(st.img, n) ==> GetD(after, dst + i) == Eval(st.img, a))
  {
    hide Step, Does, Eval;
    Powered(code, ticks, st, Fmov(a, dst, n));
  }

  /** SFTR by k: every device of the window takes the state k places above it, the source enters at offset n - k, the
      other vacated ones are off; nothing else changes. */
  lemma ShiftedDown(code: Code, ticks: Ticks, st: State, bit: Device, window: Device, length: Source, shifts: Source,
        dev: Byte, m: Byte)
    requires var op := Sftr(bit, window, length, shifts); Does(code, st, op) && Legal(st.img, op) && st.result
    ensures var after, n, k := Step(code, ticks, st).img, Eval(st.img, length), Eval(st.img, shifts);
            var top := window.num + n - 1;
            && ReadBit(after, dev, m) ==
               (if dev == window.kind && window.num <= m <= top && Writable(dev, m) then
                  if m + k <= top then ReadBit(st.img, dev, m + k)
                  else m + k == top + 1 && ReadBit(st.img, bit.kind, bit.num) && Writable(dev, top)
                else ReadBit(st.img, dev, m))
            && after.t == st.img.t && after.c == st.img.c && after.d == st.img.d && after.ds == st.img.ds
  {
    hide Step, Does, Eval, ReadBit, Writable, SftrEffect;
    Powered(code, ticks, st, Sftr(bit, window, length, shifts));
    SftrMoves(st.img, bit, window, Eval(st.img, length), Eval(st.img, shifts), dev, m);
  }

  lemma FifoFrame(img: Image, table: nat, v: Word, n: Word, dst: nat)
    requires n >= 2 && table + n <= 8000 && dst < 8000
    ensures var after := SfwrEffect(img, v, table, n); after == img.(d := after.d, ms := after.ms)
    ensures var after := SfrdEffect(img, table, dst); after == img.(d := after.d, ms := after.ms, ds := after.ds)
  {
    ReadFrame(SetD(SetM(img, 8020, false), dst, GetD(img, (table + 1) % 0x1_0000)), table, 1, GetD(img, table));
  }

  lemma {:induction false} ReadFrame(img: Image, table: nat, i: nat, pointer: nat)
    ensures var after := CloseUp(img, table, i, pointer); after == img.(d := after.d, ds := after.ds)
    decreases pointer - i
  {
    if i < pointer {
      ReadFrame(SetD(img, (table + i) % 0x1_0000, GetD(img, (table + i + 1) % 0x1_0000)), table, i + 1, pointer);
    }
  }

  /** SFWR appends to the queue that its table holds, or sets M8022 when that is full. */
  lemma QueueWritten(code: Code, ticks: Ticks, st: State, a: Source, t: Table, n: Source, q: seq<Word>)
    requires Does(code, st, Sfwr(a, t.base, n)) && st.result && t.n == Eval(st.img, n)
    requires Placed(t) && Fifo.Holds(st.img, t, q)
    ensures var after := Step(code, ticks, st).img;
            && Fifo.Holds(after, t, if |q| < t.n - 1 then q + [Eval(st.img, a)] else q)
            && GetM(after, 8022) == (|q| >= t.n - 1) && SameElsewhere(after, st.img, t)
            && after == st.img.(d := after.d, ms := after.ms)
  {
    hide Step, Does, Eval, SfwrEffect, Fifo.Holds, SameElsewhere, GetM, SfrdEffect;
    Powered(code, ticks, st, Sfwr(a, t.base, n));
    WriteRefines(st.img, t, q, Eval(st.img, a));
    FifoFrame(st.img, t.base, Eval(st.img, a), t.n, t.dst);
  }

  /** SFRD takes the oldest entry off it, or sets M8020 when it is empty. */
  lemma QueueRead(code: Code, ticks: Ticks, st: State, t: Table, n: Source, q: seq<Word>)
    requires Does(code, st, Sfrd(t.base, t.dst, n)) && st.result && t.n == Eval(st.img, n)
    requires Placed(t) && Fifo.Holds(st.img, t, q)
    ensures var after := Step(code, ticks, st).img;
            && Fifo.Holds(after, t, if q == [] then q else q[1..]) && GetM(after, 8020) == (q == [])
            && GetD(after, t.dst) == (if q == [] then GetD(st.img, t.dst) else q[0]) && SameElsewhere(after, st.img, t)
            && after == st.img.(d := after.d, ms := after.ms, ds := after.ds)
  {
    hide Step, Does, Eval, SfwrEffect, Fifo.Holds, SameElsewhere, GetM, SfrdEffect;
    Powered(code, ticks, st, Sfrd(t.base, t.dst, n));
    ReadRefines(st.img, t, q);
    FifoFrame(st.img, t.base, 0, t.n, t.dst);
  }

  /** The number of the highest one that is on, 0 when none is. */
  predicate IsHighest(k: nat, on: seq<bool>) {
    && (forall j :: k < j < |on| ==> !on[j])
    && ((k < |on| && on[k]) || (k == 0 && forall j :: 0 <= j < |on| ==> !on[j]))
  }

  lemma HighestIs(img: Image, dst: nat, on: seq<bool>)
    requires dst < 8000 && |on| <= 16
    ensures var after := SetD(img, dst, HighestOn(on) % 0x1_0000);
            OnlyRegisters(after, img, dst, 1) && IsHighest(GetD(after, dst), on)
  {
    hide SetD, GetD, OnlyRegisters;
    RegisterWritten(img, dst, HighestOn(on) % 0x1_0000);
  }

  lemma Widths()
    ensures Pow2(1) == 2 && Pow2(2) == 4 && Pow2(3) == 8 && Pow2(4) == 16
  {
  }

  /** ENCO of the low 2, 4, 8 or 16 bits of a word. */
  lemma EncodedWord(code: Code, ticks: Ticks, st: State, a: Source, dst: nat, n: Source)
    requires Does(code, st, EncoWord(a, dst, n)) && Legal(st.img, EncoWord(a, dst, n)) && st.result
    ensures var after, width := Step(code, ticks, st).img, [0, 2, 4, 8, 16][Eval(st.img, n)];
            && OnlyRegisters(after, st.img, dst, 1)
            && IsHighest(GetD(after, dst), seq(width, j requires 0 <= j < width => Bit(Eval(st.img, a), j)))
  {
    hide Step, Does, Eval, SetD, GetD, OnlyRegisters, Bit, Pow2, IsHighest;
    var width := [0, 2, 4, 8, 16][Eval(st.img, n)];
    Widths();
    Powered(code, ticks, st, EncoWord(a, dst, n));
    HighestIs(st.img, dst, BitsOf(Eval(st.img, a), width));
  }

  /** ENCO of as many devices. */
  lemma EncodedBits(code: Code, ticks: Ticks, st: State, first: Device, dst: nat, n: Source)
    requires Does(code, st, EncoBits(first, dst, n)) && Legal(st.img, EncoBits(first, dst, n)) && st.result
    ensures var after, width := Step(code, ticks, st).img, [0, 2, 4, 8, 16][Eval(st.img, n)];
            && OnlyRegisters(after, st.img, dst, 1)
            && IsHighest(GetD(after, dst), seq(width, j requires 0 <= j < width =>
                 ReadBit(st.img, first.kind, (first.num + j) % 256)))
  {
    hide Step, Does, Eval, SetD, GetD, OnlyRegisters, ReadBit, Pow2, IsHighest;
    var width := [0, 2, 4, 8, 16][Eval(st.img, n)];
    Widths();
    Powered(code, ticks, st, EncoBits(first, dst, n));
    HighestIs(st.img, dst, ReadRun(st.img, first.kind, first.num, width));
  }

  /** BON copies one bit. D28 + n index the source if it is an array, else the target if that is one; otherwise n alone
      indexes the source, within its 256 numbers. */
  lemma BitOnMoved(code: Code, ticks: Ticks, st: State, bit: Device, bitGroup: bool, target: Device, targetGroup: bool,
        n: Source, dev: Byte, m: Byte)
    requires var op := Bon(bit, bitGroup, target, targetGroup, n);
             Does(code, st, op) && Legal(st.img, op) && st.result
    ensures var after, i, index := Step(code, ticks, st).img, Eval(st.img, n), GetD(st.img, 28);
            var to := target.num + (if targetGroup && !bitGroup then index + i else 0);
            var from := if bitGroup then bit.num + index + i else if targetGroup then bit.num else (bit.num + i) % 256;
            && ReadBit(after, dev, m) ==
               (if dev == target.kind && m == to && Writable(dev, m) then ReadBit(st.img, bit.kind, from)
                else ReadBit(st.img, dev, m))
            && after.t == st.img.t && after.c == st.img.c && after.d == st.img.d && after.ds == st.img.ds
  {
    hide Step, Does, Eval, ReadBit, WriteBit, Writable, GetD;
    Powered(code, ticks, st, Bon(bit, bitGroup, target, targetGroup, n));
    var i, index := Eval(st.img, n), GetD(st.img, 28);
    var to := target.num + (if targetGroup && !bitGroup then index + i else 0);
    var from := if bitGroup then bit.num + index + i else if targetGroup then bit.num else (bit.num + i) % 256;
    ReadOverWriteBit(st.img, target.kind, to, ReadBit(st.img, bit.kind, from), dev, m);
    WriteKeepsNumbers(st.img, target.kind, to, ReadBit(st.img, bit.kind, from));
  }
}
