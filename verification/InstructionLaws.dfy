/** What the other executed instructions leave behind: coils, moves, shifts, drums, comparisons. */
module InstructionLaws {
  import opened Words
  import opened Devices
  import opened Timers
  import opened Instructions
  import opened Applied
  import opened Ladder
  import opened LadderScan
  import opened BlockMoves

  /** The next instruction is this one. */
  predicate Next(code: Code, st: State, instr: Instr) { Decode(code, st.off).instr == instr }

  /** The state after its words, with everything else as it was. */
  function Passed(code: Code, st: State): State { GoOn(st, Decode(code, st.off).next) }

  /** The numbers of an image are as they were: timers, counters and registers. */
  predicate SameNumbers(after: Image, before: Image) {
    after.t == before.t && after.c == before.c && after.d == before.d && after.ds == before.ds
  }

  lemma StepExec(code: Code, ticks: Ticks, st: State)
    requires !Decode(code, st.off).instr.Blank? && !Decode(code, st.off).instr.StlStep?
    ensures Step(code, ticks, st) ==
            Exec(code, ticks, Passed(code, st), Decode(code, st.off).instr, Fetch(code, st.off), st.outputJust)
  {
    hide Decode, Fetch, Exec;
  }

  // --------------------------------------------------------------- coils

  lemma CoilStep(code: Code, ticks: Ticks, st: State, instr: Instr)
    requires Next(code, st, instr) && IsCoil(instr)
    ensures var after, passed := Step(code, ticks, st), Passed(code, st);
            && (instr.Out? ==> after == ExecOut(passed, instr.dev))
            && (instr.Set? ==> after == ExecSet(passed, instr.dev))
            && (instr.Rst? ==> after == ExecRst(passed, instr.dev))
            && (instr.SetState? ==> after == ExecSetState(passed, instr.n))
  {
    hide Decode, Fetch, Exec, ExecOut, ExecSet, ExecRst, ExecSetState, Step;
    StepExec(code, ticks, st);
    ExecOfCoil(code, ticks, Passed(code, st), instr, Fetch(code, st.off), st.outputJust);
  }

  lemma BitWritten(img: Image, target: Device, v: bool, dev: Byte, m: Byte)
    ensures var after := WriteBit(img, target.kind, target.num, v);
            && ReadBit(after, dev, m) == (if Dev(dev, m) == target && Writable(dev, m) then v else ReadBit(img, dev, m))
            && SameNumbers(after, img)
  {
    hide ReadBit, Writable;
    ReadOverWriteBit(img, target.kind, target.num, v, dev, m);
  }

  /** OUT: the coil takes the state of the rung; nothing else does. Inside STL this is about coils other than S. */
  lemma OutLaw(code: Code, ticks: Ticks, st: State, coil: Device, dev: Byte, m: Byte)
    requires Next(code, st, Out(coil)) && !(st.stl.active && coil.kind <= 3)
    ensures var after := Step(code, ticks, st);
            && ReadBit(after.img, dev, m) ==
               (if Dev(dev, m) == coil && Writable(dev, m) then st.result else ReadBit(st.img, dev, m))
            && SameNumbers(after.img, st.img)
            && after == Passed(code, st).(img := after.img, block := [], outputJust := true)
  {
    hide Step, ReadBit, WriteBit, Writable, SameNumbers;
    CoilStep(code, ticks, st, Out(coil));
    BitWritten(st.img, coil, st.result, dev, m);
  }

  /** SET: with power the coil goes on, without nothing happens. */
  lemma SetLaw(code: Code, ticks: Ticks, st: State, coil: Device, dev: Byte, m: Byte)
    requires Next(code, st, Set(coil))
    ensures var after := Step(code, ticks, st);
            && ReadBit(after.img, dev, m) ==
               (ReadBit(st.img, dev, m) || (Dev(dev, m) == coil && Writable(dev, m) && st.result))
            && SameNumbers(after.img, st.img)
            && after == Passed(code, st).(img := after.img, block := [], stl := after.stl)
  {
    hide Step, ReadBit, WriteBit, Writable, SameNumbers;
    CoilStep(code, ticks, st, Set(coil));
    BitWritten(st.img, coil, true, dev, m);
    NumbersStay(st.img);
  }

  lemma NumbersStay(img: Image)
    ensures SameNumbers(img, img)
  {
  }

  /** RST of a relay: with power it goes off. */
  lemma RstLaw(code: Code, ticks: Ticks, st: State, coil: Device, dev: Byte, m: Byte)
    requires Next(code, st, Rst(coil)) && coil.kind != 6 && coil.kind != 14
    ensures var after := Step(code, ticks, st);
            && ReadBit(after.img, dev, m) ==
               (ReadBit(st.img, dev, m) && !(Dev(dev, m) == coil && Writable(dev, m) && st.result))
            && SameNumbers(after.img, st.img)
            && after == Passed(code, st).(img := after.img, block := [])
  {
    hide Step, ReadBit, WriteBit, Writable, SameNumbers;
    CoilStep(code, ticks, st, Rst(coil));
    BitWritten(st.img, coil, false, dev, m);
    NumbersStay(st.img);
  }

  /** RST of a timer or counter: with power it reads 0 and its contact is off; no other one changes, and no relay. */
  lemma RstNumberLaw(code: Code, ticks: Ticks, st: State, coil: Device)
    requires Next(code, st, Rst(coil)) && (coil.kind == 6 || coil.kind == 14)
    ensures var after, n := Step(code, ticks, st).img, coil.num;
            && (!st.result ==> after == st.img)
            && (st.result && coil.kind == 6 ==>
                  after == st.img.(t := after.t) && after.t[n].current == 0 && !after.t[n].done
                  && forall i :: 0 <= i < 256 && i != n ==> after.t[i] == st.img.t[i])
            && (st.result && coil.kind == 14 ==>
                  after == st.img.(c := after.c) && after.c[n].current == 0 && !after.c[n].done && !after.c[n].lastIn
                  && forall i :: 0 <= i < 256 && i != n ==> after.c[i] == st.img.c[i])
  {
    hide Step;
    CoilStep(code, ticks, st, Rst(coil));
  }

  /** A pulse coil: under its prefix it gets the edge of its rung, against the rung of its last execution; nothing else
      does. Without one it is refused, and clears the block stack all the same. */
  lemma PulseLaw(code: Code, ticks: Ticks, st: State, coil: Device, dev: Byte, m: Byte)
    requires Next(code, st, Pulse(coil)) && st.off < PROGRAM_BYTES
    ensures var after, step := Step(code, ticks, st), st.off / 2;
            var was := step in st.edges;
            && (st.pulse == NoPulse ==>
                  after == Refused(Passed(code, st), Fetch(code, st.off)).(block := []))
            && (st.pulse != NoPulse ==>
                  && ReadBit(after.img, dev, m) ==
                     (if Dev(dev, m) == coil && Writable(dev, m) then
                        if st.pulse == Falling then was && !st.result else st.result && !was
                      else ReadBit(st.img, dev, m))
                  && SameNumbers(after.img, st.img)
                  && (step in after.edges <==> st.result)
                  && (forall k: nat :: k != step ==> (k in after.edges <==> k in st.edges))
                  && after == Passed(code, st).(img := after.img, edges := after.edges, pulse := NoPulse, block := []))
  {
    PulseIsPlain(code, st.off);
    hide Decode, Fetch, Step, ReadBit, WriteBit, Writable, SameNumbers;
    StepExec(code, ticks, st);
    hide Exec;
    ExecOfCoil(code, ticks, Passed(code, st), Pulse(coil), Fetch(code, st.off), st.outputJust);
    var fires := if st.pulse == Falling then st.off / 2 in st.edges && !st.result
                 else st.result && st.off / 2 !in st.edges;
    BitWritten(st.img, coil, fires, dev, m);
  }

  lemma PulseIsPlain(code: Code, off: nat)
    requires Decode(code, off).instr.Pulse?
    ensures Decode(code, off).next == off + 2
  {
    hide Fetch, DecodeMisc;
    MiscIsNoPulse(code, Low(Fetch(code, off)), off + 2);
  }

  lemma MiscIsNoPulse(code: Code, operand: Byte, p: nat)
    ensures !DecodeMisc(code, operand, p).instr.Pulse?
  {
    hide Fetch, ParseApplied, WordOperand, BitOperand, RegisterOperand;
  }

  /** SET S, RST S and OUT S by their two-word forms. */
  lemma StateLaw(code: Code, ticks: Ticks, st: State, instr: Instr, i: nat)
    requires Next(code, st, instr) && (instr.SetState? || instr.RstState? || instr.OutState?) && i < 1000
    ensures var after := Step(code, ticks, st).img;
            && after == st.img.(s := after.s)
            && after.s[i] == (if i != instr.n then st.img.s[i]
                              else if instr.SetState? then st.img.s[i] || st.result
                              else if instr.RstState? then st.img.s[i] && !st.result
                              else st.result)
  {
    hide Decode, Fetch;
  }

  /** Word 0x01CA puts an input on the rung, whatever the step. */
  lemma EnableLaw(code: Code, ticks: Ticks, st: State, x: Byte)
    requires Next(code, st, CounterEnable(x))
    ensures Step(code, ticks, st) == Passed(code, st).(result := GetFlag(st.img.x, x))
  {
    hide Decode, Fetch;
  }

  /** OUT T: with power the timer counts the ticks of its base, T0-T199 and T250-T255 100 ms, T200-T245 10 ms, T246-T249
      1 ms, up to the preset, where it is done, or to 65535; one that is done stays so until power fails or it is
      reset. Without power T0-T245 restart and T246-T255 keep what they have. */
  lemma TimerCoilLaw(code: Code, ticks: Ticks, st: State, idx: Byte, preset: Source)
    requires Next(code, st, OutTimer(idx, preset))
    ensures var after, was, p := Step(code, ticks, st).img.t, st.img.t[idx], Eval(st.img, preset);
            var due := was.current + (if 200 <= idx < 246 then ticks.ms10
                                      else if 246 <= idx < 250 then ticks.ms1
                                      else ticks.ms100);
            && after[idx].preset == p && after[idx].driven == st.result
            && (st.result && p > 0 && due >= p ==> after[idx].current == p && after[idx].done)
            && (st.result && (p == 0 || due < p) ==>
                  after[idx].current == (if due > 65535 then 65535 else due) && after[idx].done == was.done)
            && (!st.result && idx < 246 ==> after[idx].current == 0 && !after[idx].done)
            && (!st.result && idx >= 246 ==> after[idx].current == was.current && after[idx].done == was.done)
            && forall i :: 0 <= i < 256 && i != idx ==> after[i] == st.img.t[i]
  {
    hide Decode, Fetch, Eval;
    StepExec(code, ticks, st);
  }

  /** OUT C: the edge of its rung counts, C0-C199 up to the preset, C200-C255 up or, with M8200 + (idx - 200) on, down
      in 32 bits. C0-C199 stay done once they are; C200-C255 are done as of their last edge. */
  lemma CounterCoilLaw(code: Code, ticks: Ticks, st: State, idx: Byte, preset: Source)
    requires Next(code, st, OutCounter(idx, preset))
    ensures var after, was, p := Step(code, ticks, st).img.c, st.img.c[idx], Eval(st.img, preset);
            var rises := st.result && !was.lastIn;
            && after[idx].preset == p && after[idx].lastIn == st.result
            && (!rises ==> after[idx].current == was.current && after[idx].done == was.done)
            && (rises && idx < 200 ==>
                  && after[idx].current == (if was.current < p then was.current + 1 else was.current)
                  && after[idx].done == (was.done || after[idx].current >= p))
            && (rises && idx >= 200 ==>
                  && (after[idx].current - was.current - (if st.img.ms[idx] then -1 else 1)) % 0x1_0000_0000 == 0
                  && after[idx].done == (after[idx].current >= p))
            && forall i :: 0 <= i < 256 && i != idx ==> after[i] == st.img.c[i]
  {
    hide Decode, Fetch, Eval;
    StepExec(code, ticks, st);
  }

  /** OUT T and OUT C clear the block stack; what they do to the numbers is in TimerScans. */
  lemma PresetLaw(code: Code, ticks: Ticks, st: State, instr: Instr)
    requires Next(code, st, instr) && (instr.OutTimer? || instr.OutCounter?)
    ensures var after := Step(code, ticks, st);
            && after == Passed(code, st).(img := after.img, block := [])
            && after.img == st.img.(t := after.img.t, c := after.img.c)
  {
    hide Decode, Fetch, Driven, Counted, Eval;
  }

  /** RET closes the step: the rung is off, nothing is gated any more, and no source is left to transfer. */
  lemma RetLaw(code: Code, ticks: Ticks, st: State)
    requires Next(code, st, Ret)
    ensures var after := Step(code, ticks, st);
            && after == Passed(code, st).(result := false, stl := after.stl)
            && !after.stl.active && !after.stl.accepting && after.stl.sources == [] && after.stl.queued == st.stl.queued
  {
    hide Decode, Fetch;
  }

  /** Erased words are passed over; everything about the rung stays, a CALL right after OUT included. */
  lemma BlankLaw(code: Code, ticks: Ticks, st: State)
    requires Fetch(code, st.off) == 0xFFFF
    ensures Step(code, ticks, st) == st.(off := st.off + 2)
  {
    hide Fetch, DecodeMisc;
  }

  /** A word that is no instruction is counted and remembered; those that should have put a comparison or an input on
      the rung take the power off it. */
  lemma UnknownLaw(code: Code, ticks: Ticks, st: State, breaks: bool)
    requires Next(code, st, Unknown(breaks))
    ensures var after := Refused(Passed(code, st), Fetch(code, st.off));
            Step(code, ticks, st) == if breaks then after.(result := false) else after
    ensures var word := Fetch(code, st.off);
            breaks <==> word == 0x01CA || (0x01D0 <= word <= 0x01FF && word % 16 / 2 !in {3, 7})
  {
    UnknownWord(code, st.off);
    hide Decode, Fetch;
  }

  lemma UnknownWord(code: Code, off: nat)
    requires Decode(code, off).instr.Unknown?
    ensures var word := Fetch(code, off);
            Decode(code, off).instr.breaksRung <==>
            word == 0x01CA || (0x01D0 <= word <= 0x01FF && word % 16 / 2 !in {3, 7})
  {
    hide Fetch, DecodeMisc, WordOperand, DecodePreset;
    MiscUnknown(code, Low(Fetch(code, off)), off + 2);
    PresetUnknown(code, High(Fetch(code, off)), Low(Fetch(code, off)), off + 2);
  }

  lemma PresetUnknown(code: Code, opcode: Byte, operand: Byte, p: nat)
    ensures var instr := DecodePreset(code, opcode, operand, p); instr.Unknown? ==> !instr.breaksRung
  {
    hide Fetch, WordOperand;
  }

  lemma MiscUnknown(code: Code, operand: Byte, p: nat)
    ensures var instr := DecodeMisc(code, operand, p).instr; instr.Unknown? ==> !instr.breaksRung
  {
    hide Fetch, ParseApplied, WordOperand, BitOperand;
  }

  // ---------------------------------------------------------- comparisons

  lemma CompareStep(code: Code, ticks: Ticks, st: State, join: Join, relation: Relation, a: Source, b: Source)
    requires Next(code, st, Compare(join, relation, a, b))
    ensures Step(code, ticks, st) == ExecCompare(Passed(code, st), join, relation, a, b)
  {
    hide Decode, Fetch, Exec, ExecCompare, Step;
    StepExec(code, ticks, st);
    ExecOfContact(code, ticks, Passed(code, st), Compare(join, relation, a, b), Fetch(code, st.off), st.outputJust);
  }

  /** Inline comparisons of signed words, by the relation bits of their opcode: 0 equal, 2 greater, 4 less, 8 not equal,
      10 not greater, 12 not less. They start, and or or the rung. */
  lemma CompareLaw(code: Code, ticks: Ticks, st: State, join: Join, relation: Relation, a: Source, b: Source)
    requires Next(code, st, Compare(join, relation, a, b))
    ensures var word, after := Fetch(code, st.off), Step(code, ticks, st);
            var x, y, bits := Signed16(Eval(st.img, a)), Signed16(Eval(st.img, b)), word % 16 / 2 * 2;
            var holds := if bits == 0 then x == y else if bits == 2 then x > y else if bits == 4 then x < y
                         else if bits == 8 then x != y else if bits == 10 then x <= y else bits == 12 && x >= y;
            && after == Passed(code, st).(result := after.result)
            && after.result == (if word / 16 == 0x1E then st.result && holds
                                else if word / 16 == 0x1F then st.result || holds
                                else holds)
  {
    hide Decode, Fetch, Step, Eval, Holds, RelationOf, Signed16;
    CompareWord(code, st.off);
    CompareStep(code, ticks, st, join, relation, a, b);
    RelationBits(Fetch(code, st.off), relation, Signed16(Eval(st.img, a)), Signed16(Eval(st.img, b)));
  }

  lemma RelationBits(word: Word, relation: Relation, x: int, y: int)
    requires RelationOf(word % 16 - word % 2) == Some(relation)
    ensures var bits := word % 16 / 2 * 2;
            Holds(relation, x, y) ==
            if bits == 0 then x == y else if bits == 2 then x > y else if bits == 4 then x < y
            else if bits == 8 then x != y else if bits == 10 then x <= y else bits == 12 && x >= y
  {
    assert word % 2 == word % 16 % 2;
  }

  /** The opcode of a comparison. */
  lemma CompareWord(code: Code, off: nat)
    requires Decode(code, off).instr.Compare?
    ensures var word, instr := Fetch(code, off), Decode(code, off).instr;
            && word / 16 in {0x1D, 0x1E, 0x1F} && RelationOf(word % 16 - word % 2) == Some(instr.relation)
            && instr.join == InlineJoin(word)
  {
    hide Fetch, DecodeMisc, WordOperand;
    MiscIsNoCompare(code, Low(Fetch(code, off)), off + 2);
  }

  lemma MiscIsNoCompare(code: Code, operand: Byte, p: nat)
    ensures !DecodeMisc(code, operand, p).instr.Compare?
  {
    hide Fetch, ParseApplied, WordOperand, BitOperand;
  }

  // --------------------------------------------------------------- moves

  /** MOV: with power the register takes the constant or the register's value; nothing else changes. */
  lemma MovLaw(code: Code, ticks: Ticks, st: State, src: Source, dst: Option<nat>, i: nat)
    requires Next(code, st, Mov(src, dst)) && i < 0x8000
    ensures var after := Step(code, ticks, st);
            && (src.Constant? || src.Register?)
            && GetD(after.img, i) ==
               (if st.result && dst == Some(i) && (i < 8000 || 8000 <= i < 8256) then
                  if src.Constant? then src.v else GetD(st.img, src.i)
                else GetD(st.img, i))
            && after == Passed(code, st).(img := after.img)
            && after.img == st.img.(d := after.img.d, ds := after.img.ds)
  {
    MovOperands(code, st.off);
    hide Decode, Fetch;
  }

  lemma MovOperands(code: Code, off: nat)
    requires Decode(code, off).instr.Mov?
    ensures !Decode(code, off).instr.src.TimerCurrent?
    ensures Decode(code, off).instr.dst.Some? ==> Decode(code, off).instr.dst.value < 0x8000
  {
    hide Fetch, WordOperand, DecodeMisc;
    MiscMov(code, Low(Fetch(code, off)), off + 2);
  }

  lemma MiscMov(code: Code, operand: Byte, p: nat)
    ensures var instr := DecodeMisc(code, operand, p).instr;
            instr.Mov? ==> !instr.src.TimerCurrent? && (instr.dst.Some? ==> instr.dst.value < 0x8000)
  {
    hide Fetch, ParseApplied, WordOperand, BitOperand;
  }

  lemma Around(first: Byte, k: nat, m: Byte)
    requires k < 256
    ensures (first + k) % 256 == m <==> (m - first) % 256 == k
  {
  }

  /** A run of devices that wraps at 256. */
  lemma {:induction false} ReadOverRun(img: Image, kind: Byte, first: Byte, bits: seq<bool>, dev: Byte, m: Byte)
    requires |bits| <= 256
    ensures var i, after := (m - first) % 256, WriteRun(img, kind, first, bits);
            && ReadBit(after, dev, m) ==
               (if dev == kind && i < |bits| && Writable(dev, m) then bits[i] else ReadBit(img, dev, m))
            && SameNumbers(after, img)
  {
    hide ReadBit, WriteBit, Writable;
    WriteRunFrame(img, kind, first, bits);
    if bits != [] {
      var k := |bits| - 1;
      ReadOverRun(img, kind, first, bits[..k], dev, m);
      ReadOverWriteBit(WriteRun(img, kind, first, bits[..k]), kind, (first + k) % 256, bits[k], dev, m);
      Around(first, k, m);
    }
  }

  lemma BlockStep(code: Code, ticks: Ticks, st: State, instr: Instr)
    requires Next(code, st, instr) && IsBlock(instr)
    ensures var after, passed, word := Step(code, ticks, st), Passed(code, st), Fetch(code, st.off);
            && (instr.Zrst? ==> after == ExecZrst(passed, instr.kind, instr.lowest, instr.highest))
            && (instr.Sftl? ==> after == ExecSftl(passed, instr.bit, instr.window, instr.length, instr.shifts, word))
            && (instr.Absd? ==> after == ExecAbsd(passed, instr.table, instr.counter, instr.first, instr.count, word))
            && (instr.Deco? ==> after == ExecDeco(passed, instr.counter, instr.first, instr.width, word))
            && (instr.MovBits? ==> after == ExecMovBits(passed, instr.from, instr.to))
  {
    hide Decode, Fetch, ExecZrst, ExecSftl, ExecAbsd, ExecDeco, ExecMovBits, ExecApplied, ExecMov;
  }

  /** MOV of sixteen devices, copied as they were. */
  lemma MovBitsLaw(code: Code, ticks: Ticks, st: State, from: Device, to: Device, dev: Byte, m: Byte)
    requires Next(code, st, MovBits(from, to))
    ensures var after, i := Step(code, ticks, st), (m - to.num) % 256;
            && ReadBit(after.img, dev, m) ==
               (if st.result && dev == to.kind && i < 16 && Writable(dev, m) then
                  ReadBit(st.img, from.kind, (from.num + i) % 256)
                else ReadBit(st.img, dev, m))
            && SameNumbers(after.img, st.img) && after == Passed(code, st).(img := after.img)
  {
    hide Step, ReadBit, WriteRun, Writable, SameNumbers, Decode;
    BlockStep(code, ticks, st, MovBits(from, to));
    ReadOverRun(st.img, to.kind, to.num, ReadRun(st.img, from.kind, from.num, 16), dev, m);
    NumbersStay(st.img);
  }

  /** ZRST: with power every relay from the lowest to the highest goes off. */
  lemma ZrstLaw(code: Code, ticks: Ticks, st: State, kind: Byte, lowest: Byte, highest: Byte, dev: Byte, m: Byte)
    requires Next(code, st, Zrst(kind, lowest, highest))
    ensures var after := Step(code, ticks, st);
            && ReadBit(after.img, dev, m) ==
               (ReadBit(st.img, dev, m)
                && !(st.result && dev == kind && lowest <= m <= highest && Writable(dev, m)))
            && SameNumbers(after.img, st.img) && after == Passed(code, st).(img := after.img)
  {
    hide Step, ReadBit, WriteRun, Writable, SameNumbers, Decode;
    BlockStep(code, ticks, st, Zrst(kind, lowest, highest));
    NumbersStay(st.img);
    if lowest <= highest {
      ReadOverRun(st.img, kind, lowest, Repeat(false, highest - lowest + 1), dev, m);
    }
  }

  /** SFTL by k: every device of the window takes the state k places below it, the source enters at offset k - 1, the
      other vacated ones are off. A length of 0, more places than devices, or a window past number 255 is refused. */
  lemma SftlLaw(code: Code, ticks: Ticks, st: State, bit: Device, window: Device, length: Source, shifts: Source,
        dev: Byte, m: Byte)
    requires Next(code, st, Sftl(bit, window, length, shifts))
    ensures var after, passed := Step(code, ticks, st), Passed(code, st);
            var n, k := Eval(st.img, length), Eval(st.img, shifts);
            if n == 0 || k > n || window.num + n > 256 then after == Refused(passed, Fetch(code, st.off))
            else
              && after == passed.(img := after.img) && SameNumbers(after.img, st.img)
              && ReadBit(after.img, dev, m) ==
                 (if st.result && dev == window.kind && window.num <= m < window.num + n && Writable(dev, m) then
                    if m - window.num >= k then ReadBit(st.img, dev, m - k)
                    else m - window.num == k - 1 && ReadBit(st.img, bit.kind, bit.num)
                  else ReadBit(st.img, dev, m))
  {
    hide Step, ReadBit, Writable, SftlEffect, Decode, Eval, Fetch;
    BlockStep(code, ticks, st, Sftl(bit, window, length, shifts));
    var n, k := Eval(st.img, length), Eval(st.img, shifts);
    if k <= n && window.num + n <= 256 {
      SftlMoves(st.img, bit, window, n, k, dev, m);
    }
  }

  /** ABSD: output i is on exactly while the counter has reached the first threshold of its pair and not the second.
      More than 64 outputs, a table past D7999 or outputs past number 255 are refused. */
  lemma AbsdLaw(code: Code, ticks: Ticks, st: State, table: nat, counter: Byte, first: Device, count: Source, dev: Byte,
        m: Byte)
    requires Next(code, st, Absd(table, counter, first, count))
    ensures var after, passed, n := Step(code, ticks, st), Passed(code, st), Eval(st.img, count);
            if n > 64 || table + 2 * n > 8000 || first.num + n > 256 then after == Refused(passed, Fetch(code, st.off))
            else
              && after == passed.(img := after.img) && SameNumbers(after.img, st.img)
              && ReadBit(after.img, dev, m) ==
                 (if st.result && dev == first.kind && first.num <= m < first.num + n && Writable(dev, m) then
                    var i, current := m - first.num, st.img.c[counter].current;
                    GetD(st.img, table + 2 * i) <= current && current < GetD(st.img, table + 2 * i + 1)
                  else ReadBit(st.img, dev, m))
  {
    hide Step, ReadBit, WriteRun, Writable, Decode, Eval, Fetch, GetD;
    BlockStep(code, ticks, st, Absd(table, counter, first, count));
    var n := Eval(st.img, count);
    if n <= 64 && table + 2 * n <= 8000 && first.num + n <= 256 {
      ReadOverRun(st.img, first.kind, first.num, DrumBits(st.img, table, st.img.c[counter].current, n), dev, m);
    }
  }

  /** DECO: of 2, 4, .. 256 outputs exactly the one the counter selects is on. A width of 0 or above 8 and outputs past
      number 255 are refused. */
  lemma DecoLaw(code: Code, ticks: Ticks, st: State, counter: Byte, first: Device, width: Source, dev: Byte, m: Byte)
    requires Next(code, st, Deco(counter, first, width))
    ensures var after, passed, w := Step(code, ticks, st), Passed(code, st), Eval(st.img, width);
            var n := if 1 <= w <= 8 then [0, 2, 4, 8, 16, 32, 64, 128, 256][w] else 0;
            if n == 0 || first.num + n > 256 then after == Refused(passed, Fetch(code, st.off))
            else
              && after == passed.(img := after.img) && SameNumbers(after.img, st.img)
              && ReadBit(after.img, dev, m) ==
                 (if st.result && dev == first.kind && first.num <= m < first.num + n && Writable(dev, m) then
                    m - first.num == st.img.c[counter].current
                  else ReadBit(st.img, dev, m))
  {
    hide Step, ReadBit, WriteRun, Writable, Decode, Eval, Fetch, Pow2;
    EightPowers();
    BlockStep(code, ticks, st, Deco(counter, first, width));
    var w := Eval(st.img, width);
    if 1 <= w <= 8 && first.num + Pow2(w) <= 256 {
      ReadOverRun(st.img, first.kind, first.num, OneHotBits(st.img.c[counter].current, Pow2(w)), dev, m);
    }
  }

  lemma EightPowers()
    ensures Pow2(1) == 2 && Pow2(2) == 4 && Pow2(3) == 8 && Pow2(4) == 16
    ensures Pow2(5) == 32 && Pow2(6) == 64 && Pow2(7) == 128 && Pow2(8) == 256
  {
  }
}
