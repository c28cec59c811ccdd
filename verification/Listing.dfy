/** Straight-line instruction listings: how one-word instructions are encoded and what running them does. */
module Listing {
  import opened Words
  import opened Devices
  import opened Timers
  import opened Instructions
  import opened Applied
  import opened Ladder

  /** A device that fits an instruction word. */
  type Operand = d: Device | d.kind < 16 witness Dev(0, 0)

  /** The instructions that occupy one word and hand control to the next one. */
  predicate Simple(instr: Instr) {
    match instr
    case Contact(_, _, dev) => dev.kind < 16
    case Out(dev) => dev.kind < 16
    case Set(dev) => dev.kind < 16
    case Rst(dev) => dev.kind < 16
    case StlStep(_) => true
    case Ret => true
    case _ => instr.Mps? || instr.Mrd? || instr.Mpp? || instr.Anb? || instr.Orb?
  }

  type SimpleInstr = i: Instr | Simple(i) witness Ret

  function DeviceWord(op: nat, dev: Operand): Word
    requires op < 16
  {
    (op * 16 + dev.kind) * 256 + dev.num
  }

  function Encode(instr: SimpleInstr): Word {
    match instr
    case Contact(Start, negated, dev) => DeviceWord(if negated then 0x3 else 0x2, dev)
    case Contact(And, negated, dev) => DeviceWord(if negated then 0x5 else 0x4, dev)
    case Contact(Or, negated, dev) => DeviceWord(if negated then 0x7 else 0x6, dev)
    case Out(dev) => DeviceWord(0xC, dev)
    case Set(dev) => DeviceWord(0xD, dev)
    case Rst(dev) => DeviceWord(0xE, dev)
    case StlStep(n) => 0xF000 + n
    case Ret => 0xF700
    case Mps => 0xFFFA
    case Mrd => 0xFFFB
    case Mpp => 0xFFFC
    case Anb => 0xFFF8
    case Orb => 0xFFF9
  }

  lemma DeviceWordParts(op: nat, dev: Operand)
    requires op < 16
    ensures High(DeviceWord(op, dev)) == op * 16 + dev.kind && Low(DeviceWord(op, dev)) == dev.num
    ensures High(DeviceWord(op, dev)) / 16 == op && High(DeviceWord(op, dev)) % 16 == dev.kind
  {
  }

  /** The decoder inverts the encoder. */
  lemma DecodeEncode(code: Code, off: nat, instr: SimpleInstr)
    requires Fetch(code, off) == Encode(instr)
    ensures Decode(code, off) == Decoded(instr, off + 2)
  {
    forall op: nat, dev: Operand | op < 16 {
      DeviceWordParts(op, dev);
    }
    hide Fetch, DeviceWord, DecodePreset, DecodeMisc, DecodeCompare;
    match instr
    case Contact(_, _, dev) => assert Dev(dev.kind, dev.num) == dev;
    case Out(dev) => assert Dev(dev.kind, dev.num) == dev;
    case Set(dev) => assert Dev(dev.kind, dev.num) == dev;
    case Rst(dev) => assert Dev(dev.kind, dev.num) == dev;
    case _ =>
  }

  /** One simple instruction, without reference to program memory. */
  function Do(st: State, instr: SimpleInstr): State {
    var word := Encode(instr);
    var ready := Ready(st, Decoded(instr, st.off + 2));
    match instr
    case StlStep(n) => ExecStl(ready, n, word)
    case Ret => ExecRet(ready)
    case Contact(join, negated, dev) => ExecContact(ready, join, negated, dev)
    case Out(dev) => ExecOut(ready, dev)
    case Set(dev) => ExecSet(ready, dev)
    case Rst(dev) => ExecRst(ready, dev)
    case _ => ExecStack(ready, instr)
  }

  lemma ExecIsDo(code: Code, ticks: Ticks, st: State, instr: SimpleInstr)
    ensures var ready := Ready(st, Decoded(instr, st.off + 2));
            Exec(code, ticks, ready, instr, Encode(instr), st.outputJust) == Do(st, instr)
  {
    hide Ready, Encode, ExecStl, ExecRet, ExecContact, ExecOut, ExecSet, ExecRst, ExecStack;
    hide ExecApplied, ExecSftl, ExecAbsd, ExecDeco, ExecZrst, ExecMov, ExecMovBits, ExecCall, ExecSret;
    hide ExecPulse, ExecSetState, ExecCompare, Eval, ReadBit, TimerDrive, CounterDrive, TimerReset, CounterReset, SetS;
  }

  lemma StepIsDo(code: Code, ticks: Ticks, st: State, instr: SimpleInstr)
    requires Fetch(code, st.off) == Encode(instr)
    ensures Step(code, ticks, st) == Do(st, instr)
  {
    DecodeEncode(code, st.off, instr);
    ExecIsDo(code, ticks, st, instr);
    hide Decode, Fetch, Encode, Exec, Ready, Do;
  }

  function DoAll(st: State, listing: seq<SimpleInstr>): State
    decreases |listing|
  {
    if listing == [] then st else DoAll(Do(st, listing[0]), listing[1..])
  }

  lemma DoCons(st: State, instr: SimpleInstr, rest: seq<SimpleInstr>)
    ensures DoAll(st, [instr] + rest) == DoAll(Do(st, instr), rest)
  {
    hide Do;
    assert ([instr] + rest)[1..] == rest;
  }

  lemma DoNone(st: State)
    ensures DoAll(st, []) == st
  {
  }

  lemma DoOne(st: State, instr: SimpleInstr)
    ensures DoAll(st, [instr]) == Do(st, instr)
  {
    hide Do;
    assert DoAll(Do(st, instr), []) == Do(st, instr);
  }

  lemma DoMovesOn(st: State, instr: SimpleInstr)
    ensures Do(st, instr).off == st.off + 2
    ensures Do(st, instr).halted == st.halted && Do(st, instr).calls == st.calls
  {
    hide Encode, ExecStl, ExecRet, ExecContact, ExecOut, ExecSet, ExecRst, ExecStack;
  }

  lemma {:induction false} DoAllAppend(st: State, a: seq<SimpleInstr>, b: seq<SimpleInstr>)
    ensures DoAll(st, a + b) == DoAll(DoAll(st, a), b)
    decreases |a|
  {
    hide Do;
    if a == [] {
      assert a + b == b;
    } else {
      assert (a + b)[1..] == a[1..] + b;
      DoAllAppend(Do(st, a[0]), a[1..], b);
    }
  }

  lemma {:induction false} DoAllMovesOn(st: State, listing: seq<SimpleInstr>)
    ensures DoAll(st, listing).off == st.off + 2 * |listing|
    ensures DoAll(st, listing).halted == st.halted && DoAll(st, listing).calls == st.calls
    decreases |listing|
  {
    hide Do;
    if listing != [] {
      DoMovesOn(st, listing[0]);
      DoAllMovesOn(Do(st, listing[0]), listing[1..]);
    }
  }

  // What the instructions do, in one equation each.

  function MovedOn(st: State): State {
    st.(off := st.off + 2, outputJust := false, stl := st.stl.(accepting := false))
  }

  lemma DoContact(st: State, join: Join, negated: bool, dev: Operand)
    ensures var closed := ReadBit(st.img, dev.kind, dev.num) != negated;
            Do(st, Contact(join, negated, dev)) ==
            (match join
             case Start => MovedOn(st).(block := Push(st.block, st.result), result := Gate(st.stl) && closed)
             case And => MovedOn(st).(result := st.result && closed)
             case Or => MovedOn(st).(result := st.result || (Gate(st.stl) && closed)))
  {
    hide ReadBit, Encode, Push;
  }

  lemma DoJoin(st: State, left: bool, below: seq<bool>)
    requires st.block == below + [left]
    ensures Do(st, Anb) == MovedOn(st).(result := left && st.result, block := below)
    ensures Do(st, Orb) == MovedOn(st).(result := left || st.result, block := below)
  {
    hide Do, MovedOn;
    DoStack(st, Anb);
    DoStack(st, Orb);
    MovedKeepsBlocks(st);
    assert st.block[..|st.block| - 1] == below;
  }

  lemma DoStack(st: State, instr: SimpleInstr)
    requires instr.Mps? || instr.Mrd? || instr.Mpp? || instr.Anb? || instr.Orb?
    ensures Do(st, instr) == ExecStack(MovedOn(st), instr)
  {
    hide Encode, ExecStl, ExecRet, ExecContact, ExecOut, ExecSet, ExecRst, ExecStack;
  }

  lemma MovedKeepsBlocks(st: State)
    ensures MovedOn(st).block == st.block && MovedOn(st).result == st.result
  {
  }

  /** Program memory holds the listing at off. */
  predicate At(code: Code, off: nat, listing: seq<SimpleInstr>) {
    && off + 2 * |listing| <= PROGRAM_BYTES
    && forall i: nat :: i < |listing| ==> Fetch(code, off + 2 * i) == Encode(listing[i])
  }

  lemma AtSplit(code: Code, off: nat, a: seq<SimpleInstr>, b: seq<SimpleInstr>)
    requires At(code, off, a + b)
    ensures At(code, off, a) && At(code, off + 2 * |a|, b)
  {
    hide Fetch, Encode;
    forall i: nat | i < |a|
      ensures Fetch(code, off + 2 * i) == Encode(a[i])
    {
      assert (a + b)[i] == a[i];
    }
    forall i: nat | i < |b|
      ensures Fetch(code, off + 2 * |a| + 2 * i) == Encode(b[i])
    {
      assert (a + b)[|a| + i] == b[i];
      assert off + 2 * |a| + 2 * i == off + 2 * (|a| + i);
    }
  }

  /** The interpreter, run on a listing in program memory, does what the listing says. */
  lemma {:induction false} ListingRuns(code: Code, ticks: Ticks, st: State, listing: seq<SimpleInstr>)
    requires !st.halted && At(code, st.off, listing)
    ensures Steps(code, ticks, st, |listing|) == DoAll(st, listing)
    decreases |listing|
  {
    hide Step, Do, Encode, Fetch;
    if listing != [] {
      assert At(code, st.off, [listing[0]] + listing[1..]) by {
        assert [listing[0]] + listing[1..] == listing;
      }
      AtSplit(code, st.off, [listing[0]], listing[1..]);
      assert Fetch(code, st.off + 2 * 0) == Encode(listing[0]);
      StepIsDo(code, ticks, st, listing[0]);
      DoMovesOn(st, listing[0]);
      ListingRuns(code, ticks, Do(st, listing[0]), listing[1..]);
    }
  }

  function EncodeAll(listing: seq<SimpleInstr>): (words: seq<Word>)
    ensures |words| == |listing|
  {
    seq(|listing|, i requires 0 <= i < |listing| => Encode(listing[i]))
  }

  /** A program image with the given words at the start of the code area, erased elsewhere. */
  function Assemble(words: seq<Word>): Code
    requires CODE_OFFSET + 2 * |words| <= PROGRAM_BYTES
  {
    seq(PROGRAM_BYTES, i requires 0 <= i < PROGRAM_BYTES =>
      if CODE_OFFSET <= i < CODE_OFFSET + 2 * |words| then
        var w := words[(i - CODE_OFFSET) / 2];
        if i % 2 == 0 then Low(w) else High(w)
      else 0xFF)
  }

  /** Words are stored low byte first, and fetched back. */
  lemma AssembleFetch(words: seq<Word>, k: nat)
    requires CODE_OFFSET + 2 * |words| <= PROGRAM_BYTES && k < |words|
    ensures Fetch(Assemble(words), CODE_OFFSET + 2 * k) == words[k]
  {
    var off := CODE_OFFSET + 2 * k;
    assert (off - CODE_OFFSET) / 2 == k && (off + 1 - CODE_OFFSET) / 2 == k;
    assert off % 2 == 0 && (off + 1) % 2 == 1;
  }
}
