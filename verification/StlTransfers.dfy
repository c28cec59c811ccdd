/** State transfers over a whole scan: destinations at once, sources when the scan ends. */
module StlTransfers {
  import opened Words
  import opened Devices
  import opened Timers
  import opened Instructions
  import opened Applied
  import opened Ladder
  import opened LadderScan
  import opened Listing

  /** The instruction writes S relays, if at all, by SET or by a transfer. */
  predicate SetsOnly(stl: Stl, instr: Instr) {
    match instr
    case Out(dev) => IsS(dev.kind) ==> stl.active
    case Rst(dev) => !IsS(dev.kind)
    case Pulse(dev) => !IsS(dev.kind)
    case RstState(_) => false
    case OutState(_) => false
    case Zrst(kind, _, _) => !IsS(kind)
    case Sftl(_, window, _, _) => !IsS(window.kind)
    case Absd(_, _, first, _) => !IsS(first.kind)
    case Deco(_, first, _) => !IsS(first.kind)
    case MovBits(_, to) => !IsS(to.kind)
    case Applied(Cmp(_, _, flags)) => !IsS(flags.kind)
    case Applied(Sftr(_, window, _, _)) => !IsS(window.kind)
    case Applied(Bon(_, _, target, _, _)) => !IsS(target.kind)
    case _ => true
  }

  /** The state an instruction sets, when it has power. */
  function Destination(instr: Instr): set<nat> {
    match instr
    case Out(dev) => StateOf(dev)
    case Set(dev) => StateOf(dev)
    case SetState(n) => {n}
    case _ => {}
  }

  function StateOf(dev: Device): set<nat> {
    if IsS(dev.kind) && DeviceNumber(dev.kind, dev.num) < NUM_S then {DeviceNumber(dev.kind, dev.num)} else {}
  }

  /** Whether an instruction with power is a transfer when it stands inside STL. */
  predicate IsTransfer(instr: Instr) {
    match instr
    case Out(dev) => IsS(dev.kind)
    case Set(dev) => IsS(dev.kind)
    case SetState(_) => true
    case _ => false
  }

  function Powered(st: State, instr: Instr): set<nat> {
    if st.result then Destination(instr) else {}
  }

  function Queued(st: State, instr: Instr): set<nat> {
    if st.result && st.stl.active && IsTransfer(instr) then set x | x in st.stl.sources && x < NUM_S else {}
  }

  lemma SetActive(img: Image, dev: Device)
    ensures IsS(dev.kind) ==> ActiveS(WriteBit(img, dev.kind, dev.num, true)) == ActiveS(img) + StateOf(dev)
    ensures !IsS(dev.kind) ==> forall v :: ActiveS(WriteBit(img, dev.kind, dev.num, v)) == ActiveS(img)
  {
  }

  lemma CoilTransfers(code: Code, ticks: Ticks, st: State, instr: Instr, word: Word, afterOutput: bool)
    requires IsCoil(instr) && SetsOnly(st.stl, instr)
    ensures var after := Exec(code, ticks, st, instr, word, afterOutput);
            && ActiveS(after.img) == ActiveS(st.img) + Powered(st, instr)
            && after.stl.queued == st.stl.queued + Queued(st, instr)
  {
    hide Exec, WriteBit, PulseEdge, ActiveS;
    ExecOfCoil(code, ticks, st, instr, word, afterOutput);
    if instr.SetState? {
      SetStateActive(st.img, instr.n);
    } else {
      SetActive(st.img, instr.dev);
      RstActive(st.img, instr.dev);
    }
  }

  lemma SetStateActive(img: Image, n: Byte)
    ensures ActiveS(SetS(img, n, true)) == ActiveS(img) + {n as nat}
  {
  }

  lemma RstActive(img: Image, dev: Device)
    ensures !IsS(dev.kind) ==> ActiveS(RstEffect(img, dev)) == ActiveS(img)
  {
  }

  lemma RungTransfers(code: Code, ticks: Ticks, st: State, instr: Instr, word: Word, afterOutput: bool)
    requires IsRung(instr) || IsFlow(instr)
    ensures var after := Exec(code, ticks, st, instr, word, afterOutput);
            after.img == st.img && after.stl.queued == st.stl.queued
  {
    hide ExecApplied, ExecSftl, ExecAbsd, ExecDeco, ExecZrst, ExecMov, ExecMovBits, ExecCall, ExecSret;
    hide ExecStl, ExecRet, ExecContact, ExecCompare, ExecStack, ExecOut, ExecSet, ExecSetState, ExecRst, ExecPulse;
    hide ReadBit, Eval, TimerDrive, CounterDrive, TimerReset, CounterReset, SetS;
  }

  /** Applied instructions leave the S relays alone unless an operand names one as destination. */
  lemma OpKeepsS(img: Image, op: Op)
    requires OpValid(img, op)
    requires op.Cmp? ==> !IsS(op.flags.kind)
    requires op.Sftr? ==> !IsS(op.window.kind)
    requires op.Bon? ==> !IsS(op.target.kind)
    ensures OpEffect(img, op).s == img.s
  {
    hide Eval, ReadBit, HighestOn, BitsOf, Rotated, Adjusted, FloatBits, ArithResult, ReadRun, WriteRun, ShiftDown,
         CloseUp;
    match op
    case Sftr(bit, window, n, k) =>
      var source := ReadBit(img, bit.kind, bit.num) && Writable(window.kind, (window.num + Eval(img, n) - 1) % 256);
      WriteRunFrame(img, window.kind, window.num,
                    ShiftDown(ReadRun(img, window.kind, window.num, Eval(img, n)), Eval(img, k), source));
    case Sfrd(table, dst, _) =>
      var pointer := GetD(img, table);
      var flagged := SetM(img, 8020, pointer == 0);
      if pointer > 0 {
        CloseUpKeepsS(SetD(flagged, dst, GetD(flagged, (table + 1) % 0x1_0000)), table, 1, pointer);
      }
    case _ =>
  }

  lemma {:induction false} CloseUpKeepsS(img: Image, table: nat, i: nat, pointer: nat)
    ensures CloseUp(img, table, i, pointer).s == img.s
    decreases pointer - i
  {
    if i < pointer {
      CloseUpKeepsS(SetD(img, (table + i) % 0x1_0000, GetD(img, (table + i + 1) % 0x1_0000)), table, i + 1, pointer);
    }
  }

  lemma BlockTransfers(code: Code, ticks: Ticks, st: State, instr: Instr, word: Word, afterOutput: bool)
    requires IsBlock(instr)
    requires SetsOnly(st.stl, instr)
    ensures var after := Exec(code, ticks, st, instr, word, afterOutput);
            after.img.s == st.img.s && after.stl.queued == st.stl.queued
  {
    hide WriteRun, ReadRun, ReadBit, OpEffect, OpValid, ShiftUp, DrumBits, OneHotBits, Eval;
    forall dev: Byte, first: Byte, bits: seq<bool> | !IsS(dev)
      ensures WriteRun(st.img, dev, first, bits).s == st.img.s
    {
      WriteRunFrame(st.img, dev, first, bits);
    }
    if instr.Applied? && OpValid(st.img, instr.op) {
      OpKeepsS(st.img, instr.op);
    }
  }

  lemma OtherTransfers(code: Code, ticks: Ticks, st: State, instr: Instr, word: Word, afterOutput: bool)
    requires !IsCoil(instr) && !IsRung(instr) && !IsFlow(instr) && SetsOnly(st.stl, instr)
    requires !IsBlock(instr)
    ensures var after := Exec(code, ticks, st, instr, word, afterOutput);
            after.img.s == st.img.s && after.stl.queued == st.stl.queued
  {
    hide Eval, TicksFor, Counted, Driven, ReadBit;
    hide ExecApplied, ExecSftl, ExecAbsd, ExecDeco, ExecZrst, ExecMov, ExecMovBits, ExecCall, ExecSret;
    hide ExecStl, ExecRet, ExecContact, ExecCompare, ExecStack, ExecOut, ExecSet, ExecSetState, ExecRst, ExecPulse;
  }

  /** What one instruction adds to the active states and to the sources to be cleared. */
  lemma ExecTransfers(code: Code, ticks: Ticks, st: State, instr: Instr, word: Word, afterOutput: bool)
    requires SetsOnly(st.stl, instr)
    ensures var after := Exec(code, ticks, st, instr, word, afterOutput);
            && ActiveS(after.img) == ActiveS(st.img) + Powered(st, instr)
            && after.stl.queued == st.stl.queued + Queued(st, instr)
  {
    if IsCoil(instr) {
      hide Exec;
      CoilTransfers(code, ticks, st, instr, word, afterOutput);
    } else if IsRung(instr) || IsFlow(instr) {
      hide Exec;
      RungTransfers(code, ticks, st, instr, word, afterOutput);
    } else if IsBlock(instr) {
      hide Exec, SetsOnly;
      BlockTransfers(code, ticks, st, instr, word, afterOutput);
    } else {
      hide Exec, SetsOnly;
      OtherTransfers(code, ticks, st, instr, word, afterOutput);
    }
  }

  // ------------------------------------------------------------ the scan

  /** Every instruction executed until the scan ends writes S only by SET or by a transfer. */
  predicate CleanRun(code: Code, ticks: Ticks, st: State)
    requires |st.calls| <= CALL_DEPTH
    decreases Rank(st, CALL_DEPTH)
  {
    hide Step, Rank;
    !Running(st) ||
    (StepDescends(code, ticks, st);
     SetsOnly(st.stl, Decode(code, st.off).instr) && CleanRun(code, ticks, Step(code, ticks, st)))
  }

  /** The states set with power from here to the end of the scan. */
  function AllPowered(code: Code, ticks: Ticks, st: State): set<nat>
    requires |st.calls| <= CALL_DEPTH
    decreases Rank(st, CALL_DEPTH)
  {
    hide Step, Rank;
    if !Running(st) then {}
    else
      StepDescends(code, ticks, st);
      Powered(st, Decode(code, st.off).instr) + AllPowered(code, ticks, Step(code, ticks, st))
  }

  /** The source states of every powered transfer from here to the end of the scan. */
  function AllSources(code: Code, ticks: Ticks, st: State): set<nat>
    requires |st.calls| <= CALL_DEPTH
    decreases Rank(st, CALL_DEPTH)
  {
    hide Step, Rank;
    if !Running(st) then {}
    else
      StepDescends(code, ticks, st);
      Queued(st, Decode(code, st.off).instr) + AllSources(code, ticks, Step(code, ticks, st))
  }

  lemma StepTransfers(code: Code, ticks: Ticks, st: State)
    requires SetsOnly(st.stl, Decode(code, st.off).instr)
    ensures var after := Step(code, ticks, st);
            var instr := Decode(code, st.off).instr;
            && ActiveS(after.img) == ActiveS(st.img) + Powered(st, instr)
            && after.stl.queued == st.stl.queued + Queued(st, instr)
  {
    var d := Decode(code, st.off);
    hide Decode, Exec, Fetch, ActiveS;
    if !d.instr.Blank? {
      ExecTransfers(code, ticks, Ready(st, d), d.instr, Fetch(code, st.off), st.outputJust);
    }
  }

  /** Up to the end of the scan active states only accumulate, and the sources are remembered. */
  lemma {:induction false} RunTransfers(code: Code, ticks: Ticks, st: State)
    requires |st.calls| <= CALL_DEPTH && CleanRun(code, ticks, st)
    ensures var end := RunLoop(code, ticks, st);
            && ActiveS(end.img) == ActiveS(st.img) + AllPowered(code, ticks, st)
            && end.stl.queued == st.stl.queued + AllSources(code, ticks, st)
    decreases Rank(st, CALL_DEPTH)
  {
    hide Step, Rank, Decode, SetsOnly, Powered, Queued, ActiveS;
    if Running(st) {
      StepDescends(code, ticks, st);
      StepTransfers(code, ticks, st);
      RunTransfers(code, ticks, Step(code, ticks, st));
    }
  }

  /** At every point of the scan the active states are a superset of those at any earlier point. */
  lemma {:induction false} StatesOnlyAccumulate(code: Code, ticks: Ticks, st: State, n: nat)
    requires |st.calls| <= CALL_DEPTH && CleanRun(code, ticks, st)
    ensures ActiveS(st.img) <= ActiveS(Steps(code, ticks, st, n).img)
    decreases n
  {
    hide Step, Rank, Decode, SetsOnly, Powered, Queued, ActiveS;
    if n > 0 && Running(st) {
      StepDescends(code, ticks, st);
      StepTransfers(code, ticks, st);
      StatesOnlyAccumulate(code, ticks, Step(code, ticks, st), n - 1);
    }
  }

  /** The transfer law: after a scan the active states are those before it and those set with power, without
      the sources of the transfers that fired. A state that is both a destination and a source is cleared. */
  lemma TransferLaw(code: Code, ticks: Ticks, first: bool, edges: set<nat>, lastBad: Word, img: Image)
    requires CleanRun(code, ticks, Begin(first, edges, lastBad, img))
    ensures var start := Begin(first, edges, lastBad, img);
            ActiveS(Scan(code, ticks, first, edges, lastBad, img).img) ==
            (ActiveS(img) + AllPowered(code, ticks, start)) - AllSources(code, ticks, start)
  {
    hide RunLoop, AllPowered, AllSources, CleanRun;
    RunTransfers(code, ticks, Begin(first, edges, lastBad, img));
    var end := RunLoop(code, ticks, Begin(first, edges, lastBad, img));
    ClearQueuedActive(end.img, end.stl.queued);
  }

  lemma ClearQueuedActive(img: Image, queued: set<nat>)
    ensures ActiveS(ClearQueued(img, queued)) == ActiveS(img) - queued
  {
  }

  // --------------------------------------------------------------- merge

  function StlWords(states: seq<Byte>): (listing: seq<SimpleInstr>)
    ensures |listing| == |states|
  {
    seq(|states|, i requires 0 <= i < |states| => StlStep(states[i]))
  }

  function Prefix(states: seq<Byte>): seq<nat> {
    seq(if |states| < 8 then |states| else 8, i requires 0 <= i < |states| => states[i] as nat)
  }

  predicate AllActive(img: Image, states: seq<Byte>) {
    forall i :: 0 <= i < |states| ==> GetFlag(img.s, states[i])
  }

  /** Consecutive STL words merge: the gate is the conjunction of all their states, and the first eight of
      them are the sources of the transfer. */
  lemma {:induction false} MergeGates(st: State, states: seq<Byte>)
    requires states != [] && !(st.stl.active && st.stl.accepting)
    ensures var after := DoAll(st, StlWords(states));
            && after.stl == Stl(true, true, AllActive(st.img, states), Prefix(states), st.stl.queued)
            && after.result == AllActive(st.img, states)
            && after.img == st.img && after.block == st.block && after.branch == st.branch
    decreases |states|
  {
    var n := |states| - 1;
    var front := states[..n];
    var mid := DoAll(st, StlWords(front));
    assert StlWords(states) == StlWords(front) + [StlStep(states[n])];
    hide DoAll, Do, Prefix, AllActive;
    DoAllAppend(st, StlWords(front), [StlStep(states[n])]);
    DoOne(mid, StlStep(states[n]));
    MergeLists(st.img, states);
    if n == 0 {
      DoNone(st);
      assert StlWords(front) == [];
      MergeOne(st, states[0]);
    } else {
      MergeGates(st, front);
      MergeNext(mid, states[n]);
    }
  }

  lemma MergeLists(img: Image, states: seq<Byte>)
    requires states != []
    ensures var n := |states| - 1;
            && Prefix(states) == (if |Prefix(states[..n])| < 8 then Prefix(states[..n]) + [states[n] as nat]
                                  else Prefix(states[..n]))
            && AllActive(img, states) == (AllActive(img, states[..n]) && GetFlag(img.s, states[n]))
    ensures |states| == 1 ==>
              Prefix(states) == [states[0] as nat] && AllActive(img, states) == GetFlag(img.s, states[0])
  {
  }

  lemma MergeOne(st: State, n: Byte)
    requires !(st.stl.active && st.stl.accepting)
    ensures var after := Do(st, StlStep(n));
            && after.stl == Stl(true, true, GetFlag(st.img.s, n), [n as nat], st.stl.queued)
            && after.result == GetFlag(st.img.s, n)
            && after.img == st.img && after.block == st.block && after.branch == st.branch
  {
    hide ExecContact, ExecOut, ExecSet, ExecRst, ExecStack, ExecRet, Encode;
  }

  lemma MergeNext(st: State, n: Byte)
    requires st.stl.active && st.stl.accepting
    ensures var after := Do(st, StlStep(n));
            && after.stl == Stl(true, true, st.stl.gate && GetFlag(st.img.s, n),
                                if |st.stl.sources| < 8 then st.stl.sources + [n as nat] else st.stl.sources,
                                st.stl.queued)
            && after.result == (st.stl.gate && GetFlag(st.img.s, n))
            && after.img == st.img && after.block == st.block && after.branch == st.branch
  {
    hide ExecContact, ExecOut, ExecSet, ExecRst, ExecStack, ExecRet, Encode;
  }
}
