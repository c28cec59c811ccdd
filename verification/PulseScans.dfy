/** The pulse coils that scans execute, and what the coils receive: the laws of PLS and PLF over runs of scans. */
module PulseScans {
  import opened Words
  import opened Devices
  import opened Timers
  import opened Instructions
  import opened Applied
  import opened Ladder
  import opened LadderScan
  import opened PulseLaws

  // ------------------------------------------------------ one instruction

  /** The next instruction is a pulse coil with a prefix in front. */
  predicate AtCoil(code: Code, st: State) { Decode(code, st.off).instr.Pulse? && st.pulse != NoPulse }

  /** What the next instruction means for the edge memory. */
  function Execution(st: State): PulseLaws.Execution {
    PulseLaws.Execution(st.off / 2, st.result, st.pulse == Falling)
  }

  function Executed(code: Code, st: State): seq<PulseLaws.Execution> {
    if AtCoil(code, st) then [Execution(st)] else []
  }

  /** Only pulse coils touch the edge memory, and only prefixes and pulse coils the pending prefix. */
  lemma FlowKeepsPulse(code: Code, ticks: Ticks, st: State, instr: Instr, word: Word, afterOutput: bool)
    requires IsFlow(instr)
    ensures var after := Exec(code, ticks, st, instr, word, afterOutput);
            after.edges == st.edges && after.pulse == st.pulse
  {
    hide FindSubroutine;
  }

  lemma RungKeepsPulse(code: Code, ticks: Ticks, st: State, instr: Instr, word: Word, afterOutput: bool)
    requires IsRung(instr)
    ensures var after := Exec(code, ticks, st, instr, word, afterOutput);
            after.edges == st.edges && after.pulse == st.pulse
  {
    hide Exec, ReadBit, Eval, Holds;
    ExecOfRung(code, ticks, st, instr, word, afterOutput);
  }

  lemma CoilKeepsPulse(code: Code, ticks: Ticks, st: State, instr: Instr, word: Word, afterOutput: bool)
    requires IsCoil(instr) && (instr.Pulse? ==> st.pulse == NoPulse)
    ensures var after := Exec(code, ticks, st, instr, word, afterOutput);
            after.edges == st.edges && after.pulse == st.pulse
  {
    hide Exec, WriteBit, SetS, RstEffect;
    ExecOfCoil(code, ticks, st, instr, word, afterOutput);
  }

  lemma PlainKeepsPulse(code: Code, ticks: Ticks, st: State, instr: Instr, word: Word, afterOutput: bool)
    requires !IsFlow(instr) && !IsRung(instr) && !IsCoil(instr)
    ensures var after := Exec(code, ticks, st, instr, word, afterOutput);
            && after.edges == st.edges
            && after.pulse == (if instr.PulsePrefix? then if instr.falling then Falling else Rising else st.pulse)
  {
    hide ExecApplied, ExecSftl, ExecAbsd, ExecDeco, ExecZrst, ExecMov, ExecMovBits, ExecCall, ExecSret;
    hide ExecStl, ExecRet, ExecContact, ExecCompare, ExecStack, ExecOut, ExecSet, ExecSetState, ExecRst, ExecPulse;
    hide ReadBit, Eval, TimerDrive, CounterDrive, TimerReset, CounterReset, SetS;
  }

  lemma ExecKeepsPulse(code: Code, ticks: Ticks, st: State, instr: Instr, word: Word, afterOutput: bool)
    requires instr.Pulse? ==> st.pulse == NoPulse
    ensures var after := Exec(code, ticks, st, instr, word, afterOutput);
            && after.edges == st.edges
            && after.pulse == (if instr.PulsePrefix? then if instr.falling then Falling else Rising else st.pulse)
  {
    hide Exec;
    if IsFlow(instr) {
      FlowKeepsPulse(code, ticks, st, instr, word, afterOutput);
    } else if IsRung(instr) {
      RungKeepsPulse(code, ticks, st, instr, word, afterOutput);
    } else if IsCoil(instr) {
      CoilKeepsPulse(code, ticks, st, instr, word, afterOutput);
    } else {
      PlainKeepsPulse(code, ticks, st, instr, word, afterOutput);
    }
  }

  /** Any other instruction leaves the edge memory alone. */
  lemma StepKeepsPulse(code: Code, ticks: Ticks, st: State)
    requires !AtCoil(code, st)
    ensures var after := Step(code, ticks, st);
            var instr := Decode(code, st.off).instr;
            && after.edges == st.edges
            && after.pulse == (if instr.PulsePrefix? then if instr.falling then Falling else Rising else st.pulse)
            && (instr.PulsePrefix? ==> after.off == Decode(code, st.off).next)
  {
    var d := Decode(code, st.off);
    hide Decode, Fetch, Exec;
    if !d.instr.Blank? {
      ExecKeepsPulse(code, ticks, Ready(st, d), d.instr, Fetch(code, st.off), st.outputJust);
      if d.instr.PulsePrefix? {
        ExecControl(code, ticks, Ready(st, d), d.instr, Fetch(code, st.off), st.outputJust);
      }
    }
  }

  /** Whether an execution pulses after a run of others. */
  predicate Fires(es: seq<PulseLaws.Execution>, e: PulseLaws.Execution) { Fired(es + [e]) }

  lemma EdgesNext(es: seq<PulseLaws.Execution>, e: PulseLaws.Execution)
    ensures PulseEdge(EdgesAfter(es), e.step, e.rung, e.falling) == (Fires(es, e), EdgesAfter(es + [e]))
  {
    assert (es + [e])[..|es|] == es;
  }

  /** A prefixed coil receives exactly whether its execution fires. */
  lemma CoilReceives(code: Code, ticks: Ticks, st: State, es: seq<PulseLaws.Execution>)
    requires AtCoil(code, st) && st.edges == EdgesAfter(es)
    ensures var after := Step(code, ticks, st);
            var dev := Decode(code, st.off).instr.dev;
            && after.img == WriteBit(st.img, dev.kind, dev.num, Fires(es, Execution(st)))
            && after.edges == EdgesAfter(es + [Execution(st)]) && after.pulse == NoPulse
  {
    var d := Decode(code, st.off);
    PulseIsOneWord(code, st.off);
    hide Decode, Fetch, Exec, WriteBit, EdgesAfter, Fires;
    ExecOfCoil(code, ticks, Ready(st, d), d.instr, Fetch(code, st.off), st.outputJust);
    EdgesNext(es, Execution(st));
  }

  lemma PulseIsOneWord(code: Code, off: nat)
    requires Decode(code, off).instr.Pulse?
    ensures Decode(code, off).next == off + 2
  {
    hide Fetch, DecodeMisc, WordOperand;
    MiscPulse(code, Low(Fetch(code, off)), off + 2);
  }

  /** Opcode 0x00 is never a pulse coil, and a prefix only in front of one. */
  lemma MiscPulse(code: Code, operand: Byte, p: nat)
    ensures var d := DecodeMisc(code, operand, p);
            && !d.instr.Pulse?
            && (d.instr.PulsePrefix? ==>
                  d.next == p && High(Fetch(code, p)) / 16 == 8 && High(Fetch(code, p)) != 0x80)
  {
    hide Fetch, ParseApplied, WordOperand, RegisterOperand, PairOperand, BitOperand;
  }

  lemma PrefixIsMisc(code: Code, off: nat)
    requires Decode(code, off).instr.PulsePrefix?
    ensures Decode(code, off).next == off + 2
    ensures High(Fetch(code, off + 2)) / 16 == 8 && High(Fetch(code, off + 2)) != 0x80
  {
    hide Fetch, DecodeMisc, WordOperand;
    MiscPulse(code, Low(Fetch(code, off)), off + 2);
  }

  lemma CoilWord(code: Code, off: nat)
    requires High(Fetch(code, off)) / 16 == 8 && High(Fetch(code, off)) != 0x80
    ensures Decode(code, off).instr.Pulse?
  {
    hide Fetch, DecodeMisc, WordOperand;
  }

  // ------------------------------------------------------------- one scan

  /** The pulse coils among the first n instructions from a state. */
  function Trace(code: Code, ticks: Ticks, st: State, n: nat): seq<PulseLaws.Execution>
    decreases n
  {
    if n == 0 || !Running(st) then []
    else Executed(code, st) + Trace(code, ticks, Step(code, ticks, st), n - 1)
  }

  /** A pending prefix belongs to the pulse coil that comes next. */
  predicate Paired(code: Code, st: State) {
    st.pulse != NoPulse ==>
      && st.off >= 2 && Decode(code, st.off).instr.Pulse?
      && Decode(code, st.off - 2).instr == PulsePrefix(st.pulse == Falling)
  }

  /** Whether the program makes the pulse coil at a step a PLF. */
  predicate IsPlf(code: Code, step: nat) { step >= 1 && Decode(code, 2 * step - 2).instr == PulsePrefix(true) }

  /** The edge memory comes from executions of coils of the program, each with its own kind. */
  predicate Recorded(code: Code, es: seq<PulseLaws.Execution>) {
    InProgram(es) && forall e :: e in es ==> e.falling == IsPlf(code, e.step)
  }

  lemma PrefixPairs(code: Code, off: nat)
    requires Decode(code, off).instr.PulsePrefix?
    ensures Decode(code, off).next == off + 2 && Decode(code, off + 2).instr.Pulse?
  {
    hide Decode, Fetch;
    PrefixIsMisc(code, off);
    CoilWord(code, off + 2);
  }

  lemma StaysPaired(code: Code, ticks: Ticks, st: State)
    requires Paired(code, st)
    ensures Paired(code, Step(code, ticks, st))
  {
    hide Decode, Step;
    if AtCoil(code, st) {
      CoilClears(code, ticks, st);
    } else {
      StepKeepsPulse(code, ticks, st);
      if Decode(code, st.off).instr.PulsePrefix? {
        PrefixPairs(code, st.off);
      }
    }
  }

  lemma CoilClears(code: Code, ticks: Ticks, st: State)
    requires AtCoil(code, st)
    ensures Step(code, ticks, st).pulse == NoPulse
  {
    var d := Decode(code, st.off);
    hide Decode, Fetch, Exec, WriteBit, PulseEdge;
    ExecOfCoil(code, ticks, Ready(st, d), d.instr, Fetch(code, st.off), st.outputJust);
  }

  /** The edge memory during a scan is that of the executions before it and in it. */
  lemma {:induction false} EdgesAreTrace(code: Code, ticks: Ticks, st: State, n: nat, es: seq<PulseLaws.Execution>)
    requires WellFormed(st) && Paired(code, st) && Recorded(code, es) && st.edges == EdgesAfter(es)
    ensures var end := Steps(code, ticks, st, n);
            && end.edges == EdgesAfter(es + Trace(code, ticks, st, n)) && WellFormed(end)
            && Recorded(code, es + Trace(code, ticks, st, n))
    decreases n
  {
    hide Step, Decode, EdgesAfter, WellFormed, Running, Paired;
    if n == 0 || !Running(st) {
      assert es + [] == es;
    } else {
      var more := es + Executed(code, st);
      StepWellFormed(code, ticks, st);
      StaysPaired(code, ticks, st);
      StepIsRecorded(code, ticks, st, es);
      EdgesAreTrace(code, ticks, Step(code, ticks, st), n - 1, more);
      assert more + Trace(code, ticks, Step(code, ticks, st), n - 1) == es + Trace(code, ticks, st, n);
    }
  }

  lemma StepIsRecorded(code: Code, ticks: Ticks, st: State, es: seq<PulseLaws.Execution>)
    requires WellFormed(st) && Paired(code, st) && Recorded(code, es) && st.edges == EdgesAfter(es) && Running(st)
    ensures Step(code, ticks, st).edges == EdgesAfter(es + Executed(code, st))
    ensures Recorded(code, es + Executed(code, st))
  {
    hide Step, Decode, EdgesAfter;
    if AtCoil(code, st) {
      CoilReceives(code, ticks, st, es);
      assert 2 * (st.off / 2) - 2 == st.off - 2;
    } else {
      StepKeepsPulse(code, ticks, st);
      assert es + [] == es;
    }
  }

  // -------------------------------------------------------- runs of scans

  /** What differs from scan to scan; the edge memory carries over. */
  datatype Cycle = Cycle(ticks: Ticks, lastBad: Word, img: Image)

  /** The edge memory after a run of scans, of which the first is the first after STOP. */
  function Edges(code: Code, cycles: seq<Cycle>): set<nat>
    decreases |cycles|, 2
  {
    if cycles == [] then {} else Scanned(code, cycles).edges
  }

  /** The state in which the last scan of a run starts. */
  function Started(code: Code, cycles: seq<Cycle>): State
    requires cycles != []
    decreases |cycles|, 0
  {
    var n := |cycles| - 1;
    Begin(n == 0, Edges(code, cycles[..n]), cycles[n].lastBad, cycles[n].img)
  }

  function Scanned(code: Code, cycles: seq<Cycle>): State
    requires cycles != []
    decreases |cycles|, 1
  {
    var n := |cycles| - 1;
    Scan(code, cycles[n].ticks, n == 0, Edges(code, cycles[..n]), cycles[n].lastBad, cycles[n].img)
  }

  /** Every pulse coil executed in a run of scans. */
  function History(code: Code, cycles: seq<Cycle>): seq<PulseLaws.Execution> {
    if cycles == [] then []
    else
      var n, st := |cycles| - 1, Started(code, cycles);
      History(code, cycles[..n]) + Trace(code, cycles[n].ticks, st, Rank(st, CALL_DEPTH))
  }

  /** The first scan after STOP forgets the edge memory: it goes as the first scan of a run. */
  lemma FirstScanForgets(code: Code, edges: set<nat>, cycle: Cycle)
    ensures Scan(code, cycle.ticks, true, edges, cycle.lastBad, cycle.img) == Scanned(code, [cycle])
  {
    hide RunLoop, ClearQueued;
    assert [cycle][..0] == [];
  }

  predicate Steppable(edges: set<nat>) { forall x :: x in edges ==> x < PROGRAM_STEPS }

  lemma StartedWell(code: Code, cycles: seq<Cycle>)
    requires cycles != [] && Steppable(Edges(code, cycles[..|cycles| - 1]))
    ensures WellFormed(Started(code, cycles)) && Paired(code, Started(code, cycles))
  {
    hide Edges, Decode;
  }

  lemma StartedEdges(code: Code, cycles: seq<Cycle>)
    requires cycles != []
    ensures Started(code, cycles).edges == Edges(code, cycles[..|cycles| - 1])
    ensures var n := |cycles| - 1;
            Edges(code, cycles) == RunLoop(code, cycles[n].ticks, Started(code, cycles)).edges
  {
    hide RunLoop, ClearQueued;
  }

  /** The edge memory after any run of scans is that of all pulse coils executed in it; each of them is of the kind
      its prefix in the program says. */
  lemma {:induction false} HistoryRuns(code: Code, cycles: seq<Cycle>)
    ensures var h := History(code, cycles);
            Edges(code, cycles) == EdgesAfter(h) && Recorded(code, h) && Steppable(Edges(code, cycles))
    decreases |cycles|
  {
    hide Edges, EdgesAfter, Paired, IsPlf, Started, Rank, RunLoop, Steps, Trace;
    if cycles == [] {
      NoHistory(code);
    } else {
      var n, st := |cycles| - 1, Started(code, cycles);
      HistoryRuns(code, cycles[..n]);
      StartedWell(code, cycles);
      StartedEdges(code, cycles);
      WholeScan(code, cycles[n].ticks, st);
      EdgesAreTrace(code, cycles[n].ticks, st, Rank(st, CALL_DEPTH), History(code, cycles[..n]));
    }
  }

  lemma NoHistory(code: Code)
    ensures Edges(code, []) == EdgesAfter([]) == {}
  {
  }

  /** Everything executed before the last scan of a run and in its first m steps. */
  function SoFar(code: Code, cycles: seq<Cycle>, m: nat): seq<PulseLaws.Execution>
    requires cycles != []
  {
    var n := |cycles| - 1;
    History(code, cycles[..n]) + Trace(code, cycles[n].ticks, Started(code, cycles), m)
  }

  lemma {:induction false} TraceGrows(code: Code, ticks: Ticks, st: State, m: nat, n: nat)
    requires m < n && Running(Steps(code, ticks, st, m))
    ensures var before, all := Trace(code, ticks, st, m), Trace(code, ticks, st, n);
            var now := Executed(code, Steps(code, ticks, st, m));
            |before| + |now| <= |all| && all[..|before| + |now|] == before + now
    decreases m
  {
    hide Step, AtCoil;
    var next, first := Step(code, ticks, st), Executed(code, st);
    assert Trace(code, ticks, st, n) == first + Trace(code, ticks, next, n - 1);
    if m > 0 {
      TraceGrows(code, ticks, next, m - 1, n - 1);
      var now := Executed(code, Steps(code, ticks, st, m));
      var before, all := Trace(code, ticks, next, m - 1), Trace(code, ticks, next, n - 1);
      assert (first + all)[..|first| + |before| + |now|] == first + all[..|before| + |now|];
    }
  }

  /** Every prefixed pulse coil that a scan of a run executes receives whether its execution fires, given all executions
      before it in the run; and it is the next one in the history of the run. */
  lemma CoilsReceive(code: Code, cycles: seq<Cycle>, m: nat)
    requires cycles != []
    requires var at := Steps(code, cycles[|cycles| - 1].ticks, Started(code, cycles), m);
             Running(at) && AtCoil(code, at)
    ensures var ticks, so := cycles[|cycles| - 1].ticks, SoFar(code, cycles, m);
            var at := Steps(code, ticks, Started(code, cycles), m);
            var dev := Decode(code, at.off).instr.dev;
            && Step(code, ticks, at).img == WriteBit(at.img, dev.kind, dev.num, Fires(so, Execution(at)))
            && |so| < |History(code, cycles)| && History(code, cycles)[..|so| + 1] == so + [Execution(at)]
  {
    hide Edges, EdgesAfter, Paired, Recorded, Started, Rank, RunLoop, Steps, Trace, Step, WriteBit, Fires, Running,
         AtCoil, Decode;
    var n, st := |cycles| - 1, Started(code, cycles);
    var ticks, front := cycles[n].ticks, History(code, cycles[..n]);
    var at, rank := Steps(code, ticks, st, m), Rank(st, CALL_DEPTH);
    HistoryRuns(code, cycles[..n]);
    StartedWell(code, cycles);
    StartedEdges(code, cycles);
    EdgesAreTrace(code, ticks, st, m, front);
    CoilReceives(code, ticks, at, SoFar(code, cycles, m));
    WholeScan(code, ticks, st);
    if m >= rank {
      StepsSettle(code, ticks, st, rank, m);
    }
    TraceGrows(code, ticks, st, m, rank);
    var before, all := Trace(code, ticks, st, m), Trace(code, ticks, st, rank);
    assert History(code, cycles) == front + all;
    assert (front + all)[..|front + before| + 1] == front + all[..|before| + 1];
  }

  lemma KindFixed(code: Code, es: seq<PulseLaws.Execution>, step: nat)
    requires Recorded(code, es)
    ensures Kind(es, step, IsPlf(code, step))
  {
    hide IsPlf;
  }

  /** Over every run of scans: PLS and PLF coils that saw the same rungs have pulsed equally often, up to one PLS while
      the rung is on. */
  lemma ScansBalance(code: Code, cycles: seq<Cycle>, p: nat, q: nat)
    requires p < PROGRAM_STEPS && q < PROGRAM_STEPS && !IsPlf(code, p) && IsPlf(code, q)
    requires Rungs(History(code, cycles), p) == Rungs(History(code, cycles), q)
    ensures var h := History(code, cycles);
            Pulses(h, p) - Pulses(h, q) == if Last(Rungs(h, p)) then 1 else 0
  {
    hide History, Edges, EdgesAfter, IsPlf, Rungs, Pulses, Last;
    var h := History(code, cycles);
    HistoryRuns(code, cycles);
    KindFixed(code, h, p);
    KindFixed(code, h, q);
    PulsesBalance(h, p, q);
  }

  /** Over every run of scans: no coil pulses in two consecutive executions. */
  lemma ScansNeverTwice(code: Code, cycles: seq<Cycle>, i: nat, j: nat)
    requires var h := History(code, cycles);
             && i < j < |h| && h[i].step == h[j].step && (forall k :: i < k < j ==> h[k].step != h[j].step)
             && Fired(h[..i + 1])
    ensures !Fired(History(code, cycles)[..j + 1])
  {
    hide History, Edges, EdgesAfter, Fired;
    var h := History(code, cycles);
    HistoryRuns(code, cycles);
    assert h[..i + 1] + h[i + 1..j] + [h[j]] == h[..j + 1];
    assert h[i] in h && h[j] in h;
    NeverTwice(h[..i + 1], h[i + 1..j], h[j]);
  }
}
