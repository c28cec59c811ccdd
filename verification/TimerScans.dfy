/** Timers and counters driven by the coils that scans execute: the laws over chains of begin, scan and end. */
module TimerScans {
  import opened Words
  import opened Devices
  import opened Timers
  import opened Instructions
  import opened Applied
  import opened Ladder
  import opened LadderScan
  import opened ScanRuntime
  import opened TimeLaws
  import opened StlTransfers
  import Listing
  import Assembler
  import Programs

  // ------------------------------------------------------ one instruction

  predicate SameClocks(a: Image, b: Image) { a.t == b.t && a.c == b.c }

  /** What an instruction does to timers and counters. */
  function ClockEffect(img: Image, ticks: Ticks, instr: Instr, power: bool): Image {
    match instr
    case OutTimer(t, preset) => TimerDrive(img, ticks, t, Eval(img, preset), power)
    case OutCounter(c, preset) => CounterDrive(img, c, Eval(img, preset), power)
    case ResetTimer(t) => if power then TimerReset(img, t) else img
    case ResetCounter(c) => if power then CounterReset(img, c) else img
    case Rst(dev) =>
      if power && dev.kind == DEV_T then TimerReset(img, dev.num)
      else if power && dev.kind == DEV_C then CounterReset(img, dev.num)
      else img
    case _ => img
  }

  lemma BitKeepsClocks(img: Image, dev: Byte, n: Byte, v: bool)
    ensures SameClocks(WriteBit(img, dev, n, v), img)
  {
  }

  lemma CoilClocks(code: Code, ticks: Ticks, st: State, instr: Instr, word: Word, afterOutput: bool)
    requires IsCoil(instr)
    ensures SameClocks(Exec(code, ticks, st, instr, word, afterOutput).img,
                       ClockEffect(st.img, ticks, instr, st.result))
  {
    hide Exec, WriteBit, PulseEdge;
    ExecOfCoil(code, ticks, st, instr, word, afterOutput);
    if !instr.SetState? {
      forall v {
        BitKeepsClocks(st.img, instr.dev.kind, instr.dev.num, v);
      }
    }
  }

  /** Applied instructions write relays and registers only. */
  lemma OpKeepsClocks(img: Image, op: Op)
    requires OpValid(img, op)
    ensures SameClocks(OpEffect(img, op), img)
  {
    if op.Sftr? || op.Sfrd? || op.Sfwr? || op.Bon? || op.Cmp? {
      hide OpEffect, OpValid;
      RelayOpKeepsClocks(img, op);
    } else {
      hide Eval, HighestOn, BitsOf, Rotated, Adjusted, FloatBits, ArithResult, ReadRun, Eval32, TruncDiv, TruncMod;
      hide SftrEffect, SfwrEffect, SfrdEffect, CmpEffect, BonEffect, MoveBlock, FillBlock;
    }
  }

  lemma RelayOpKeepsClocks(img: Image, op: Op)
    requires OpValid(img, op) && (op.Sftr? || op.Sfrd? || op.Sfwr? || op.Bon? || op.Cmp?)
    ensures SameClocks(OpEffect(img, op), img)
  {
    hide Eval, ReadBit, ReadRun, WriteRun, ShiftDown, CloseUp;
    match op
    case Sftr(bit, window, n, k) =>
      var source := ReadBit(img, bit.kind, bit.num) && Writable(window.kind, (window.num + Eval(img, n) - 1) % 256);
      WriteRunFrame(img, window.kind, window.num,
                    ShiftDown(ReadRun(img, window.kind, window.num, Eval(img, n)), Eval(img, k), source));
    case Sfrd(table, dst, _) =>
      var pointer := GetD(img, table);
      var flagged := SetM(img, 8020, pointer == 0);
      if pointer > 0 {
        CloseUpKeepsClocks(SetD(flagged, dst, GetD(flagged, (table + 1) % 0x1_0000)), table, 1, pointer);
      }
    case _ =>
  }

  lemma {:induction false} CloseUpKeepsClocks(img: Image, table: nat, i: nat, pointer: nat)
    ensures SameClocks(CloseUp(img, table, i, pointer), img)
    decreases pointer - i
  {
    if i < pointer {
      CloseUpKeepsClocks(SetD(img, (table + i) % 0x1_0000, GetD(img, (table + i + 1) % 0x1_0000)), table, i + 1,
                         pointer);
    }
  }

  lemma BlockKeepsClocks(code: Code, ticks: Ticks, st: State, instr: Instr, word: Word, afterOutput: bool)
    requires IsBlock(instr)
    ensures SameClocks(Exec(code, ticks, st, instr, word, afterOutput).img, st.img)
  {
    hide WriteRun, ReadRun, ReadBit, OpEffect, OpValid, ShiftUp, DrumBits, OneHotBits, Eval;
    forall dev: Byte, first: Byte, bits: seq<bool>
      ensures SameClocks(WriteRun(st.img, dev, first, bits), st.img)
    {
      WriteRunFrame(st.img, dev, first, bits);
    }
    if instr.Applied? && OpValid(st.img, instr.op) {
      OpKeepsClocks(st.img, instr.op);
    }
  }

  lemma OtherClocks(code: Code, ticks: Ticks, st: State, instr: Instr, word: Word, afterOutput: bool)
    requires !IsCoil(instr) && !IsRung(instr) && !IsFlow(instr) && !IsBlock(instr)
    ensures SameClocks(Exec(code, ticks, st, instr, word, afterOutput).img,
                       ClockEffect(st.img, ticks, instr, st.result))
  {
    hide Eval, TimerDrive, CounterDrive, TimerReset, CounterReset, ReadBit;
    hide ExecApplied, ExecSftl, ExecAbsd, ExecDeco, ExecZrst, ExecMov, ExecMovBits, ExecCall, ExecSret;
    hide ExecStl, ExecRet, ExecContact, ExecCompare, ExecStack, ExecOut, ExecSet, ExecSetState, ExecRst, ExecPulse;
  }

  lemma ExecClocks(code: Code, ticks: Ticks, st: State, instr: Instr, word: Word, afterOutput: bool)
    ensures SameClocks(Exec(code, ticks, st, instr, word, afterOutput).img,
                       ClockEffect(st.img, ticks, instr, st.result))
  {
    if IsCoil(instr) {
      hide *;
      CoilClocks(code, ticks, st, instr, word, afterOutput);
    } else if IsRung(instr) || IsFlow(instr) {
      hide Exec;
      RungTransfers(code, ticks, st, instr, word, afterOutput);
    } else if IsBlock(instr) {
      hide Exec;
      BlockKeepsClocks(code, ticks, st, instr, word, afterOutput);
    } else {
      hide Exec, ClockEffect;
      OtherClocks(code, ticks, st, instr, word, afterOutput);
    }
  }

  /** Timers and counters change by their own coils and resets only. */
  lemma StepClocks(code: Code, ticks: Ticks, st: State)
    ensures SameClocks(Step(code, ticks, st).img, ClockEffect(st.img, ticks, Decode(code, st.off).instr, st.result))
  {
    var d := Decode(code, st.off);
    hide Decode, Exec, Fetch;
    if !d.instr.Blank? {
      hide ClockEffect;
      ExecClocks(code, ticks, Ready(st, d), d.instr, Fetch(code, st.off), st.outputJust);
    }
  }

  // --------------------------------------------------------------- timers

  /** What happens to a timer: its coil is executed, or it is reset. */
  datatype TimerOp = Drive(preset: Word, on: bool) | Clear

  function Operated(t: Timer, idx: nat, ticks: Ticks, op: TimerOp): Timer {
    match op
    case Drive(preset, on) => Driven(t, IsRetentive(idx), preset, on, TicksFor(ticks, idx))
    case Clear => t.(current := 0, done := false, driven := false)
  }

  function OperatedAll(t: Timer, idx: nat, ticks: Ticks, ops: seq<TimerOp>): Timer {
    if ops == [] then t else Operated(OperatedAll(t, idx, ticks, ops[..|ops| - 1]), idx, ticks, ops[|ops| - 1])
  }

  /** What the next instruction does to timer idx. */
  function TimerOpAt(code: Code, st: State, idx: nat): seq<TimerOp> {
    match Decode(code, st.off).instr
    case OutTimer(t, preset) => if t == idx then [Drive(Eval(st.img, preset), st.result)] else []
    case ResetTimer(t) => if t == idx && st.result then [Clear] else []
    case Rst(dev) => if dev.kind == DEV_T && dev.num == idx && st.result then [Clear] else []
    case _ => []
  }

  /** What the first n instructions from a state do to it. */
  function TimerOps(code: Code, ticks: Ticks, st: State, n: nat, idx: nat): seq<TimerOp>
    decreases n
  {
    if n == 0 || !Running(st) then []
    else TimerOpAt(code, st, idx) + TimerOps(code, ticks, Step(code, ticks, st), n - 1, idx)
  }

  lemma StepTimer(code: Code, ticks: Ticks, st: State, idx: nat)
    requires idx < NUM_T
    ensures Step(code, ticks, st).img.t[idx] == OperatedAll(st.img.t[idx], idx, ticks, TimerOpAt(code, st, idx))
  {
    StepClocks(code, ticks, st);
    hide Step, Decode, Eval, Driven;
    var ops := TimerOpAt(code, st, idx);
    assert ops != [] ==> ops[..|ops| - 1] == [];
  }

  /** The timer at the end of a run of instructions, from what they did to it. */
  lemma {:induction false} StepsTimer(code: Code, ticks: Ticks, st: State, n: nat, idx: nat)
    requires idx < NUM_T
    ensures Steps(code, ticks, st, n).img.t[idx] ==
            OperatedAll(st.img.t[idx], idx, ticks, TimerOps(code, ticks, st, n, idx))
    decreases n
  {
    hide Step, TimerOpAt, Operated;
    if n > 0 && Running(st) {
      var next := Step(code, ticks, st);
      StepTimer(code, ticks, st, idx);
      StepsTimer(code, ticks, next, n - 1, idx);
      OperatedAppend(st.img.t[idx], idx, ticks, TimerOpAt(code, st, idx), TimerOps(code, ticks, next, n - 1, idx));
    }
  }

  lemma {:induction false} OperatedAppend(t: Timer, idx: nat, ticks: Ticks, a: seq<TimerOp>, b: seq<TimerOp>)
    ensures OperatedAll(t, idx, ticks, a + b) == OperatedAll(OperatedAll(t, idx, ticks, a), idx, ticks, b)
    decreases |b|
  {
    hide Operated;
    if b == [] {
      assert a + b == a;
    } else {
      assert (a + b)[..|a + b| - 1] == a + b[..|b| - 1];
      OperatedAppend(t, idx, ticks, a, b[..|b| - 1]);
    }
  }

  // --------------------------------------------------------- scan cycles

  /** One turn of the main loop in RUN: the microseconds since the last one, the inputs, and what the devices and the
      interpreter's memory were before it. tenths is the length of the scan. */
  datatype Cycle = Cycle(delta: DWord, inputs: Word, analog: seq<Word>, first: bool, edges: set<nat>, lastBad: Word,
                         img: Image, tenths: Word)

  predicate Measured(y: Cycle) { |y.analog| == NUM_ANALOG }

  /** The devices after plc_scan_begin; the clock has been advanced. */
  function Begun(c: Clock, y: Cycle): Image
    requires Measured(y)
  {
    var sampled := WithInputs(Undriven(y.img, NUM_T), y.inputs, NUM_INPUTS);
    WithRelays(WithAnalog(sampled, y.analog, NUM_ANALOG), true, y.first, c.ms)
  }

  /** The state in which the program is scanned. */
  function Entered(c: Clock, y: Cycle): State
    requires Measured(y)
  {
    Begin(y.first, y.edges, y.lastBad, Begun(c, y))
  }

  /** The devices after plc_scan_begin, the scan and plc_scan_end. */
  function Ended(code: Code, c: Clock, y: Cycle): Image
    requires Measured(y)
  {
    var scanned := Scan(code, c.ticks, y.first, y.edges, y.lastBad, Begun(c, y)).img;
    WithScanTime(WithoutIdleTimers(scanned, NUM_T), y.tenths, y.first)
  }

  /** What the whole scan does to timer idx. */
  function CycleTimerOps(code: Code, c: Clock, y: Cycle, idx: nat): seq<TimerOp>
    requires Measured(y)
  {
    TimerOps(code, c.ticks, Entered(c, y), Rank(Entered(c, y), CALL_DEPTH), idx)
  }

  /** The end of a scan: a non-retentive timer whose coil was not powered resets. */
  function Settle(t: Timer, idx: nat): Timer {
    if !t.driven && !IsRetentive(idx) then t.(current := 0, done := false) else t
  }

  lemma BegunClocks(c: Clock, y: Cycle, idx: nat)
    requires Measured(y)
    ensures idx < NUM_T ==> Begun(c, y).t[idx] == y.img.t[idx].(driven := false)
    ensures Begun(c, y).c == y.img.c
  {
  }

  lemma EndedClocks(img: Image, tenths: Word, first: bool, queued: set<nat>, idx: nat)
    ensures var after := WithScanTime(WithoutIdleTimers(ClearQueued(img, queued), NUM_T), tenths, first);
            (idx < NUM_T ==> after.t[idx] == Settle(img.t[idx], idx)) && after.c == img.c
  {
  }

  lemma ScannedImage(code: Code, c: Clock, y: Cycle)
    requires Measured(y)
    ensures var st := Entered(c, y);
            var end := Steps(code, c.ticks, st, Rank(st, CALL_DEPTH));
            Scan(code, c.ticks, y.first, y.edges, y.lastBad, Begun(c, y)).img == ClearQueued(end.img, end.stl.queued)
  {
    hide ClearQueued, Begun, Rank, Steps, RunLoop;
    WholeScan(code, c.ticks, Entered(c, y));
  }

  /** A timer after one turn of the main loop: its operations in order, then the idle reset. */
  lemma CycleTimer(code: Code, c: Clock, y: Cycle, idx: nat)
    requires Measured(y) && idx < NUM_T
    ensures Ended(code, c, y).t[idx] ==
            Settle(OperatedAll(y.img.t[idx].(driven := false), idx, c.ticks, CycleTimerOps(code, c, y, idx)), idx)
  {
    hide Scan, Begun, Rank, Steps, OperatedAll, Settle, TimerOps, ClearQueued, WithScanTime, WithoutIdleTimers;
    var st := Entered(c, y);
    var end := Steps(code, c.ticks, st, Rank(st, CALL_DEPTH));
    ScannedImage(code, c, y);
    StepsTimer(code, c.ticks, st, Rank(st, CALL_DEPTH), idx);
    BegunClocks(c, y, idx);
    EndedClocks(end.img, y.tenths, y.first, end.stl.queued, idx);
  }

  // ------------------------------------------------------ runs of the loop

  function Deltas(cycles: seq<Cycle>): (deltas: seq<DWord>)
    ensures |deltas| == |cycles|
  {
    seq(|cycles|, k requires 0 <= k < |cycles| => cycles[k].delta)
  }

  /** The clock of the last turn. */
  function Now(c: Clock, cycles: seq<Cycle>): Clock
    requires Settled(c)
  {
    ClockAfter(c, Deltas(cycles))
  }

  /** The devices after the last turn. */
  function Final(code: Code, c: Clock, cycles: seq<Cycle>): Image
    requires Settled(c) && cycles != [] && Measured(cycles[|cycles| - 1])
  {
    Ended(code, Now(c, cycles), cycles[|cycles| - 1])
  }

  /** In one scan the program executes the timer's coil once, with or without power, or skips it, and does not reset
      the timer. */
  predicate PoweredBy(ops: seq<TimerOp>, preset: Word, on: bool) { ops == [Drive(preset, on)] || (!on && ops == []) }

  /** Turns of the main loop between which timer idx keeps its value and everything else may change; powers says in
      which of them its coil has power. It starts from reset. */
  predicate TimerRun(code: Code, c: Clock, cycles: seq<Cycle>, idx: nat, preset: Word, powers: seq<bool>)
    requires Settled(c) && idx < NUM_T
  {
    hide Ended, CycleTimerOps, ClockAfter;
    |powers| == |cycles| &&
    if cycles == [] then true
    else
      var n := |cycles| - 1;
      var t := cycles[n].img.t[idx];
      && Measured(cycles[n])
      && PoweredBy(CycleTimerOps(code, Now(c, cycles), cycles[n], idx), preset, powers[n])
      && TimerRun(code, c, cycles[..n], idx, preset, powers[..n])
      && (if n == 0 then t.current == 0 && !t.done else t == Final(code, c, cycles[..n]).t[idx])
  }

  lemma DeltasFront(cycles: seq<Cycle>)
    requires cycles != []
    ensures Deltas(cycles)[..|cycles| - 1] == Deltas(cycles[..|cycles| - 1])
  {
  }

  /** What timer idx is worth of the ticks of a scan, or of several: T0-T199 and T250-T255 count in 100 ms, T200-T245 in
      10 ms, T246-T249 in 1 ms. */
  function Worth(ticks: Ticks, idx: nat): nat {
    if idx < 200 || idx >= 250 then ticks.ms100 else if idx < 246 then ticks.ms10 else ticks.ms1
  }

  /** The ticks of a run of scans that count: T0-T245 restart whenever the power is off, T246-T255 keep what they
      have. */
  function Counting(c: Clock, deltas: seq<DWord>, powers: seq<bool>, idx: nat): nat
    requires Settled(c) && |powers| == |deltas|
    decreases |deltas|
  {
    if deltas == [] then 0
    else
      var n := |deltas| - 1;
      var before := Counting(c, deltas[..n], powers[..n], idx);
      if powers[n] then before + Worth(ClockAfter(c, deltas).ticks, idx) else if idx < 246 then 0 else before
  }

  /** A timer that counts to n, up to a preset, and saturates without one. */
  predicate Holding(t: Timer, n: nat, preset: Word) {
    var top := if preset > 0 then preset else 0xFFFF;
    t.current == (if n < top then n else top) && (t.done <==> preset > 0 && n >= preset)
  }

  /** One turn: with power the timer counts on; without, T0-T245 restart and T246-T255 keep their value. */
  lemma TurnTimer(t: Timer, idx: nat, ticks: Ticks, preset: Word, on: bool, ops: seq<TimerOp>)
    requires PoweredBy(ops, preset, on)
    ensures var after := Settle(OperatedAll(t.(driven := false), idx, ticks, ops), idx);
            && (forall n: nat :: on && Holding(t, n, preset) ==> Holding(after, n + Worth(ticks, idx), preset))
            && (!on && idx < 246 ==> after.current == 0 && !after.done)
            && (!on && idx >= 246 ==> after.current == t.current && after.done == t.done)
  {
    assert ops != [] ==> ops[..|ops| - 1] == [];
    assert TicksFor(ticks, idx) == Worth(ticks, idx);
    hide TicksFor, Worth;
  }

  /** What happens to any timer in a turn in which its coil has no power, or is not executed at all: T0-T245 read 0 and
      are not done; T246-T255 keep their value. */
  lemma WithoutPower(code: Code, c: Clock, y: Cycle, idx: nat, preset: Word)
    requires Measured(y) && idx < NUM_T && PoweredBy(CycleTimerOps(code, c, y, idx), preset, false)
    ensures var before, after := y.img.t[idx], Ended(code, c, y).t[idx];
            && (idx < 246 ==> after.current == 0 && !after.done)
            && (idx >= 246 ==> after.current == before.current && after.done == before.done)
  {
    hide Ended, CycleTimerOps, OperatedAll, Settle;
    CycleTimer(code, c, y, idx);
    TurnTimer(y.img.t[idx], idx, c.ticks, preset, false, CycleTimerOps(code, c, y, idx));
  }

  /** Over every run of the main loop: a timer whose coil the program executes at most once in each scan holds the
      ticks that count, up to its preset, and is done from the moment they reach it. With preset 0 it counts on to 65535
      and is never done. */
  lemma {:induction false} TimerCounts(code: Code, c: Clock, cycles: seq<Cycle>, idx: nat, preset: Word,
        powers: seq<bool>)
    requires Settled(c) && idx < NUM_T && cycles != [] && TimerRun(code, c, cycles, idx, preset, powers)
    ensures var after := Final(code, c, cycles).t[idx];
            var n, top := Counting(c, Deltas(cycles), powers, idx), if preset > 0 then preset else 0xFFFF;
            && after.current == (if n < top then n else top)
            && (after.done <==> preset > 0 && n >= preset)
    decreases |cycles|
  {
    hide Ended, CycleTimerOps, ClockAfter, OperatedAll, Settle, PoweredBy, Worth;
    var n := |cycles| - 1;
    var y, now := cycles[n], Now(c, cycles);
    var ops, before := CycleTimerOps(code, now, y, idx), Counting(c, Deltas(cycles[..n]), powers[..n], idx);
    CycleTimer(code, now, y, idx);
    TurnTimer(y.img.t[idx], idx, now.ticks, preset, powers[n], ops);
    DeltasFront(cycles);
    if n > 0 {
      TimerCounts(code, c, cycles[..n], idx, preset, powers[..n]);
    } else {
      assert Deltas(cycles[..n]) == [];
    }
    assert Holding(y.img.t[idx], before, preset);
  }

  /** Nothing but power. */
  function AllOn(n: nat): (powers: seq<bool>)
    ensures |powers| == n
  {
    seq(n, _ => true)
  }

  lemma {:induction false} AllCount(c: Clock, deltas: seq<DWord>, idx: nat)
    requires Settled(c)
    ensures Counting(c, deltas, AllOn(|deltas|), idx) == Worth(Handed(c, deltas), idx)
    decreases |deltas|
  {
    hide ClockAfter;
    if deltas != [] {
      var n := |deltas| - 1;
      assert AllOn(|deltas|)[..n] == AllOn(n);
      AllCount(c, deltas[..n], idx);
    }
  }

  lemma MeasuredLast(code: Code, c: Clock, cycles: seq<Cycle>, idx: nat, preset: Word, powers: seq<bool>)
    requires Settled(c) && idx < NUM_T && cycles != [] && TimerRun(code, c, cycles, idx, preset, powers)
    ensures Measured(cycles[|cycles| - 1])
  {
  }

  /** Accurate to one tick, in microseconds: with power all along, a timer is done exactly when the phase of its base
      and the elapsed time reach preset ticks. T0-T199 and T250-T255 tick every 100 ms, T200-T245 every 10 ms,
      T246-T249 every 1 ms. */
  lemma TimerAccurate(code: Code, c: Clock, cycles: seq<Cycle>, idx: nat, preset: Word)
    requires Settled(c) && idx < NUM_T && cycles != []
    requires TimerRun(code, c, cycles, idx, preset, AllOn(|cycles|)) && NoWrap(Deltas(cycles)) && preset > 0
    ensures var done, elapsed := Final(code, c, cycles).t[idx].done, Sum(Deltas(cycles));
            && (idx < 200 || idx >= 250 ==> (done <==> 1000 * c.rem100 + c.accum + elapsed >= 100_000 * preset))
            && (200 <= idx < 246 ==> (done <==> 1000 * c.rem10 + c.accum + elapsed >= 10_000 * preset))
            && (246 <= idx < 250 ==> (done <==> c.accum + elapsed >= 1_000 * preset))
  {
    hide Final, TimerRun, Handed, Sum, Deltas, Counting;
    MeasuredLast(code, c, cycles, idx, preset, AllOn(|cycles|));
    TimerCounts(code, c, cycles, idx, preset, AllOn(|cycles|));
    AllCount(c, Deltas(cycles), idx);
    TicksAreFloor(c, Deltas(cycles));
  }

  /** So it is never done before preset - 1 ticks have passed, and always once preset ticks have. */
  lemma TimerBounds(code: Code, c: Clock, cycles: seq<Cycle>, idx: nat, preset: Word)
    requires Settled(c) && idx < NUM_T && cycles != []
    requires TimerRun(code, c, cycles, idx, preset, AllOn(|cycles|)) && NoWrap(Deltas(cycles)) && preset > 0
    ensures var done, elapsed := Final(code, c, cycles).t[idx].done, Sum(Deltas(cycles));
            var tick := if idx < 200 || idx >= 250 then 100_000 else if idx < 246 then 10_000 else 1_000;
            (done ==> elapsed > tick * (preset - 1)) && (elapsed >= tick * preset ==> done)
  {
    hide Final, TimerRun, Sum, Deltas;
    MeasuredLast(code, c, cycles, idx, preset, AllOn(|cycles|));
    TimerAccurate(code, c, cycles, idx, preset);
  }

  // ------------------------------------------------------------- counters

  /** What happens to a counter: its coil is executed, or it is reset. down is the direction relay at that moment. */
  datatype CounterOp = Count(preset: Word, pulse: TimeLaws.Pulse) | Zero

  function Operate(c: Counter, idx: nat, op: CounterOp): Counter {
    match op
    case Count(preset, pulse) => Counted(c, idx >= 200, pulse.down, preset, pulse.on)
    case Zero => c.(current := 0, done := false, lastIn := false)
  }

  function OperateAll(c: Counter, idx: nat, ops: seq<CounterOp>): Counter {
    if ops == [] then c else Operate(OperateAll(c, idx, ops[..|ops| - 1]), idx, ops[|ops| - 1])
  }

  /** What the next instruction does to counter idx. */
  function CounterOpAt(code: Code, st: State, idx: nat): seq<CounterOp> {
    match Decode(code, st.off).instr
    case OutCounter(c, preset) =>
      if c == idx then
        [Count(Eval(st.img, preset), TimeLaws.Pulse(st.result, idx >= 200 && GetM(st.img, 8200 + idx - 200)))]
      else []
    case ResetCounter(c) => if c == idx && st.result then [Zero] else []
    case Rst(dev) => if dev.kind == DEV_C && dev.num == idx && st.result then [Zero] else []
    case _ => []
  }

  function CounterOps(code: Code, ticks: Ticks, st: State, n: nat, idx: nat): seq<CounterOp>
    decreases n
  {
    if n == 0 || !Running(st) then []
    else CounterOpAt(code, st, idx) + CounterOps(code, ticks, Step(code, ticks, st), n - 1, idx)
  }

  lemma StepCounter(code: Code, ticks: Ticks, st: State, idx: nat)
    requires idx < NUM_C
    ensures Step(code, ticks, st).img.c[idx] == OperateAll(st.img.c[idx], idx, CounterOpAt(code, st, idx))
  {
    StepClocks(code, ticks, st);
    hide Step, Decode, Eval, Counted, GetM;
    var ops := CounterOpAt(code, st, idx);
    assert ops != [] ==> ops[..|ops| - 1] == [];
  }

  lemma {:induction false} OperateAppend(c: Counter, idx: nat, a: seq<CounterOp>, b: seq<CounterOp>)
    ensures OperateAll(c, idx, a + b) == OperateAll(OperateAll(c, idx, a), idx, b)
    decreases |b|
  {
    hide Operate;
    if b == [] {
      assert a + b == a;
    } else {
      assert (a + b)[..|a + b| - 1] == a + b[..|b| - 1];
      OperateAppend(c, idx, a, b[..|b| - 1]);
    }
  }

  lemma {:induction false} StepsCounter(code: Code, ticks: Ticks, st: State, n: nat, idx: nat)
    requires idx < NUM_C
    ensures Steps(code, ticks, st, n).img.c[idx] ==
            OperateAll(st.img.c[idx], idx, CounterOps(code, ticks, st, n, idx))
    decreases n
  {
    hide Step, CounterOpAt, Operate;
    if n > 0 && Running(st) {
      var next := Step(code, ticks, st);
      StepCounter(code, ticks, st, idx);
      StepsCounter(code, ticks, next, n - 1, idx);
      OperateAppend(st.img.c[idx], idx, CounterOpAt(code, st, idx), CounterOps(code, ticks, next, n - 1, idx));
    }
  }

  function CycleCounterOps(code: Code, c: Clock, y: Cycle, idx: nat): seq<CounterOp>
    requires Measured(y)
  {
    CounterOps(code, c.ticks, Entered(c, y), Rank(Entered(c, y), CALL_DEPTH), idx)
  }

  lemma CycleCounter(code: Code, c: Clock, y: Cycle, idx: nat)
    requires Measured(y) && idx < NUM_C
    ensures Ended(code, c, y).c[idx] == OperateAll(y.img.c[idx], idx, CycleCounterOps(code, c, y, idx))
  {
    hide Scan, Begun, Rank, Steps, OperateAll, CounterOps, ClearQueued, WithScanTime, WithoutIdleTimers;
    var st := Entered(c, y);
    var end := Steps(code, c.ticks, st, Rank(st, CALL_DEPTH));
    ScannedImage(code, c, y);
    StepsCounter(code, c.ticks, st, Rank(st, CALL_DEPTH), idx);
    BegunClocks(c, y, idx);
    EndedClocks(end.img, y.tenths, y.first, end.stl.queued, idx);
  }

  /** Turns of the main loop between which counter idx keeps its value and everything else may change, from reset. */
  predicate CounterTurns(code: Code, c: Clock, cycles: seq<Cycle>, idx: nat)
    requires Settled(c) && idx < NUM_C
  {
    hide Ended, ClockAfter;
    if cycles == [] then true
    else
      var n := |cycles| - 1;
      var counter := cycles[n].img.c[idx];
      && Measured(cycles[n]) && CounterTurns(code, c, cycles[..n], idx)
      && (if n == 0 then IsReset(counter) else counter == Final(code, c, cycles[..n]).c[idx])
  }

  /** Everything that the scans did to the counter, in order. */
  function CounterHistory(code: Code, c: Clock, cycles: seq<Cycle>, idx: nat): seq<CounterOp>
    requires Settled(c) && idx < NUM_C && CounterTurns(code, c, cycles, idx)
  {
    hide Ended, ClockAfter, CycleCounterOps;
    if cycles == [] then []
    else
      var n := |cycles| - 1;
      CounterHistory(code, c, cycles[..n], idx) + CycleCounterOps(code, Now(c, cycles), cycles[n], idx)
  }

  /** A counter is what its coils and resets made of it, over every run of the main loop. */
  lemma {:induction false} CounterFolds(code: Code, c: Clock, cycles: seq<Cycle>, idx: nat)
    requires Settled(c) && idx < NUM_C && cycles != [] && CounterTurns(code, c, cycles, idx)
    ensures IsReset(cycles[0].img.c[idx])
    ensures Final(code, c, cycles).c[idx] ==
            OperateAll(cycles[0].img.c[idx], idx, CounterHistory(code, c, cycles, idx))
    decreases |cycles|
  {
    hide Ended, CycleCounterOps, ClockAfter, OperateAll;
    var n := |cycles| - 1;
    var y, now := cycles[n], Now(c, cycles);
    CycleCounter(code, now, y, idx);
    if n > 0 {
      CounterFolds(code, c, cycles[..n], idx);
      OperateAppend(cycles[0].img.c[idx], idx, CounterHistory(code, c, cycles[..n], idx),
                    CycleCounterOps(code, now, y, idx));
    } else {
      assert [] + CycleCounterOps(code, now, y, idx) == CycleCounterOps(code, now, y, idx);
      assert CounterHistory(code, c, cycles[..n], idx) == [];
    }
  }

  /** The counter's coil is executed with one preset, and the counter is not reset. */
  predicate OnlyCounts(ops: seq<CounterOp>, preset: Word) {
    forall k :: 0 <= k < |ops| ==> ops[k].Count? && ops[k].preset == preset
  }

  function Pulses(ops: seq<CounterOp>, preset: Word): (pulses: seq<TimeLaws.Pulse>)
    requires OnlyCounts(ops, preset)
    ensures |pulses| == |ops|
  {
    seq(|ops|, k requires 0 <= k < |ops| => ops[k].pulse)
  }

  lemma {:induction false} OperateIsCount(c: Counter, idx: nat, ops: seq<CounterOp>, preset: Word)
    requires OnlyCounts(ops, preset)
    ensures OperateAll(c, idx, ops) == CounterAfter(c, idx >= 200, preset, Pulses(ops, preset))
    decreases |ops|
  {
    hide Counted;
    if ops != [] {
      var n := |ops| - 1;
      OperateIsCount(c, idx, ops[..n], preset);
      assert Pulses(ops, preset)[..n] == Pulses(ops[..n], preset);
    }
  }

  /** Over every run of the main loop in which scans execute the counter's coil, any number of times, with one preset
      and without resetting it: C0-C199 hold the rising edges up to the preset; C200-C255 up edges minus down edges. */
  lemma CounterCounts(code: Code, c: Clock, cycles: seq<Cycle>, idx: nat, preset: Word)
    requires Settled(c) && idx < NUM_C && cycles != [] && CounterTurns(code, c, cycles, idx)
    requires OnlyCounts(CounterHistory(code, c, cycles, idx), preset)
    ensures var after := Final(code, c, cycles).c[idx];
            var pulses := Pulses(CounterHistory(code, c, cycles, idx), preset);
            && (idx < 200 ==>
                  && after.current == (if Edges(pulses) < preset then Edges(pulses) else preset)
                  && (after.done <==> Edges(pulses) >= (if preset > 1 then preset else 1)))
            && (idx >= 200 && InRange(pulses) ==>
                  after.current == Net(pulses) && after.done == ReachedAtLastEdge(pulses, preset))
  {
    hide Final, CounterTurns, CounterHistory, OperateAll, CounterAfter, Edges, Net, ReachedAtLastEdge, InRange,
         OnlyCounts, Pulses;
    var start, h := cycles[0].img.c[idx], CounterHistory(code, c, cycles, idx);
    CounterFolds(code, c, cycles, idx);
    OperateIsCount(start, idx, h, preset);
    if idx < 200 {
      CountsUp(start, preset, Pulses(h, preset));
    } else if InRange(Pulses(h, preset)) {
      CountsBothWays(start, preset, Pulses(h, preset));
    }
  }

  /** Execution k of the coil sees the edge of its rung. */
  predicate EdgeAt(c: Counter, ops: seq<CounterOp>, k: nat)
    requires k < |ops|
  {
    ops[k].Count? && ops[k].pulse.on &&
    (if k == 0 then !c.lastIn else ops[k - 1].Count? ==> !ops[k - 1].pulse.on)
  }

  /** An edge finds the counter at the preset of that moment, or brings it there. */
  predicate Reaches(c: Counter, idx: nat, ops: seq<CounterOp>, k: nat)
    requires k < |ops|
  {
    EdgeAt(c, ops, k) && OperateAll(c, idx, ops[..k + 1]).current >= ops[k].preset
  }

  /** The last input a counter remembers is that of the last execution of its coil, off after a reset. */
  lemma RemembersInput(c: Counter, idx: nat, ops: seq<CounterOp>)
    requires ops != []
    ensures var last := ops[|ops| - 1];
            OperateAll(c, idx, ops).lastIn == (last.Count? && last.pulse.on)
  {
  }

  lemma {:induction false} DoneLatches(c: Counter, idx: nat, ops: seq<CounterOp>)
    requires idx < 200 && forall k :: 0 <= k < |ops| ==> ops[k].Count?
    ensures OperateAll(c, idx, ops).done <==>
            c.done || exists k: nat :: k < |ops| && Reaches(c, idx, ops, k)
    decreases |ops|
  {
    if ops != [] {
      var n := |ops| - 1;
      var front := ops[..n];
      DoneLatches(c, idx, front);
      if n > 0 {
        RemembersInput(c, idx, front);
      }
      hide OperateAll;
      forall k: nat | k < n
        ensures Reaches(c, idx, front, k) <==> Reaches(c, idx, ops, k)
      {
        assert front[..k + 1] == ops[..k + 1];
      }
      LastReaches(c, idx, ops);
    }
  }

  /** The last execution sets done exactly when it reaches the preset, and never clears it. */
  lemma LastReaches(c: Counter, idx: nat, ops: seq<CounterOp>)
    requires idx < 200 && ops != [] && ops[|ops| - 1].Count?
    ensures var n := |ops| - 1;
            OperateAll(c, idx, ops).done <==> OperateAll(c, idx, ops[..n]).done || Reaches(c, idx, ops, n)
  {
    var n := |ops| - 1;
    assert ops[..n + 1] == ops;
    if n > 0 {
      assert ops[..n][n - 1] == ops[n - 1];
      RemembersInput(c, idx, ops[..n]);
    }
  }

  /** C0-C199 with presets that change: over every run without a reset the counter is done exactly from the first edge
      on that finds it at the preset of that moment, whatever the preset becomes. */
  lemma CounterLatches(code: Code, c: Clock, cycles: seq<Cycle>, idx: nat)
    requires Settled(c) && idx < 200 && cycles != [] && CounterTurns(code, c, cycles, idx)
    requires forall op :: op in CounterHistory(code, c, cycles, idx) ==> op.Count?
    ensures var start, h := cycles[0].img.c[idx], CounterHistory(code, c, cycles, idx);
            Final(code, c, cycles).c[idx].done <==> exists k: nat :: k < |h| && Reaches(start, idx, h, k)
  {
    hide Final, CounterTurns, CounterHistory, OperateAll, Reaches;
    CounterFolds(code, c, cycles, idx);
    DoneLatches(cycles[0].img.c[idx], idx, CounterHistory(code, c, cycles, idx));
  }

  // ------------------------------------------------- a program with a timer

  /** LD M8000 and OUT T, then END, at the start of the program. */
  predicate DrivesAlways(code: Code, idx: Byte, preset: Word) {
    && Fetch(code, CODE_OFFSET) == Listing.Encode(RUNNING)
    && Decode(code, CODE_OFFSET + 2) == Decoded(OutTimer(idx, Constant(preset)), CODE_OFFSET + 8)
    && Fetch(code, CODE_OFFSET + 8) == 0x000F
  }

  /** The run monitor. */
  const RUNNING: Listing.SimpleInstr := Contact(Start, false, Dev(DEV_MS, 0))

  lemma LoadTimer(idx: Byte, preset: Word) returns (code: Code)
    ensures DrivesAlways(code, idx, preset)
  {
    hide Fetch, Listing.Assemble, Assembler.LongWords, Listing.Encode, Decode, Assembler.Args;
    var instr := OutTimer(idx, Constant(preset));
    var timer := Assembler.LongWords(instr);
    assert |timer| == 3 by { TimerWords(idx, preset); }
    var words := [Listing.Encode(RUNNING)] + timer + [0x000F];
    code := Listing.Assemble(words);
    forall i: nat | i < |words|
      ensures Fetch(code, CODE_OFFSET + 2 * i) == words[i]
    {
      Listing.AssembleFetch(words, i);
    }
    assert Fetch(code, CODE_OFFSET + 2 * 0) == words[0] && Fetch(code, CODE_OFFSET + 2 * 4) == words[4];
    forall i: nat | i < |timer|
      ensures Fetch(code, CODE_OFFSET + 2 + 2 * i) == timer[i]
    {
      assert words[1 + i] == timer[i] && CODE_OFFSET + 2 + 2 * i == CODE_OFFSET + 2 * (1 + i);
    }
    Assembler.LongDecodes(code, CODE_OFFSET + 2, instr);
  }

  lemma TimerWords(idx: Byte, preset: Word)
    ensures Assembler.Long(OutTimer(idx, Constant(preset)))
    ensures |Assembler.LongWords(OutTimer(idx, Constant(preset)))| == 3
  {
  }

  lemma ContactPowers(code: Code, c: Clock, y: Cycle)
    requires Measured(y) && Fetch(code, CODE_OFFSET) == Listing.Encode(RUNNING)
    ensures var one := Step(code, c.ticks, Entered(c, y));
            one.result && one.off == CODE_OFFSET + 2 && !one.halted && one.calls == []
    ensures Decode(code, CODE_OFFSET).instr == RUNNING
  {
    hide Fetch, Step, Listing.Do, Decode, Listing.Encode;
    var st := Entered(c, y);
    MonitorIsOn(c, y);
    Listing.DecodeEncode(code, CODE_OFFSET, RUNNING);
    Listing.StepIsDo(code, c.ticks, st, RUNNING);
    Listing.DoContact(st, Start, false, Dev(DEV_MS, 0));
  }

  lemma MonitorIsOn(c: Clock, y: Cycle)
    requires Measured(y)
    ensures ReadBit(Begun(c, y), DEV_MS, 0)
  {
  }

  lemma CoilMovesOn(code: Code, ticks: Ticks, st: State, idx: Byte, preset: Word)
    requires Decode(code, st.off) == Decoded(OutTimer(idx, Constant(preset)), st.off + 6)
    ensures var after := Step(code, ticks, st);
            after.off == st.off + 6 && after.halted == st.halted && after.calls == st.calls
  {
    hide Decode, Fetch, TimerDrive;
  }

  lemma EndDecodes(code: Code, off: nat)
    requires Fetch(code, off) == 0x000F
    ensures Decode(code, off).instr.End?
  {
    hide Fetch;
  }

  /** Such a program drives its timer once in every scan. */
  lemma DrivesOnce(code: Code, c: Clock, y: Cycle, idx: Byte, preset: Word)
    requires Measured(y) && DrivesAlways(code, idx, preset)
    ensures CycleTimerOps(code, c, y, idx) == [Drive(preset, true)]
  {
    hide Fetch, Decode, Step, Rank, Begun, Listing.Encode;
    var st := Entered(c, y);
    var one := Step(code, c.ticks, st);
    var two := Step(code, c.ticks, one);
    var three := Step(code, c.ticks, two);
    var n := Rank(st, CALL_DEPTH);
    ContactPowers(code, c, y);
    CoilMovesOn(code, c.ticks, one, idx, preset);
    EndDecodes(code, two.off);
    Programs.EndHalts(code, c.ticks, two);
    StepDescends(code, c.ticks, st);
    StepDescends(code, c.ticks, one);
    StepDescends(code, c.ticks, two);
    assert TimerOpAt(code, st, idx) == [] && TimerOpAt(code, two, idx) == [];
    assert TimerOpAt(code, one, idx) == [Drive(preset, true)];
    assert Running(st) && Running(one) && Running(two) && !Running(three);
    hide TimerOpAt, TimerOps, Running;
    OpsNext(code, c.ticks, three, n - 3, idx);
    OpsNext(code, c.ticks, two, n - 2, idx);
    OpsNext(code, c.ticks, one, n - 1, idx);
    OpsNext(code, c.ticks, st, n, idx);
  }

  lemma OpsNext(code: Code, ticks: Ticks, st: State, n: nat, idx: nat)
    ensures TimerOps(code, ticks, st, n, idx) ==
            if n == 0 || !Running(st) then []
            else TimerOpAt(code, st, idx) + TimerOps(code, ticks, Step(code, ticks, st), n - 1, idx)
  {
  }

  /** One turn after the other, each on the devices that the one before it left; inputs, analog values and times may be
      anything. */
  predicate Turns(code: Code, c: Clock, cycles: seq<Cycle>)
    requires Settled(c)
  {
    hide Ended, ClockAfter;
    if cycles == [] then true
    else
      var n := |cycles| - 1;
      && Measured(cycles[n]) && Turns(code, c, cycles[..n])
      && (n > 0 ==> cycles[n].img == Final(code, c, cycles[..n]))
  }

  /** The timer of such a program keeps time from reset, in every run of the main loop. */
  lemma {:induction false} DrivesAlong(code: Code, c: Clock, cycles: seq<Cycle>, idx: Byte, preset: Word)
    requires Settled(c) && DrivesAlways(code, idx, preset) && cycles != [] && Turns(code, c, cycles)
    requires cycles[0].img.t[idx].current == 0 && !cycles[0].img.t[idx].done
    ensures TimerRun(code, c, cycles, idx, preset, AllOn(|cycles|))
    decreases |cycles|
  {
    hide Ended, CycleTimerOps, ClockAfter, DrivesAlways;
    var n := |cycles| - 1;
    DrivesOnce(code, Now(c, cycles), cycles[n], idx, preset);
    assert AllOn(|cycles|)[..n] == AllOn(n);
    if n > 0 {
      DrivesAlong(code, c, cycles[..n], idx, preset);
    } else {
      assert cycles[..n] == [];
    }
  }
}
