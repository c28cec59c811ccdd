/** Every scan of every program image terminates, and keeps the interpreter's invariant. */
module LadderScan {
  import opened Words
  import opened Devices
  import opened Timers
  import opened Instructions
  import opened Applied
  import opened Ladder

  /** Only CALL and SRET move control. */
  lemma ExecControl(code: Code, ticks: Ticks, st: State, instr: Instr, word: Word, afterOutput: bool)
    requires !instr.Call? && !instr.Sret?
    ensures var after := Exec(code, ticks, st, instr, word, afterOutput);
            after.off == st.off && after.calls == st.calls
  {
    hide ExecApplied, ExecSftl, ExecAbsd, ExecDeco, ExecZrst, ExecMov, ExecMovBits, ExecCall, ExecSret;
    hide ExecStl, ExecRet, ExecContact, ExecCompare, ExecStack, ExecOut, ExecSet, ExecSetState, ExecRst, ExecPulse;
    hide ReadBit, Eval, TimerDrive, CounterDrive, TimerReset, CounterReset, SetS;
  }

  lemma {:induction false} RankSame(after: State, before: State, i: nat)
    requires forall j: nat :: j <= i ==> Level(after, j) == Level(before, j)
    ensures Rank(after, i) == Rank(before, i)
  {
    hide Level;
    if i > 0 {
      RankSame(after, before, i - 1);
    }
  }

  /** A lower level decides, whatever the levels above it do. */
  lemma {:induction false} RankDescends(after: State, before: State, k: nat, i: nat)
    requires k <= i
    requires forall j: nat :: j < k ==> Level(after, j) == Level(before, j)
    requires Level(after, k) < Level(before, k)
    requires forall j: nat :: Level(after, j) <= PROGRAM_BYTES
    ensures Rank(after, i) < Rank(before, i)
  {
    hide Level;
    if k < i {
      RankDescends(after, before, k, i - 1);
    } else if i > 0 {
      RankSame(after, before, i - 1);
    }
  }

  /** What a step can do to control: return, call, or move on. */
  lemma StepControl(code: Code, ticks: Ticks, st: State)
    ensures var after := Step(code, ticks, st);
            || (st.calls != [] && after.off == st.calls[|st.calls| - 1] && after.calls == st.calls[..|st.calls| - 1])
            || (|st.calls| < CALL_DEPTH && |after.calls| == |st.calls| + 1 && after.calls[..|st.calls|] == st.calls
                && after.calls[|st.calls|] >= st.off + 2)
            || (after.calls == st.calls && after.off >= st.off + 2)
  {
    var d := Decode(code, st.off);
    DecodeAdvances(code, st.off);
    hide Decode, Fetch, FindSubroutine;
    if d.instr.Call? {
    } else if d.instr.Sret? {
    } else if !d.instr.Blank? {
      ExecControl(code, ticks, Ready(st, d), d.instr, Fetch(code, st.off), st.outputJust);
      hide Exec;
    }
  }

  /** Each step lowers the call levels lexicographically: CALL lowers the caller's, SRET drops the
      callee's, anything else moves on within the running level. */
  lemma StepDescends(code: Code, ticks: Ticks, st: State)
    requires Running(st) && |st.calls| <= CALL_DEPTH
    ensures |Step(code, ticks, st).calls| <= CALL_DEPTH
    ensures Rank(Step(code, ticks, st), CALL_DEPTH) < Rank(st, CALL_DEPTH)
  {
    hide Step, Rank;
    var after := Step(code, ticks, st);
    StepControl(code, ticks, st);
    RankDescends(after, st, |st.calls|, CALL_DEPTH);
  }

  /** The scan loop: run until END or the end of program memory. */
  function RunLoop(code: Code, ticks: Ticks, st: State): (end: State)
    requires |st.calls| <= CALL_DEPTH
    ensures !Running(end) && |end.calls| <= CALL_DEPTH
    decreases Rank(st, CALL_DEPTH)
  {
    hide Step, Rank;
    if !Running(st) then st
    else
      StepDescends(code, ticks, st);
      RunLoop(code, ticks, Step(code, ticks, st))
  }

  /** However its subroutines call each other, a scan stops: after n instructions, bounded by the rank. */
  lemma {:induction false} ScanHalts(code: Code, ticks: Ticks, st: State) returns (n: nat)
    requires |st.calls| <= CALL_DEPTH
    ensures n <= Rank(st, CALL_DEPTH)
    ensures !Running(Steps(code, ticks, st, n))
    ensures Steps(code, ticks, st, n) == RunLoop(code, ticks, st)
    ensures forall m: nat :: m < n ==> Running(Steps(code, ticks, st, m))
    decreases Rank(st, CALL_DEPTH)
  {
    hide Step, Rank;
    if !Running(st) {
      n := 0;
    } else {
      StepDescends(code, ticks, st);
      var rest := ScanHalts(code, ticks, Step(code, ticks, st));
      n := rest + 1;
    }
  }

  /** Running part of a scan by hand does not change where it ends. */
  lemma {:induction false} RunLoopAfter(code: Code, ticks: Ticks, st: State, n: nat)
    requires |st.calls| <= CALL_DEPTH
    ensures |Steps(code, ticks, st, n).calls| <= CALL_DEPTH
    ensures RunLoop(code, ticks, st) == RunLoop(code, ticks, Steps(code, ticks, st, n))
    decreases n
  {
    hide Step, Rank;
    if n > 0 && Running(st) {
      StepDescends(code, ticks, st);
      RunLoopAfter(code, ticks, Step(code, ticks, st), n - 1);
    }
  }

  /** Once a scan has stopped, more steps change nothing. */
  lemma {:induction false} StepsSettle(code: Code, ticks: Ticks, st: State, n: nat, m: nat)
    requires n <= m && !Running(Steps(code, ticks, st, n))
    ensures Steps(code, ticks, st, m) == Steps(code, ticks, st, n)
    decreases n
  {
    hide Step;
    if n > 0 && Running(st) {
      StepsSettle(code, ticks, Step(code, ticks, st), n - 1, m - 1);
    }
  }

  /** As many steps as the rank allows are the whole scan. */
  lemma WholeScan(code: Code, ticks: Ticks, st: State)
    requires |st.calls| <= CALL_DEPTH
    ensures Steps(code, ticks, st, Rank(st, CALL_DEPTH)) == RunLoop(code, ticks, st)
    ensures !Running(RunLoop(code, ticks, st))
  {
    hide Rank, Running, Steps;
    var n := ScanHalts(code, ticks, st);
    StepsSettle(code, ticks, st, n, Rank(st, CALL_DEPTH));
  }

  /** Going on at a word with everything else as it was. */
  function GoOn(st: State, off: nat): State {
    st.(off := off, outputJust := false, stl := st.stl.(accepting := false))
  }

  /** A refused instruction is counted and remembered. */
  function Refused(st: State, word: Word): State { st.(unknown := (st.unknown + 1) % 0x1_0000, lastBad := word) }

  // ----------------------------------------------------------- invariant

  predicate IsFlow(instr: Instr) { instr.Call? || instr.Sret? }

  predicate IsCoil(instr: Instr) { instr.Out? || instr.Set? || instr.Rst? || instr.Pulse? || instr.SetState? }

  predicate IsRung(instr: Instr) {
    || instr.Contact? || instr.Compare? || instr.StlStep? || instr.Ret?
    || instr.Mps? || instr.Mrd? || instr.Mpp? || instr.Anb? || instr.Orb?
  }

  /** Instructions that work on runs of devices or on operand values. */
  predicate IsBlock(instr: Instr) {
    instr.Applied? || instr.Zrst? || instr.Sftl? || instr.Absd? || instr.Deco? || instr.MovBits? || instr.Mov?
  }

  // What each class of instructions executes.

  lemma ExecOfContact(code: Code, ticks: Ticks, st: State, instr: Instr, word: Word, afterOutput: bool)
    ensures var after := Exec(code, ticks, st, instr, word, afterOutput);
            && (instr.Contact? ==> after == ExecContact(st, instr.join, instr.negated, instr.dev))
            && (instr.Compare? ==> after == ExecCompare(st, instr.join, instr.relation, instr.a, instr.b))
  {
    hide ExecContact, ExecCompare;
    hide ReadBit, Eval, TimerDrive, CounterDrive, TimerReset, CounterReset, SetS;
  }

  lemma ExecOfStep(code: Code, ticks: Ticks, st: State, instr: Instr, word: Word, afterOutput: bool)
    ensures var after := Exec(code, ticks, st, instr, word, afterOutput);
            && (instr.StlStep? ==> after == ExecStl(st, instr.n, word))
            && (instr.Ret? ==> after == ExecRet(st))
  {
    hide ExecStl, ExecRet;
    hide ReadBit, Eval, TimerDrive, CounterDrive, TimerReset, CounterReset, SetS;
  }

  lemma ExecOfStack(code: Code, ticks: Ticks, st: State, instr: Instr, word: Word, afterOutput: bool)
    requires IsRung(instr) && !instr.StlStep? && !instr.Ret? && !instr.Contact? && !instr.Compare?
    ensures Exec(code, ticks, st, instr, word, afterOutput) == ExecStack(st, instr)
  {
    hide ExecStack;
    hide ReadBit, Eval, TimerDrive, CounterDrive, TimerReset, CounterReset, SetS;
  }

  lemma ExecOfRung(code: Code, ticks: Ticks, st: State, instr: Instr, word: Word, afterOutput: bool)
    requires IsRung(instr)
    ensures var after := Exec(code, ticks, st, instr, word, afterOutput);
            && (instr.StlStep? ==> after == ExecStl(st, instr.n, word))
            && (instr.Ret? ==> after == ExecRet(st))
            && (instr.Contact? ==> after == ExecContact(st, instr.join, instr.negated, instr.dev))
            && (instr.Compare? ==> after == ExecCompare(st, instr.join, instr.relation, instr.a, instr.b))
            && (!instr.StlStep? && !instr.Ret? && !instr.Contact? && !instr.Compare? ==> after == ExecStack(st, instr))
  {
    hide Exec, ExecContact, ExecCompare, ExecStack, ExecStl, ExecRet;
    ExecOfContact(code, ticks, st, instr, word, afterOutput);
    ExecOfStep(code, ticks, st, instr, word, afterOutput);
    if !instr.StlStep? && !instr.Ret? && !instr.Contact? && !instr.Compare? {
      ExecOfStack(code, ticks, st, instr, word, afterOutput);
    }
  }

  lemma ExecOfCoil(code: Code, ticks: Ticks, st: State, instr: Instr, word: Word, afterOutput: bool)
    requires IsCoil(instr)
    ensures var after := Exec(code, ticks, st, instr, word, afterOutput);
            && (instr.Out? ==> after == ExecOut(st, instr.dev))
            && (instr.Set? ==> after == ExecSet(st, instr.dev))
            && (instr.Rst? ==> after == ExecRst(st, instr.dev))
            && (instr.Pulse? ==> after == ExecPulse(st, instr.dev, word))
            && (instr.SetState? ==> after == ExecSetState(st, instr.n))
  {
    hide ExecOut, ExecSet, ExecRst, ExecPulse, ExecSetState;
  }

  lemma FlowWellFormed(code: Code, ticks: Ticks, st: State, instr: Instr, word: Word, afterOutput: bool)
    requires WellFormed(st) && IsFlow(instr)
    ensures WellFormed(Exec(code, ticks, st, instr, word, afterOutput))
  {
  }

  lemma RungWellFormed(code: Code, ticks: Ticks, st: State, instr: Instr, word: Word, afterOutput: bool)
    requires WellFormed(st) && IsRung(instr)
    ensures WellFormed(Exec(code, ticks, st, instr, word, afterOutput))
  {
    hide Exec, ReadBit, Eval, Holds;
    ExecOfRung(code, ticks, st, instr, word, afterOutput);
  }

  lemma CoilWellFormed(code: Code, ticks: Ticks, st: State, instr: Instr, word: Word, afterOutput: bool)
    requires WellFormed(st) && IsCoil(instr)
    ensures WellFormed(Exec(code, ticks, st, instr, word, afterOutput))
  {
    hide Exec, WriteBit, SetS, RstEffect;
    ExecOfCoil(code, ticks, st, instr, word, afterOutput);
  }

  lemma PlainWellFormed(code: Code, ticks: Ticks, st: State, instr: Instr, word: Word, afterOutput: bool)
    requires WellFormed(st) && !IsFlow(instr) && !IsRung(instr) && !IsCoil(instr)
    ensures WellFormed(Exec(code, ticks, st, instr, word, afterOutput))
  {
    hide ExecApplied, ExecSftl, ExecAbsd, ExecDeco, ExecZrst, ExecMov, ExecMovBits, ExecCall, ExecSret;
    hide ExecStl, ExecRet, ExecContact, ExecCompare, ExecStack, ExecOut, ExecSet, ExecSetState, ExecRst, ExecPulse;
    hide ReadBit, Eval, TimerDrive, CounterDrive, TimerReset, CounterReset, SetS;
  }

  lemma ExecWellFormed(code: Code, ticks: Ticks, st: State, instr: Instr, word: Word, afterOutput: bool)
    requires WellFormed(st)
    ensures WellFormed(Exec(code, ticks, st, instr, word, afterOutput))
  {
    hide Exec, WellFormed;
    if IsFlow(instr) {
      FlowWellFormed(code, ticks, st, instr, word, afterOutput);
    } else if IsRung(instr) {
      RungWellFormed(code, ticks, st, instr, word, afterOutput);
    } else if IsCoil(instr) {
      CoilWellFormed(code, ticks, st, instr, word, afterOutput);
    } else {
      PlainWellFormed(code, ticks, st, instr, word, afterOutput);
    }
  }

  lemma StepWellFormed(code: Code, ticks: Ticks, st: State)
    requires WellFormed(st)
    ensures WellFormed(Step(code, ticks, st))
  {
    var d := Decode(code, st.off);
    DecodeAdvances(code, st.off);
    hide Decode, Fetch, Exec;
    if !d.instr.Blank? {
      ExecWellFormed(code, ticks, Ready(st, d), d.instr, Fetch(code, st.off), st.outputJust);
    }
  }

  lemma {:induction false} RunWellFormed(code: Code, ticks: Ticks, st: State)
    requires WellFormed(st)
    ensures WellFormed(RunLoop(code, ticks, st))
    decreases Rank(st, CALL_DEPTH)
  {
    hide Step, Rank;
    if Running(st) {
      StepDescends(code, ticks, st);
      StepWellFormed(code, ticks, st);
      RunWellFormed(code, ticks, Step(code, ticks, st));
    }
  }

  // -------------------------------------------------------- a whole scan

  /** The state plc_exec_scan starts from. The first scan after STOP forgets the edge memory. */
  function Begin(first: bool, edges: set<nat>, lastBad: Word, img: Image): State {
    State(CODE_OFFSET, false, false, NoPulse, [], [], [], false, Stl(false, false, false, [], {}),
          if first then {} else edges, 0, lastBad, img)
  }

  /** Clears the states whose transfer was queued. */
  function ClearQueued(img: Image, queued: set<nat>): Image {
    img.(s := seq(NUM_S, i requires 0 <= i < NUM_S => img.s[i] && i !in queued))
  }

  function Scan(code: Code, ticks: Ticks, first: bool, edges: set<nat>, lastBad: Word, img: Image): State {
    var end := RunLoop(code, ticks, Begin(first, edges, lastBad, img));
    end.(img := ClearQueued(end.img, end.stl.queued))
  }
}
