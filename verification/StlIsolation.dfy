/** What an inactive STL step can and cannot do. */
module StlIsolation {
  import opened Words
  import opened Devices
  import opened Timers
  import opened Instructions
  import opened Applied
  import opened Ladder
  import opened LadderScan

  predicate FalseFrom(stack: seq<bool>, base: nat) {
    forall i :: base <= i < |stack| ==> !stack[i]
  }

  /** Inside a step whose gate is false, with no power on the rung or on the stacks above the heights the
      step was entered with. */
  predicate Dark(st: State, blockBase: nat, branchBase: nat) {
    && st.stl.active && !st.stl.gate && !st.result
    && FalseFrom(st.block, blockBase) && FalseFrom(st.branch, branchBase)
  }

  /** The instructions that can carry power into a dark step: comparisons that start or join a rung, the
      counter enable word, and stack reads below the entry heights. */
  predicate Leaks(st: State, instr: Instr) {
    match instr
    case Compare(join, relation, a, b) =>
      join != And && Holds(relation, Signed16(Eval(st.img, a)), Signed16(Eval(st.img, b)))
    case CounterEnable(x) => ReadBit(st.img, DEV_X, x)
    case Orb => TopOn(st.block)
    case Mrd => TopOn(st.branch)
    case Mpp => TopOn(st.branch)
    case _ => false
  }

  predicate TopOn(stack: seq<bool>) { stack != [] && stack[|stack| - 1] }

  predicate OpensOrCloses(instr: Instr) { instr.StlStep? || instr.Ret? }

  function Lower(base: nat, stack: seq<bool>): nat { if |stack| < base then |stack| else base }

  lemma ContactIsolation(st: State, join: Join, negated: bool, dev: Device, relation: Relation, a: Source, b: Source,
        blockBase: nat, branchBase: nat)
    requires Dark(st, blockBase, branchBase)
    ensures var after := ExecContact(st, join, negated, dev);
            !after.result && Dark(after, Lower(blockBase, after.block), Lower(branchBase, after.branch))
    ensures var after := ExecCompare(st, join, relation, a, b);
            && after.result == (join != And && Holds(relation, Signed16(Eval(st.img, a)), Signed16(Eval(st.img, b))))
            && (!after.result ==> Dark(after, Lower(blockBase, after.block), Lower(branchBase, after.branch)))
  {
    hide ReadBit, Eval, Holds;
  }

  lemma StackIsolation(st: State, instr: Instr, blockBase: nat, branchBase: nat)
    requires Dark(st, blockBase, branchBase)
    requires instr.Mps? || instr.Mrd? || instr.Mpp? || instr.Anb? || instr.Orb?
    ensures var after := ExecStack(st, instr);
            && after.result == Leaks(st, instr)
            && (!after.result ==> Dark(after, Lower(blockBase, after.block), Lower(branchBase, after.branch)))
  {
  }

  lemma RungIsolation(code: Code, ticks: Ticks, st: State, instr: Instr, word: Word, afterOutput: bool,
        blockBase: nat, branchBase: nat)
    requires Dark(st, blockBase, branchBase) && IsRung(instr) && !OpensOrCloses(instr)
    ensures var after := Exec(code, ticks, st, instr, word, afterOutput);
            && after.result == Leaks(st, instr)
            && (!after.result ==> Dark(after, Lower(blockBase, after.block), Lower(branchBase, after.branch)))
  {
    hide Exec, ExecContact, ExecCompare, ExecStack, Lower, Dark, Holds, TopOn, Eval, ReadBit;
    ExecOfRung(code, ticks, st, instr, word, afterOutput);
    match instr
    case Contact(join, negated, dev) =>
      ContactIsolation(st, join, negated, dev, Eq, Constant(0), Constant(0), blockBase, branchBase);
    case Compare(join, relation, a, b) =>
      ContactIsolation(st, join, false, Dev(0, 0), relation, a, b, blockBase, branchBase);
    case _ => StackIsolation(st, instr, blockBase, branchBase);
  }

  lemma CoilIsolation(code: Code, ticks: Ticks, st: State, instr: Instr, word: Word, afterOutput: bool,
        blockBase: nat, branchBase: nat)
    requires Dark(st, blockBase, branchBase) && IsCoil(instr)
    ensures var after := Exec(code, ticks, st, instr, word, afterOutput);
            !after.result && Dark(after, Lower(blockBase, after.block), Lower(branchBase, after.branch))
  {
    hide Exec, WriteBit, SetS, RstEffect, PulseEdge;
    ExecOfCoil(code, ticks, st, instr, word, afterOutput);
  }

  lemma FlowIsolation(code: Code, ticks: Ticks, st: State, instr: Instr, word: Word, afterOutput: bool,
        blockBase: nat, branchBase: nat)
    requires Dark(st, blockBase, branchBase) && IsFlow(instr)
    ensures var after := Exec(code, ticks, st, instr, word, afterOutput);
            !after.result && Dark(after, Lower(blockBase, after.block), Lower(branchBase, after.branch))
  {
    hide FindSubroutine;
  }

  lemma PlainIsolation(code: Code, ticks: Ticks, st: State, instr: Instr, word: Word, afterOutput: bool,
        blockBase: nat, branchBase: nat)
    requires Dark(st, blockBase, branchBase) && !IsFlow(instr) && !IsRung(instr) && !IsCoil(instr)
    ensures var after := Exec(code, ticks, st, instr, word, afterOutput);
            && after.result == Leaks(st, instr)
            && (!after.result ==> Dark(after, Lower(blockBase, after.block), Lower(branchBase, after.branch)))
  {
    hide ExecApplied, ExecSftl, ExecAbsd, ExecDeco, ExecZrst, ExecMov, ExecMovBits, ExecCall, ExecSret;
    hide ExecStl, ExecRet, ExecContact, ExecCompare, ExecStack, ExecOut, ExecSet, ExecSetState, ExecRst, ExecPulse;
    hide ReadBit, Eval, TimerDrive, CounterDrive, TimerReset, CounterReset, SetS;
  }

  /** Inside a dark step an instruction leaves the rung powered exactly when it is one of the leaks;
      otherwise the step stays dark. */
  lemma IsolationExact(code: Code, ticks: Ticks, st: State, instr: Instr, word: Word, afterOutput: bool,
        blockBase: nat, branchBase: nat)
    requires Dark(st, blockBase, branchBase) && !OpensOrCloses(instr)
    ensures var after := Exec(code, ticks, st, instr, word, afterOutput);
            && after.result == Leaks(st, instr)
            && (!after.result ==> Dark(after, Lower(blockBase, after.block), Lower(branchBase, after.branch)))
  {
    hide Exec, Dark;
    if IsFlow(instr) {
      FlowIsolation(code, ticks, st, instr, word, afterOutput, blockBase, branchBase);
    } else if IsRung(instr) {
      RungIsolation(code, ticks, st, instr, word, afterOutput, blockBase, branchBase);
    } else if IsCoil(instr) {
      CoilIsolation(code, ticks, st, instr, word, afterOutput, blockBase, branchBase);
    } else {
      PlainIsolation(code, ticks, st, instr, word, afterOutput, blockBase, branchBase);
    }
  }

  // -------------------------------------------------------------- effects

  /** All that an instruction without power does to the devices inside STL. */
  function UnpoweredImage(ticks: Ticks, st: State, instr: Instr): Image {
    match instr
    case Out(dev) => if IsS(dev.kind) then st.img else WriteBit(st.img, dev.kind, dev.num, false)
    case OutState(n) => SetS(st.img, n, false)
    case OutTimer(t, preset) => TimerDrive(st.img, ticks, t, Eval(st.img, preset), false)
    case OutCounter(c, preset) => CounterDrive(st.img, c, Eval(st.img, preset), false)
    case Pulse(dev) =>
      if st.pulse == NoPulse then st.img
      else
        WriteBit(st.img, dev.kind, dev.num, PulseEdge(st.edges, PulseStep(st), false, st.pulse == Falling).0)
    case _ => st.img
  }

  lemma UnpoweredCoil(code: Code, ticks: Ticks, st: State, instr: Instr, word: Word, afterOutput: bool)
    requires st.stl.active && !st.result && IsCoil(instr)
    ensures var after := Exec(code, ticks, st, instr, word, afterOutput);
            after.img == UnpoweredImage(ticks, st, instr) && after.stl.queued == st.stl.queued
  {
    hide Exec, WriteBit, SetS, RstEffect, PulseEdge;
    ExecOfCoil(code, ticks, st, instr, word, afterOutput);
  }

  lemma UnpoweredRung(code: Code, ticks: Ticks, st: State, instr: Instr, word: Word, afterOutput: bool)
    requires st.stl.active && !st.result && (IsRung(instr) || IsFlow(instr))
    ensures var after := Exec(code, ticks, st, instr, word, afterOutput);
            after.img == UnpoweredImage(ticks, st, instr) && after.stl.queued == st.stl.queued
  {
    hide ExecApplied, ExecSftl, ExecAbsd, ExecDeco, ExecZrst, ExecMov, ExecMovBits, ExecCall, ExecSret;
    hide ExecStl, ExecRet, ExecContact, ExecCompare, ExecStack, ExecOut, ExecSet, ExecSetState, ExecRst, ExecPulse;
    hide ReadBit, Eval, TimerDrive, CounterDrive, TimerReset, CounterReset, SetS;
  }

  lemma UnpoweredPlain(code: Code, ticks: Ticks, st: State, instr: Instr, word: Word, afterOutput: bool)
    requires st.stl.active && !st.result && !IsCoil(instr) && !IsRung(instr) && !IsFlow(instr)
    ensures var after := Exec(code, ticks, st, instr, word, afterOutput);
            after.img == UnpoweredImage(ticks, st, instr) && after.stl.queued == st.stl.queued
  {
    hide ReadBit, Eval, TimerDrive, CounterDrive, TimerReset, CounterReset, SetS;
    hide OpEffect, OpValid, SftlEffect, WriteRun, DrumBits, OneHotBits, GetD, SetD;
    hide ExecCall, ExecSret, ExecStl, ExecRet, ExecContact, ExecCompare, ExecStack, ExecOut, ExecSet, ExecSetState,
         ExecRst, ExecPulse;
  }

  /** Without power inside STL: SET, RST, SET S, moves and applied instructions change no device, OUT writes
      false, and no transfer is queued. */
  lemma UnpoweredEffects(code: Code, ticks: Ticks, st: State, instr: Instr, word: Word, afterOutput: bool)
    requires st.stl.active && !st.result
    ensures var after := Exec(code, ticks, st, instr, word, afterOutput);
            after.img == UnpoweredImage(ticks, st, instr) && after.stl.queued == st.stl.queued
  {
    hide Exec, UnpoweredImage;
    if IsCoil(instr) {
      UnpoweredCoil(code, ticks, st, instr, word, afterOutput);
    } else if IsRung(instr) || IsFlow(instr) {
      UnpoweredRung(code, ticks, st, instr, word, afterOutput);
    } else {
      UnpoweredPlain(code, ticks, st, instr, word, afterOutput);
    }
  }

  // ---------------------------------------------------- whole step bodies

  /** Nothing is switched on and no register changes. */
  predicate NothingOn(after: Image, before: Image) {
    && (forall dev: Byte, n: Byte :: ReadBit(after, dev, n) ==> ReadBit(before, dev, n))
    && after.d == before.d && after.ds == before.ds
  }

  /** Instructions of a step body: anything but STL, RET, the ungated comparisons, the counter enable word and
      PLF; ORB, MRD and MPP stay above the step's entry heights. */
  predicate InBody(st: State, instr: Instr, blockBase: nat, branchBase: nat) {
    && !OpensOrCloses(instr)
    && (instr.Compare? ==> instr.join == And)
    && !instr.CounterEnable?
    && (instr.Pulse? ==> st.pulse != Falling)
    && (instr.Orb? ==> |st.block| > blockBase)
    && (instr.Mrd? || instr.Mpp? ==> |st.branch| > branchBase)
  }

  /** The next n instructions, as they are executed, belong to the step body. */
  predicate BodyRuns(code: Code, ticks: Ticks, st: State, n: nat, blockBase: nat, branchBase: nat)
    decreases n
  {
    n == 0 || !Running(st) ||
    (var after := Step(code, ticks, st);
     && InBody(st, Decode(code, st.off).instr, blockBase, branchBase)
     && BodyRuns(code, ticks, after, n - 1, Lower(blockBase, after.block), Lower(branchBase, after.branch)))
  }

  lemma NothingOnWrite(img: Image, dev: Byte, n: Byte)
    ensures NothingOn(WriteBit(img, dev, n, false), img)
  {
    forall dev': Byte, n': Byte
      ensures ReadBit(WriteBit(img, dev, n, false), dev', n') ==> ReadBit(img, dev', n')
    {
      ReadOverWriteBit(img, dev, n, false, dev', n');
    }
  }

  lemma NothingOnTimer(img: Image, ticks: Ticks, idx: nat, preset: Word)
    ensures NothingOn(TimerDrive(img, ticks, idx, preset, false), img)
    ensures NothingOn(CounterDrive(img, idx, preset, false), img)
    ensures NothingOn(SetS(img, idx, false), img)
  {
    hide TicksFor;
  }

  lemma UnpoweredTurnsNothingOn(ticks: Ticks, st: State, instr: Instr)
    requires instr.Pulse? ==> st.pulse != Falling
    ensures NothingOn(UnpoweredImage(ticks, st, instr), st.img)
  {
    hide ReadBit, WriteBit, TimerDrive, CounterDrive, SetS, NothingOn, Eval;
    assert NothingOn(st.img, st.img) by {
      NothingOnSame(st.img);
    }
    match instr
    case Out(dev) => NothingOnWrite(st.img, dev.kind, dev.num);
    case Pulse(dev) => NothingOnWrite(st.img, dev.kind, dev.num);
    case OutState(n) => NothingOnTimer(st.img, ticks, n, 0);
    case OutTimer(t, preset) => NothingOnTimer(st.img, ticks, t, Eval(st.img, preset));
    case OutCounter(c, preset) => NothingOnTimer(st.img, ticks, c, Eval(st.img, preset));
    case _ =>
  }

  lemma NothingOnSame(img: Image)
    ensures NothingOn(img, img)
  {
  }

  /** One executed step of a dark body. */
  lemma DarkStep(code: Code, ticks: Ticks, st: State, blockBase: nat, branchBase: nat)
    requires Dark(st, blockBase, branchBase) && InBody(st, Decode(code, st.off).instr, blockBase, branchBase)
    ensures var after := Step(code, ticks, st);
            && Dark(after, Lower(blockBase, after.block), Lower(branchBase, after.branch))
            && after.stl.queued == st.stl.queued
            && NothingOn(after.img, st.img)
  {
    var d := Decode(code, st.off);
    var ready := Ready(st, d);
    var word := Fetch(code, st.off);
    NothingOnSame(st.img);
    if !d.instr.Blank? {
      IsolationExact(code, ticks, ready, d.instr, word, st.outputJust, blockBase, branchBase);
      UnpoweredEffects(code, ticks, ready, d.instr, word, st.outputJust);
      UnpoweredTurnsNothingOn(ticks, ready, d.instr);
      hide Exec, Decode, Fetch, UnpoweredImage, NothingOn, Eval, Holds;
    } else {
      hide Exec, Decode, Fetch, NothingOn;
    }
  }

  lemma NothingOnThen(a: Image, b: Image, c: Image)
    requires NothingOn(a, b) && NothingOn(b, c)
    ensures NothingOn(a, c)
  {
    hide ReadBit;
  }

  /** In an inactive step, at every point of the body the rung is false, nothing has been switched on, no
      register has changed, and no transfer is queued. */
  lemma {:induction false} StepIsIsolated(code: Code, ticks: Ticks, st: State, n: nat, blockBase: nat, branchBase: nat)
    requires Dark(st, blockBase, branchBase) && BodyRuns(code, ticks, st, n, blockBase, branchBase)
    ensures var after := Steps(code, ticks, st, n);
            && !after.result
            && NothingOn(after.img, st.img)
            && after.stl.queued == st.stl.queued
    decreases n
  {
    hide Step, Decode, InBody, NothingOn;
    if n > 0 && Running(st) {
      var after := Step(code, ticks, st);
      DarkStep(code, ticks, st, blockBase, branchBase);
      hide Dark;
      StepIsIsolated(code, ticks, after, n - 1, Lower(blockBase, after.block), Lower(branchBase, after.branch));
      NothingOnThen(Steps(code, ticks, after, n - 1).img, after.img, st.img);
    } else {
      NothingOnSame(st.img);
    }
  }

  /** Opening an inactive step makes it dark, with the stacks as they are. */
  lemma StepStartsDark(st: State, n: Byte, word: Word)
    requires !GetFlag(st.img.s, n)
    ensures Dark(ExecStl(st, n, word), |st.block|, |st.branch|)
  {
  }
}
