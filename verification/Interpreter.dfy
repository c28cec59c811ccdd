/** The ladder interpreter as the firmware runs it: stacks, bitmaps and device memory updated in place. */
module Interpreter {
  import opened Words
  import opened Devices
  import opened Timers
  import opened Instructions
  import opened Applied
  import opened Ladder
  import opened LadderScan
  import opened PlcMemory
  import opened ScanRuntime
  import opened AppliedOps
  import opened BlockMoves

  const RESET_WORDS: nat := 32
  const PULSE_WORDS: nat := 500

  /** The scalar variables of one scan. */
  datatype Registers = Registers(
    off: nat, halted: bool, result: bool, pulse: PulseKind,
    branchSp: nat, blockSp: nat, callSp: nat, outputJust: bool)

  /** The scalar part of the STL context. */
  datatype Context = Context(inStl: bool, accepting: bool, gate: bool, sourceCount: nat)

  class Machine {
    const rt: Runtime
    const mem: Memory
    const pulsePrev: array<DWord>
    var unknown: Word
    var lastBad: Word

    // The variables of one scan.
    var r: Registers
    var stl: Context
    const branch: array<bool>
    const block: array<bool>
    const callReturn: array<nat>
    const sources: array<nat>
    const resetAtEnd: array<DWord>

    /** The arrays and their separation; never changes. */
    ghost predicate Layout() {
      && mem.Valid() && rt.mem == mem
      && pulsePrev.Length == PULSE_WORDS && resetAtEnd.Length == RESET_WORDS && pulsePrev != resetAtEnd
      && branch.Length == STACK_DEPTH && block.Length == STACK_DEPTH && branch != block
      && callReturn.Length == CALL_DEPTH && sources.Length == MAX_SOURCES && callReturn != sources
      && {this as object, pulsePrev, resetAtEnd, branch, block, callReturn, sources, rt} !! mem.Repr()
    }

    ghost predicate Valid()
      reads this, rt
    {
      && Layout() && rt.Valid()
      && r.branchSp <= STACK_DEPTH && r.blockSp <= STACK_DEPTH && r.callSp <= CALL_DEPTH
          && stl.sourceCount <= MAX_SOURCES
    }

    ghost function Footprint(): set<object> {
      {this as object, pulsePrev, resetAtEnd, branch, block, callReturn, sources} + mem.Repr()
    }

    /** The interpreter state these variables represent. */
    ghost function View(): (st: State)
      requires Valid()
      reads this, rt, Footprint()
      ensures st.off == r.off && st.halted == r.halted && st.result == r.result && st.pulse == r.pulse
      ensures st.outputJust == r.outputJust && st.img == mem.Img()
      ensures |st.branch| == r.branchSp && |st.block| == r.blockSp && |st.calls| == r.callSp
      ensures st.stl.active == stl.inStl && st.stl.accepting == stl.accepting && st.stl.gate == stl.gate
      ensures |st.stl.sources| == stl.sourceCount && st.unknown == unknown && st.lastBad == lastBad
    {
      State(r.off, r.halted, r.result, r.pulse, branch[..r.branchSp], block[..r.blockSp], callReturn[..r.callSp],
            r.outputJust,
            Stl(stl.inStl, stl.accepting, stl.gate, sources[..stl.sourceCount], Marks(resetAtEnd[..], NUM_S)),
            Marks(pulsePrev[..], PROGRAM_STEPS), unknown, lastBad, mem.Img())
    }

    constructor (rt: Runtime)
      requires rt.Valid() && rt !in rt.mem.Repr()
      ensures Valid() && this.rt == rt && mem == rt.mem && fresh(Footprint() - mem.Repr())
      ensures unknown == 0 && View().edges == {}
    {
      this.rt, this.mem := rt, rt.mem;
      pulsePrev, resetAtEnd := new DWord[PULSE_WORDS](_ => 0), new DWord[RESET_WORDS](_ => 0);
      branch, block := new bool[STACK_DEPTH], new bool[STACK_DEPTH];
      callReturn, sources := new nat[CALL_DEPTH], new nat[MAX_SOURCES];
      unknown, lastBad := 0, 0;
      r, stl := Registers(0, false, false, NoPulse, 0, 0, 0, false), Context(false, false, false, 0);
      new;
      ZeroMarks(pulsePrev[..], PROGRAM_STEPS);
    }

    // -------------------------------------------------------- small steps

    method BadInstruction(word: Word)
      requires Valid()
      modifies this`unknown, this`lastBad
      ensures Valid() && View() == Bad(old(View()), word)
    {
      unknown := Wrap16(unknown + 1);
      lastBad := word;
    }

    method SetResult(v: bool)
      requires Valid()
      modifies this`r
      ensures Valid() && View() == old(View()).(result := v)
      ensures r == old(r).(result := v)
    {
      hide Memory.Img;
      r := r.(result := v);
    }

    method PushBlock(v: bool)
      requires Valid()
      modifies this`r, block
      ensures Valid() && View() == old(View()).(block := Push(old(View()).block, v))
    {
      hide Memory.Img;
      if r.blockSp < STACK_DEPTH {
        block[r.blockSp] := v;
        r := r.(blockSp := r.blockSp + 1);
        assert block[..r.blockSp] == old(block[..r.blockSp]) + [v];
      }
    }

    method PopBlock() returns (v: bool)
      requires Valid() && r.blockSp > 0
      modifies this`r
      ensures Valid() && v == old(View()).block[old(r).blockSp - 1]
      ensures View() == old(View()).(block := old(View()).block[..old(r).blockSp - 1])
    {
      hide Memory.Img;
      r := r.(blockSp := r.blockSp - 1);
      v := block[r.blockSp];
      assert old(block[..r.blockSp])[..r.blockSp] == block[..r.blockSp];
    }

    /** An output instruction ends the rung's blocks. */
    method ClearBlocks(output: bool)
      requires Valid()
      modifies this`r
      ensures Valid() && View() == old(View()).(block := [], outputJust := output || old(View()).outputJust)
    {
      hide Memory.Img;
      r := r.(blockSp := 0, outputJust := output || r.outputJust);
    }

    method PushBranch(v: bool)
      requires Valid()
      modifies this`r, branch
      ensures Valid() && View() == old(View()).(branch := Push(old(View()).branch, v))
    {
      hide Memory.Img;
      if r.branchSp < STACK_DEPTH {
        branch[r.branchSp] := v;
        r := r.(branchSp := r.branchSp + 1);
        assert branch[..r.branchSp] == old(branch[..r.branchSp]) + [v];
      }
    }

    function TopBranch(): (v: bool)
      requires Valid() && r.branchSp > 0
      reads this, rt, Footprint()
      ensures v == View().branch[r.branchSp - 1]
    {
      branch[r.branchSp - 1]
    }

    method PopBranch() returns (v: bool)
      requires Valid() && r.branchSp > 0
      modifies this`r
      ensures Valid() && v == old(View()).branch[old(r).branchSp - 1]
      ensures View() == old(View()).(branch := old(View()).branch[..old(r).branchSp - 1])
    {
      hide Memory.Img;
      r := r.(branchSp := r.branchSp - 1);
      v := branch[r.branchSp];
      assert old(branch[..r.branchSp])[..r.branchSp] == branch[..r.branchSp];
    }

    method Write(dev: Device, v: bool)
      requires Valid()
      modifies mem.Repr()
      ensures Valid() && View() == old(View()).(img := WriteBit(old(View()).img, dev.kind, dev.num, v))
    {
      hide Devices.WriteBit, Memory.Img;
      mem.WriteBit(dev.kind, dev.num, v);
    }

    // ----------------------------------------------- contacts and stacks

    method ExecContact(join: Join, negated: bool, dev: Device)
      requires Valid()
      modifies this`r, block
      ensures Valid() && View() == Ladder.ExecContact(old(View()), join, negated, dev)
    {
      hide View, Devices.ReadBit, Push, Ladder.ExecContact, Joined;
      var closed := mem.ReadBit(dev.kind, dev.num) != negated;
      var ungated := !stl.inStl || stl.gate;
      var combined := Joined(join, r.result, if join == And then closed else ungated && closed);
      ContactResult(View(), join, negated, dev);
      if join == Start {
        PushBlock(r.result);
      }
      SetResult(combined);
    }

    method ExecCompare(join: Join, relation: Relation, a: Source, b: Source)
      requires Valid()
      modifies this`r
      ensures Valid() && View() == Ladder.ExecCompare(old(View()), join, relation, a, b)
    {
      hide View, Eval, Load, Ladder.ExecCompare, Holds;
      CompareResult(View(), join, relation, a, b);
      SetResult(Joined(join, r.result, Holds(relation, Signed16(Load(mem, a)), Signed16(Load(mem, b)))));
    }

    method ExecStack(instr: Instr)
      requires Valid()
      modifies this`r, branch
      ensures Valid() && View() == Ladder.ExecStack(old(View()), instr)
    {
      hide View, Push, Ladder.ExecStack;
      StackResult(View(), instr);
      if instr.Mps? {
        PushBranch(r.result);
      } else if instr.Mrd? && r.branchSp > 0 {
        SetResult(TopBranch());
      } else if instr.Mpp? && r.branchSp > 0 {
        var v := PopBranch();
        SetResult(v);
      } else if instr.Anb? && r.blockSp > 0 {
        var left := PopBlock();
        SetResult(left && r.result);
      } else if instr.Orb? && r.blockSp > 0 {
        var left := PopBlock();
        SetResult(left || r.result);
      }
    }

    // --------------------------------------------------------------- STL

    /** Opens a step or extends a merge: stl gets the new gate and source list. */
    method OpenStep(n: Byte, merge: bool, gate: bool)
      requires Valid()
      modifies this`stl, sources
      ensures Valid()
      ensures var before := if merge then old(View()).stl.sources else [];
              View() == old(View()).(stl := old(View()).stl.(active := true, accepting := true, gate := gate,
                                     sources := if |before| < MAX_SOURCES then before + [n as nat] else before))
    {
      hide Memory.Img;
      var count := if merge then stl.sourceCount else 0;
      if count < MAX_SOURCES {
        sources[count] := n;
        assert sources[..count + 1] == (if merge then old(sources[..stl.sourceCount]) else []) + [n as nat];
        stl := Context(true, true, gate, count + 1);
      } else {
        stl := Context(true, true, gate, count);
      }
    }

    /** stl_begin_step, and its gate on the rung. */
    method BeginStep(n: Byte, word: Word)
      requires Valid()
      modifies this, sources
      ensures Valid() && View() == ExecStl(old(View()), n, word)
    {
      hide View, GetFlag, ExecStl;
      StlResult(View(), n, word);
      var merge := stl.inStl && stl.accepting;
      var full := merge && stl.sourceCount >= MAX_SOURCES;
      var active := mem.GetS(n);
      OpenStep(n, merge, (!merge || stl.gate) && active);
      if full {
        BadInstruction(word);
      }
      SetResult(stl.gate);
    }

    method LeaveStl()
      requires Valid()
      modifies this
      ensures Valid() && View() == ExecRet(old(View()))
    {
      hide Memory.Img;
      stl := Context(false, false, true, 0);
      r := r.(result := false);
    }

    /** stl_queue_transfer: marks every source of the open step. */
    method QueueSources()
      requires Valid()
      modifies resetAtEnd
      ensures Valid() && View() == old(View()).(stl := QueueTransfer(old(View()).stl))
    {
      hide Memory.Img;
      ghost var before := Marks(resetAtEnd[..], NUM_S);
      ghost var mine := sources[..stl.sourceCount];
      for i := 0 to stl.sourceCount
        invariant Valid()
        invariant Marks(resetAtEnd[..], NUM_S) == before + (set x | x in mine[..i] && x < NUM_S)
      {
        var state := sources[i];
        assert mine[..i + 1] == mine[..i] + [state];
        if state < NUM_S {
          MarkOne(resetAtEnd, NUM_S, state, true);
        }
      }
      assert mine[..stl.sourceCount] == mine;
    }

    /** stl_finish_scan. */
    method FinishScan()
      requires Valid()
      modifies mem.s
      ensures Valid() && View() == old(View()).(img := ClearQueued(old(View()).img, old(View()).stl.queued))
    {
      ghost var img := mem.Img();
      ghost var queued := Marks(resetAtEnd[..], NUM_S);
      assert img.s == ClearedBelow(img, queued, 0).s;
      for state := 0 to NUM_S
        invariant mem.Img() == ClearedBelow(img, queued, state)
      {
        if Bit(resetAtEnd[state / 32], state % 32) {
          mem.SetS(state, false);
        }
        assert state in queued <==> Bit(resetAtEnd[state / 32], state % 32);
        assert mem.Img().s == ClearedBelow(img, queued, state + 1).s;
      }
      assert ClearedBelow(img, queued, NUM_S).s == ClearQueued(img, queued).s;
    }

    // -------------------------------------------------------------- coils

    method ExecOut(dev: Device)
      requires Valid()
      modifies Footprint()
      ensures Valid() && View() == Ladder.ExecOut(old(View()), dev)
    {
      hide View, Devices.WriteBit, QueueTransfer;
      if stl.inStl && IsS(dev.kind) {
        if r.result {
          Write(dev, true);
          QueueSources();
        }
      } else {
        Write(dev, r.result);
      }
      ClearBlocks(true);
    }

    method ExecSet(dev: Device)
      requires Valid()
      modifies Footprint()
      ensures Valid() && View() == Ladder.ExecSet(old(View()), dev)
    {
      hide View, Devices.WriteBit, QueueTransfer;
      if r.result {
        Write(dev, true);
        if stl.inStl && IsS(dev.kind) {
          QueueSources();
        }
      }
      ClearBlocks(false);
    }

    method ExecSetState(n: Byte)
      requires Valid()
      modifies Footprint()
      ensures Valid() && View() == Ladder.ExecSetState(old(View()), n)
    {
      hide View, Devices.WriteBit, QueueTransfer;
      if r.result {
        PutState(n, true);
        if stl.inStl {
          QueueSources();
        }
      }
    }

    method PutState(n: Byte, v: bool)
      requires Valid()
      modifies mem.s
      ensures Valid() && View() == old(View()).(img := SetS(old(View()).img, n, v))
    {
      hide Memory.Img, SetS;
      mem.SetS(n, v);
    }

    method ExecRst(dev: Device)
      requires Valid()
      modifies Footprint()
      ensures Valid() && View() == Ladder.ExecRst(old(View()), dev)
    {
      hide View, Devices.WriteBit, Timers.TimerReset, Timers.CounterReset;
      if r.result {
        Write(dev, false);
        if dev.kind == DEV_T {
          ResetTimer(dev.num);
        }
        if dev.kind == DEV_C {
          ResetCounter(dev.num);
        }
      }
      ClearBlocks(false);
    }

    method ResetTimer(n: Byte)
      requires Valid()
      modifies mem.t
      ensures Valid() && View() == old(View()).(img := TimerReset(old(View()).img, n))
    {
      hide Memory.Img, Timers.TimerReset;
      rt.TimerReset(n);
    }

    method ResetCounter(n: Byte)
      requires Valid()
      modifies mem.c
      ensures Valid() && View() == old(View()).(img := CounterReset(old(View()).img, n))
    {
      hide Memory.Img, Timers.CounterReset;
      rt.CounterReset(n);
    }

    method DriveTimer(n: Byte, preset: Word)
      requires Valid()
      modifies mem.t
      ensures Valid()
      ensures View() == old(View()).(img := TimerDrive(old(View()).img, rt.Due(), n, preset, old(View()).result))
    {
      hide Memory.Img, Timers.TimerDrive;
      rt.TimerDrive(n, preset, r.result);
    }

    method DriveCounter(n: Byte, preset: Word)
      requires Valid()
      modifies mem.c
      ensures Valid() && View() == old(View()).(img := CounterDrive(old(View()).img, n, preset, old(View()).result))
    {
      hide Memory.Img, Timers.CounterDrive;
      rt.CounterDrive(n, preset, r.result);
    }

    /** pulse_edge: one bit of history per program step. */
    method Edge(step: nat, rung: bool, falling: bool) returns (fires: bool)
      requires Valid()
      modifies pulsePrev
      ensures Valid() && View() == old(View()).(edges := PulseEdge(old(View()).edges, step, rung, falling).1)
      ensures fires == PulseEdge(old(View()).edges, step, rung, falling).0
    {
      if step >= PROGRAM_STEPS {
        return false;
      }
      var previous := Bit(pulsePrev[step / 32], step % 32);
      MarkOne(pulsePrev, PROGRAM_STEPS, step, rung);
      fires := if falling then previous && !rung else rung && !previous;
    }

    /** A prefixed pulse coil is true for the one execution that is its edge. */
    method Fire(dev: Device, falling: bool)
      requires Valid() && r.off >= 2
      modifies pulsePrev, mem.Repr()
      ensures Valid() && View() == Fired(old(View()), dev, falling)
    {
      hide View, Devices.WriteBit, PulseEdge;
      var fires := Edge((r.off - 2) / 2, r.result, falling);
      Write(dev, fires);
    }

    method ExecPulse(dev: Device, word: Word)
      requires Valid() && r.off >= 2
      modifies Footprint()
      ensures Valid() && View() == Ladder.ExecPulse(old(View()), dev, word)
    {
      hide View, Fired, Ladder.ExecPulse;
      PulseResult(View(), dev, word);
      if r.pulse == NoPulse {
        BadInstruction(word);
      } else {
        Fire(dev, r.pulse == Falling);
        SetPulse(NoPulse);
      }
      ClearBlocks(false);
    }

    method SetPulse(p: PulseKind)
      requires Valid()
      modifies this`r
      ensures Valid() && View() == old(View()).(pulse := p)
    {
      hide Memory.Img;
      r := r.(pulse := p);
    }

    // ---------------------------------------------------------- subroutines

    /** find_subroutine: the first marker in program order. */
    method FindTarget(code: Code, pointer: Byte) returns (target: nat)
      ensures target == FindSubroutine(code, pointer)
    {
      hide FindMarker;
      var marker: Word := 0xB000 + pointer;
      var pos := CODE_OFFSET;
      while pos + 1 < PROGRAM_BYTES
        invariant pos % 2 == 0 && pos <= PROGRAM_BYTES
        invariant FindMarker(code, marker, pos) == FindMarker(code, marker, CODE_OFFSET)
      {
        MarkerStep(code, marker, pos);
        if Fetch(code, pos) == marker {
          return pos + 2;
        }
        pos := pos + 2;
      }
      target := PROGRAM_BYTES;
    }

    method ExecCall(code: Code, pointer: Option<Byte>, afterOutput: bool, word: Word)
      requires Valid()
      modifies this, callReturn
      ensures Valid() && View() == Ladder.ExecCall(code, old(View()), pointer, afterOutput, word)
    {
      hide Memory.Img, FindSubroutine;
      var target := PROGRAM_BYTES;
      if pointer.Some? {
        target := FindTarget(code, pointer.value);
      }
      var enabled := r.result || afterOutput || stl.inStl;
      if target >= PROGRAM_BYTES || (enabled && r.callSp >= CALL_DEPTH) {
        BadInstruction(word);
      } else if enabled {
        Enter(target);
      }
    }

    method Enter(target: nat)
      requires Valid() && r.callSp < CALL_DEPTH
      modifies this`r, callReturn
      ensures Valid() && View() == old(View()).(calls := old(View()).calls + [old(View()).off], off := target)
    {
      hide Memory.Img;
      callReturn[r.callSp] := r.off;
      r := r.(callSp := r.callSp + 1, off := target);
      assert callReturn[..r.callSp] == old(callReturn[..r.callSp]) + [old(r).off];
    }

    method ExecSret(word: Word)
      requires Valid()
      modifies this
      ensures Valid() && View() == Ladder.ExecSret(old(View()), word)
    {
      if r.callSp > 0 {
        r := r.(callSp := r.callSp - 1, off := callReturn[r.callSp - 1]);
        assert old(callReturn[..r.callSp])[..r.callSp] == callReturn[..r.callSp];
      } else {
        BadInstruction(word);
      }
    }

    // ------------------------------------------------- block instructions

    method ExecApplied(op: Op, word: Word)
      requires Valid()
      modifies Footprint()
      ensures Valid() && View() == Ladder.ExecApplied(old(View()), op, word)
    {
      hide Memory.Img, OpValid, OpEffect;
      if !Allowed(mem, op) {
        BadInstruction(word);
      } else if r.result {
        Apply(mem, op);
      }
    }

    method ExecZrst(kind: Byte, lowest: Byte, highest: Byte)
      requires Valid()
      modifies Footprint()
      ensures Valid() && View() == Ladder.ExecZrst(old(View()), kind, lowest, highest)
    {
      hide Memory.Img, WriteRun;
      if r.result && lowest <= highest {
        ClearRun(mem, kind, lowest, highest);
      }
    }

    method ExecSftl(bit: Device, window: Device, length: Source, shifts: Source, word: Word)
      requires Valid()
      modifies Footprint()
      ensures Valid() && View() == Ladder.ExecSftl(old(View()), bit, window, length, shifts, word)
    {
      hide Memory.Img, Load, Eval, SftlEffect;
      var n, k := Load(mem, length), Load(mem, shifts);
      if n == 0 || k > n || window.num + n > 256 {
        BadInstruction(word);
      } else if r.result {
        SftlInPlace(mem, bit, window, n, k);
      }
    }

    method ExecAbsd(table: nat, counter: Byte, first: Device, count: Source, word: Word)
      requires Valid()
      modifies Footprint()
      ensures Valid() && View() == Ladder.ExecAbsd(old(View()), table, counter, first, count, word)
    {
      hide Memory.Img, Load, Eval, WriteRun, DrumBits;
      var n := Load(mem, count);
      if n > 64 || table + 2 * n > NUM_D || first.num + n > 256 {
        BadInstruction(word);
      } else if r.result {
        DriveDrum(mem, table, counter, first, n);
      }
    }

    method ExecDeco(counter: Byte, first: Device, width: Source, word: Word)
      requires Valid()
      modifies Footprint()
      ensures Valid() && View() == Ladder.ExecDeco(old(View()), counter, first, width, word)
    {
      hide Memory.Img, Load, Eval, WriteRun, OneHotBits, Pow2;
      var w := Load(mem, width);
      if w < 1 || w > 8 || first.num + Pow2(w) > 256 {
        BadInstruction(word);
      } else if r.result {
        DriveOneHot(mem, counter, first, Pow2(w));
      }
    }

    method ExecMovBits(from: Device, to: Device)
      requires Valid()
      modifies Footprint()
      ensures Valid() && View() == Ladder.ExecMovBits(old(View()), from, to)
    {
      hide Memory.Img, WriteRun, ReadRun;
      if r.result {
        CopyBits(mem, from, to);
      }
    }

    method ExecMov(src: Source, dst: Option<nat>)
      requires Valid()
      modifies Footprint()
      ensures Valid() && View() == Ladder.ExecMov(old(View()), src, dst)
    {
      hide Memory.Img, Load, Eval, SetD;
      var value := Load(mem, src);
      if r.result && dst.Some? {
        mem.SetD(dst.value, value);
      }
    }

    // ------------------------------------------------------------ dispatch

    method ExecFlow(code: Code, instr: Instr, word: Word, afterOutput: bool)
      requires Valid() && IsFlow(instr)
      modifies Footprint()
      ensures Valid() && View() == Exec(code, rt.Due(), old(View()), instr, word, afterOutput)
    {
      hide View, Ladder.ExecCall, Ladder.ExecSret;
      match instr
      case Call(pointer) => ExecCall(code, pointer, afterOutput, word);
      case Sret => ExecSret(word);
    }

    method ExecRung(code: Code, instr: Instr, word: Word, afterOutput: bool)
      requires Valid() && IsRung(instr)
      modifies Footprint()
      ensures Valid() && View() == Exec(code, rt.Due(), old(View()), instr, word, afterOutput)
    {
      hide View, Exec, ExecStl, ExecRet, Ladder.ExecContact, Ladder.ExecCompare, Ladder.ExecStack, Memory.Img;
      if instr.StlStep? || instr.Ret? {
        ExecOfStep(code, rt.Due(), View(), instr, word, afterOutput);
        ExecStep(instr, word);
      } else {
        ExecOfRung(code, rt.Due(), View(), instr, word, afterOutput);
        ExecLogic(instr);
      }
    }

    method ExecStep(instr: Instr, word: Word)
      requires Valid() && (instr.StlStep? || instr.Ret?)
      modifies Footprint()
      ensures Valid()
      ensures instr.StlStep? ==> View() == ExecStl(old(View()), instr.n, word)
      ensures instr.Ret? ==> View() == ExecRet(old(View()))
    {
      hide View, ExecStl, ExecRet;
      if instr.StlStep? {
        BeginStep(instr.n, word);
      } else {
        LeaveStl();
      }
    }

    /** Contacts, comparisons and the two stacks. */
    method ExecLogic(instr: Instr)
      requires Valid() && IsRung(instr) && !instr.StlStep? && !instr.Ret?
      modifies this`r, block, branch
      ensures Valid()
      ensures instr.Contact? ==> View() == Ladder.ExecContact(old(View()), instr.join, instr.negated, instr.dev)
      ensures instr.Compare? ==>
                View() == Ladder.ExecCompare(old(View()), instr.join, instr.relation, instr.a, instr.b)
      ensures !instr.Contact? && !instr.Compare? ==> View() == Ladder.ExecStack(old(View()), instr)
    {
      hide View, Ladder.ExecContact, Ladder.ExecCompare, Ladder.ExecStack;
      if instr.Contact? {
        ExecContact(instr.join, instr.negated, instr.dev);
      } else if instr.Compare? {
        ExecCompare(instr.join, instr.relation, instr.a, instr.b);
      } else {
        ExecStack(instr);
      }
    }

    method ExecCoil(code: Code, instr: Instr, word: Word, afterOutput: bool)
      requires Valid() && IsCoil(instr) && r.off >= 2
      modifies Footprint()
      ensures Valid() && View() == Exec(code, rt.Due(), old(View()), instr, word, afterOutput)
    {
      hide View, Exec, Ladder.ExecOut, Ladder.ExecSet, Ladder.ExecRst, Ladder.ExecPulse, Ladder.ExecSetState;
      ExecOfCoil(code, rt.Due(), View(), instr, word, afterOutput);
      if instr.Out? {
        ExecOut(instr.dev);
      } else if instr.Set? {
        ExecSet(instr.dev);
      } else if instr.Rst? {
        ExecRst(instr.dev);
      } else if instr.Pulse? {
        ExecPulse(instr.dev, word);
      } else {
        ExecSetState(instr.n);
      }
    }

    method ExecBlocks(code: Code, instr: Instr, word: Word, afterOutput: bool)
      requires Valid() && IsBlock(instr)
      modifies Footprint()
      ensures Valid() && View() == Exec(code, rt.Due(), old(View()), instr, word, afterOutput)
    {
      hide View, Exec, Ladder.ExecApplied, Ladder.ExecZrst, Ladder.ExecSftl, Ladder.ExecAbsd, Ladder.ExecDeco;
      hide Ladder.ExecMovBits, Ladder.ExecMov;
      ExecOfBlock(code, rt.Due(), View(), instr, word, afterOutput);
      if instr.Applied? {
        ExecApplied(instr.op, word);
      } else if instr.Zrst? {
        ExecZrst(instr.kind, instr.lowest, instr.highest);
      } else if instr.Sftl? {
        ExecSftl(instr.bit, instr.window, instr.length, instr.shifts, word);
      } else if instr.Absd? {
        ExecAbsd(instr.table, instr.counter, instr.first, instr.count, word);
      } else if instr.Deco? {
        ExecDeco(instr.counter, instr.first, instr.width, word);
      } else if instr.MovBits? {
        ExecMovBits(instr.from, instr.to);
      } else {
        ExecMov(instr.src, instr.dst);
      }
    }

    method Halt()
      requires Valid()
      modifies this`r
      ensures Valid() && View() == old(View()).(halted := true)
    {
      hide Memory.Img;
      r := r.(halted := true);
    }

    /** OUT T and OUT C. */
    method ExecPreset(code: Code, instr: Instr, word: Word, afterOutput: bool)
      requires Valid() && (instr.OutTimer? || instr.OutCounter?)
      modifies Footprint()
      ensures Valid() && View() == Exec(code, rt.Due(), old(View()), instr, word, afterOutput)
    {
      hide View, Load, Eval, TimerDrive, CounterDrive;
      match instr
      case OutTimer(t, preset) =>
        DriveTimer(t, Load(mem, preset));
        ClearBlocks(false);
      case OutCounter(c, preset) =>
        DriveCounter(c, Load(mem, preset));
        ClearBlocks(false);
    }

    method ExecPlain(code: Code, instr: Instr, word: Word, afterOutput: bool)
      requires Valid() && !IsFlow(instr) && !IsRung(instr) && !IsCoil(instr) && !IsBlock(instr)
      requires !instr.OutTimer? && !instr.OutCounter?
      modifies Footprint()
      ensures Valid() && View() == Exec(code, rt.Due(), old(View()), instr, word, afterOutput)
    {
      hide View, Exec, TimerReset, CounterReset, SetS, Devices.ReadBit;
      ExecOfPlain(code, rt.Due(), View(), instr, word, afterOutput);
      if instr.End? {
        Halt();
      } else if instr.PulsePrefix? {
        SetPulse(if instr.falling then Falling else Rising);
      } else if instr.ResetTimer? && r.result {
        ResetTimer(instr.t);
      } else if instr.ResetCounter? && r.result {
        ResetCounter(instr.c);
      } else if instr.RstState? && r.result {
        PutState(instr.n, false);
      } else if instr.OutState? {
        PutState(instr.n, r.result);
      } else if instr.CounterEnable? {
        SetResult(mem.ReadBit(DEV_X, instr.x));
      } else if instr.Unknown? {
        BadInstruction(word);
        if instr.breaksRung {
          SetResult(false);
        }
      }
    }

    method Dispatch(code: Code, instr: Instr, word: Word, afterOutput: bool)
      requires Valid() && r.off >= 2
      modifies Footprint()
      ensures Valid() && View() == Exec(code, rt.Due(), old(View()), instr, word, afterOutput)
    {
      hide View, Exec;
      if IsFlow(instr) {
        ExecFlow(code, instr, word, afterOutput);
      } else if IsRung(instr) {
        ExecRung(code, instr, word, afterOutput);
      } else if IsCoil(instr) {
        ExecCoil(code, instr, word, afterOutput);
      } else if IsBlock(instr) {
        ExecBlocks(code, instr, word, afterOutput);
      } else if instr.OutTimer? || instr.OutCounter? {
        ExecPreset(code, instr, word, afterOutput);
      } else {
        ExecPlain(code, instr, word, afterOutput);
      }
    }

    /** Fetching moves on; any instruction but STL closes a merge. */
    method Prepare(d: Decoded)
      requires Valid()
      modifies this`r, this`stl
      ensures Valid() && View() == Ready(old(View()), d) && r.off == d.next
    {
      hide Memory.Img;
      r := r.(off := d.next, outputJust := false);
      if !d.instr.StlStep? {
        stl := stl.(accepting := false);
      }
    }

    method Skip(next: nat)
      requires Valid()
      modifies this`r
      ensures Valid() && View() == old(View()).(off := next)
    {
      hide Memory.Img;
      r := r.(off := next);
    }

    /** One turn of the scan loop. */
    method ExecuteWord(code: Code)
      requires Valid()
      modifies Footprint()
      ensures Valid() && View() == Step(code, rt.Due(), old(View()))
    {
      hide View, Exec, Decode, Fetch, Ready;
      var word := Fetch(code, r.off);
      var d := Decode(code, r.off);
      DecodeAdvances(code, r.off);
      if d.instr.Blank? {
        Skip(d.next);
        return;
      }
      var afterOutput := r.outputJust;
      Prepare(d);
      Dispatch(code, d.instr, word, afterOutput);
    }

    /** The variables of a scan at its start. */
    method BeginScan()
      requires Valid()
      modifies this, resetAtEnd, pulsePrev
      ensures Valid()
      ensures View() == Begin(rt.first, old(View()).edges, old(View()).lastBad, old(View()).img)
    {
      hide View;
      ResetVariables();
      ForgetTransfers();
      if rt.first {
        ForgetEdges();
      }
    }

    method ResetVariables()
      requires Valid()
      modifies this
      ensures Valid()
      ensures var st := old(View());
              View() == State(CODE_OFFSET, false, false, NoPulse, [], [], [], false,
                              Stl(false, false, false, [], st.stl.queued), st.edges, 0, st.lastBad, st.img)
    {
      hide Memory.Img;
      r := Registers(CODE_OFFSET, false, false, NoPulse, 0, 0, 0, false);
      stl := Context(false, false, false, 0);
      unknown := 0;
    }

    method ForgetTransfers()
      requires Valid()
      modifies resetAtEnd
      ensures Valid() && View() == old(View()).(stl := old(View()).stl.(queued := {}))
    {
      hide Memory.Img;
      ClearBitmap(resetAtEnd, NUM_S);
    }

    method ForgetEdges()
      requires Valid()
      modifies pulsePrev
      ensures Valid() && View() == old(View()).(edges := {})
    {
      hide Memory.Img;
      ClearBitmap(pulsePrev, PROGRAM_STEPS);
    }

    /** plc_exec_scan: the scan terminates and leaves exactly what the scan function says. */
    method Scan(code: Code)
      requires Valid()
      modifies Footprint()
      ensures Valid()
      ensures var start := old(View());
              var end := LadderScan.Scan(code, rt.Due(), rt.first, start.edges, start.lastBad, start.img);
              View() == end && mem.Img() == end.img && unknown == end.unknown && lastBad == end.lastBad
    {
      hide View, Step, Rank, ClearQueued;
      BeginScan();
      ghost var start := View();
      while !r.halted && r.off + 1 < PROGRAM_BYTES
        invariant Valid() && |View().calls| <= CALL_DEPTH
        invariant RunLoop(code, rt.Due(), View()) == RunLoop(code, rt.Due(), start)
        decreases Rank(View(), CALL_DEPTH)
      {
        StepDescends(code, rt.Due(), View());
        ExecuteWord(code);
      }
      FinishScan();
    }
  }

  predicate Joined(join: Join, result: bool, holds: bool) {
    match join
    case Start => holds
    case And => result && holds
    case Or => result || holds
  }

  lemma ExecOfBlock(code: Code, ticks: Ticks, st: State, instr: Instr, word: Word, afterOutput: bool)
    requires IsBlock(instr)
    ensures var after := Exec(code, ticks, st, instr, word, afterOutput);
            && (instr.Applied? ==> after == Ladder.ExecApplied(st, instr.op, word))
            && (instr.Zrst? ==> after == Ladder.ExecZrst(st, instr.kind, instr.lowest, instr.highest))
            && (instr.Sftl? ==> after == Ladder.ExecSftl(st, instr.bit, instr.window, instr.length, instr.shifts, word))
            && (instr.Absd? ==> after == Ladder.ExecAbsd(st, instr.table, instr.counter, instr.first,
                                                           instr.count, word))
            && (instr.Deco? ==> after == Ladder.ExecDeco(st, instr.counter, instr.first, instr.width, word))
            && (instr.MovBits? ==> after == Ladder.ExecMovBits(st, instr.from, instr.to))
            && (instr.Mov? ==> after == Ladder.ExecMov(st, instr.src, instr.dst))
  {
    hide Ladder.ExecApplied, Ladder.ExecZrst, Ladder.ExecSftl, Ladder.ExecAbsd, Ladder.ExecDeco;
    hide Ladder.ExecMovBits, Ladder.ExecMov;
  }

  lemma ExecOfPlain(code: Code, ticks: Ticks, st: State, instr: Instr, word: Word, afterOutput: bool)
    requires !IsFlow(instr) && !IsRung(instr) && !IsCoil(instr) && !IsBlock(instr)
    requires !instr.OutTimer? && !instr.OutCounter?
    ensures Exec(code, ticks, st, instr, word, afterOutput) ==
            (if instr.End? then st.(halted := true)
             else if instr.PulsePrefix? then st.(pulse := if instr.falling then Falling else Rising)
             else if instr.ResetTimer? && st.result then st.(img := TimerReset(st.img, instr.t))
             else if instr.ResetCounter? && st.result then st.(img := CounterReset(st.img, instr.c))
             else if instr.RstState? && st.result then st.(img := SetS(st.img, instr.n, false))
             else if instr.OutState? then st.(img := SetS(st.img, instr.n, st.result))
             else if instr.CounterEnable? then st.(result := ReadBit(st.img, DEV_X, instr.x))
             else if instr.Unknown? then
               if instr.breaksRung then Bad(st, word).(result := false) else Bad(st, word)
             else st)
  {
    hide ReadBit, TimerReset, CounterReset, SetS;
  }

  lemma MarkerStep(code: Code, marker: Word, pos: nat)
    requires pos % 2 == 0 && pos <= PROGRAM_BYTES
    ensures FindMarker(code, marker, pos) ==
            if pos + 1 >= PROGRAM_BYTES then PROGRAM_BYTES
            else if Fetch(code, pos) == marker then pos
            else FindMarker(code, marker, pos + 2)
  {
  }

  /** The edge memory and the coil after a pulse instruction. */
  function Fired(st: State, dev: Device, falling: bool): State
    requires st.off >= 2
  {
    var (fires, edges) := PulseEdge(st.edges, (st.off - 2) / 2, st.result, falling);
    st.(edges := edges, img := WriteBit(st.img, dev.kind, dev.num, fires))
  }

  lemma PulseResult(st: State, dev: Device, word: Word)
    requires st.off >= 2
    ensures Ladder.ExecPulse(st, dev, word) ==
            if st.pulse == NoPulse then Bad(st, word).(block := [])
            else Fired(st, dev, st.pulse == Falling).(pulse := NoPulse, block := [])
    ensures forall falling :: Fired(st, dev, falling).outputJust == st.outputJust
  {
    hide WriteBit, PulseEdge;
  }

  lemma StackResult(st: State, instr: Instr)
    ensures var branch, block := |st.branch| - 1, |st.block| - 1;
            Ladder.ExecStack(st, instr) ==
            (if instr.Mps? then st.(branch := Push(st.branch, st.result))
             else if instr.Mrd? && branch >= 0 then st.(result := st.branch[branch])
             else if instr.Mpp? && branch >= 0 then st.(branch := st.branch[..branch], result := st.branch[branch])
             else if instr.Anb? && block >= 0 then
               st.(block := st.block[..block], result := st.block[block] && st.result)
             else if instr.Orb? && block >= 0 then
               st.(block := st.block[..block], result := st.block[block] || st.result)
             else st)
  {
  }

  lemma ContactResult(st: State, join: Join, negated: bool, dev: Device)
    ensures var closed := ReadBit(st.img, dev.kind, dev.num) != negated;
            Ladder.ExecContact(st, join, negated, dev) ==
            st.(block := if join == Start then Push(st.block, st.result) else st.block,
                result := Joined(join, st.result,
                                 if join == And then closed else (!st.stl.active || st.stl.gate) && closed))
  {
    hide ReadBit;
  }

  lemma StlResult(st: State, n: Byte, word: Word)
    ensures var merge := st.stl.active && st.stl.accepting;
            var before := if merge then st.stl.sources else [];
            var gate := (!merge || st.stl.gate) && GetFlag(st.img.s, n);
            var stl := st.stl.(active := true, accepting := true, gate := gate,
                               sources := if |before| < MAX_SOURCES then before + [n as nat] else before);
            ExecStl(st, n, word) ==
            (if merge && |st.stl.sources| >= MAX_SOURCES then Bad(st.(stl := stl), word).(result := gate)
             else st.(stl := stl, result := gate))
  {
    hide GetFlag;
  }

  lemma CompareResult(st: State, join: Join, relation: Relation, a: Source, b: Source)
    ensures Ladder.ExecCompare(st, join, relation, a, b) ==
            st.(result := Joined(join, st.result,
                                 Holds(relation, Signed16(Eval(st.img, a)), Signed16(Eval(st.img, b)))))
  {
  }

  /** Sets or clears one bit of a bitmap of 32-bit words. */
  method MarkOne(words: array<DWord>, n: nat, i: nat, on: bool)
    requires n <= 32 * words.Length && i < n
    modifies words
    ensures Marks(words[..], n) == if on then old(Marks(words[..], n)) + {i} else old(Marks(words[..], n)) - {i}
  {
    ghost var before := words[..];
    words[i / 32] := PutBit32(words[i / 32], i % 32, on);
    MarksUpdate(before, n, i, on);
    assert words[..] == before[i / 32 := PutBit32(before[i / 32], i % 32, on)];
  }

  method ClearBitmap(words: array<DWord>, n: nat)
    requires n <= 32 * words.Length
    modifies words
    ensures Marks(words[..], n) == {}
  {
    for i := 0 to words.Length
      invariant forall j :: 0 <= j < i ==> words[j] == 0
    {
      words[i] := 0;
    }
    ZeroMarks(words[..], n);
  }

  lemma ZeroMarks(words: seq<DWord>, n: nat)
    requires n <= 32 * |words| && forall i :: 0 <= i < |words| ==> words[i] == 0
    ensures Marks(words, n) == {}
  {
    forall i: nat | i < n
      ensures !Bit(words[i / 32], i % 32)
    {
      PackBit([], i % 32);
    }
  }

  /** The queued states below n cleared. */
  function ClearedBelow(img: Image, queued: set<nat>, n: nat): Image
    requires n <= NUM_S
  {
    img.(s := seq(NUM_S, i requires 0 <= i < NUM_S => if i < n then img.s[i] && i !in queued else img.s[i]))
  }
}
