/** One scan of the ladder interpreter as a function on values: decode, execute, repeat. */
module Ladder {
  import opened Words
  import opened Devices
  import opened Timers
  import opened Instructions
  import opened Applied

  const STACK_DEPTH: nat := 16
  const CALL_DEPTH: nat := 8
  const MAX_SOURCES: nat := 8
  const PROGRAM_STEPS: nat := 16000

  /** STL context: the open step's gate and sources, and the states to clear when the scan ends. */
  datatype Stl = Stl(active: bool, accepting: bool, gate: bool, sources: seq<nat>, queued: set<nat>)

  datatype PulseKind = NoPulse | Rising | Falling

  /** Everything plc_exec_scan reads or writes. edges holds the pulse coils whose rung was last true. */
  datatype State = State(
    off: nat, halted: bool, result: bool, pulse: PulseKind,
    branch: seq<bool>, block: seq<bool>, calls: seq<nat>, outputJust: bool,
    stl: Stl, edges: set<nat>, unknown: Word, lastBad: Word, img: Image)

  // --------------------------------------------------- applied instructions

  /** Run-time conditions on the operand values of a well-formed applied instruction. */
  predicate OpValid(img: Image, op: Op) {
    match op
    case Dmov(_, _, _, pad) => Eval(img, pad) == 0
    case DdivTime(_, _, blo, bhi, _, pad) => Eval(img, pad) == 0 && Eval32(img, blo, bhi) != 0
    case Bmov(from, dst, n) => from + Eval(img, n) <= NUM_D && dst + Eval(img, n) <= NUM_D
    case Fmov(_, dst, n) => dst + Eval(img, n) <= NUM_D
    case Arith(fn, _, b, _) => fn == Div ==> Eval(img, b) != 0
    case Sftr(_, window, n, k) =>
      Eval(img, n) > 0 && Eval(img, k) <= Eval(img, n) && window.num + Eval(img, n) <= 256
    case Sfwr(_, table, n) => Eval(img, n) >= 2 && table + Eval(img, n) <= NUM_D
    case Sfrd(table, _, n) => Eval(img, n) >= 2 && table + Eval(img, n) <= NUM_D
    case EncoWord(_, _, n) => 1 <= Eval(img, n) <= 4
    case EncoBits(first, _, n) => 1 <= Eval(img, n) <= 4 && first.num + Pow2(Eval(img, n)) <= 256
    case Bon(bit, bitGroup, target, targetGroup, n) =>
      && Eval(img, n) <= 15
      && bit.num + (if bitGroup then GetD(img, 28) + Eval(img, n) else 0) <= 255
      && target.num + (if targetGroup then GetD(img, 28) + Eval(img, n) else 0) <= 255
    case Malformed => false
    case _ => true
  }

  function CmpEffect(img: Image, a: Word, b: Word, flags: Device): Image {
    var greater := WriteBit(img, flags.kind, flags.num, Signed16(a) > Signed16(b));
    var equal := WriteBit(greater, flags.kind, (flags.num + 1) % 256, Signed16(a) == Signed16(b));
    WriteBit(equal, flags.kind, (flags.num + 2) % 256, Signed16(a) < Signed16(b))
  }

  function DivTimeEffect(img: Image, a: DWord, b: DWord, dst: nat): Image
    requires b != 0
  {
    SetD32(SetD32(img, dst, a / b), (dst + 2) % 0x1_0000, a % b)
  }

  /** D28 indexes an array operand implicitly. */
  function BonEffect(img: Image, bit: Device, bitGroup: bool, target: Device, targetGroup: bool, n: Word): Image {
    var index := GetD(img, 28);
    if targetGroup && !bitGroup then
      WriteBit(img, target.kind, (target.num + index + n) % 256, ReadBit(img, bit.kind, bit.num))
    else
      WriteBit(img, target.kind, target.num,
               ReadBit(img, bit.kind, (bit.num + n + (if bitGroup then index else 0)) % 256))
  }

  function OpEffect(img: Image, op: Op): Image
    requires OpValid(img, op)
  {
    match op
    case Dmov(lo, hi, dst, _) => SetD32(img, dst, Eval32(img, lo, hi))
    case DdivTime(alo, ahi, blo, bhi, dst, _) => DivTimeEffect(img, Eval32(img, alo, ahi), Eval32(img, blo, bhi), dst)
    case Cmp(a, b, flags) => CmpEffect(img, Eval(img, a), Eval(img, b), flags)
    case Bmov(from, dst, n) => img.(d := MoveBlock(img.d, from, dst, Eval(img, n)))
    case Fmov(a, dst, n) => img.(d := FillBlock(img.d, dst, Eval(img, n), Eval(img, a)))
    case Arith(fn, a, b, dst) => ArithEffect(img, fn, Eval(img, a), Eval(img, b), dst)
    case Adjust(fn, dst) => SetD(img, dst, Adjusted(fn, GetD(img, dst)))
    case Rotate(right, dst, n) => SetD(img, dst, Rotated(right, GetD(img, dst), Eval(img, n) % 16))
    case Sftr(bit, window, n, k) => SftrEffect(img, bit, window, Eval(img, n), Eval(img, k))
    case Sfwr(a, table, n) => SfwrEffect(img, Eval(img, a), table, Eval(img, n))
    case Sfrd(table, dst, _) => SfrdEffect(img, table, dst)
    case EncoWord(a, dst, n) => SetD(img, dst, HighestOn(BitsOf(Eval(img, a), Pow2(Eval(img, n)))) % 0x1_0000)
    case EncoBits(first, dst, n) =>
      SetD(img, dst, HighestOn(ReadRun(img, first.kind, first.num, Pow2(Eval(img, n)))) % 0x1_0000)
    case Bon(bit, bitGroup, target, targetGroup, n) =>
      BonEffect(img, bit, bitGroup, target, targetGroup, Eval(img, n))
    case Flt(a, dst) => SetD32(img, dst, FloatBits(Signed16(Eval(img, a))))
  }

  // ------------------------------------------------- single instructions

  /** The step gate: everything outside STL is ungated. */
  predicate Gate(stl: Stl) { !stl.active || stl.gate }

  function Push(stack: seq<bool>, v: bool): seq<bool> {
    if |stack| < STACK_DEPTH then stack + [v] else stack
  }

  function Bad(st: State, word: Word): State {
    st.(unknown := Wrap16(st.unknown + 1), lastBad := word)
  }

  /** The next instruction and the pending returns are as they were. */
  predicate SameControl(after: State, before: State) {
    after.off == before.off && after.calls == before.calls && after.halted == before.halted
  }

  /** Devices, queued transfers and edge memory are as they were. */
  predicate SameDevices(after: State, before: State) {
    after.img == before.img && after.stl.queued == before.stl.queued && after.edges == before.edges
  }

  /** The rung, the stacks and control are as they were. */
  predicate ImageOnly(after: State, before: State) {
    after == before.(img := after.img, unknown := after.unknown, lastBad := after.lastBad)
  }

  function BeginStep(stl: Stl, n: Byte, merge: bool, img: Image): Stl {
    var sources := if merge then stl.sources else [];
    stl.(active := true, accepting := true,
         gate := (merge ==> stl.gate) && GetFlag(img.s, n),
         sources := if |sources| < MAX_SOURCES then sources + [n] else sources)
  }

  function QueueTransfer(stl: Stl): Stl {
    stl.(queued := stl.queued + (set x | x in stl.sources && x < NUM_S))
  }

  function ExecStl(st: State, n: Byte, word: Word): (after: State)
    ensures SameControl(after, st) && SameDevices(after, st)
  {
    var merge := st.stl.active && st.stl.accepting;
    var stl := BeginStep(st.stl, n, merge, st.img);
    var begun := st.(stl := stl, result := stl.gate);
    if merge && |st.stl.sources| >= MAX_SOURCES then Bad(begun, word) else begun
  }

  function ExecRet(st: State): (after: State)
    ensures SameControl(after, st) && SameDevices(after, st)
  {
    st.(stl := st.stl.(active := false, accepting := false, sources := [], gate := true), result := false)
  }

  function ExecContact(st: State, join: Join, negated: bool, dev: Device): (after: State)
    ensures SameControl(after, st) && SameDevices(after, st)
  {
    var closed := ReadBit(st.img, dev.kind, dev.num) != negated;
    match join
    case Start => st.(block := Push(st.block, st.result), result := Gate(st.stl) && closed)
    case And => st.(result := st.result && closed)
    case Or => st.(result := st.result || (Gate(st.stl) && closed))
  }

  predicate Holds(relation: Relation, a: int, b: int) {
    match relation
    case Eq => a == b
    case Gt => a > b
    case Lt => a < b
    case Ne => a != b
    case Le => a <= b
    case Ge => a >= b
  }

  /** Inline comparisons join without looking at the step gate. */
  function ExecCompare(st: State, join: Join, relation: Relation, a: Source, b: Source): (after: State)
    ensures SameControl(after, st) && SameDevices(after, st)
  {
    var holds := Holds(relation, Signed16(Eval(st.img, a)), Signed16(Eval(st.img, b)));
    match join
    case Start => st.(result := holds)
    case And => st.(result := st.result && holds)
    case Or => st.(result := st.result || holds)
  }

  function ExecStack(st: State, instr: Instr): (after: State)
    ensures SameControl(after, st) && SameDevices(after, st)
  {
    var top, last := |st.branch| - 1, |st.block| - 1;
    match instr
    case Mps => st.(branch := Push(st.branch, st.result))
    case Mrd => if top < 0 then st else st.(result := st.branch[top])
    case Mpp => if top < 0 then st else st.(result := st.branch[top], branch := st.branch[..top])
    case Anb => if last < 0 then st else st.(result := st.block[last] && st.result, block := st.block[..last])
    case Orb => if last < 0 then st else st.(result := st.block[last] || st.result, block := st.block[..last])
    case _ => st
  }

  function ExecOut(st: State, dev: Device): (after: State)
    ensures SameControl(after, st)
  {
    var driven :=
      if st.stl.active && IsS(dev.kind) then
        if st.result then st.(img := WriteBit(st.img, dev.kind, dev.num, true), stl := QueueTransfer(st.stl)) else st
      else st.(img := WriteBit(st.img, dev.kind, dev.num, st.result));
    driven.(block := [], outputJust := true)
  }

  function ExecSet(st: State, dev: Device): (after: State)
    ensures SameControl(after, st)
  {
    var written :=
      if st.result then
        st.(img := WriteBit(st.img, dev.kind, dev.num, true),
            stl := if st.stl.active && IsS(dev.kind) then QueueTransfer(st.stl) else st.stl)
      else st;
    written.(block := [])
  }

  function ExecSetState(st: State, n: Byte): (after: State)
    ensures SameControl(after, st)
  {
    if st.result then
      st.(img := SetS(st.img, n, true), stl := if st.stl.active then QueueTransfer(st.stl) else st.stl)
    else st
  }

  function RstEffect(img: Image, dev: Device): Image {
    var cleared := WriteBit(img, dev.kind, dev.num, false);
    if dev.kind == DEV_T then TimerReset(cleared, dev.num)
    else if dev.kind == DEV_C then CounterReset(cleared, dev.num)
    else cleared
  }

  function ExecRst(st: State, dev: Device): (after: State)
    ensures SameControl(after, st)
  {
    st.(img := if st.result then RstEffect(st.img, dev) else st.img, block := [])
  }

  /** Remembers the rung at a pulse coil and tells whether this execution is its edge. */
  function PulseEdge(edges: set<nat>, step: nat, rung: bool, falling: bool): (r: (bool, set<nat>)) {
    if step >= PROGRAM_STEPS then (false, edges)
    else
      (if falling then step in edges && !rung else rung && step !in edges,
       if rung then edges + {step} else edges - {step})
  }

  /** The program step of the instruction just fetched. */
  function PulseStep(st: State): nat { if st.off >= 2 then (st.off - 2) / 2 else 0 }

  function ExecPulse(st: State, dev: Device, word: Word): (after: State)
    ensures SameControl(after, st)
  {
    if st.pulse == NoPulse then Bad(st, word).(block := [])
    else
      var (fires, edges) := PulseEdge(st.edges, PulseStep(st), st.result, st.pulse == Falling);
      st.(img := WriteBit(st.img, dev.kind, dev.num, fires), edges := edges, pulse := NoPulse, block := [])
  }

  function ExecCall(code: Code, st: State, pointer: Option<Byte>, afterOutput: bool, word: Word): (after: State)
    ensures SameDevices(after, st)
  {
    var target := if pointer.Some? then FindSubroutine(code, pointer.value) else PROGRAM_BYTES;
    var enabled := st.result || afterOutput || st.stl.active;
    if target >= PROGRAM_BYTES || (enabled && |st.calls| >= CALL_DEPTH) then Bad(st, word)
    else if enabled then st.(calls := st.calls + [st.off], off := target)
    else st
  }

  function ExecSret(st: State, word: Word): (after: State)
    ensures SameDevices(after, st)
  {
    if st.calls == [] then Bad(st, word)
    else st.(off := st.calls[|st.calls| - 1], calls := st.calls[..|st.calls| - 1])
  }

  function ExecSftl(st: State, bit: Device, window: Device, length: Source, shifts: Source, word: Word): (after: State)
    ensures ImageOnly(after, st)
  {
    var n, k := Eval(st.img, length), Eval(st.img, shifts);
    if n == 0 || k > n || window.num + n > 256 then Bad(st, word)
    else if st.result then st.(img := SftlEffect(st.img, bit, window, n, k))
    else st
  }

  /** Drum outputs: output i is on while the counter is within its pair of thresholds. */
  function DrumBits(img: Image, table: nat, current: int, n: nat): (bits: seq<bool>)
    ensures |bits| == n
  {
    seq(n, i requires 0 <= i < n =>
      GetD(img, (table + 2 * i) % 0x1_0000) <= current < GetD(img, (table + 2 * i + 1) % 0x1_0000))
  }

  function ExecAbsd(st: State, table: nat, counter: Byte, first: Device, count: Source, word: Word): (after: State)
    ensures ImageOnly(after, st)
  {
    var n := Eval(st.img, count);
    if n > 64 || table + 2 * n > NUM_D || first.num + n > 256 then Bad(st, word)
    else if st.result then
      st.(img := WriteRun(st.img, first.kind, first.num, DrumBits(st.img, table, st.img.c[counter].current, n)))
    else st
  }

  function OneHotBits(selected: int, n: nat): (bits: seq<bool>)
    ensures |bits| == n
  {
    seq(n, i requires 0 <= i < n => selected == i)
  }

  function ExecDeco(st: State, counter: Byte, first: Device, width: Source, word: Word): (after: State)
    ensures ImageOnly(after, st)
  {
    var w := Eval(st.img, width);
    if w < 1 || w > 8 || first.num + Pow2(w) > 256 then Bad(st, word)
    else if st.result then
      st.(img := WriteRun(st.img, first.kind, first.num, OneHotBits(st.img.c[counter].current, Pow2(w))))
    else st
  }

  function ExecApplied(st: State, op: Op, word: Word): (after: State)
    ensures ImageOnly(after, st)
  {
    if !OpValid(st.img, op) then Bad(st, word)
    else if st.result then st.(img := OpEffect(st.img, op))
    else st
  }

  function ExecZrst(st: State, kind: Byte, lowest: Byte, highest: Byte): (after: State)
    ensures ImageOnly(after, st)
  {
    if st.result && lowest <= highest then
      st.(img := WriteRun(st.img, kind, lowest, Repeat(false, highest - lowest + 1)))
    else st
  }

  function ExecMov(st: State, src: Source, dst: Option<nat>): (after: State)
    ensures ImageOnly(after, st)
  {
    if st.result && dst.Some? then st.(img := SetD(st.img, dst.value, Eval(st.img, src))) else st
  }

  function ExecMovBits(st: State, from: Device, to: Device): (after: State)
    ensures ImageOnly(after, st)
  {
    if st.result then
      st.(img := WriteRun(st.img, to.kind, to.num, ReadRun(st.img, from.kind, from.num, 16)))
    else st
  }

  function Exec(code: Code, ticks: Ticks, st: State, instr: Instr, word: Word, afterOutput: bool): State {
    match instr
    case Blank => st
    case OutTimer(t, preset) =>
      st.(img := TimerDrive(st.img, ticks, t, Eval(st.img, preset), st.result), block := [])
    case OutCounter(c, preset) => st.(img := CounterDrive(st.img, c, Eval(st.img, preset), st.result), block := [])
    case End => st.(halted := true)
    case Call(pointer) => ExecCall(code, st, pointer, afterOutput, word)
    case Sret => ExecSret(st, word)
    case Applied(op) => ExecApplied(st, op, word)
    case PulsePrefix(falling) => st.(pulse := if falling then Falling else Rising)
    case ResetTimer(t) => if st.result then st.(img := TimerReset(st.img, t)) else st
    case ResetCounter(c) => if st.result then st.(img := CounterReset(st.img, c)) else st
    case SetState(n) => ExecSetState(st, n)
    case RstState(n) => if st.result then st.(img := SetS(st.img, n, false)) else st
    case OutState(n) => st.(img := SetS(st.img, n, st.result))
    case Zrst(kind, lowest, highest) => ExecZrst(st, kind, lowest, highest)
    case Sftl(bit, window, length, shifts) => ExecSftl(st, bit, window, length, shifts, word)
    case Absd(table, counter, first, count) => ExecAbsd(st, table, counter, first, count, word)
    case Deco(counter, first, width) => ExecDeco(st, counter, first, width, word)
    case MovBits(from, to) => ExecMovBits(st, from, to)
    case Mov(src, dst) => ExecMov(st, src, dst)
    case StlStep(n) => ExecStl(st, n, word)
    case Ret => ExecRet(st)
    case StrayConstant => st
    case Compare(join, relation, a, b) => ExecCompare(st, join, relation, a, b)
    case CounterEnable(x) => st.(result := ReadBit(st.img, DEV_X, x))
    case Contact(join, negated, dev) => ExecContact(st, join, negated, dev)
    case Out(dev) => ExecOut(st, dev)
    case Set(dev) => ExecSet(st, dev)
    case Rst(dev) => ExecRst(st, dev)
    case Pulse(dev) => ExecPulse(st, dev, word)
    case Unknown(breaksRung) => if breaksRung then Bad(st, word).(result := false) else Bad(st, word)
    case Mps => ExecStack(st, instr)
    case Mrd => ExecStack(st, instr)
    case Mpp => ExecStack(st, instr)
    case Anb => ExecStack(st, instr)
    case Orb => ExecStack(st, instr)
  }

  // ------------------------------------------------------------ the scan

  predicate Running(st: State) { !st.halted && st.off + 1 < PROGRAM_BYTES }

  /** What every instruction but a blank does before it is dispatched. */
  function Ready(st: State, d: Decoded): State {
    st.(off := d.next, outputJust := false,
        stl := if d.instr.StlStep? then st.stl else st.stl.(accepting := false))
  }

  function Step(code: Code, ticks: Ticks, st: State): State {
    var d := Decode(code, st.off);
    if d.instr.Blank? then st.(off := d.next)
    else Exec(code, ticks, Ready(st, d), d.instr, Fetch(code, st.off), st.outputJust)
  }

  /** At most n instructions. */
  function Steps(code: Code, ticks: Ticks, st: State, n: nat): State
    decreases n
  {
    if n == 0 || !Running(st) then st else Steps(code, ticks, Step(code, ticks, st), n - 1)
  }

  /** The machine's invariant: whole words, and stacks within their arrays. */
  predicate WellFormed(st: State) {
    && st.off % 2 == 0
    && (forall i :: 0 <= i < |st.calls| ==> st.calls[i] % 2 == 0)
    && |st.calls| <= CALL_DEPTH
    && |st.branch| <= STACK_DEPTH
    && |st.block| <= STACK_DEPTH
    && |st.stl.sources| <= MAX_SOURCES
    && (forall x :: x in st.stl.sources ==> x < 256)
    && (forall x :: x in st.stl.queued ==> x < NUM_S)
    && (forall x :: x in st.edges ==> x < PROGRAM_STEPS)
  }

  /** Program bytes a call level still has ahead of it; the running level is the last, later ones hold 0. */
  function Left(off: nat): nat {
    if off < PROGRAM_BYTES then PROGRAM_BYTES - off else 0
  }

  function Level(st: State, i: nat): nat {
    if i < |st.calls| then Left(st.calls[i]) else if i == |st.calls| then Left(st.off) else 0
  }

  /** The first i+1 call levels as one number, most significant level first. */
  function Rank(st: State, i: nat): nat {
    if i == 0 then Level(st, 0) else Rank(st, i - 1) * (PROGRAM_BYTES + 1) + Level(st, i)
  }
}
