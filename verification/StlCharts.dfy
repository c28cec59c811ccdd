/** Sequential charts: steps with outputs, a transition condition and one transfer each. */
module StlCharts {
  import opened Words
  import opened Devices
  import opened Timers
  import opened Instructions
  import opened Ladder
  import opened LadderScan
  import opened Listing
  import opened Networks
  import opened StlTransfers
  import Branches
  import Programs

  /** A condition network, then SET or OUT of the destination state. */
  datatype Transfer = Transfer(condition: Net, dest: Operand, viaOut: bool)

  /** STL sources; OUT outputs; any number of transfers, in order: several make a selection. */
  datatype ChartStep = ChartStep(sources: seq<Byte>, outputs: seq<Operand>, transfers: seq<Transfer>)

  predicate ValidTransfer(t: Transfer) { Need(t.condition) <= STACK_DEPTH && IsS(t.dest.kind) && Target(t) < NUM_S }

  predicate Valid(step: ChartStep) {
    && step.sources != [] && (step.outputs != [] || step.transfers != [])
    && (forall i :: 0 <= i < |step.outputs| ==> !IsS(step.outputs[i].kind))
    && (forall i :: 0 <= i < |step.transfers| ==> ValidTransfer(step.transfers[i]))
  }

  function Target(t: Transfer): nat { DeviceNumber(t.dest.kind, t.dest.num) }

  function Targets(ts: seq<Transfer>): set<nat> { set t | t in ts :: Target(t) }

  function OutWords(outputs: seq<Operand>): (listing: seq<SimpleInstr>)
    ensures |listing| == |outputs|
  {
    seq(|outputs|, i requires 0 <= i < |outputs| => Out(outputs[i]))
  }

  function SetOrOut(t: Transfer): SimpleInstr { if t.viaOut then Out(t.dest) else Set(t.dest) }

  function TransfersCode(ts: seq<Transfer>): seq<SimpleInstr>
    decreases |ts|
  {
    if ts == [] then []
    else Networks.Compile(ts[0].condition) + [SetOrOut(ts[0])] + TransfersCode(ts[1..])
  }

  function StepCode(step: ChartStep): seq<SimpleInstr> {
    StlWords(step.sources) + OutWords(step.outputs) + TransfersCode(step.transfers)
  }

  // ------------------------------------------------------------- meaning

  /** The devices and the states queued for clearing. */
  datatype Progress = Progress(img: Image, queued: set<nat>)

  function DriveOutputs(img: Image, outputs: seq<Operand>, v: bool): Image
    decreases |outputs|
  {
    if outputs == [] then img
    else DriveOutputs(WriteBit(img, outputs[0].kind, outputs[0].num, v), outputs[1..], v)
  }

  function SourceSet(step: ChartStep): set<nat> { set x | x in Prefix(step.sources) && x < NUM_S }

  /** A transfer of an active step whose condition holds activates its destination and queues the sources. */
  function TransferEffect(t: Transfer, gate: bool, sources: set<nat>, p: Progress): Progress {
    if gate && Value(t.condition, p.img) then
      Progress(WriteBit(p.img, t.dest.kind, t.dest.num, true), p.queued + sources)
    else p
  }

  function TransfersEffect(ts: seq<Transfer>, gate: bool, sources: set<nat>, p: Progress): Progress
    decreases |ts|
  {
    if ts == [] then p else TransfersEffect(ts[1..], gate, sources, TransferEffect(ts[0], gate, sources, p))
  }

  /** A step drives its outputs by whether all its source states are active, and then tries its transfers in order. The
      sources stay active until the scan ends, so each transfer is tried whatever the ones before it did. */
  function StepEffect(step: ChartStep, p: Progress): Progress {
    var gate := AllActive(p.img, step.sources);
    TransfersEffect(step.transfers, gate, SourceSet(step), p.(img := DriveOutputs(p.img, step.outputs, gate)))
  }

  // ---------------------------------------------------- the compiled step

  lemma {:induction false} OutputsRun(st: State, outputs: seq<Operand>)
    requires forall i :: 0 <= i < |outputs| ==> !IsS(outputs[i].kind)
    ensures var after := DoAll(st, OutWords(outputs));
            && after.img == DriveOutputs(st.img, outputs, st.result)
            && after.result == st.result
            && after.stl.(accepting := false) == st.stl.(accepting := false)
            && (outputs == [] ==> after.block == st.block) && (outputs != [] ==> after.block == [])
    decreases |outputs|
  {
    hide WriteBit;
    if outputs == [] {
      assert OutWords(outputs) == [];
    } else {
      assert OutWords(outputs) == [Out(outputs[0])] + OutWords(outputs[1..]);
      hide Do;
      DoCons(st, Out(outputs[0]), OutWords(outputs[1..]));
      Branches.DoOut(st, outputs[0]);
      OutputsRun(Do(st, Out(outputs[0])), outputs[1..]);
    }
  }

  /** Inside an open step, between its rungs. */
  predicate InStep(st: State, step: ChartStep, gate: bool) {
    st.block == [] && st.stl.active && st.stl.gate == gate && st.stl.sources == Prefix(step.sources)
  }

  lemma SetRuns(st: State, step: ChartStep, t: Transfer)
    requires IsS(t.dest.kind) && st.stl.active && st.stl.sources == Prefix(step.sources)
    ensures var after := Do(st, SetOrOut(t));
            && after.img == (if st.result then WriteBit(st.img, t.dest.kind, t.dest.num, true) else st.img)
            && after.stl == st.stl.(accepting := false,
                                    queued := if st.result then st.stl.queued + SourceSet(step) else st.stl.queued)
            && after.block == []
  {
    hide WriteBit, Encode, Prefix, ExecContact, ExecStack, ExecStl, ExecRet, ExecRst, DeviceNumber;
  }

  lemma TransferRuns(st: State, step: ChartStep, t: Transfer, gate: bool)
    requires ValidTransfer(t) && InStep(st, step, gate)
    ensures var after := DoAll(st, Networks.Compile(t.condition) + [SetOrOut(t)]);
            && InStep(after, step, gate) && !after.stl.accepting
            && Progress(after.img, after.stl.queued) ==
               TransferEffect(t, gate, SourceSet(step), Progress(st.img, st.stl.queued))
  {
    hide DoAll, Do, Prefix, Value, Need, Networks.Compile, WriteBit, IsS, DeviceNumber, SetOrOut, SourceSet;
    var held := AfterNet(st, t.condition);
    DoAllAppend(st, Networks.Compile(t.condition), [SetOrOut(t)]);
    NetRuns(st, t.condition);
    DoOne(held, SetOrOut(t));
    SetRuns(held, step, t);
  }

  lemma {:induction false} TransfersRun(st: State, step: ChartStep, ts: seq<Transfer>, gate: bool)
    requires (forall i :: 0 <= i < |ts| ==> ValidTransfer(ts[i])) && InStep(st, step, gate)
    ensures var after := DoAll(st, TransfersCode(ts));
            && InStep(after, step, gate) && (ts != [] || !st.stl.accepting ==> !after.stl.accepting)
            && Progress(after.img, after.stl.queued) ==
               TransfersEffect(ts, gate, SourceSet(step), Progress(st.img, st.stl.queued))
    decreases |ts|
  {
    hide Do, ValidTransfer, InStep, TransferEffect, SetOrOut, Networks.Compile, SourceSet;
    if ts != [] {
      var code := Networks.Compile(ts[0].condition) + [SetOrOut(ts[0])];
      DoAllAppend(st, code, TransfersCode(ts[1..]));
      TransferRuns(st, step, ts[0], gate);
      TransfersRun(DoAll(st, code), step, ts[1..], gate);
    }
  }

  /** The interpreter, run on the code of a step, does what the step means. */
  lemma StepRuns(st: State, step: ChartStep)
    requires Valid(step) && st.block == [] && !(st.stl.active && st.stl.accepting)
    ensures var after := DoAll(st, StepCode(step));
            && Progress(after.img, after.stl.queued) == StepEffect(step, Progress(st.img, st.stl.queued))
            && after.block == [] && after.stl.active && !after.stl.accepting
  {
    var a, b, c := StlWords(step.sources), OutWords(step.outputs), TransfersCode(step.transfers);
    hide DoAll, Do, Prefix, AllActive, DriveOutputs, WriteBit, StlWords, OutWords, IsS, SourceSet, ValidTransfer,
         TransfersCode, TransfersEffect;
    DoAllAppend(st, a, b);
    DoAllAppend(st, a + b, c);
    MergeGates(st, step.sources);
    var s1 := DoAll(st, a);
    OutputsRun(s1, step.outputs);
    var s2 := DoAll(s1, b);
    if step.outputs != [] {
      OutputsClose(s1, step.outputs);
    }
    TransfersRun(s2, step, step.transfers, AllActive(st.img, step.sources));
  }

  lemma {:induction false} OutputsClose(st: State, outputs: seq<Operand>)
    requires outputs != []
    ensures !DoAll(st, OutWords(outputs)).stl.accepting
    decreases |outputs|
  {
    hide Do, WriteBit;
    assert OutWords(outputs) == [Out(outputs[0])] + OutWords(outputs[1..]);
    DoCons(st, Out(outputs[0]), OutWords(outputs[1..]));
    Branches.DoOut(st, outputs[0]);
    if outputs[1..] == [] {
      assert OutWords(outputs[1..]) == [];
    } else {
      OutputsClose(Do(st, Out(outputs[0])), outputs[1..]);
    }
  }

  // ------------------------------------------------------- whole charts

  function ChartCode(steps: seq<ChartStep>): seq<SimpleInstr>
    decreases |steps|
  {
    if steps == [] then [] else StepCode(steps[0]) + ChartCode(steps[1..])
  }

  function ChartEffect(steps: seq<ChartStep>, p: Progress): Progress
    decreases |steps|
  {
    if steps == [] then p else ChartEffect(steps[1..], StepEffect(steps[0], p))
  }

  predicate AllValid(steps: seq<ChartStep>) { forall i :: 0 <= i < |steps| ==> Valid(steps[i]) }

  lemma {:induction false} ChartRuns(st: State, steps: seq<ChartStep>)
    requires AllValid(steps) && st.block == [] && !(st.stl.active && st.stl.accepting)
    ensures var after := DoAll(st, ChartCode(steps));
            Progress(after.img, after.stl.queued) == ChartEffect(steps, Progress(st.img, st.stl.queued))
    decreases |steps|
  {
    hide StepCode, StepEffect, Do;
    if steps != [] {
      DoAllAppend(st, StepCode(steps[0]), ChartCode(steps[1..]));
      assert Valid(steps[0]);
      hide Valid;
      StepRuns(st, steps[0]);
      ChartRuns(DoAll(st, StepCode(steps[0])), steps[1..]);
    }
  }

  /** Program memory holds the chart, RET and END. */
  predicate Loaded(code: Code, steps: seq<ChartStep>) { Programs.Loaded(code, ChartCode(steps) + [Ret]) }

  lemma RetKeeps(st: State)
    ensures Do(st, Ret).img == st.img && Do(st, Ret).stl.queued == st.stl.queued
  {
    hide ExecStl, ExecContact, ExecStack, ExecOut, ExecSet, ExecRst, Encode;
  }

  /** A scan of a loaded chart: its effect, then the queued sources are cleared. */
  lemma ChartScan(code: Code, ticks: Ticks, first: bool, edges: set<nat>, lastBad: Word, img: Image,
        steps: seq<ChartStep>)
    requires AllValid(steps) && Loaded(code, steps)
    ensures var p := ChartEffect(steps, Progress(img, {}));
            Scan(code, ticks, first, edges, lastBad, img).img == ClearQueued(p.img, p.queued)
  {
    var st := Begin(first, edges, lastBad, img);
    var charted := DoAll(st, ChartCode(steps));
    hide ChartCode, ChartEffect, AllValid, Do, ClearQueued, DoAll, Programs.Loaded, Scan;
    Programs.ListingScan(code, ticks, first, edges, lastBad, img, ChartCode(steps) + [Ret]);
    DoAllAppend(st, ChartCode(steps), [Ret]);
    ChartRuns(st, steps);
    DoOne(charted, Ret);
    RetKeeps(charted);
  }

  // --------------------------------------------------------------- tokens

  /** One source per step, and no state has two steps. */
  predicate Sequential(steps: seq<ChartStep>) {
    && AllValid(steps)
    && (forall i :: 0 <= i < |steps| ==> |steps[i].sources| == 1)
    && (forall i, j :: 0 <= i < j < |steps| ==> steps[i].sources[0] != steps[j].sources[0])
  }

  /** The destinations of the transfers that fire. */
  function Reached(ts: seq<Transfer>, gate: bool, sources: set<nat>, p: Progress): set<nat>
    decreases |ts|
  {
    if ts == [] then {}
    else
      (if gate && Value(ts[0].condition, p.img) then {Target(ts[0])} else {})
      + Reached(ts[1..], gate, sources, TransferEffect(ts[0], gate, sources, p))
  }

  /** Where a step sends its token in this scan; nowhere when it does not fire. */
  function Destinations(step: ChartStep, p: Progress): set<nat> {
    var gate := AllActive(p.img, step.sources);
    Reached(step.transfers, gate, SourceSet(step), p.(img := DriveOutputs(p.img, step.outputs, gate)))
  }

  lemma {:induction false} DriveKeepsStates(img: Image, outputs: seq<Operand>, v: bool)
    requires forall i :: 0 <= i < |outputs| ==> !IsS(outputs[i].kind)
    ensures DriveOutputs(img, outputs, v).s == img.s
    decreases |outputs|
  {
    if outputs != [] {
      DriveKeepsStates(WriteBit(img, outputs[0].kind, outputs[0].num, v), outputs[1..], v);
    }
  }

  lemma TransferStates(t: Transfer, gate: bool, sources: set<nat>, p: Progress)
    requires ValidTransfer(t)
    ensures var q := TransferEffect(t, gate, sources, p);
            if gate && Value(t.condition, p.img) then
              ActiveS(q.img) == ActiveS(p.img) + {Target(t)} && q.queued == p.queued + sources
            else q == p
  {
    hide Value, Need;
  }

  lemma {:induction false} TransfersStates(ts: seq<Transfer>, gate: bool, sources: set<nat>, p: Progress)
    requires forall i :: 0 <= i < |ts| ==> ValidTransfer(ts[i])
    ensures var q := TransfersEffect(ts, gate, sources, p);
            var reached := Reached(ts, gate, sources, p);
            && ActiveS(q.img) == ActiveS(p.img) + reached
            && q.queued == p.queued + (if reached == {} then {} else sources)
            && (!gate ==> reached == {})
    decreases |ts|
  {
    hide ValidTransfer, Value, ActiveS, Target;
    if ts != [] {
      var q := TransferEffect(ts[0], gate, sources, p);
      assert ValidTransfer(ts[0]);
      TransferStates(ts[0], gate, sources, p);
      TransfersStates(ts[1..], gate, sources, q);
    }
  }

  /** What a step with one source does to the active and the queued states. */
  lemma StepStates(step: ChartStep, p: Progress)
    requires Valid(step) && |step.sources| == 1
    ensures var q := StepEffect(step, p);
            var d := Destinations(step, p);
            && ActiveS(q.img) == ActiveS(p.img) + d
            && q.queued == p.queued + (if d == {} then {} else {step.sources[0] as nat})
            && (d != {} ==> step.sources[0] as nat in ActiveS(p.img))
  {
    var gate := AllActive(p.img, step.sources);
    var driven := p.(img := DriveOutputs(p.img, step.outputs, gate));
    DriveKeepsStates(p.img, step.outputs, gate);
    OneSource(step, p.img);
    hide ValidTransfer, DriveOutputs, Prefix, TransfersEffect, Reached, SourceSet, AllActive;
    assert ActiveS(driven.img) == ActiveS(p.img);
    hide ActiveS;
    TransfersStates(step.transfers, gate, SourceSet(step), driven);
  }

  lemma OneSource(step: ChartStep, img: Image)
    requires |step.sources| == 1
    ensures AllActive(img, step.sources) ==>
              step.sources[0] as nat in ActiveS(img) && SourceSet(step) == {step.sources[0] as nat}
  {
    assert Prefix(step.sources) == [step.sources[0] as nat];
  }

  /** How many steps fire in a scan. */
  function Fired(steps: seq<ChartStep>, p: Progress): nat
    decreases |steps|
  {
    if steps == [] then 0
    else (if Destinations(steps[0], p) == {} then 0 else 1) + Fired(steps[1..], StepEffect(steps[0], p))
  }

  /** How many states become active in a scan. */
  function Placed(steps: seq<ChartStep>, p: Progress): nat
    decreases |steps|
  {
    if steps == [] then 0
    else |Destinations(steps[0], p) - ActiveS(p.img)| + Placed(steps[1..], StepEffect(steps[0], p))
  }

  /** No step of the chart has fired yet from the states fired so far. */
  predicate Ahead(steps: seq<ChartStep>, queued: set<nat>) {
    forall i :: 0 <= i < |steps| ==> steps[i].sources != [] && steps[i].sources[0] as nat !in queued
  }

  lemma GrownBy(a: set<nat>, d: set<nat>)
    ensures |a + d| == |a| + |d - a|
  {
    assert a + d == a + (d - a);
  }

  /** Firing steps give up one token each and place one on every state they activate. */
  lemma {:induction false} Balance(steps: seq<ChartStep>, p: Progress)
    requires Sequential(steps) && Ahead(steps, p.queued) && p.queued <= ActiveS(p.img)
    ensures var end := ChartEffect(steps, p);
            && end.queued <= ActiveS(end.img)
            && |ActiveS(end.img)| == |ActiveS(p.img)| + Placed(steps, p)
            && |end.queued| == |p.queued| + Fired(steps, p)
    decreases |steps|
  {
    hide StepEffect, Valid, ActiveS, Destinations;
    if steps != [] {
      var step := steps[0];
      StepStates(step, p);
      GrownBy(ActiveS(p.img), Destinations(step, p));
      assert Sequential(steps[1..]);
      Balance(steps[1..], StepEffect(step, p));
    }
  }

  /** A scan keeps account of its active states: those that were active, plus those that became active, minus the steps
      that fired. */
  lemma TokensBalance(code: Code, ticks: Ticks, first: bool, edges: set<nat>, lastBad: Word, img: Image,
        steps: seq<ChartStep>)
    requires Sequential(steps) && Loaded(code, steps)
    ensures var after := Scan(code, ticks, first, edges, lastBad, img).img;
            var p := Progress(img, {});
            |ActiveS(after)| == |ActiveS(img)| + Placed(steps, p) - Fired(steps, p)
  {
    hide ChartEffect, Loaded, Scan, ActiveS, ClearQueued, Valid, Placed, Fired;
    var p := Progress(img, {});
    ChartScan(code, ticks, first, edges, lastBad, img, steps);
    Balance(steps, p);
    var end := ChartEffect(steps, p);
    ClearQueuedActive(end.img, end.queued);
    assert ActiveS(end.img) == (ActiveS(end.img) - end.queued) + end.queued;
  }

  // ------------------------------------------------------------- one-hot

  predicate OneHot(img: Image) { |ActiveS(img)| == 1 }

  /** Exactly when a scan keeps one state active: when its steps activate as many states as steps fire. */
  lemma OneHotExactly(code: Code, ticks: Ticks, first: bool, edges: set<nat>, lastBad: Word, img: Image,
        steps: seq<ChartStep>)
    requires Sequential(steps) && Loaded(code, steps) && OneHot(img)
    ensures OneHot(Scan(code, ticks, first, edges, lastBad, img).img) <==>
            Placed(steps, Progress(img, {})) == Fired(steps, Progress(img, {}))
  {
    hide Loaded, Scan, ActiveS, Sequential, Placed, Fired;
    TokensBalance(code, ticks, first, edges, lastBad, img, steps);
  }

  /** What happens to the devices from one scan to the next is arbitrary, except for the S relays. */
  datatype ScanInput = ScanInput(ticks: Ticks, first: bool, edges: set<nat>, lastBad: Word, img: Image)

  predicate Chained(code: Code, scans: seq<ScanInput>) {
    forall k :: 0 <= k < |scans| - 1 ==> scans[k + 1].img.s == AfterScan(code, scans[k]).s
  }

  function AfterScan(code: Code, i: ScanInput): Image {
    Scan(code, i.ticks, i.first, i.edges, i.lastBad, i.img).img
  }

  function AllFired(steps: seq<ChartStep>, scans: seq<ScanInput>): nat {
    if scans == [] then 0
    else AllFired(steps, scans[..|scans| - 1]) + Fired(steps, Progress(scans[|scans| - 1].img, {}))
  }

  function AllPlaced(steps: seq<ChartStep>, scans: seq<ScanInput>): nat {
    if scans == [] then 0
    else AllPlaced(steps, scans[..|scans| - 1]) + Placed(steps, Progress(scans[|scans| - 1].img, {}))
  }

  lemma OneScan(code: Code, steps: seq<ChartStep>, i: ScanInput)
    requires Sequential(steps) && Loaded(code, steps)
    ensures |ActiveS(AfterScan(code, i))| ==
            |ActiveS(i.img)| + Placed(steps, Progress(i.img, {})) - Fired(steps, Progress(i.img, {}))
  {
    hide Scan, Loaded, Sequential, ActiveS, Placed, Fired;
    TokensBalance(code, i.ticks, i.first, i.edges, i.lastBad, i.img, steps);
  }

  lemma SameActive(a: Image, b: Image)
    requires a.s == b.s
    ensures ActiveS(a) == ActiveS(b)
  {
  }

  /** The account over every run of scans, cycles and selections included. */
  lemma {:induction false} RunBalance(code: Code, steps: seq<ChartStep>, scans: seq<ScanInput>)
    requires Sequential(steps) && Loaded(code, steps) && scans != [] && Chained(code, scans)
    ensures |ActiveS(AfterScan(code, scans[|scans| - 1]))| ==
            |ActiveS(scans[0].img)| + AllPlaced(steps, scans) - AllFired(steps, scans)
    decreases |scans|
  {
    hide Sequential, Loaded, AfterScan, ActiveS, Placed, Fired;
    var n := |scans| - 1;
    var front := scans[..n];
    OneScan(code, steps, scans[n]);
    if n == 0 {
      assert front == [];
    } else {
      RunBalance(code, steps, front);
      assert scans[n].img.s == AfterScan(code, scans[n - 1]).s;
      SameActive(AfterScan(code, scans[n - 1]), scans[n].img);
    }
  }

  /** Exactly when one state is active after a run of scans that starts with one. */
  lemma OneHotRun(code: Code, steps: seq<ChartStep>, scans: seq<ScanInput>)
    requires Sequential(steps) && Loaded(code, steps)
    requires scans != [] && OneHot(scans[0].img) && Chained(code, scans)
    ensures OneHot(AfterScan(code, scans[|scans| - 1])) <==> AllPlaced(steps, scans) == AllFired(steps, scans)
  {
    hide Sequential, Loaded, AfterScan, ActiveS, AllPlaced, AllFired, Chained;
    RunBalance(code, steps, scans);
  }

  // -------------------------------------------------- exclusive conditions

  /** No step sends its token to two states in this scan: its conditions exclude each other, or agree. */
  predicate Exclusive(steps: seq<ChartStep>, p: Progress)
    decreases |steps|
  {
    steps == [] || (|Destinations(steps[0], p)| <= 1 && Exclusive(steps[1..], StepEffect(steps[0], p)))
  }

  /** In this scan no transfer goes to a state that has already fired in it. */
  predicate NoReentry(steps: seq<ChartStep>, p: Progress)
    decreases |steps|
  {
    steps == [] ||
    (var q := StepEffect(steps[0], p); Destinations(steps[0], p) !! q.queued && NoReentry(steps[1..], q))
  }

  /** Destinations stand later in the program, or have no step. */
  predicate Forward(steps: seq<ChartStep>) {
    forall i, j :: 0 <= i <= j < |steps| ==>
      steps[i].sources != [] && steps[i].sources[0] as nat !in Targets(steps[j].transfers)
  }

  /** With one transfer to a step there is nothing to exclude. */
  lemma {:induction false} OneTransferExcludes(steps: seq<ChartStep>, p: Progress)
    requires forall i :: 0 <= i < |steps| ==> |steps[i].transfers| <= 1
    ensures Exclusive(steps, p)
    decreases |steps|
  {
    hide StepEffect, Value, TransferEffect, DriveOutputs;
    if steps != [] {
      var step := steps[0];
      assert |step.transfers| <= 1;
      var gate := AllActive(p.img, step.sources);
      AtMostOne(step.transfers, gate, SourceSet(step), p.(img := DriveOutputs(p.img, step.outputs, gate)));
      OneTransferExcludes(steps[1..], StepEffect(step, p));
    }
  }

  lemma AtMostOne(ts: seq<Transfer>, gate: bool, sources: set<nat>, p: Progress)
    requires |ts| <= 1
    ensures |Reached(ts, gate, sources, p)| <= 1
  {
    hide Value, TransferEffect;
    if ts != [] {
      assert ts[1..] == [];
      assert Reached(ts[1..], gate, sources, TransferEffect(ts[0], gate, sources, p)) == {};
    }
  }

  /** While the token has not re-entered a fired state it is the only active state that has not fired;
      once it has, every active state has fired, and no later step can fire. */
  lemma {:induction false} TokenRuns(steps: seq<ChartStep>, p: Progress, token: nat)
    requires Sequential(steps) && Ahead(steps, p.queued) && Exclusive(steps, p)
    requires ActiveS(p.img) == p.queued + {token}
    ensures var end := ChartEffect(steps, p);
            var left := ActiveS(end.img) - end.queued;
            && (token !in p.queued && NoReentry(steps, p) ==> exists t :: left == {t})
            && (token in p.queued || !NoReentry(steps, p) ==> left == {})
    decreases |steps|
  {
    hide StepEffect, Valid, ActiveS, Destinations;
    if steps == [] {
      if token !in p.queued {
        assert ActiveS(p.img) - p.queued == {token};
      }
    } else {
      var step := steps[0];
      var q, d := StepEffect(step, p), Destinations(step, p);
      StepStates(step, p);
      assert Sequential(steps[1..]);
      if d == {} {
        TokenRuns(steps[1..], q, token);
      } else {
        assert step.sources[0] as nat == token;
        var t :| t in d;
        Singleton(d, t);
        assert ActiveS(q.img) == q.queued + {t};
        TokenRuns(steps[1..], q, t);
      }
    }
  }

  lemma Singleton(d: set<nat>, t: nat)
    requires |d| <= 1 && t in d
    ensures d == {t}
  {
    assert |d - {t}| == |d| - 1;
    assert d - {t} == {};
  }

  /** Exactly when a scan whose conditions are exclusive keeps one state active: when no transfer re-enters a state that
      fired in the same scan. Otherwise no state is left at all. */
  lemma ExclusiveScan(code: Code, i: ScanInput, steps: seq<ChartStep>)
    requires Sequential(steps) && Loaded(code, steps) && OneHot(i.img) && Exclusive(steps, Progress(i.img, {}))
    ensures var after := AfterScan(code, i);
            && (OneHot(after) <==> NoReentry(steps, Progress(i.img, {})))
            && (!OneHot(after) ==> ActiveS(after) == {})
  {
    hide ChartEffect, NoReentry, Exclusive, Loaded, Scan, ActiveS, ClearQueued, Valid;
    var a :| a in ActiveS(i.img);
    Singleton(ActiveS(i.img), a);
    var p := Progress(i.img, {});
    ChartScan(code, i.ticks, i.first, i.edges, i.lastBad, i.img, steps);
    TokenRuns(steps, p, a);
    var end := ChartEffect(steps, p);
    ClearQueuedActive(end.img, end.queued);
  }

  lemma {:induction false} ForwardNeverReenters(steps: seq<ChartStep>, p: Progress, done: set<nat>)
    requires Sequential(steps) && Forward(steps) && p.queued <= done
    requires forall i :: 0 <= i < |steps| ==> Targets(steps[i].transfers) !! done
    ensures NoReentry(steps, p)
    decreases |steps|
  {
    hide StepEffect, Valid, ActiveS, Targets, Destinations;
    if steps != [] {
      var source := steps[0].sources[0] as nat;
      StepStates(steps[0], p);
      DestinationsAreTargets(steps[0], p);
      assert Sequential(steps[1..]);
      ForwardNeverReenters(steps[1..], StepEffect(steps[0], p), done + {source});
    }
  }

  lemma DestinationsAreTargets(step: ChartStep, p: Progress)
    ensures Destinations(step, p) <= Targets(step.transfers)
  {
    hide Target, Reached, DriveOutputs;
    var gate := AllActive(p.img, step.sources);
    ReachedAreTargets(step.transfers, gate, SourceSet(step), p.(img := DriveOutputs(p.img, step.outputs, gate)));
  }

  lemma {:induction false} ReachedAreTargets(ts: seq<Transfer>, gate: bool, sources: set<nat>, p: Progress)
    ensures Reached(ts, gate, sources, p) <= Targets(ts)
    decreases |ts|
  {
    hide Target, Value, TransferEffect;
    if ts != [] {
      ReachedAreTargets(ts[1..], gate, sources, TransferEffect(ts[0], gate, sources, p));
      assert ts == [ts[0]] + ts[1..];
    }
  }

  /** Every scan of the run has exclusive conditions. */
  predicate AlwaysExclusive(steps: seq<ChartStep>, scans: seq<ScanInput>) {
    forall k :: 0 <= k < |scans| ==> Exclusive(steps, Progress(scans[k].img, {}))
  }

  /** Every transfer of every scan goes to a state that has not fired in that scan. */
  predicate NeverReenters(steps: seq<ChartStep>, scans: seq<ScanInput>) {
    forall k :: 0 <= k < |scans| ==> NoReentry(steps, Progress(scans[k].img, {}))
  }

  /** Without an active state no step fires. */
  lemma {:induction false} NothingFires(steps: seq<ChartStep>, p: Progress)
    requires Sequential(steps) && ActiveS(p.img) == {}
    ensures Placed(steps, p) == 0 && Fired(steps, p) == 0
    decreases |steps|
  {
    hide StepEffect, Valid, ActiveS, Destinations;
    if steps != [] {
      StepStates(steps[0], p);
      assert Sequential(steps[1..]);
      NothingFires(steps[1..], StepEffect(steps[0], p));
    }
  }

  lemma LostStaysLost(code: Code, i: ScanInput, steps: seq<ChartStep>)
    requires Sequential(steps) && Loaded(code, steps) && ActiveS(i.img) == {}
    ensures ActiveS(AfterScan(code, i)) == {}
  {
    hide Loaded, AfterScan, ActiveS, Sequential, Placed, Fired;
    NothingFires(steps, Progress(i.img, {}));
    OneScan(code, steps, i);
  }

  /** Exactly when a sequential chart with exclusive conditions, cycles included, has one active state after a run of
      scans: when no scan of the run re-enters a state that fired in it. Otherwise it has none, and never gets one
      back. */
  lemma {:induction false} ExclusiveRun(code: Code, steps: seq<ChartStep>, scans: seq<ScanInput>)
    requires Sequential(steps) && Loaded(code, steps) && AlwaysExclusive(steps, scans)
    requires scans != [] && OneHot(scans[0].img) && Chained(code, scans)
    ensures OneHot(AfterScan(code, scans[|scans| - 1])) <==> NeverReenters(steps, scans)
    ensures !NeverReenters(steps, scans) ==> ActiveS(AfterScan(code, scans[|scans| - 1])) == {}
    decreases |scans|
  {
    hide Sequential, Loaded, AfterScan, NoReentry, Exclusive, ActiveS;
    var n := |scans| - 1;
    var front, i := scans[..n], scans[n];
    if n == 0 {
      ExclusiveScan(code, i, steps);
    } else {
      RunSplit(steps, scans);
      ExclusiveRun(code, steps, front);
      assert i.img.s == AfterScan(code, scans[n - 1]).s;
      SameActive(AfterScan(code, scans[n - 1]), i.img);
      if NeverReenters(steps, front) {
        ExclusiveScan(code, i, steps);
      } else {
        LostStaysLost(code, i, steps);
      }
    }
  }

  lemma RunSplit(steps: seq<ChartStep>, scans: seq<ScanInput>)
    requires scans != []
    ensures var n := |scans| - 1;
            && (NeverReenters(steps, scans) <==>
                NeverReenters(steps, scans[..n]) && NoReentry(steps, Progress(scans[n].img, {})))
            && (AlwaysExclusive(steps, scans) ==> AlwaysExclusive(steps, scans[..n]))
  {
    hide NoReentry, Exclusive;
    var front := scans[..|scans| - 1];
    assert forall k :: 0 <= k < |front| ==> front[k] == scans[k];
  }

  /** A forward chart with exclusive conditions keeps exactly one state active over every run of scans, whatever its
      inputs do and however many steps the token crosses in one scan. */
  lemma OneHotForever(code: Code, steps: seq<ChartStep>, scans: seq<ScanInput>)
    requires Sequential(steps) && Forward(steps) && Loaded(code, steps) && AlwaysExclusive(steps, scans)
    requires scans != [] && OneHot(scans[0].img) && Chained(code, scans)
    ensures OneHot(AfterScan(code, scans[|scans| - 1]))
  {
    hide Sequential, Forward, Loaded, AfterScan, NoReentry, Chained, AlwaysExclusive;
    ExclusiveRun(code, steps, scans);
    forall k | 0 <= k < |scans|
      ensures NoReentry(steps, Progress(scans[k].img, {}))
    {
      ForwardNeverReenters(steps, Progress(scans[k].img, {}), {});
    }
  }

  // -------------------------------------------------- charts that go wrong

  /** The failing family: two steps that hand the token to each other in one scan lose it. */
  lemma RoundTripLosesToken(code: Code, ticks: Ticks, img: Image, steps: seq<ChartStep>)
    requires Sequential(steps) && Loaded(code, steps) && |steps| == 2
    requires ActiveS(img) == {steps[0].sources[0] as nat}
    requires var p := Progress(img, {});
             && Destinations(steps[0], p) == {steps[1].sources[0] as nat}
             && Destinations(steps[1], StepEffect(steps[0], p)) == {steps[0].sources[0] as nat}
    ensures ActiveS(Scan(code, ticks, false, {}, 0, img).img) == {}
  {
    hide Scan, Loaded, StepEffect, Valid, ActiveS, Destinations;
    var p := Progress(img, {});
    var q := StepEffect(steps[0], p);
    var last := StepEffect(steps[1], q);
    StepStates(steps[0], p);
    StepStates(steps[1], q);
    assert steps[1..][0] == steps[1] && steps[1..][1..] == [];
    assert Placed(steps[1..], q) == 0 + Placed([], last) && Fired(steps[1..], q) == 1 + Fired([], last);
    TokensBalance(code, ticks, false, {}, 0, img, steps);
  }

  const ON_S0: Net := Leaf(false, Dev(0, 0))

  /** S0 -> S1 by SET and S1 -> S0 by OUT, both on contact S0. */
  const ROUND_TRIP: seq<ChartStep> := [
    ChartStep([0], [], [Transfer(ON_S0, Dev(0, 1), false)]), ChartStep([1], [], [Transfer(ON_S0, Dev(0, 0), true)])]

  /** S0 -> S1 and S0 -> S2, both on contact S0. */
  const SELECTION: seq<ChartStep> := [
    ChartStep([0], [], [Transfer(ON_S0, Dev(0, 1), false), Transfer(ON_S0, Dev(0, 2), false)])]

  lemma RoundTripIsChart()
    ensures Sequential(ROUND_TRIP) && |ChartCode(ROUND_TRIP)| == 6
    ensures Targets(ROUND_TRIP[0].transfers) == {1} && Targets(ROUND_TRIP[1].transfers) == {0}
  {
    assert ValidTransfer(ROUND_TRIP[0].transfers[0]) && ValidTransfer(ROUND_TRIP[1].transfers[0]);
    OneTransferCode(ROUND_TRIP[0]);
    OneTransferCode(ROUND_TRIP[1]);
    hide StepCode;
    assert ROUND_TRIP[1..] == [ROUND_TRIP[1]];
    assert ChartCode(ROUND_TRIP[1..]) == StepCode(ROUND_TRIP[1]) + ChartCode([]);
    assert ChartCode(ROUND_TRIP) == StepCode(ROUND_TRIP[0]) + ChartCode(ROUND_TRIP[1..]);
  }

  lemma SelectionIsChart()
    ensures Sequential(SELECTION) && |ChartCode(SELECTION)| == 5 && Targets(SELECTION[0].transfers) == {1, 2}
  {
    var ts := SELECTION[0].transfers;
    assert ValidTransfer(ts[0]) && ValidTransfer(ts[1]) && SELECTION[1..] == [];
    assert TransfersCode(ts[1..]) == Networks.Compile(ON_S0) + [SetOrOut(ts[1])] + TransfersCode(ts[1..][1..]);
    assert ChartCode(SELECTION) == StepCode(SELECTION[0]) + ChartCode([]);
  }

  lemma OneTransferCode(step: ChartStep)
    requires |step.sources| == 1 && step.outputs == [] && |step.transfers| == 1
    requires step.transfers[0].condition == ON_S0
    ensures |StepCode(step)| == 3
  {
    assert TransfersCode(step.transfers[1..]) == [];
  }

  /** A step without outputs whose transfers are on contact S0 sends its token to all their destinations. */
  lemma OnContact(step: ChartStep, p: Progress)
    requires |step.sources| == 1 && step.outputs == [] && Valid(step)
    requires forall t :: t in step.transfers ==> t.condition == ON_S0
    requires step.sources[0] as nat in ActiveS(p.img) && 0 in ActiveS(p.img)
    ensures Destinations(step, p) == Targets(step.transfers)
  {
    hide Target, ValidTransfer;
    OnContacts(step.transfers, SourceSet(step), p);
  }

  lemma {:induction false} OnContacts(ts: seq<Transfer>, sources: set<nat>, p: Progress)
    requires forall i :: 0 <= i < |ts| ==> ValidTransfer(ts[i]) && ts[i].condition == ON_S0
    requires 0 in ActiveS(p.img)
    ensures Reached(ts, true, sources, p) == Targets(ts)
    decreases |ts|
  {
    hide Target, ValidTransfer, TransferEffect;
    if ts != [] {
      assert ValidTransfer(ts[0]) && Value(ts[0].condition, p.img);
      TransferStates(ts[0], true, sources, p);
      OnContacts(ts[1..], sources, TransferEffect(ts[0], true, sources, p));
      assert ts == [ts[0]] + ts[1..];
    }
  }

  lemma OnlyS0() returns (img: Image)
    ensures ActiveS(img) == {0}
  {
    img := SetS(BLANK, 0, true);
  }

  /** A concrete program and device image in which the only active state disappears. */
  lemma TokenLost(ticks: Ticks) returns (code: Code, img: Image)
    ensures Loaded(code, ROUND_TRIP) && ActiveS(img) == {0}
    ensures ActiveS(Scan(code, ticks, false, {}, 0, img).img) == {}
  {
    hide Scan, Loaded, ChartCode, Destinations, StepEffect, ActiveS;
    img := OnlyS0();
    RoundTripIsChart();
    var one, two := ROUND_TRIP[0], ROUND_TRIP[1];
    OnContact(one, Progress(img, {}));
    StepStates(one, Progress(img, {}));
    var q := StepEffect(one, Progress(img, {}));
    assert 0 in ActiveS(q.img) && 1 in ActiveS(q.img);
    OnContact(two, q);
    code := Programs.Load(ChartCode(ROUND_TRIP) + [Ret]);
    LoadedIs(code, ROUND_TRIP);
    RoundTripLosesToken(code, ticks, img, ROUND_TRIP);
  }

  /** A concrete selection whose conditions do not exclude each other: one active state becomes two. */
  lemma TokenDoubled(ticks: Ticks) returns (code: Code, img: Image)
    ensures Loaded(code, SELECTION) && ActiveS(img) == {0}
    ensures ActiveS(Scan(code, ticks, false, {}, 0, img).img) == {1, 2}
  {
    hide Scan, Loaded, ChartCode, Destinations, StepEffect, ClearQueued, ActiveS;
    img := OnlyS0();
    SelectionIsChart();
    var step, p := SELECTION[0], Progress(img, {});
    OnContact(step, p);
    StepStates(step, p);
    code := Programs.Load(ChartCode(SELECTION) + [Ret]);
    LoadedIs(code, SELECTION);
    ChartScan(code, ticks, false, {}, 0, img, SELECTION);
    assert ChartEffect(SELECTION, p) == ChartEffect([], StepEffect(step, p));
    var end := StepEffect(step, p);
    ClearQueuedActive(end.img, end.queued);
  }

  lemma LoadedIs(code: Code, steps: seq<ChartStep>)
    ensures Loaded(code, steps) == Programs.Loaded(code, ChartCode(steps) + [Ret])
  {
  }
}
