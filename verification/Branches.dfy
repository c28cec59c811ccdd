/** Rungs that branch to several coils, compiled with MPS, MRD and MPP. */
module Branches {
  import opened Devices
  import opened Timers
  import opened Instructions
  import opened Ladder
  import opened Listing
  import opened Relays

  /** What follows the first network of a rung: contacts in series, a coil, or a fork into arms. */
  datatype Tree =
    | Coil(dev: Operand)
    | Through(lit: Lit, next: Tree)
    | Fork(first: Tree, rest: Arms)

  datatype Arms = Last(arm: Tree) | Middle(arm: Tree, more: Arms)

  datatype Lit = Lit(negated: bool, dev: Operand)

  predicate Closed(lit: Lit, img: Image) { ReadBit(img, lit.dev.kind, lit.dev.num) != lit.negated }

  function Compile(tree: Tree): seq<SimpleInstr> {
    match tree
    case Coil(dev) => [Out(dev)]
    case Through(lit, next) => [Contact(And, lit.negated, lit.dev)] + Compile(next)
    case Fork(first, rest) => [Mps] + Compile(first) + CompileArms(rest)
  }

  function CompileArms(arms: Arms): seq<SimpleInstr> {
    match arms
    case Last(arm) => [Mpp] + Compile(arm)
    case Middle(arm, more) => [Mrd] + Compile(arm) + CompileArms(more)
  }

  /** Branch-stack entries a tree needs: the entry of a fork is free again while its last arm runs. */
  function Nest(tree: Tree): nat {
    match tree
    case Coil(_) => 0
    case Through(_, next) => Nest(next)
    case Fork(first, rest) => Max(1 + Nest(first), NestArms(rest))
  }

  function NestArms(arms: Arms): nat {
    match arms
    case Last(arm) => Nest(arm)
    case Middle(arm, more) => Max(1 + Nest(arm), NestArms(more))
  }

  function Max(a: nat, b: nat): nat { if a > b then a else b }

  // ------------------------------------------------------------- meaning

  /** What coils change: devices, and transfers queued by S coils inside STL. */
  datatype Effect = Effect(img: Image, stl: Stl)

  /** A coil receives power; an S coil inside STL is a transfer. */
  function Drive(e: Effect, dev: Operand, power: bool): Effect {
    if e.stl.active && IsS(dev.kind) then
      if power then Effect(WriteBit(e.img, dev.kind, dev.num, true), QueueTransfer(e.stl)) else e
    else Effect(WriteBit(e.img, dev.kind, dev.num, power), e.stl)
  }

  /** The effect of a tree, and the power that reached its last coil. */
  datatype Flow = Flow(effect: Effect, power: bool)

  /** Power flows from the root to every coil, top to bottom; each contact reads the devices as they are then. */
  function Energize(tree: Tree, power: bool, e: Effect): Flow {
    match tree
    case Coil(dev) => Flow(Drive(e, dev, power), power)
    case Through(lit, next) => Energize(next, power && Closed(lit, e.img), e)
    case Fork(first, rest) => EnergizeArms(rest, power, Energize(first, power, e).effect)
  }

  function EnergizeArms(arms: Arms, power: bool, e: Effect): Flow {
    match arms
    case Last(arm) => Energize(arm, power, e)
    case Middle(arm, more) => EnergizeArms(more, power, Energize(arm, power, e).effect)
  }

  // ------------------------------------------------- the compiled code

  /** The machine after a tree (or arms) of n instructions: the branch stack is as it was left. */
  function After(st: State, n: nat, flow: Flow, branch: seq<bool>): State {
    st.(off := st.off + 2 * n, result := flow.power, block := [], branch := branch, outputJust := true,
        img := flow.effect.img, stl := flow.effect.stl)
  }

  function Start(st: State): Effect { Effect(st.img, st.stl.(accepting := false)) }

  lemma DoOut(st: State, dev: Operand)
    ensures Do(st, Out(dev)) == After(st, 1, Flow(Drive(Start(st), dev, st.result), st.result), st.branch)
  {
    hide WriteBit, Encode;
  }

  lemma DoMps(st: State)
    ensures Do(st, Mps) == Moved(st, st.result, Push(st.branch, st.result))
  {
    hide Encode, Push;
  }

  lemma DoRead(st: State, below: seq<bool>, kept: bool)
    requires st.branch == below + [kept]
    ensures Do(st, Mrd) == Moved(st, kept, st.branch)
    ensures Do(st, Mpp) == Moved(st, kept, below)
  {
    hide Do;
    DoStack(st, Mrd);
    DoStack(st, Mpp);
    assert st.branch[..|st.branch| - 1] == below;
  }

  /** Effects of consecutive pieces of code compose. */
  lemma AfterAfter(st: State, m: nat, one: Flow, b: seq<bool>, n: nat, two: Flow, b': seq<bool>)
    ensures After(After(st, m, one, b), n, two, b') == After(st, m + n, two, b')
    ensures After(st, m, one, b).result == one.power && After(st, m, one, b).branch == b
    ensures !one.effect.stl.accepting ==> Start(After(st, m, one, b)) == one.effect
  {
  }

  function Moved(st: State, result: bool, branch: seq<bool>): State {
    MovedOn(st).(result := result, branch := branch)
  }

  lemma AfterMoved(st: State, result: bool, branch: seq<bool>, n: nat, flow: Flow, b: seq<bool>)
    ensures After(Moved(st, result, branch), n, flow, b) == After(st, 1 + n, flow, b)
    ensures Moved(st, result, branch).result == result && Moved(st, result, branch).branch == branch
    ensures Start(Moved(st, result, branch)) == Start(st)
  {
  }

  /** The machine after a contact in series. */
  function Passed(st: State, lit: Lit): State { MovedOn(st).(result := st.result && Closed(lit, st.img)) }

  // The pieces of compiled code, run one after the other.

  lemma RunCoil(st: State, dev: Operand)
    ensures DoAll(st, Compile(Coil(dev))) ==
            After(st, 1, Flow(Drive(Start(st), dev, st.result), st.result), st.branch)
  {
    hide Do, Drive, After;
    DoOne(st, Out(dev));
    DoOut(st, dev);
  }

  lemma RunThrough(st: State, lit: Lit, next: Tree)
    ensures DoAll(st, Compile(Through(lit, next))) == DoAll(Passed(st, lit), Compile(next))
  {
    hide Do, DoAll, Closed;
    DoCons(st, Contact(And, lit.negated, lit.dev), Compile(next));
    DoSeries(st, lit);
  }

  lemma RunFork(st: State, first: Tree, rest: Arms)
    ensures DoAll(st, Compile(Fork(first, rest))) ==
            DoAll(DoAll(Do(st, Mps), Compile(first)), CompileArms(rest))
  {
    hide Do, DoAll;
    assert Compile(Fork(first, rest)) == [Mps] + (Compile(first) + CompileArms(rest));
    DoCons(st, Mps, Compile(first) + CompileArms(rest));
    DoAllAppend(Do(st, Mps), Compile(first), CompileArms(rest));
  }

  lemma RunLast(st: State, arm: Tree)
    ensures DoAll(st, CompileArms(Last(arm))) == DoAll(Do(st, Mpp), Compile(arm))
  {
    hide Do, DoAll;
    DoCons(st, Mpp, Compile(arm));
  }

  lemma RunMiddle(st: State, arm: Tree, more: Arms)
    ensures DoAll(st, CompileArms(Middle(arm, more))) ==
            DoAll(DoAll(Do(st, Mrd), Compile(arm)), CompileArms(more))
  {
    hide Do, DoAll;
    assert CompileArms(Middle(arm, more)) == [Mrd] + (Compile(arm) + CompileArms(more));
    DoCons(st, Mrd, Compile(arm) + CompileArms(more));
    DoAllAppend(Do(st, Mrd), Compile(arm), CompileArms(more));
  }

  /** Compiled branching delivers to each coil what Energize says, and restores the branch stack. */
  lemma {:induction false} TreeRuns(st: State, tree: Tree)
    requires |st.branch| + Nest(tree) <= STACK_DEPTH
    ensures DoAll(st, Compile(tree)) == After(st, |Compile(tree)|, Energize(tree, st.result, Start(st)), st.branch)
    decreases tree
  {
    hide Do, Drive, Closed;
    match tree
    case Coil(dev) =>
      RunCoil(st, dev);
    case Through(lit, next) =>
      RunThrough(st, lit, next);
      TreeRuns(Passed(st, lit), next);
    case Fork(first, rest) =>
      ForkRuns(st, tree);
  }

  lemma DoSeries(st: State, lit: Lit)
    ensures Do(st, Contact(And, lit.negated, lit.dev)) == MovedOn(st).(result := st.result && Closed(lit, st.img))
  {
    hide Do, ReadBit;
    DoContact(st, And, lit.negated, lit.dev);
  }

  lemma {:induction false} ForkRuns(st: State, tree: Tree)
    requires tree.Fork? && |st.branch| + Nest(tree) <= STACK_DEPTH
    ensures DoAll(st, Compile(tree)) == After(st, |Compile(tree)|, Energize(tree, st.result, Start(st)), st.branch)
    decreases tree, 0
  {
    var Fork(first, rest) := tree;
    var tail := Compile(first) + CompileArms(rest);
    var flow1 := Energize(first, st.result, Start(st));
    var flow2 := Energize(tree, st.result, Start(st));
    assert Compile(tree) == [Mps] + tail;
    assert Nest(tree) == Max(1 + Nest(first), NestArms(rest));
    assert flow2 == EnergizeArms(rest, st.result, flow1.effect);
    var entry := st.branch + [st.result];
    assert Push(st.branch, st.result) == entry;
    hide Do, Compile, CompileArms, Energize, EnergizeArms, Nest, NestArms, DoAll, After, Start, Moved;
    var pushed := Moved(st, st.result, entry);
    DoMps(st);
    AfterMoved(st, st.result, entry, |Compile(first)|, flow1, entry);
    TreeRuns(pushed, first);
    EnergizeKeepsClosed(first, st.result, Start(st));
    assert !Start(st).stl.accepting by { StartCloses(st); }
    var split := After(pushed, |Compile(first)|, flow1, entry);
    ArmsRun(split, rest, st.branch, st.result, flow1.effect);
    AfterAfter(pushed, |Compile(first)|, flow1, entry, |CompileArms(rest)|, flow2, st.branch);
    AfterMoved(st, st.result, entry, |tail|, flow2, st.branch);
    RunFork(st, first, rest);
  }

  lemma StartCloses(st: State)
    ensures !Start(st).stl.accepting
  {
  }

  /** The arms of a fork all start from the power kept on top of the branch stack; the last one removes it. */
  lemma {:induction false} ArmsRun(st: State, arms: Arms, below: seq<bool>, kept: bool, e: Effect)
    requires st.branch == below + [kept] && e == Start(st)
    requires |below| + NestArms(arms) <= STACK_DEPTH
    ensures DoAll(st, CompileArms(arms)) == After(st, |CompileArms(arms)|, EnergizeArms(arms, kept, e), below)
    decreases arms
  {
    if arms.Last? {
      LastRuns(st, arms, below, kept, e);
    } else {
      MiddleRuns(st, arms, below, kept, e);
    }
  }

  lemma {:induction false} LastRuns(st: State, arms: Arms, below: seq<bool>, kept: bool, e: Effect)
    requires arms.Last? && st.branch == below + [kept] && e == Start(st)
    requires |below| + NestArms(arms) <= STACK_DEPTH
    ensures DoAll(st, CompileArms(arms)) == After(st, |CompileArms(arms)|, EnergizeArms(arms, kept, e), below)
    decreases arms, 0
  {
    var arm := arms.arm;
    assert CompileArms(arms) == [Mpp] + Compile(arm);
    assert NestArms(arms) == Nest(arm) && EnergizeArms(arms, kept, e) == Energize(arm, kept, e);
    hide Do, Compile, CompileArms, Energize, EnergizeArms, Nest, NestArms, DoAll, After, Start, Moved;
    DoRead(st, below, kept);
    RunLast(st, arm);
    AfterMoved(st, kept, below, |Compile(arm)|, Energize(arm, kept, e), below);
    TreeRuns(Moved(st, kept, below), arm);
  }

  lemma {:induction false} MiddleRuns(st: State, arms: Arms, below: seq<bool>, kept: bool, e: Effect)
    requires arms.Middle? && st.branch == below + [kept] && e == Start(st)
    requires |below| + NestArms(arms) <= STACK_DEPTH
    ensures DoAll(st, CompileArms(arms)) == After(st, |CompileArms(arms)|, EnergizeArms(arms, kept, e), below)
    decreases arms, 0
  {
    var Middle(arm, more) := arms;
    var flow := EnergizeArms(arms, kept, e);
    var flow1 := Energize(arm, kept, e);
    var m, n := 1 + |Compile(arm)|, |CompileArms(more)|;
    hide Do, Compile, CompileArms, Energize, EnergizeArms, Nest, NestArms, DoAll, After, Start, Moved;
    MiddleParts(arm, more, kept, e);
    DoRead(st, below, kept);
    AfterMoved(st, kept, st.branch, |Compile(arm)|, flow1, st.branch);
    TreeRuns(Moved(st, kept, st.branch), arm);
    EnergizeKeepsClosed(arm, kept, e);
    StartCloses(st);
    AfterAfter(st, m, flow1, st.branch, n, flow, below);
    ArmsRun(After(st, m, flow1, st.branch), more, below, kept, flow1.effect);
    RunMiddle(st, arm, more);
  }

  lemma MiddleParts(arm: Tree, more: Arms, kept: bool, e: Effect)
    ensures var arms := Middle(arm, more);
            && |CompileArms(arms)| == 1 + |Compile(arm)| + |CompileArms(more)|
            && 1 + Nest(arm) <= NestArms(arms) && NestArms(more) <= NestArms(arms)
            && EnergizeArms(arms, kept, e) == EnergizeArms(more, kept, Energize(arm, kept, e).effect)
  {
  }

  lemma {:induction false} EnergizeKeepsClosed(tree: Tree, power: bool, e: Effect)
    ensures Energize(tree, power, e).effect.stl.accepting == e.stl.accepting
    decreases tree
  {
    hide Closed, WriteBit;
    match tree
    case Coil(_) =>
    case Through(lit, next) => EnergizeKeepsClosed(next, power && Closed(lit, e.img), e);
    case Fork(first, rest) =>
      EnergizeKeepsClosed(first, power, e);
      ArmsKeepClosed(rest, power, Energize(first, power, e).effect);
  }

  lemma {:induction false} ArmsKeepClosed(arms: Arms, power: bool, e: Effect)
    ensures EnergizeArms(arms, power, e).effect.stl.accepting == e.stl.accepting
    decreases arms
  {
    hide Closed, WriteBit;
    EnergizeKeepsClosed(arms.arm, power, e);
    if arms.Middle? {
      ArmsKeepClosed(arms.more, power, Energize(arms.arm, power, e).effect);
    }
  }

  /** In program memory. */
  lemma TreeMeaning(code: Code, ticks: Ticks, st: State, tree: Tree)
    requires !st.halted && At(code, st.off, Compile(tree))
    requires |st.branch| + Nest(tree) <= STACK_DEPTH
    ensures Steps(code, ticks, st, |Compile(tree)|) ==
            After(st, |Compile(tree)|, Energize(tree, st.result, Start(st)), st.branch)
  {
    hide Compile, After, Steps, DoAll, At, Energize;
    ListingRuns(code, ticks, st, Compile(tree));
    TreeRuns(st, tree);
  }

  // --------------------------------------------- the flat reading of a tree

  /** A coil and the contacts on the way from the root to it. */
  datatype Assignment = Assign(coil: Operand, path: seq<Lit>)

  function Paths(tree: Tree, prefix: seq<Lit>): seq<Assignment> {
    match tree
    case Coil(dev) => [Assign(dev, prefix)]
    case Through(lit, next) => Paths(next, prefix + [lit])
    case Fork(first, rest) => Paths(first, prefix) + ArmPaths(rest, prefix)
  }

  function ArmPaths(arms: Arms, prefix: seq<Lit>): seq<Assignment> {
    match arms
    case Last(arm) => Paths(arm, prefix)
    case Middle(arm, more) => Paths(arm, prefix) + ArmPaths(more, prefix)
  }

  predicate AllClosed(path: seq<Lit>, img: Image) {
    forall i :: 0 <= i < |path| ==> Closed(path[i], img)
  }

  /** Each coil in turn receives the conjunction of its path, all contacts read from one image. */
  function Assigned(e: Effect, todo: seq<Assignment>, power: bool, read: Image): Effect
    decreases |todo|
  {
    if todo == [] then e
    else Assigned(Drive(e, todo[0].coil, power && AllClosed(todo[0].path, read)), todo[1..], power, read)
  }

  function Coils(tree: Tree): set<Device> {
    match tree
    case Coil(dev) => {dev}
    case Through(_, next) => Coils(next)
    case Fork(first, rest) => Coils(first) + ArmCoils(rest)
  }

  function ArmCoils(arms: Arms): set<Device> {
    match arms
    case Last(arm) => Coils(arm)
    case Middle(arm, more) => Coils(arm) + ArmCoils(more)
  }

  function Tested(tree: Tree): set<Device> {
    match tree
    case Coil(_) => {}
    case Through(lit, next) => {lit.dev} + Tested(next)
    case Fork(first, rest) => Tested(first) + ArmTested(rest)
  }

  function ArmTested(arms: Arms): set<Device> {
    match arms
    case Last(arm) => Tested(arm)
    case Middle(arm, more) => Tested(arm) + ArmTested(more)
  }

  lemma DriveAgrees(e: Effect, dev: Operand, power: bool, read: Image, devices: set<Device>)
    requires Agree(e.img, read, devices) && dev !in devices
    ensures Agree(Drive(e, dev, power).img, read, devices)
  {
    hide ReadBit, WriteBit, Writable, QueueTransfer;
    forall d | d in devices
      ensures ReadBit(Drive(e, dev, power).img, d.kind, d.num) == ReadBit(read, d.kind, d.num)
    {
      ReadOverWriteBit(e.img, dev.kind, dev.num, power, d.kind, d.num);
      ReadOverWriteBit(e.img, dev.kind, dev.num, true, d.kind, d.num);
      assert d.kind == dev.kind && d.num == dev.num ==> d == dev;
    }
  }

  lemma {:induction false} AssignedAppend(e: Effect, a: seq<Assignment>, b: seq<Assignment>, power: bool, read: Image)
    ensures Assigned(e, a + b, power, read) == Assigned(Assigned(e, a, power, read), b, power, read)
    decreases |a|
  {
    hide Drive;
    if a == [] {
      assert a + b == b;
    } else {
      assert (a + b)[1..] == a[1..] + b;
      AssignedAppend(Drive(e, a[0].coil, power && AllClosed(a[0].path, read)), a[1..], b, power, read);
    }
  }

  /** When no coil of the tree is tested by one of its contacts, every coil receives the conjunction of the
      contacts on its root path, read from the devices as they were before the rung. */
  lemma {:induction false} PathMeaning(tree: Tree, prefix: seq<Lit>, power: bool, e: Effect, read: Image,
        tested: set<Device>)
    requires Tested(tree) <= tested && Coils(tree) !! tested && Agree(e.img, read, tested)
    ensures var flow := Energize(tree, power && AllClosed(prefix, read), e);
            flow.effect == Assigned(e, Paths(tree, prefix), power, read) && Agree(flow.effect.img, read, tested)
    decreases tree
  {
    hide Drive, Closed, Agree;
    match tree
    case Coil(dev) =>
      DriveAgrees(e, dev, power && AllClosed(prefix, read), read, tested);
      assert Paths(tree, prefix)[1..] == [];
    case Through(lit, next) =>
      AgreeOnLit(e.img, read, tested, lit);
      assert AllClosed(prefix + [lit], read) == (AllClosed(prefix, read) && Closed(lit, read)) by {
        AllClosedAppend(prefix, lit, read);
      }
      PathMeaning(next, prefix + [lit], power, e, read, tested);
    case Fork(first, rest) =>
      PathMeaning(first, prefix, power, e, read, tested);
      var mid := Assigned(e, Paths(first, prefix), power, read);
      ArmsMeaning(rest, prefix, power, mid, read, tested);
      AssignedAppend(e, Paths(first, prefix), ArmPaths(rest, prefix), power, read);
  }

  lemma AgreeOnLit(a: Image, b: Image, tested: set<Device>, lit: Lit)
    requires Agree(a, b, tested) && lit.dev in tested
    ensures Closed(lit, a) == Closed(lit, b)
  {
    hide ReadBit;
  }

  lemma AllClosedAppend(prefix: seq<Lit>, lit: Lit, img: Image)
    ensures AllClosed(prefix + [lit], img) == (AllClosed(prefix, img) && Closed(lit, img))
  {
    hide Closed;
    var path := prefix + [lit];
    assert path[|prefix|] == lit;
    assert forall i :: 0 <= i < |prefix| ==> path[i] == prefix[i];
  }

  lemma {:induction false} ArmsMeaning(arms: Arms, prefix: seq<Lit>, power: bool, e: Effect, read: Image,
        tested: set<Device>)
    requires ArmTested(arms) <= tested && ArmCoils(arms) !! tested && Agree(e.img, read, tested)
    ensures var flow := EnergizeArms(arms, power && AllClosed(prefix, read), e);
            flow.effect == Assigned(e, ArmPaths(arms, prefix), power, read) && Agree(flow.effect.img, read, tested)
    decreases arms
  {
    hide Drive, Closed, Agree;
    PathMeaning(arms.arm, prefix, power, e, read, tested);
    if arms.Middle? {
      var mid := Assigned(e, Paths(arms.arm, prefix), power, read);
      ArmsMeaning(arms.more, prefix, power, mid, read, tested);
      AssignedAppend(e, Paths(arms.arm, prefix), ArmPaths(arms.more, prefix), power, read);
    }
  }

  // ------------------------------------------------ exactly when it fits

  /** Branch-stack height after a tree started at height h: pushes beyond 16 are dropped. */
  function HeightAfter(h: nat, tree: Tree): (after: nat)
    ensures after <= h
    decreases tree
  {
    match tree
    case Coil(_) => h
    case Through(_, next) => HeightAfter(h, next)
    case Fork(first, rest) => HeightAfterArms(HeightAfter(if h < STACK_DEPTH then h + 1 else h, first), rest)
  }

  function HeightAfterArms(h: nat, arms: Arms): (after: nat)
    ensures after <= h && (h > 0 ==> after < h)
    decreases arms
  {
    match arms
    case Last(arm) => HeightAfter(if h > 0 then h - 1 else 0, arm)
    case Middle(arm, more) => HeightAfterArms(HeightAfter(h, arm), more)
  }

  lemma {:induction false} HeightExact(h: nat, tree: Tree)
    requires 0 < h <= STACK_DEPTH
    ensures HeightAfter(h, tree) == h <==> h + Nest(tree) <= STACK_DEPTH
    decreases tree
  {
    match tree
    case Coil(_) =>
    case Through(_, next) => HeightExact(h, next);
    case Fork(first, rest) =>
      if h < STACK_DEPTH {
        HeightExact(h + 1, first);
        ArmsHeightExact(h + 1, rest);
      }
  }

  lemma {:induction false} ArmsHeightExact(h: nat, arms: Arms)
    requires 1 < h <= STACK_DEPTH
    ensures HeightAfterArms(h, arms) == h - 1 <==> h - 1 + NestArms(arms) <= STACK_DEPTH
    decreases arms
  {
    match arms
    case Last(arm) => HeightExact(h - 1, arm);
    case Middle(arm, more) =>
      HeightExact(h, arm);
      ArmsHeightExact(h, more);
  }

  lemma DoHeight(st: State, instr: SimpleInstr)
    ensures instr.Mps? ==>
              |Do(st, instr).branch| == (if |st.branch| < STACK_DEPTH then |st.branch| + 1 else |st.branch|)
    ensures instr.Mpp? ==> |Do(st, instr).branch| == (if |st.branch| > 0 then |st.branch| - 1 else 0)
    ensures instr.Mrd? || instr.Contact? || instr.Out? ==> |Do(st, instr).branch| == |st.branch|
  {
    hide ReadBit, WriteBit, Encode;
  }

  lemma {:induction false} RunHeight(st: State, tree: Tree)
    ensures |DoAll(st, Compile(tree)).branch| == HeightAfter(|st.branch|, tree)
    decreases tree
  {
    hide Do, DoAll, Compile, CompileArms;
    match tree
    case Coil(dev) =>
      RunCoil(st, dev);
    case Through(lit, next) =>
      RunThrough(st, lit, next);
      RunHeight(Passed(st, lit), next);
    case Fork(first, rest) =>
      RunFork(st, first, rest);
      DoHeight(st, Mps);
      RunHeight(Do(st, Mps), first);
      RunArmsHeight(DoAll(Do(st, Mps), Compile(first)), rest);
  }

  lemma {:induction false} RunArmsHeight(st: State, arms: Arms)
    ensures |DoAll(st, CompileArms(arms)).branch| == HeightAfterArms(|st.branch|, arms)
    decreases arms
  {
    hide Do, DoAll, Compile, CompileArms;
    match arms
    case Last(arm) =>
      RunLast(st, arm);
      DoHeight(st, Mpp);
      RunHeight(Do(st, Mpp), arm);
    case Middle(arm, more) =>
      RunMiddle(st, arm, more);
      DoHeight(st, Mrd);
      RunHeight(Do(st, Mrd), arm);
      RunArmsHeight(DoAll(Do(st, Mrd), Compile(arm)), more);
  }

  /** Inside another fork the meaning above holds exactly when the nesting fits: otherwise the branch stack
      comes back too short for the enclosing fork. */
  lemma TreeFitsExactly(st: State, tree: Tree)
    requires 0 < |st.branch| <= 16
    ensures DoAll(st, Compile(tree)) == After(st, |Compile(tree)|, Energize(tree, st.result, Start(st)), st.branch)
            <==> |st.branch| + Nest(tree) <= 16
  {
    hide Compile, DoAll, HeightAfter, Energize, Nest;
    RunHeight(st, tree);
    HeightExact(|st.branch|, tree);
    if |st.branch| + Nest(tree) <= STACK_DEPTH {
      TreeRuns(st, tree);
    }
  }

  /** The failing family: a fork entered with the branch stack full is not saved, so its later arms
      receive the power an enclosing fork kept, and that fork's entry is gone. */
  lemma FullStackFork(st: State, first: Tree, rest: Arms, below: seq<bool>, kept: bool)
    requires st.branch == below + [kept] && |st.branch| == STACK_DEPTH
    requires Nest(first) == 0 && NestArms(rest) <= 1
    ensures var code := Compile(Fork(first, rest));
            DoAll(st, code) ==
            After(st, |code|, EnergizeArms(rest, kept, Energize(first, st.result, Start(st)).effect), below)
  {
    var tail := Compile(first) + CompileArms(rest);
    var flow1 := Energize(first, st.result, Start(st));
    var flow2 := EnergizeArms(rest, kept, flow1.effect);
    assert Compile(Fork(first, rest)) == [Mps] + tail;
    hide Do, Compile, CompileArms, Energize, EnergizeArms, Nest, NestArms, DoAll, After, Start, Moved;
    var same := Moved(st, st.result, st.branch);
    DoMps(st);
    AfterMoved(st, st.result, st.branch, |Compile(first)|, flow1, st.branch);
    TreeRuns(same, first);
    EnergizeKeepsClosed(first, st.result, Start(st));
    StartCloses(st);
    AfterAfter(same, |Compile(first)|, flow1, st.branch, |CompileArms(rest)|, flow2, below);
    ArmsRun(After(same, |Compile(first)|, flow1, st.branch), rest, below, kept, flow1.effect);
    AfterMoved(st, st.result, st.branch, |tail|, flow2, below);
    RunFork(st, first, rest);
  }
}
