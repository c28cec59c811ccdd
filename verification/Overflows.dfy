/** Rungs that need a seventeenth entry of the block or the branch stack: for rungs that test each device once, every
    scan is right exactly when they do not; and programs whose scan is wrong. */
module Overflows {
  import opened Words
  import opened Devices
  import opened Timers
  import opened Instructions
  import opened Ladder
  import opened LadderScan
  import opened Listing
  import opened Networks
  import opened Branches
  import opened Programs
  import opened Rungs
  import opened Relays
  import opened LostContacts

  // ------------------------------------------------- the way to the last coil

  function LastPath(tree: Tree): seq<Lit> {
    match tree
    case Coil(_) => []
    case Through(lit, next) => [lit] + LastPath(next)
    case Fork(_, rest) => ArmsLastPath(rest)
  }

  function ArmsLastPath(arms: Arms): seq<Lit> {
    match arms
    case Last(arm) => LastPath(arm)
    case Middle(_, more) => ArmsLastPath(more)
  }

  function LastCoil(tree: Tree): Operand {
    match tree
    case Coil(dev) => dev
    case Through(_, next) => LastCoil(next)
    case Fork(_, rest) => ArmsLastCoil(rest)
  }

  function ArmsLastCoil(arms: Arms): Operand {
    match arms
    case Last(arm) => LastCoil(arm)
    case Middle(_, more) => ArmsLastCoil(more)
  }

  // -------------------------------------------- the contacts that lead arms

  /** The first contact of an arm, and those of all arms inside it. */
  function Leads(arm: Tree): set<Lit>
    decreases arm, 1
  {
    (if arm.Through? then {arm.lit} else {}) + Inner(arm)
  }

  /** The first contacts of all arms in a tree. */
  function Inner(tree: Tree): set<Lit>
    decreases tree, 0
  {
    match tree
    case Coil(_) => {}
    case Through(_, next) => Inner(next)
    case Fork(first, rest) => Leads(first) + ArmLeads(rest)
  }

  function ArmLeads(arms: Arms): set<Lit>
    decreases arms, 0
  {
    match arms
    case Last(arm) => Leads(arm)
    case Middle(arm, more) => Leads(arm) + ArmLeads(more)
  }

  /** Every arm in the tree begins with a contact. */
  predicate AllLed(tree: Tree) {
    match tree
    case Coil(_) => true
    case Through(_, next) => AllLed(next)
    case Fork(first, rest) => first.Through? && AllLed(first) && ArmsLed(rest)
  }

  predicate ArmsLed(arms: Arms) {
    arms.arm.Through? && AllLed(arms.arm) && (arms.Middle? ==> ArmsLed(arms.more))
  }

  /** The leading contacts of the arms beside the way to the last coil. */
  function Beside(tree: Tree): set<Lit> {
    match tree
    case Coil(_) => {}
    case Through(_, next) => Beside(next)
    case Fork(first, rest) => Leads(first) + ArmsBeside(rest)
  }

  function ArmsBeside(arms: Arms): set<Lit> {
    match arms
    case Last(arm) => Beside(arm)
    case Middle(arm, more) => Leads(arm) + ArmsBeside(more)
  }

  /** Every arm beside the way to the last coil begins with a contact, and so does every arm inside it. */
  predicate BesideLed(tree: Tree) {
    match tree
    case Coil(_) => true
    case Through(_, next) => BesideLed(next)
    case Fork(first, rest) => first.Through? && AllLed(first) && ArmsBesideLed(rest)
  }

  predicate ArmsBesideLed(arms: Arms) {
    match arms
    case Last(arm) => BesideLed(arm)
    case Middle(arm, more) => arm.Through? && AllLed(arm) && ArmsBesideLed(more)
  }

  predicate Open(lits: set<Lit>, img: Image) { forall l :: l in lits ==> !Closed(l, img) }

  predicate On(lits: set<Lit>, devices: set<Device>) { forall l :: l in lits ==> l.dev in devices }

  lemma OpenStays(lits: set<Lit>, before: Image, after: Image, tested: set<Device>)
    requires Open(lits, before) && On(lits, tested) && Agree(after, before, tested)
    ensures Open(lits, after)
  {
    hide ReadBit;
  }

  // --------------------------------------------- what the machine does

  /** MRD and MPP on any stack. */
  lemma DoTop(st: State)
    ensures var top := if st.branch == [] then st.result else st.branch[|st.branch| - 1];
            var below := if st.branch == [] then [] else st.branch[..|st.branch| - 1];
            Do(st, Mrd) == Moved(st, top, st.branch) && Do(st, Mpp) == Moved(st, top, below)
  {
    hide Do;
    DoStack(st, Mrd);
    DoStack(st, Mpp);
  }

  /** Whatever the stacks hold, only the coils change. */
  lemma {:induction false} RunAgrees(st: State, tree: Tree, tested: set<Device>)
    requires Coils(tree) !! tested
    ensures Agree(DoAll(st, Branches.Compile(tree)).img, st.img, tested)
    decreases tree
  {
    hide DoAll, Branches.Compile, CompileArms, Do, Agree, Drive;
    match tree
    case Coil(dev) =>
      RunCoil(st, dev);
      AgreeItself(st.img, tested);
      DriveAgrees(Branches.Start(st), dev, st.result, st.img, tested);
    case Through(lit, next) =>
      RunThrough(st, lit, next);
      RunAgrees(Passed(st, lit), next, tested);
    case Fork(first, rest) =>
      RunFork(st, first, rest);
      DoMps(st);
      RunAgrees(Do(st, Mps), first, tested);
      var mid := DoAll(Do(st, Mps), Branches.Compile(first));
      ArmsAgree(mid, rest, tested);
      AgreeTwice(DoAll(mid, CompileArms(rest)).img, mid.img, st.img, tested);
  }

  lemma {:induction false} ArmsAgree(st: State, arms: Arms, tested: set<Device>)
    requires ArmCoils(arms) !! tested
    ensures Agree(DoAll(st, CompileArms(arms)).img, st.img, tested)
    decreases arms
  {
    hide DoAll, Branches.Compile, CompileArms, Do, Agree;
    DoTop(st);
    match arms
    case Last(arm) =>
      RunLast(st, arm);
      RunAgrees(Do(st, Mpp), arm, tested);
    case Middle(arm, more) =>
      RunMiddle(st, arm, more);
      RunAgrees(Do(st, Mrd), arm, tested);
      var mid := DoAll(Do(st, Mrd), Branches.Compile(arm));
      ArmsAgree(mid, more, tested);
      AgreeTwice(DoAll(mid, CompileArms(more)).img, mid.img, st.img, tested);
  }

  /** With the leading contacts of all its arms open, a tree entered without power ends without power, whatever
      the branch stack hands to the arms. */
  lemma {:induction false} EndsDark(st: State, tree: Tree, tested: set<Device>)
    requires !st.result && AllLed(tree) && Open(Inner(tree), st.img) && On(Inner(tree), tested)
    requires Coils(tree) !! tested
    ensures !DoAll(st, Branches.Compile(tree)).result
    decreases tree, 0
  {
    hide DoAll, Branches.Compile, CompileArms, Do, Agree, Open, On;
    match tree
    case Coil(dev) =>
      RunCoil(st, dev);
    case Through(lit, next) =>
      RunThrough(st, lit, next);
      EndsDark(Passed(st, lit), next, tested);
    case Fork(first, rest) =>
      RunFork(st, first, rest);
      DoMps(st);
      OpenParts(Leads(first), ArmLeads(rest), st.img, tested);
      ArmEndsDark(Do(st, Mps), first, tested);
      var mid := DoAll(Do(st, Mps), Branches.Compile(first));
      RunAgrees(Do(st, Mps), first, tested);
      OpenStays(ArmLeads(rest), st.img, mid.img, tested);
      ArmsEndDark(mid, rest, tested);
  }

  lemma OpenParts(a: set<Lit>, b: set<Lit>, img: Image, tested: set<Device>)
    requires Open(a + b, img) && On(a + b, tested)
    ensures Open(a, img) && On(a, tested) && Open(b, img) && On(b, tested)
  {
    hide Closed;
  }

  /** ... and so does an arm entered with any power. */
  lemma {:induction false} ArmEndsDark(st: State, arm: Tree, tested: set<Device>)
    requires arm.Through? && AllLed(arm) && Open(Leads(arm), st.img) && On(Leads(arm), tested)
    requires Coils(arm) !! tested
    ensures !DoAll(st, Branches.Compile(arm)).result
    decreases arm, 1
  {
    hide DoAll, Branches.Compile, CompileArms, Do, Closed;
    RunThrough(st, arm.lit, arm.next);
    assert arm.lit in Leads(arm);
    EndsDark(Passed(st, arm.lit), arm.next, tested);
  }

  lemma {:induction false} ArmsEndDark(st: State, arms: Arms, tested: set<Device>)
    requires ArmsLed(arms) && Open(ArmLeads(arms), st.img) && On(ArmLeads(arms), tested)
    requires ArmCoils(arms) !! tested
    ensures !DoAll(st, CompileArms(arms)).result
    decreases arms, 0
  {
    hide DoAll, Branches.Compile, CompileArms, Do, Agree, Open, On;
    DoTop(st);
    match arms
    case Last(arm) =>
      RunLast(st, arm);
      ArmEndsDark(Do(st, Mpp), arm, tested);
    case Middle(arm, more) =>
      RunMiddle(st, arm, more);
      OpenParts(Leads(arm), ArmLeads(more), st.img, tested);
      RunAgrees(Do(st, Mrd), arm, tested);
      var mid := DoAll(Do(st, Mrd), Branches.Compile(arm));
      OpenStays(ArmLeads(more), st.img, mid.img, tested);
      ArmsEndDark(mid, more, tested);
  }

  predicate Unpowered(st: State) { !st.result && forall i :: 0 <= i < |st.branch| ==> !st.branch[i] }

  lemma UnpoweredStack(st: State)
    requires Unpowered(st)
    ensures Unpowered(Do(st, Mps)) && Unpowered(Do(st, Mrd)) && Unpowered(Do(st, Mpp))
  {
    hide Do;
    DoMps(st);
    DoTop(st);
  }

  /** Without power on the rung and the branch stack there is none afterwards. */
  lemma {:induction false} StaysUnpowered(st: State, tree: Tree)
    requires Unpowered(st)
    ensures Unpowered(DoAll(st, Branches.Compile(tree)))
    decreases tree
  {
    hide DoAll, Branches.Compile, CompileArms, Do, Drive, Closed;
    match tree
    case Coil(dev) =>
      RunCoil(st, dev);
    case Through(lit, next) =>
      RunThrough(st, lit, next);
      StaysUnpowered(Passed(st, lit), next);
    case Fork(first, rest) =>
      RunFork(st, first, rest);
      UnpoweredStack(st);
      hide Unpowered;
      StaysUnpowered(Do(st, Mps), first);
      ArmsStayUnpowered(DoAll(Do(st, Mps), Branches.Compile(first)), rest);
  }

  lemma {:induction false} ArmsStayUnpowered(st: State, arms: Arms)
    requires Unpowered(st)
    ensures Unpowered(DoAll(st, CompileArms(arms)))
    decreases arms
  {
    hide DoAll, Branches.Compile, CompileArms, Do;
    UnpoweredStack(st);
    hide Unpowered;
    match arms
    case Last(arm) =>
      RunLast(st, arm);
      StaysUnpowered(Do(st, Mpp), arm);
    case Middle(arm, more) =>
      RunMiddle(st, arm, more);
      StaysUnpowered(Do(st, Mrd), arm);
      ArmsStayUnpowered(DoAll(Do(st, Mrd), Branches.Compile(arm)), more);
  }

  /** After an arm of the outermost fork, without power: either its entry is still there, or the arm was nested too
      deep and took the entry with it. */
  lemma ArmLeaves(st: State, arm: Tree, kept: bool, tested: set<Device>)
    requires st.branch == [kept] && arm.Through? && AllLed(arm)
    requires Open(Leads(arm), st.img) && On(Leads(arm), tested) && Coils(arm) !! tested
    ensures var after := DoAll(st, Branches.Compile(arm));
            && !after.result && after.branch == (if 1 + Nest(arm) <= STACK_DEPTH then [kept] else [])
            && Agree(after.img, st.img, tested)
  {
    hide DoAll, Branches.Compile, Energize, Nest, Branches.HeightAfter, AllLed, Leads, Open, On, Agree;
    ArmEndsDark(st, arm, tested);
    RunAgrees(st, arm, tested);
    if 1 + Nest(arm) <= STACK_DEPTH {
      TreeRuns(st, arm);
    } else {
      Branches.RunHeight(st, arm);
      Branches.HeightExact(1, arm);
    }
  }

  /** A rung nested too deep ends without power when the arms beside the way to its last coil are open. */
  lemma {:induction false} LastCoilDark(st: State, tree: Tree, tested: set<Device>)
    requires st.branch == [] && Nest(tree) > STACK_DEPTH && BesideLed(tree)
    requires Open(Beside(tree), st.img) && On(Beside(tree), tested) && Coils(tree) !! tested
    ensures !DoAll(st, Branches.Compile(tree)).result
    decreases tree
  {
    hide DoAll, Branches.Compile, CompileArms, Do, Agree, Open, On, Closed;
    match tree
    case Coil(dev) =>
    case Through(lit, next) =>
      RunThrough(st, lit, next);
      LastCoilDark(Passed(st, lit), next, tested);
    case Fork(first, rest) =>
      RunFork(st, first, rest);
      DoMps(st);
      OpenParts(Leads(first), ArmsBeside(rest), st.img, tested);
      ArmLeaves(Do(st, Mps), first, st.result, tested);
      var mid := DoAll(Do(st, Mps), Branches.Compile(first));
      OpenStays(ArmsBeside(rest), st.img, mid.img, tested);
      LastArmDark(mid, rest, st.result, 1 + Nest(first) > STACK_DEPTH, tested);
  }

  /** The arms that follow; lost says that the entry of their fork is gone. */
  lemma {:induction false} LastArmDark(st: State, arms: Arms, kept: bool, lost: bool, tested: set<Device>)
    requires !st.result && st.branch == (if lost then [] else [kept]) && (lost || NestArms(arms) > STACK_DEPTH)
    requires ArmsBesideLed(arms) && Open(ArmsBeside(arms), st.img) && On(ArmsBeside(arms), tested)
    requires ArmCoils(arms) !! tested
    ensures !DoAll(st, CompileArms(arms)).result
    decreases arms
  {
    hide DoAll, Branches.Compile, CompileArms, Do, Agree, Open, On;
    if lost {
      ArmsStayUnpowered(st, arms);
    } else {
      DoTop(st);
      match arms
      case Last(arm) =>
        RunLast(st, arm);
        LastCoilDark(Do(st, Mpp), arm, tested);
      case Middle(arm, more) =>
        RunMiddle(st, arm, more);
        OpenParts(Leads(arm), ArmsBeside(more), st.img, tested);
        ArmLeaves(Do(st, Mrd), arm, kept, tested);
        var mid := DoAll(Do(st, Mrd), Branches.Compile(arm));
        OpenStays(ArmsBeside(more), st.img, mid.img, tested);
        LastArmDark(mid, more, kept, 1 + Nest(arm) > STACK_DEPTH, tested);
    }
  }

  // --------------------------------------------------- what the rung means

  /** With the way to it closed, the last coil means to receive the power of the rung. */
  lemma {:induction false} LastCoilMeans(tree: Tree, power: bool, e: Effect, read: Image, tested: set<Device>)
    requires Tested(tree) <= tested && Coils(tree) !! tested && Agree(e.img, read, tested)
    requires AllClosed(LastPath(tree), read)
    ensures Energize(tree, power, e).power == power
    decreases tree
  {
    hide Drive, Closed, Agree;
    match tree
    case Coil(_) =>
    case Through(lit, next) =>
      var path := LastPath(tree);
      AgreeOnLit(e.img, read, tested, lit);
      assert path[0] == lit && forall i :: 0 <= i < |path| - 1 ==> path[i + 1] == LastPath(next)[i];
      LastCoilMeans(next, power, e, read, tested);
    case Fork(first, rest) =>
      NoPrefix(first, power, e, read, tested);
      LastArmMeans(rest, power, Energize(first, power, e).effect, read, tested);
  }

  lemma NoPrefix(tree: Tree, power: bool, e: Effect, read: Image, tested: set<Device>)
    requires Tested(tree) <= tested && Coils(tree) !! tested && Agree(e.img, read, tested)
    ensures Agree(Energize(tree, power, e).effect.img, read, tested)
  {
    hide Agree, Energize;
    assert AllClosed([], read);
    PathMeaning(tree, [], power, e, read, tested);
  }

  lemma {:induction false} LastArmMeans(arms: Arms, power: bool, e: Effect, read: Image, tested: set<Device>)
    requires ArmTested(arms) <= tested && ArmCoils(arms) !! tested && Agree(e.img, read, tested)
    requires AllClosed(ArmsLastPath(arms), read)
    ensures EnergizeArms(arms, power, e).power == power
    decreases arms
  {
    hide Agree, AllClosed;
    match arms
    case Last(arm) => LastCoilMeans(arm, power, e, read, tested);
    case Middle(arm, more) =>
      NoPrefix(arm, power, e, read, tested);
      LastArmMeans(more, power, Energize(arm, power, e).effect, read, tested);
  }

  /** Outside STL the last coil shows the power that reached it. */
  lemma {:induction false} LastCoilShows(tree: Tree, power: bool, e: Effect)
    requires e.stl == OUTSIDE && Writable(LastCoil(tree).kind, LastCoil(tree).num)
    ensures var flow := Energize(tree, power, e);
            ReadBit(flow.effect.img, LastCoil(tree).kind, LastCoil(tree).num) == flow.power
    decreases tree
  {
    hide Closed, ReadBit, WriteBit, Writable;
    match tree
    case Coil(dev) => ReadOverWriteBit(e.img, dev.kind, dev.num, power, dev.kind, dev.num);
    case Through(lit, next) => LastCoilShows(next, power && Closed(lit, e.img), e);
    case Fork(first, rest) =>
      StaysOutside(first, power, e);
      LastArmShows(rest, power, Energize(first, power, e).effect);
  }

  lemma {:induction false} LastArmShows(arms: Arms, power: bool, e: Effect)
    requires e.stl == OUTSIDE && Writable(ArmsLastCoil(arms).kind, ArmsLastCoil(arms).num)
    ensures var flow := EnergizeArms(arms, power, e);
            ReadBit(flow.effect.img, ArmsLastCoil(arms).kind, ArmsLastCoil(arms).num) == flow.power
    decreases arms
  {
    hide Closed, ReadBit, WriteBit, Writable;
    match arms
    case Last(arm) => LastCoilShows(arm, power, e);
    case Middle(arm, more) =>
      StaysOutside(arm, power, e);
      LastArmShows(more, power, Energize(arm, power, e).effect);
  }

  // ------------------------------------------- what the machine's coil shows

  /** No instruction opens or closes a step. */
  predicate Steady(listing: seq<SimpleInstr>) {
    forall i :: 0 <= i < |listing| ==> !listing[i].StlStep? && !listing[i].Ret?
  }

  lemma {:induction false} CodeEnds(tree: Tree) returns (front: seq<SimpleInstr>)
    ensures Branches.Compile(tree) == front + [Out(LastCoil(tree))] && Steady(front)
    decreases tree
  {
    match tree
    case Coil(dev) => front := [];
    case Through(lit, next) =>
      front := CodeEnds(next);
      front := [Contact(And, lit.negated, lit.dev)] + front;
    case Fork(first, rest) =>
      var one := CodeEnds(first);
      var more := ArmsEnd(rest);
      front := Joined(Mps, one, LastCoil(first), more, ArmsLastCoil(rest));
  }

  /** One arm and the code of the arms after it. */
  lemma Joined(take: SimpleInstr, one: seq<SimpleInstr>, coil: Operand, more: seq<SimpleInstr>, last: Operand)
      returns (front: seq<SimpleInstr>)
    requires Steady(one) && Steady(more) && (take.Mps? || take.Mrd?)
    ensures Steady(front) && [take] + (one + [Out(coil)]) + (more + [Out(last)]) == front + [Out(last)]
  {
    front := [take] + one + [Out(coil)] + more;
  }

  lemma {:induction false} ArmsEnd(arms: Arms) returns (front: seq<SimpleInstr>)
    ensures CompileArms(arms) == front + [Out(ArmsLastCoil(arms))] && Steady(front)
    decreases arms
  {
    match arms
    case Last(arm) =>
      front := CodeEnds(arm);
      front := [Mpp] + front;
    case Middle(arm, more) =>
      var one := CodeEnds(arm);
      var rest := ArmsEnd(more);
      front := Joined(Mrd, one, LastCoil(arm), rest, ArmsLastCoil(more));
  }

  lemma StaysInactive(st: State, instr: SimpleInstr)
    requires !instr.StlStep? && !instr.Ret? && !st.stl.active
    ensures !Do(st, instr).stl.active && Do(st, instr).stl.queued == st.stl.queued
  {
    hide ReadBit, WriteBit, Encode, RstEffect;
  }

  lemma {:induction false} AllStayInactive(st: State, listing: seq<SimpleInstr>)
    requires Steady(listing) && !st.stl.active
    ensures !DoAll(st, listing).stl.active && DoAll(st, listing).stl.queued == st.stl.queued
    decreases |listing|
  {
    hide Do;
    if listing != [] {
      StaysInactive(st, listing[0]);
      AllStayInactive(Do(st, listing[0]), listing[1..]);
    }
  }

  lemma MachineShows(st: State, tree: Tree)
    requires !st.stl.active && Writable(LastCoil(tree).kind, LastCoil(tree).num)
    ensures var after := DoAll(st, Branches.Compile(tree));
            ReadBit(after.img, LastCoil(tree).kind, LastCoil(tree).num) == after.result
            && after.stl.queued == st.stl.queued
  {
    hide DoAll, Do, ReadBit, WriteBit, Writable, LastCoil;
    var dev := LastCoil(tree);
    var front := CodeEnds(tree);
    DoAllAppend(st, front, [Out(dev)]);
    AllStayInactive(st, front);
    var last := DoAll(st, front);
    DoOne(last, Out(dev));
    DoOut(last, dev);
    ReadOverWriteBit(last.img, dev.kind, dev.num, last.result, dev.kind, dev.num);
    StaysInactive(last, Out(dev));
  }

  // ------------------------------------------------------------ whole scans

  /** The rung has power, the way to its last coil is closed, and the arms beside it are open. */
  predicate Exposed(rung: Rung, img: Image) {
    && Value(rung.net, img) && AllClosed(LastPath(rung.tree), img) && Open(Beside(rung.tree), img)
  }

  /** The arms beside the way to the last coil begin with contacts, and what drives a coil is not tested. */
  predicate Plain(rung: Rung) {
    && BesideLed(rung.tree) && Coils(rung.tree) !! Tested(rung.tree)
    && Writable(LastCoil(rung.tree).kind, LastCoil(rung.tree).num)
  }

  lemma {:induction false} BesideTested(tree: Tree)
    ensures On(Beside(tree), Tested(tree)) && On(Inner(tree), Tested(tree))
    decreases tree
  {
    match tree
    case Coil(_) =>
    case Through(_, next) => BesideTested(next);
    case Fork(first, rest) =>
      BesideTested(first);
      ArmsBesideTested(rest);
  }

  lemma {:induction false} ArmsBesideTested(arms: Arms)
    ensures On(ArmsBeside(arms), ArmTested(arms)) && On(ArmLeads(arms), ArmTested(arms))
    decreases arms
  {
    BesideTested(arms.arm);
    if arms.Middle? {
      ArmsBesideTested(arms.more);
    }
  }

  /** The machine between the network and the tree of a single rung. */
  function AfterNetwork(first: bool, edges: set<nat>, lastBad: Word, img: Image, rung: Rung): State {
    DoAll(Begin(first, edges, lastBad, img), Networks.Compile(rung.net))
  }

  lemma RungScan(code: Code, ticks: Ticks, first: bool, edges: set<nat>, lastBad: Word, img: Image, rung: Rung)
    requires Loaded(code, RungCode(rung)) && Writable(LastCoil(rung.tree).kind, LastCoil(rung.tree).num)
    ensures var st := AfterNetwork(first, edges, lastBad, img, rung);
            && st.img == img && st.branch == [] && Branches.Start(st) == Effect(img, OUTSIDE)
            && ReadBit(Scan(code, ticks, first, edges, lastBad, img).img,
                       LastCoil(rung.tree).kind, LastCoil(rung.tree).num)
               == DoAll(st, Branches.Compile(rung.tree)).result
  {
    hide Loaded, Networks.Compile, Branches.Compile, Scan, ClearQueued, DoAll, Writable, ReadBit, LastCoil;
    var start := Begin(first, edges, lastBad, img);
    var st := AfterNetwork(first, edges, lastBad, img, rung);
    ListingScan(code, ticks, first, edges, lastBad, img, RungCode(rung));
    DoAllAppend(start, Networks.Compile(rung.net), Branches.Compile(rung.tree));
    NetKeeps(start, rung.net);
    MachineShows(st, rung.tree);
    NothingQueued(DoAll(st, Branches.Compile(rung.tree)).img);
  }

  /** With the way to it closed, the last coil means to show the value of the network. */
  lemma RungMeans(rung: Rung, img: Image)
    requires Plain(rung) && AllClosed(LastPath(rung.tree), img)
    ensures ReadBit(RungEffect(rung, img), LastCoil(rung.tree).kind, LastCoil(rung.tree).num) == Value(rung.net, img)
  {
    hide Value, ReadBit, Writable, Energize, AllClosed, BesideLed, Coils, Tested, LastCoil, Agree;
    var tested, power := Tested(rung.tree), Value(rung.net, img);
    AgreeItself(img, tested);
    LastCoilMeans(rung.tree, power, Effect(img, OUTSIDE), img, tested);
    LastCoilShows(rung.tree, power, Effect(img, OUTSIDE));
  }

  /** In an exposed image a scan of a rung whose forks nest too deep leaves its last coil off that should be on. */
  lemma Misdriven(code: Code, ticks: Ticks, first: bool, edges: set<nat>, lastBad: Word, img: Image, rung: Rung)
    requires Nest(rung.tree) > 16 && Loaded(code, RungCode(rung)) && Plain(rung) && Exposed(rung, img)
    ensures var last := LastCoil(rung.tree);
            && !ReadBit(Scan(code, ticks, first, edges, lastBad, img).img, last.kind, last.num)
            && ReadBit(RungEffect(rung, img), last.kind, last.num)
  {
    hide Loaded, Scan, DoAll, Nest, Value, ReadBit, Writable, RungEffect, AllClosed, Open, RungCode, BesideLed, Coils,
         Tested, LastCoil, Branches.Compile, On, Beside, AfterNetwork;
    BesideTested(rung.tree);
    RungScan(code, ticks, first, edges, lastBad, img, rung);
    LastCoilDark(AfterNetwork(first, edges, lastBad, img, rung), rung.tree, Tested(rung.tree));
    RungMeans(rung, img);
  }

  /** With the way to it closed, a last coil whose forks fit shows what the machine makes of the network. */
  lemma NetworkShows(code: Code, ticks: Ticks, first: bool, edges: set<nat>, lastBad: Word, img: Image, rung: Rung)
    requires Nest(rung.tree) <= STACK_DEPTH && Loaded(code, RungCode(rung)) && Plain(rung)
    requires AllClosed(LastPath(rung.tree), img)
    ensures ReadBit(Scan(code, ticks, first, edges, lastBad, img).img,
                    LastCoil(rung.tree).kind, LastCoil(rung.tree).num)
            == AfterNetwork(first, edges, lastBad, img, rung).result
  {
    hide Loaded, Scan, DoAll, Nest, ReadBit, Writable, Energize, AllClosed, RungCode, BesideLed, Coils, Tested,
         LastCoil, Branches.Compile, AfterNetwork, Agree;
    var st, tested := AfterNetwork(first, edges, lastBad, img, rung), Tested(rung.tree);
    RungScan(code, ticks, first, edges, lastBad, img, rung);
    TreeRuns(st, rung.tree);
    AgreeItself(img, tested);
    LastCoilMeans(rung.tree, st.result, Effect(img, OUTSIDE), img, tested);
  }

  // -------------------------------------------------- images made to measure

  /** The leading contacts beside the way to the last coil are on devices that can have any state, are not tested the
      other way round by another such contact, and not at all by the network or on the way to the last coil. */
  predicate Free(rung: Rung) {
    forall l :: l in Beside(rung.tree) ==>
      && Settable(l.dev) && Lit(!l.negated, l.dev) !in Beside(rung.tree) && l.dev !in NetTested(rung.net)
      && forall i :: 0 <= i < |LastPath(rung.tree)| ==> LastPath(rung.tree)[i].dev != l.dev
  }

  /** Any image that closes the way to the last coil can be changed to open the arms beside it. */
  lemma Expose(rung: Rung, read: Image) returns (img: Image)
    requires Free(rung) && Value(rung.net, read) && AllClosed(LastPath(rung.tree), read)
    ensures Exposed(rung, img)
  {
    var beside, path := Beside(rung.tree), LastPath(rung.tree);
    hide Value, ReadBit, Showing, Beside, LastPath, NetTested, Settable;
    var f := (d: Device) =>
      if d.kind < 16 && Lit(true, d) in beside then true
      else if d.kind < 16 && Lit(false, d) in beside then false
      else ReadBit(read, d.kind, d.num);
    img := Showing(read, f);
    forall d: Device
      ensures ReadBit(img, d.kind, d.num) == if Settable(d) then f(d) else ReadBit(read, d.kind, d.num)
    {
      ReadShowing(read, f, d);
    }
    forall l | l in beside
      ensures !Closed(l, img)
    {
      assert l == Lit(l.negated, l.dev);
    }
    forall d | d in NetTested(rung.net)
      ensures ReadBit(img, d.kind, d.num) == ReadBit(read, d.kind, d.num)
    {
      assert d.kind < 16 ==> Lit(true, d).dev == d && Lit(false, d).dev == d;
    }
    ValueAgrees(rung.net, img, read);
    forall i | 0 <= i < |path|
      ensures Closed(path[i], img)
    {
      var d := path[i].dev;
      assert Lit(true, d).dev == d && Lit(false, d).dev == d;
    }
  }

  /** Exactly when every scan of a rung is right whose network fits, for rungs whose arms are led by free contacts: when
      its forks nest at most sixteen deep. Some image must give the last coil power. */
  lemma ForksFitExactly(code: Code, ticks: Ticks, first: bool, edges: set<nat>, lastBad: Word, rung: Rung, read: Image)
    requires Need(rung.net) <= 16 && Loaded(code, RungCode(rung)) && Plain(rung) && Free(rung)
    requires Value(rung.net, read) && AllClosed(LastPath(rung.tree), read)
    ensures (forall img: Image :: Scan(code, ticks, first, edges, lastBad, img).img == RungEffect(rung, img))
            <==> Nest(rung.tree) <= 16
  {
    hide Loaded, Scan, Need, Nest, Plain, Free, Exposed, RungEffect, RungCode, LastCoil, ReadBit, Value, AllClosed;
    if Nest(rung.tree) <= STACK_DEPTH {
      forall img: Image
        ensures Scan(code, ticks, first, edges, lastBad, img).img == RungEffect(rung, img)
      {
        OneRung(code, ticks, first, edges, lastBad, img, rung);
      }
    } else {
      var img := Expose(rung, read);
      Misdriven(code, ticks, first, edges, lastBad, img, rung);
    }
  }

  /** The network tests no device twice, none that is tested on the way to the last coil, and only devices that can
      have any state. */
  predicate Distinct(rung: Rung) {
    && ReadOnce(rung.net) && AllSettable(rung.net)
    && forall i :: 0 <= i < |LastPath(rung.tree)| ==> LastPath(rung.tree)[i].dev !in NetTested(rung.net)
  }

  lemma PathStaysClosed(rung: Rung, a: Image, b: Image)
    requires Distinct(rung) && SameOutside(a, b, rung.net) && AllClosed(LastPath(rung.tree), b)
    ensures AllClosed(LastPath(rung.tree), a)
  {
    hide ReadBit, LastPath, NetTested, ReadOnce, AllSettable;
  }

  /** Exactly when every scan of such a rung is right: when its network and its forks both fit. Some image must close
      the way to the last coil. */
  lemma RungFitsExactly(code: Code, ticks: Ticks, first: bool, edges: set<nat>, lastBad: Word, rung: Rung, read: Image)
    requires Loaded(code, RungCode(rung)) && Plain(rung) && Free(rung) && Distinct(rung)
    requires AllClosed(LastPath(rung.tree), read)
    ensures (forall img: Image :: Scan(code, ticks, first, edges, lastBad, img).img == RungEffect(rung, img))
            <==> Need(rung.net) <= 16 && Nest(rung.tree) <= 16
  {
    hide Loaded, Scan, Need, Nest, Plain, Free, Exposed, RungEffect, RungCode, LastCoil, ReadBit, Value, AllClosed,
         Shows, DoAll, Networks.Compile, SameOutside;
    if Nest(rung.tree) > STACK_DEPTH {
      var on := Switch(rung.net, read, OnFor(rung.net, true));
      Forced(rung.net, true, on);
      PathStaysClosed(rung, on, read);
      var img := Expose(rung, on);
      Misdriven(code, ticks, first, edges, lastBad, img, rung);
    } else if Need(rung.net) > STACK_DEPTH {
      var img := Misread(Begin(first, edges, lastBad, read), rung.net, read);
      PathStaysClosed(rung, img, read);
      NetworkShows(code, ticks, first, edges, lastBad, img, rung);
      RungMeans(rung, img);
    } else {
      forall img: Image
        ensures Scan(code, ticks, first, edges, lastBad, img).img == RungEffect(rung, img)
      {
        OneRung(code, ticks, first, edges, lastBad, img, rung);
      }
    }
  }

  /** In particular, for a network and a coil. */
  lemma NetworkFitsExactly(code: Code, ticks: Ticks, first: bool, edges: set<nat>, lastBad: Word, net: Net,
        coil: Operand)
    requires Loaded(code, RungCode(Rung(net, Coil(coil)))) && ReadOnce(net) && AllSettable(net)
    requires Writable(coil.kind, coil.num)
    ensures (forall img: Image ::
               Scan(code, ticks, first, edges, lastBad, img).img == RungEffect(Rung(net, Coil(coil)), img))
            <==> Need(net) <= 16
  {
    hide Loaded, Scan, Need, RungEffect, RungCode, Writable, ReadOnce, AllSettable;
    RungFitsExactly(code, ticks, first, edges, lastBad, Rung(net, Coil(coil)), BLANK);
  }

  /** The tree is compiled rightly for a state with an empty branch stack. */
  predicate RunsRight(st: State, tree: Tree) {
    var code := Branches.Compile(tree);
    DoAll(st, code) == Branches.After(st, |code|, Energize(tree, st.result, Branches.Start(st)), st.branch)
  }

  /** The same for the tree alone, over every state with an empty branch stack, inside STL or not. */
  lemma EmptyStackExact(rung: Rung, read: Image)
    requires Plain(rung) && Free(rung) && Value(rung.net, read) && AllClosed(LastPath(rung.tree), read)
    ensures (forall st: State :: st.branch == [] ==> RunsRight(st, rung.tree)) <==> Nest(rung.tree) <= 16
  {
    var tree := rung.tree;
    hide Nest, Free, ReadBit, Value, AllClosed, Open, DoAll, Branches.Compile, Energize, Coils, Tested, BesideLed,
         Beside, LastPath, Agree, On;
    if Nest(tree) <= STACK_DEPTH {
      forall st: State | st.branch == []
        ensures RunsRight(st, tree)
      {
        TreeRuns(st, tree);
      }
    } else {
      var img := Expose(rung, read);
      var st := Begin(false, {}, 0, img).(result := true);
      BesideTested(tree);
      LastCoilDark(st, tree, Tested(tree));
      AgreeItself(img, Tested(tree));
      LastCoilMeans(tree, true, Branches.Start(st), img, Tested(tree));
      assert !RunsRight(st, tree);
    }
  }

  lemma OneRung(code: Code, ticks: Ticks, first: bool, edges: set<nat>, lastBad: Word, img: Image, rung: Rung)
    requires Fits(rung) && Loaded(code, RungCode(rung))
    ensures Scan(code, ticks, first, edges, lastBad, img).img == RungEffect(rung, img)
  {
    hide Loaded, Scan, Fits, RungEffect, RungCode;
    assert [rung][1..] == [] && RungCode(rung) + [] == RungCode(rung);
    assert RungsCode([rung]) == RungCode(rung);
    RungsScan(code, ticks, first, edges, lastBad, img, [rung]);
    assert RungsEffect([rung], img) == RungsEffect([], RungEffect(rung, img));
  }

  // -------------------------------------------------- programs that go wrong

  /** n forks inside each other, each arm led by a contact on M0. */
  function Tower(n: nat): Tree {
    if n == 0 then Coil(Dev(DEV_Y, 1))
    else
      var m0 := Lit(false, Dev(DEV_M, 0));
      Fork(Through(m0, Tower(n - 1)), Last(Through(m0, Coil(Dev(DEV_Y, 2)))))
  }

  /** LDI M1 and a fork into a tower and Y0: nested seventeen deep. */
  const TALL: Rung := Rung(
    Leaf(true, Dev(DEV_M, 1)), Fork(Through(Lit(false, Dev(DEV_M, 0)), Tower(16)), Last(Coil(Dev(DEV_Y, 0)))))

  lemma {:induction false} TowerParts(n: nat)
    ensures Nest(Tower(n)) == n && |Branches.Compile(Tower(n))| == 1 + 5 * n && AllLed(Tower(n))
    ensures Inner(Tower(n)) <= {Lit(false, Dev(DEV_M, 0))} && Tested(Tower(n)) <= {Dev(DEV_M, 0)}
    ensures Coils(Tower(n)) <= {Dev(DEV_Y, 1), Dev(DEV_Y, 2)}
  {
    if n > 0 {
      TowerParts(n - 1);
    }
  }

  lemma TallParts()
    ensures Nest(TALL.tree) == 17 && |RungCode(TALL)| == 86 && LastCoil(TALL.tree) == Dev(DEV_Y, 0)
    ensures BesideLed(TALL.tree) && Coils(TALL.tree) !! Tested(TALL.tree)
    ensures Need(TALL.net) == 1 && LastPath(TALL.tree) == [] && Beside(TALL.tree) <= {Lit(false, Dev(DEV_M, 0))}
  {
    TowerParts(16);
    hide Tower;
  }

  lemma BlankIsOff(n: Byte)
    ensures !ReadBit(BLANK, DEV_M, n)
  {
  }

  /** A concrete program whose scan of a blank image leaves Y0 off although its rung means to drive it. */
  lemma BranchOverflow(ticks: Ticks) returns (code: Code)
    ensures Loaded(code, RungCode(TALL)) && Nest(TALL.tree) == 17
    ensures !ReadBit(Scan(code, ticks, false, {}, 0, BLANK).img, DEV_Y, 0)
    ensures ReadBit(RungEffect(TALL, BLANK), DEV_Y, 0)
  {
    hide Scan, RungCode, RungEffect, Loaded, ReadBit, Nest;
    TallParts();
    code := Load(RungCode(TALL));
    BlankIsOff(0);
    BlankIsOff(1);
    TallMisdriven(code, ticks, BLANK);
  }

  lemma TallMisdriven(code: Code, ticks: Ticks, img: Image)
    requires Loaded(code, RungCode(TALL)) && !ReadBit(img, DEV_M, 0) && !ReadBit(img, DEV_M, 1)
    ensures !ReadBit(Scan(code, ticks, false, {}, 0, img).img, DEV_Y, 0) && ReadBit(RungEffect(TALL, img), DEV_Y, 0)
  {
    TallParts();
    hide Scan, RungCode, RungEffect, Loaded, LastCoil, ReadBit, Nest, LastPath, Beside, BesideLed, Coils, Tested, Tower;
    Misdriven(code, ticks, false, {}, 0, img, TALL);
  }

  /** Contacts LDI M0 in n + 2 series blocks, each inside the one before. */
  function Chain(n: nat): Net {
    Series(Leaf(true, Dev(DEV_M, 0)), if n == 0 then Leaf(true, Dev(DEV_M, 0)) else Chain(n - 1))
  }

  lemma {:induction false} ChainParts(n: nat, img: Image)
    ensures Need(Chain(n)) == n + 1 && |Networks.Compile(Chain(n))| == 2 * n + 2
    ensures !ReadBit(img, DEV_M, 0) ==> Value(Chain(n), img)
  {
    hide ReadBit;
    if n > 0 {
      ChainParts(n - 1, img);
    }
  }

  lemma ChainRuns(st: State, n: nat)
    requires n > 0
    ensures var one := Do(st, Contact(Start, true, Dev(DEV_M, 0)));
            DoAll(st, Networks.Compile(Chain(n))) == Do(DoAll(one, Networks.Compile(Chain(n - 1))), Anb)
  {
    hide Do;
    var ldi, tail := Contact(Start, true, Dev(DEV_M, 0)), Networks.Compile(Chain(n - 1)) + [Anb];
    assert Networks.Compile(Chain(n)) == [ldi] + tail;
    hide DoAll, Networks.Compile;
    DoCons(st, ldi, tail);
    DoAllAppend(Do(st, ldi), Networks.Compile(Chain(n - 1)), [Anb]);
    DoOne(DoAll(Do(st, ldi), Networks.Compile(Chain(n - 1))), Anb);
  }

  /** A chain one block too long hands on the result of the rung before in place of its own. */
  lemma {:induction false} ChainMisreads(st: State, n: nat)
    requires 1 <= n && |st.block| + n == STACK_DEPTH && !st.stl.active && !ReadBit(st.img, DEV_M, 0)
    ensures var after := DoAll(st, Networks.Compile(Chain(n)));
            && after.result == st.result && after.block == st.block
            && after.img == st.img && after.stl == MovedOn(st).stl
    decreases n
  {
    hide Do, ReadBit, DoAll, Networks.Compile;
    ChainRuns(st, n);
    var one := Do(st, Contact(Start, true, Dev(DEV_M, 0)));
    var two := DoAll(one, Networks.Compile(Chain(n - 1)));
    DoContact(st, Start, true, Dev(DEV_M, 0));
    if n == 1 {
      ChainParts(0, st.img);
      FullStackRuns(one, Chain(0));
    } else {
      ChainMisreads(one, n - 1);
    }
    DoJoin(two, st.result, st.block);
  }

  /** Seventeen blocks inside each other, and Y0. */
  const LONG: Rung := Rung(Chain(16), Coil(Dev(DEV_Y, 0)))

  /** A concrete program whose scan of a blank image leaves Y0 off although all its contacts are closed. */
  lemma NetworkOverflow(ticks: Ticks) returns (code: Code)
    ensures Loaded(code, RungCode(LONG)) && Need(LONG.net) == 17
    ensures !ReadBit(Scan(code, ticks, false, {}, 0, BLANK).img, DEV_Y, 0)
    ensures ReadBit(RungEffect(LONG, BLANK), DEV_Y, 0)
  {
    ChainParts(16, BLANK);
    assert |RungCode(LONG)| == 35;
    assert ReadBit(RungEffect(LONG, BLANK), DEV_Y, 0);
    hide Scan, RungEffect, Loaded, LastCoil, ReadBit, Networks.Compile, DoAll, Do, ClearQueued, WriteBit;
    code := Load(RungCode(LONG));
    var start := Begin(false, {}, 0, BLANK);
    var out := Out(Dev(DEV_Y, 0));
    ListingScan(code, ticks, false, {}, 0, BLANK, RungCode(LONG));
    DoAllAppend(start, Networks.Compile(LONG.net), [out]);
    BlankIsOff(0);
    ChainMisreads(start, 16);
    var dark := DoAll(start, Networks.Compile(LONG.net));
    DoOne(dark, out);
    DoOut(dark, Dev(DEV_Y, 0));
    NothingQueued(WriteBit(BLANK, DEV_Y, 0, false));
    ReadOverWriteBit(BLANK, DEV_Y, 0, false, DEV_Y, 0);
  }
}
