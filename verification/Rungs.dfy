/** Ordinary ladder as a whole program: rungs of a contact network and a tree of coils, one after the other. */
module Rungs {
  import opened Words
  import opened Devices
  import opened Timers
  import opened Instructions
  import opened Ladder
  import opened LadderScan
  import opened Listing
  import opened Networks
  import opened Branches
  import opened Programs

  datatype Rung = Rung(net: Net, tree: Tree)

  function RungCode(rung: Rung): seq<SimpleInstr> { Networks.Compile(rung.net) + Branches.Compile(rung.tree) }

  function RungsCode(rungs: seq<Rung>): seq<SimpleInstr>
    decreases |rungs|
  {
    if rungs == [] then [] else RungCode(rungs[0]) + RungsCode(rungs[1..])
  }

  /** The rung fits on the stacks, which every rung finds empty. */
  predicate Fits(rung: Rung) { Need(rung.net) <= 16 && Nest(rung.tree) <= 16 }

  /** Outside STL there are no transfers. */
  const OUTSIDE: Stl := Stl(false, false, false, [], {})

  /** The network's value flows into the tree of coils. */
  function RungEffect(rung: Rung, img: Image): Image {
    Energize(rung.tree, Value(rung.net, img), Effect(img, OUTSIDE)).effect.img
  }

  /** Rungs are solved top to bottom, each on the devices the ones above it left. */
  function RungsEffect(rungs: seq<Rung>, img: Image): Image
    decreases |rungs|
  {
    if rungs == [] then img else RungsEffect(rungs[1..], RungEffect(rungs[0], img))
  }

  predicate AllFit(rungs: seq<Rung>) { forall i :: 0 <= i < |rungs| ==> Fits(rungs[i]) }

  /** Between rungs: both stacks empty, no step open. */
  predicate Idle(st: State) { st.block == [] && st.branch == [] && st.stl == OUTSIDE }

  /** Outside STL coils queue nothing. */
  lemma {:induction false} StaysOutside(tree: Tree, power: bool, e: Effect)
    requires e.stl == OUTSIDE
    ensures Energize(tree, power, e).effect.stl == OUTSIDE
    decreases tree
  {
    hide WriteBit, Closed;
    match tree
    case Coil(_) =>
    case Through(lit, next) => StaysOutside(next, power && Closed(lit, e.img), e);
    case Fork(first, rest) =>
      StaysOutside(first, power, e);
      ArmsStayOutside(rest, power, Energize(first, power, e).effect);
  }

  lemma {:induction false} ArmsStayOutside(arms: Arms, power: bool, e: Effect)
    requires e.stl == OUTSIDE
    ensures EnergizeArms(arms, power, e).effect.stl == OUTSIDE
    decreases arms
  {
    hide WriteBit, Closed;
    StaysOutside(arms.arm, power, e);
    if arms.Middle? {
      ArmsStayOutside(arms.more, power, Energize(arms.arm, power, e).effect);
    }
  }

  lemma RungRuns(st: State, rung: Rung)
    requires Fits(rung) && Idle(st)
    ensures var after := DoAll(st, RungCode(rung));
            Idle(after) && after.img == RungEffect(rung, st.img)
  {
    hide DoAll, Networks.Compile, Branches.Compile, Need, Nest, Value, Energize;
    var powered := AfterNet(st, rung.net);
    DoAllAppend(st, Networks.Compile(rung.net), Branches.Compile(rung.tree));
    NetRuns(st, rung.net);
    TreeRuns(powered, rung.tree);
    StaysOutside(rung.tree, powered.result, Effect(st.img, OUTSIDE));
  }

  lemma {:induction false} RungsRun(st: State, rungs: seq<Rung>)
    requires AllFit(rungs) && Idle(st)
    ensures var after := DoAll(st, RungsCode(rungs));
            Idle(after) && after.img == RungsEffect(rungs, st.img)
    decreases |rungs|
  {
    hide DoAll, RungCode, RungEffect, Fits, Idle;
    if rungs == [] {
      DoNone(st);
    } else {
      DoAllAppend(st, RungCode(rungs[0]), RungsCode(rungs[1..]));
      RungRuns(st, rungs[0]);
      RungsRun(DoAll(st, RungCode(rungs[0])), rungs[1..]);
    }
  }

  /** A scan of a ladder program computes its rungs, top to bottom. */
  lemma RungsScan(code: Code, ticks: Ticks, first: bool, edges: set<nat>, lastBad: Word, img: Image, rungs: seq<Rung>)
    requires AllFit(rungs) && Loaded(code, RungsCode(rungs))
    ensures Scan(code, ticks, first, edges, lastBad, img).img == RungsEffect(rungs, img)
  {
    hide AllFit, Loaded, RungsCode, RungsEffect, Scan, ClearQueued, DoAll;
    var st := Begin(first, edges, lastBad, img);
    ListingScan(code, ticks, first, edges, lastBad, img, RungsCode(rungs));
    RungsRun(st, rungs);
    NothingQueued(RungsEffect(rungs, img));
  }
}
