/** Series and parallel contact networks, compiled the way the programming tool compiles them. */
module Networks {
  import opened Devices
  import opened Timers
  import opened Instructions
  import opened Ladder
  import opened Listing

  datatype Net =
    | Leaf(negated: bool, dev: Operand)
    | Series(left: Net, right: Net)
    | Parallel(left: Net, right: Net)

  /** What the network means as a Boolean expression over the device image. */
  predicate Value(net: Net, img: Image) {
    match net
    case Leaf(negated, dev) => ReadBit(img, dev.kind, dev.num) != negated
    case Series(a, b) => Value(a, img) && Value(b, img)
    case Parallel(a, b) => Value(a, img) || Value(b, img)
  }

  /** A single right-hand contact joins directly; a right-hand block is started with LD and joined by ANB or ORB. */
  function Compile(net: Net): seq<SimpleInstr> {
    match net
    case Leaf(negated, dev) => [Contact(Start, negated, dev)]
    case Series(a, Leaf(negated, dev)) => Compile(a) + [Contact(And, negated, dev)]
    case Parallel(a, Leaf(negated, dev)) => Compile(a) + [Contact(Or, negated, dev)]
    case Series(a, b) => Compile(a) + Compile(b) + [Anb]
    case Parallel(a, b) => Compile(a) + Compile(b) + [Orb]
  }

  /** Free block-stack entries the compiled network takes. */
  function Need(net: Net): (n: nat)
    ensures n >= 1
  {
    if net.Leaf? then 1
    else if net.right.Leaf? then Need(net.left)
    else if Need(net.left) > 1 + Need(net.right) then Need(net.left) else 1 + Need(net.right)
  }

  /** The machine after a network: one more block entry, holding the result of the rung before. */
  function AfterNet(st: State, net: Net): State {
    st.(off := st.off + 2 * |Compile(net)|,
        result := Gate(st.stl) && Value(net, st.img),
        block := st.block + [st.result],
        outputJust := false,
        stl := st.stl.(accepting := false))
  }

  /** A right-hand contact is joined without touching the block stack. */
  lemma JoinLeaf(st: State, net: Net, block: seq<bool>)
    requires !net.Leaf? && net.right.Leaf?
    ensures var last := Compile(net)[|Compile(net)| - 1];
            Do(AfterNet(st, net.left).(block := block), last) == AfterNet(st, net).(block := block)
  {
    hide ReadBit, Do, Gate;
    var Leaf(negated, dev) := net.right;
    var join := if net.Series? then And else Or;
    assert Compile(net) == Compile(net.left) + [Contact(join, negated, dev)];
    assert Value(net.right, st.img) == (ReadBit(st.img, dev.kind, dev.num) != negated);
    DoContact(AfterNet(st, net.left).(block := block), join, negated, dev);
    GateSame(st.stl);
  }

  lemma GateSame(stl: Stl)
    ensures Gate(stl.(accepting := false)) == Gate(stl)
  {
  }

  /** ANB or ORB joins the two blocks and pops the left one. */
  lemma JoinBlocks(st: State, net: Net)
    requires !net.Leaf? && !net.right.Leaf?
    ensures Do(AfterNet(AfterNet(st, net.left), net.right), if net.Series? then Anb else Orb) == AfterNet(st, net)
  {
    hide Do, Gate, Compile, Value;
    var left := AfterNet(st, net.left);
    DoJoin(AfterNet(left, net.right), left.result, left.block);
    GateSame(st.stl);
    ValueOf(net, st.img);
    CompileBlocks(net);
  }

  lemma CompileBlocks(net: Net)
    requires !net.Leaf? && !net.right.Leaf?
    ensures Compile(net) == Compile(net.left) + Compile(net.right) + [if net.Series? then Anb else Orb]
  {
  }

  lemma ValueOf(net: Net, img: Image)
    requires !net.Leaf?
    ensures Value(net, img) == (if net.Series? then Value(net.left, img) && Value(net.right, img)
                                else Value(net.left, img) || Value(net.right, img))
  {
  }

  /** A compiled network computes its Boolean value, gated by the open step, if its blocks fit. */
  lemma {:induction false} NetRuns(st: State, net: Net)
    requires |st.block| + Need(net) <= STACK_DEPTH
    ensures DoAll(st, Compile(net)) == AfterNet(st, net)
    decreases net
  {
    hide Do, Value, Gate, Encode;
    if net.Leaf? {
      LeafRuns(st, net);
    } else if net.right.Leaf? {
      var last := Compile(net)[|Compile(net)| - 1];
      NetRuns(st, net.left);
      DoAllAppend(st, Compile(net.left), [last]);
      JoinLeaf(st, net, AfterNet(st, net).block);
      DoOne(AfterNet(st, net.left), last);
    } else {
      var last := if net.Series? then Anb else Orb;
      NetRuns(st, net.left);
      NetRuns(AfterNet(st, net.left), net.right);
      DoAllAppend(st, Compile(net.left), Compile(net.right));
      DoAllAppend(st, Compile(net.left) + Compile(net.right), [last]);
      JoinBlocks(st, net);
      DoOne(AfterNet(AfterNet(st, net.left), net.right), last);
    }
  }

  lemma LeafRuns(st: State, net: Net)
    requires net.Leaf? && |st.block| < STACK_DEPTH
    ensures DoAll(st, Compile(net)) == AfterNet(st, net)
  {
    hide ReadBit, Encode;
    DoOne(st, Compile(net)[0]);
  }

  /** In program memory: after |Compile(net)| steps the rung holds the network's value. */
  lemma NetMeaning(code: Code, ticks: Ticks, st: State, net: Net)
    requires !st.halted && At(code, st.off, Compile(net))
    requires |st.block| + Need(net) <= STACK_DEPTH
    ensures Steps(code, ticks, st, |Compile(net)|) == AfterNet(st, net)
  {
    hide Compile, AfterNet, Steps, DoAll, At;
    ListingRuns(code, ticks, st, Compile(net));
    NetRuns(st, net);
  }

  // ------------------------------------------------ exactly when it fits

  /** Block-stack height after a network started at height h: pushes beyond 16 are dropped. */
  function HeightAfter(h: nat, net: Net): nat
    decreases net
  {
    if net.Leaf? then if h < STACK_DEPTH then h + 1 else h
    else if net.right.Leaf? then HeightAfter(h, net.left)
    else
      var both := HeightAfter(HeightAfter(h, net.left), net.right);
      if both > 0 then both - 1 else 0
  }

  lemma {:induction false} HeightExact(h: nat, net: Net)
    requires h <= STACK_DEPTH
    ensures h + Need(net) <= STACK_DEPTH ==> HeightAfter(h, net) == h + 1
    ensures h + Need(net) > STACK_DEPTH ==> HeightAfter(h, net) <= h
    ensures HeightAfter(h, net) <= STACK_DEPTH
    decreases net
  {
    if !net.Leaf? {
      HeightExact(h, net.left);
      if !net.right.Leaf? {
        HeightExact(HeightAfter(h, net.left), net.right);
      }
    }
  }

  lemma DoHeight(st: State, instr: SimpleInstr)
    ensures instr.Contact? && instr.join == Start ==>
              |Do(st, instr).block| == (if |st.block| < STACK_DEPTH then |st.block| + 1 else |st.block|)
    ensures instr.Contact? && instr.join != Start ==> |Do(st, instr).block| == |st.block|
    ensures instr.Anb? || instr.Orb? ==> |Do(st, instr).block| == (if |st.block| > 0 then |st.block| - 1 else 0)
  {
    hide ReadBit, Encode;
  }

  lemma {:induction false} RunHeight(st: State, net: Net)
    ensures |DoAll(st, Compile(net)).block| == HeightAfter(|st.block|, net)
    decreases net
  {
    hide Do, Encode;
    var last := Compile(net)[|Compile(net)| - 1];
    if net.Leaf? {
      DoOne(st, last);
      DoHeight(st, last);
    } else {
      RunHeight(st, net.left);
      var mid := DoAll(st, Compile(net.left));
      if net.right.Leaf? {
        DoAllAppend(st, Compile(net.left), [last]);
        DoOne(mid, last);
        DoHeight(mid, last);
      } else {
        RunHeight(mid, net.right);
        var both := DoAll(mid, Compile(net.right));
        DoAllAppend(st, Compile(net.left), Compile(net.right));
        DoAllAppend(st, Compile(net.left) + Compile(net.right), [last]);
        DoOne(both, last);
        DoHeight(both, last);
      }
    }
  }

  /** The law above holds exactly when the free entries suffice: otherwise the block stack comes back too short. */
  lemma NetFitsExactly(st: State, net: Net)
    requires |st.block| <= 16
    ensures DoAll(st, Compile(net)) == AfterNet(st, net) <==> |st.block| + Need(net) <= 16
  {
    hide Compile, DoAll, HeightAfter;
    RunHeight(st, net);
    HeightExact(|st.block|, net);
    if |st.block| + Need(net) <= STACK_DEPTH {
      NetRuns(st, net);
    }
  }

  /** On a full stack the push of a network's first contact is dropped. */
  lemma {:induction false} FullStackRuns(st: State, net: Net)
    requires |st.block| == STACK_DEPTH && Need(net) == 1
    ensures DoAll(st, Compile(net)) == AfterNet(st, net).(block := st.block)
    decreases net
  {
    hide Do, Value, Gate, Encode;
    if net.Leaf? {
      DoOne(st, Compile(net)[0]);
      DoContact(st, Start, net.negated, net.dev);
      assert Value(net, st.img) == (ReadBit(st.img, net.dev.kind, net.dev.num) != net.negated) by {
        LeafValue(net, st.img);
      }
    } else {
      var last := Compile(net)[|Compile(net)| - 1];
      FullStackRuns(st, net.left);
      DoAllAppend(st, Compile(net.left), [last]);
      JoinLeaf(st, net, st.block);
      DoOne(AfterNet(st, net.left).(block := st.block), last);
    }
  }

  lemma LeafValue(net: Net, img: Image)
    requires net.Leaf?
    ensures Value(net, img) == (ReadBit(img, net.dev.kind, net.dev.num) != net.negated)
  {
  }

  /** The failing family: a block started with one free entry left is joined to the result of an older
      rung, because its left operand was never pushed. */
  lemma OverflowMisreads(st: State, net: Net)
    requires |st.block| == STACK_DEPTH - 1 && !net.Leaf? && Need(net.left) == 1
    requires !net.right.Leaf? && Need(net.right) == 1
    ensures var right := Gate(st.stl) && Value(net.right, st.img);
            DoAll(st, Compile(net)).result == (if net.Series? then st.result && right else st.result || right)
  {
    hide Do, Value, Gate, Compile, DoAll, Need;
    var last := if net.Series? then Anb else Orb;
    var left := AfterNet(st, net.left);
    var both := AfterNet(left, net.right).(block := left.block);
    CompileBlocks(net);
    NetRuns(st, net.left);
    FullStackRuns(left, net.right);
    DoAllAppend(st, Compile(net.left), Compile(net.right));
    DoAllAppend(st, Compile(net.left) + Compile(net.right), [last]);
    DoOne(both, last);
    DoJoin(both, st.result, st.block);
    GateSame(st.stl);
  }
}
