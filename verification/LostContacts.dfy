/** Networks that need more block-stack entries than are free: the contact that the machine forgets, and exactly when
    the result is wrong. */
module LostContacts {
  import opened Devices
  import opened Instructions
  import opened Ladder
  import opened LadderScan
  import opened Listing
  import opened Networks
  import opened Relays

  function NetTested(net: Net): set<Device> {
    match net
    case Leaf(_, dev) => {dev}
    case Series(a, b) => NetTested(a) + NetTested(b)
    case Parallel(a, b) => NetTested(a) + NetTested(b)
  }

  /** No device is tested twice. */
  predicate ReadOnce(net: Net) {
    !net.Leaf? ==> ReadOnce(net.left) && ReadOnce(net.right) && NetTested(net.left) !! NetTested(net.right)
  }

  lemma {:induction false} ValueAgrees(net: Net, a: Image, b: Image)
    requires Agree(a, b, NetTested(net))
    ensures Value(net, a) == Value(net, b)
    decreases net
  {
    hide ReadBit;
    if !net.Leaf? {
      ValueAgrees(net.left, a, b);
      ValueAgrees(net.right, a, b);
    }
  }

  // ------------------------------------------------------ running a network

  /** The instruction that joins the right-hand operand of a network. */
  function Joining(net: Net): SimpleInstr
    requires !net.Leaf?
  {
    if net.right.Leaf? then Contact(if net.Series? then And else Or, net.right.negated, net.right.dev)
    else if net.Series? then Anb else Orb
  }

  lemma RunNet(st: State, net: Net)
    ensures DoAll(st, Compile(net)) ==
            if net.Leaf? then Do(st, Contact(Join.Start, net.negated, net.dev))
            else
              var left := DoAll(st, Compile(net.left));
              Do(if net.right.Leaf? then left else DoAll(left, Compile(net.right)), Joining(net))
  {
    hide Do, DoAll;
    if net.Leaf? {
      DoOne(st, Contact(Join.Start, net.negated, net.dev));
    } else {
      var last := Joining(net);
      var left := DoAll(st, Compile(net.left));
      if net.right.Leaf? {
        assert Compile(net) == Compile(net.left) + [last];
        DoAllAppend(st, Compile(net.left), [last]);
        DoOne(left, last);
      } else {
        CompileBlocks(net);
        DoAllAppend(st, Compile(net.left), Compile(net.right));
        DoAllAppend(st, Compile(net.left) + Compile(net.right), [last]);
        DoOne(DoAll(left, Compile(net.right)), last);
      }
    }
  }

  lemma ContactAlike(st: State, img: Image, instr: SimpleInstr)
    requires instr.Contact? || instr.Anb? || instr.Orb?
    requires instr.Contact? ==> Agree(img, st.img, {instr.dev})
    ensures Do(st.(img := img), instr) == Do(st, instr).(img := img)
  {
    hide Do, ReadBit, Push;
    if instr.Contact? {
      DoContact(st, instr.join, instr.negated, instr.dev);
      DoContact(st.(img := img), instr.join, instr.negated, instr.dev);
    } else {
      DoStack(st, instr);
      DoStack(st.(img := img), instr);
    }
  }

  /** Networks look at nothing but the devices they test. */
  lemma {:induction false} SameRun(st: State, net: Net, img: Image)
    requires Agree(img, st.img, NetTested(net))
    ensures DoAll(st.(img := img), Compile(net)) == DoAll(st, Compile(net)).(img := img)
    decreases net
  {
    hide Do, DoAll, Compile, ReadBit;
    RunNet(st, net);
    RunNet(st.(img := img), net);
    if net.Leaf? {
      ContactAlike(st, img, Contact(Join.Start, net.negated, net.dev));
    } else {
      var left := DoAll(st, Compile(net.left));
      SameRun(st, net.left, img);
      NetKeeps(st, net.left);
      if net.right.Leaf? {
        ContactAlike(left, img, Joining(net));
      } else {
        SameRun(left, net.right, img);
        NetKeeps(left, net.right);
        ContactAlike(DoAll(left, Compile(net.right)), img, Joining(net));
      }
    }
  }

  /** Nothing but the rung, the block stack and the place in the program changes. */
  lemma {:induction false} NetKeeps(st: State, net: Net)
    ensures var after := DoAll(st, Compile(net));
            && after.img == st.img && after.branch == st.branch
            && after.stl.(accepting := false) == st.stl.(accepting := false)
    decreases net
  {
    hide Do, DoAll, Compile, ReadBit;
    RunNet(st, net);
    if net.Leaf? {
      InstrKeeps(st, Contact(Join.Start, net.negated, net.dev));
    } else {
      NetKeeps(st, net.left);
      var left := DoAll(st, Compile(net.left));
      if net.right.Leaf? {
        InstrKeeps(left, Joining(net));
      } else {
        NetKeeps(left, net.right);
        InstrKeeps(DoAll(left, Compile(net.right)), Joining(net));
      }
    }
  }

  lemma InstrKeeps(st: State, instr: SimpleInstr)
    requires instr.Contact? || instr.Anb? || instr.Orb?
    ensures var after := Do(st, instr);
            && after.img == st.img && after.branch == st.branch
            && after.stl.(accepting := false) == st.stl.(accepting := false)
  {
    hide Do, ReadBit, Push;
    if instr.Contact? {
      DoContact(st, instr.join, instr.negated, instr.dev);
    } else {
      DoStack(st, instr);
    }
  }

  /** A network started on a full block stack forgets the result that was there: its first push is dropped. */
  lemma {:induction false} Forgets(st: State, net: Net, result: bool)
    requires |st.block| == STACK_DEPTH
    ensures DoAll(st.(result := result), Compile(net)) == DoAll(st, Compile(net))
    decreases net
  {
    hide Do, DoAll, Compile, ReadBit;
    RunNet(st, net);
    RunNet(st.(result := result), net);
    if net.Leaf? {
      DoContact(st, Join.Start, net.negated, net.dev);
      DoContact(st.(result := result), Join.Start, net.negated, net.dev);
    } else {
      Forgets(st, net.left, result);
    }
  }

  // ------------------------------------------------------ the lost contact

  /** The first contact of a network. */
  function Head(net: Net): Device { if net.Leaf? then net.dev else Head(net.left) }

  /** A contact whose state is in the result when the first push is dropped. */
  function Lost(net: Net, h: nat): Device
    requires h < STACK_DEPTH < h + Need(net)
    decreases net
  {
    if net.right.Leaf? || h + Need(net.left) > STACK_DEPTH then Lost(net.left, h)
    else if h + 1 == STACK_DEPTH then Head(net.left)
    else Lost(net.right, h + 1)
  }

  lemma {:induction false} HeadIsTested(net: Net)
    ensures Head(net) in NetTested(net)
    decreases net
  {
    if !net.Leaf? {
      HeadIsTested(net.left);
    }
  }

  lemma {:induction false} LostIsTested(net: Net, h: nat)
    requires h < STACK_DEPTH < h + Need(net)
    ensures Lost(net, h) in NetTested(net)
    decreases net
  {
    if net.right.Leaf? || h + Need(net.left) > STACK_DEPTH {
      LostIsTested(net.left, h);
    } else if h + 1 == STACK_DEPTH {
      HeadIsTested(net.left);
    } else {
      LostIsTested(net.right, h + 1);
    }
  }

  lemma AgreePart(a: Image, b: Image, all: set<Device>, part: set<Device>)
    requires Agree(a, b, all) && part <= all
    ensures Agree(a, b, part)
  {
    hide ReadBit;
  }

  /** The machine does not see the lost contact: images that differ only there run alike. */
  lemma {:induction false} RunsBlind(st: State, net: Net, img: Image)
    requires |st.block| < STACK_DEPTH < |st.block| + Need(net) && ReadOnce(net)
    requires Agree(img, st.img, NetTested(net) - {Lost(net, |st.block|)})
    ensures DoAll(st.(img := img), Compile(net)) == DoAll(st, Compile(net)).(img := img)
    decreases net
  {
    hide Do, DoAll, Compile, ReadBit, Agree;
    var h, lost := |st.block|, Lost(net, |st.block|);
    var seen := NetTested(net) - {lost};
    var left, left' := DoAll(st, Compile(net.left)), DoAll(st.(img := img), Compile(net.left));
    RunNet(st, net);
    RunNet(st.(img := img), net);
    if net.right.Leaf? {
      LostIsTested(net.left, h);
      AgreePart(img, st.img, seen, NetTested(net.left) - {lost});
      RunsBlind(st, net.left, img);
      NetKeeps(st, net.left);
      JoinsAlike(left, img, net, seen);
    } else {
      BlindBlocks(st, net, img);
    }
  }

  lemma JoinsAlike(left: State, img: Image, net: Net, seen: set<Device>)
    requires !net.Leaf? && Agree(img, left.img, seen) && (net.right.Leaf? ==> net.right.dev in seen)
    ensures Do(left.(img := img), Joining(net)) == Do(left, Joining(net)).(img := img)
  {
    hide Do, ReadBit;
    if net.right.Leaf? {
      AgreePart(img, left.img, seen, {net.right.dev});
    }
    ContactAlike(left, img, Joining(net));
  }

  lemma {:induction false} BlindBlocks(st: State, net: Net, img: Image)
    requires |st.block| < STACK_DEPTH < |st.block| + Need(net) && ReadOnce(net)
    requires Agree(img, st.img, NetTested(net) - {Lost(net, |st.block|)}) && !net.right.Leaf?
    ensures DoAll(st.(img := img), Compile(net)) == DoAll(st, Compile(net)).(img := img)
    decreases net, 1
  {
    assert !net.Leaf?;
    hide DoAll, Compile, Agree, Lost, NetTested, Need, ReadBit, OperandsAlike;
    var h := |st.block|;
    SeenParts(net, h);
    AgreePart(img, st.img, NetTested(net) - {Lost(net, h)}, {});
    if h + Need(net.left) > STACK_DEPTH {
      BlindLeft(st, net, img);
    } else if h + 1 == STACK_DEPTH {
      AgreePart(img, st.img, NetTested(net) - {Lost(net, h)}, NetTested(net.right));
      LeftForgotten(st, net, img);
    } else {
      BlindRight(st, net, img);
    }
    BlocksAlike(st, net, img);
  }

  /** What both operands leave is the same in both images. */
  predicate OperandsAlike(st: State, net: Net, img: Image)
    requires !net.Leaf?
  {
    DoAll(DoAll(st.(img := img), Compile(net.left)), Compile(net.right)) ==
    DoAll(DoAll(st, Compile(net.left)), Compile(net.right)).(img := img)
  }

  lemma {:induction false} BlindLeft(st: State, net: Net, img: Image)
    requires !net.Leaf? && !net.right.Leaf? && ReadOnce(net)
    requires |st.block| < STACK_DEPTH < |st.block| + Need(net.left) && |st.block| + Need(net) > STACK_DEPTH
    requires Agree(img, st.img, NetTested(net) - {Lost(net, |st.block|)})
    ensures OperandsAlike(st, net, img)
    decreases net, 0
  {
    hide DoAll, Compile, Agree, Lost, NetTested, Need, ReadBit;
    var h := |st.block|;
    var seen := NetTested(net) - {Lost(net, h)};
    SeenParts(net, h);
    AgreePart(img, st.img, seen, NetTested(net.left) - {Lost(net.left, h)});
    AgreePart(img, st.img, seen, NetTested(net.right));
    RunsBlind(st, net.left, img);
    NetKeeps(st, net.left);
    SameRun(DoAll(st, Compile(net.left)), net.right, img);
  }

  lemma {:induction false} BlindRight(st: State, net: Net, img: Image)
    requires !net.Leaf? && !net.right.Leaf? && ReadOnce(net)
    requires |st.block| + 1 < STACK_DEPTH < |st.block| + Need(net) && |st.block| + Need(net.left) <= STACK_DEPTH
    requires Agree(img, st.img, NetTested(net) - {Lost(net, |st.block|)})
    ensures OperandsAlike(st, net, img)
    decreases net, 0
  {
    hide DoAll, Compile, Agree, Lost, NetTested, Need, ReadBit, Value;
    var h := |st.block|;
    var seen := NetTested(net) - {Lost(net, h)};
    SeenParts(net, h);
    AgreePart(img, st.img, seen, NetTested(net.left));
    AgreePart(img, st.img, seen, NetTested(net.right) - {Lost(net.right, h + 1)});
    NetRuns(st, net.left);
    SameRun(st, net.left, img);
    RunsBlind(DoAll(st, Compile(net.left)), net.right, img);
  }

  /** Where the lost contact of two blocks is. */
  lemma SeenParts(net: Net, h: nat)
    requires h < STACK_DEPTH < h + Need(net) && ReadOnce(net) && !net.Leaf? && !net.right.Leaf?
    ensures ReadOnce(net.left) && ReadOnce(net.right)
    ensures var seen := NetTested(net) - {Lost(net, h)};
            if h + Need(net.left) > STACK_DEPTH then
              NetTested(net.left) - {Lost(net.left, h)} <= seen && NetTested(net.right) <= seen
            else if h + 1 == STACK_DEPTH then NetTested(net.right) <= seen
            else
              && h + 1 + Need(net.right) > STACK_DEPTH && NetTested(net.left) <= seen
              && NetTested(net.right) - {Lost(net.right, h + 1)} <= seen
  {
    if h + Need(net.left) > STACK_DEPTH {
      LostIsTested(net.left, h);
    } else if h + 1 == STACK_DEPTH {
      HeadIsTested(net.left);
    } else {
      LostIsTested(net.right, h + 1);
    }
  }

  /** Started on the last free entry, the right operand forgets the value of the left one. */
  lemma LeftForgotten(st: State, net: Net, img: Image)
    requires !net.Leaf? && |st.block| + 1 == STACK_DEPTH && |st.block| + Need(net.left) <= STACK_DEPTH
    requires Agree(img, st.img, NetTested(net.right))
    ensures OperandsAlike(st, net, img)
  {
    hide DoAll, Compile, Agree, Value;
    var left, left' := AfterNet(st, net.left), AfterNet(st.(img := img), net.left);
    NetRuns(st, net.left);
    NetRuns(st.(img := img), net.left);
    assert left' == left.(img := img).(result := left'.result);
    SameRun(left, net.right, img);
    Forgets(left.(img := img), net.right, left'.result);
  }

  lemma BlocksAlike(st: State, net: Net, img: Image)
    requires !net.Leaf? && !net.right.Leaf? && Agree(img, st.img, {})
    requires OperandsAlike(st, net, img)
    ensures DoAll(st.(img := img), Compile(net)) == DoAll(st, Compile(net)).(img := img)
  {
    hide Do, DoAll, Compile, Agree;
    RunNet(st, net);
    RunNet(st.(img := img), net);
    var left := DoAll(st, Compile(net.left));
    NetKeeps(st, net.left);
    NetKeeps(left, net.right);
    JoinsAlike(DoAll(left, Compile(net.right)), img, net, {});
  }

  // ------------------------------------- images in which a contact matters

  /** The devices to switch on, and no others of the network, to give it a value. */
  function OnFor(net: Net, v: bool): set<Device> {
    if net.Leaf? then if v != net.negated then {net.dev} else {}
    else OnFor(net.left, v) + OnFor(net.right, v)
  }

  /** The same to make its value hang on one device. */
  function OnAround(net: Net, d: Device): set<Device> {
    if net.Leaf? then {}
    else if d in NetTested(net.left) then OnAround(net.left, d) + OnFor(net.right, net.Series?)
    else OnFor(net.left, net.Series?) + OnAround(net.right, d)
  }

  /** Exactly the given ones of some devices are on. */
  predicate Shows(img: Image, on: set<Device>, devices: set<Device>) {
    forall d: Device :: d in devices ==> ReadBit(img, d.kind, d.num) == (d in on)
  }

  lemma ShowsPart(img: Image, on: set<Device>, devices: set<Device>, on': set<Device>, devices': set<Device>)
    requires Shows(img, on, devices) && devices' <= devices
    requires forall d :: d in devices' ==> (d in on <==> d in on')
    ensures Shows(img, on', devices')
  {
    hide ReadBit;
  }

  lemma {:induction false} OnlyItsOwn(net: Net, v: bool, d: Device)
    ensures OnFor(net, v) <= NetTested(net) && OnAround(net, d) <= NetTested(net)
    decreases net
  {
    if !net.Leaf? {
      OnlyItsOwn(net.left, v, d);
      OnlyItsOwn(net.right, v, d);
      OnlyItsOwn(net.left, net.Series?, d);
      OnlyItsOwn(net.right, net.Series?, d);
    }
  }

  lemma {:induction false} Forced(net: Net, v: bool, img: Image)
    requires ReadOnce(net) && Shows(img, OnFor(net, v), NetTested(net))
    ensures Value(net, img) == v
    decreases net
  {
    hide ReadBit;
    if net.Leaf? {
      assert ReadBit(img, net.dev.kind, net.dev.num) == (net.dev in OnFor(net, v));
    } else {
      OnlyItsOwn(net.left, v, Head(net));
      OnlyItsOwn(net.right, v, Head(net));
      ShowsPart(img, OnFor(net, v), NetTested(net), OnFor(net.left, v), NetTested(net.left));
      ShowsPart(img, OnFor(net, v), NetTested(net), OnFor(net.right, v), NetTested(net.right));
      Forced(net.left, v, img);
      Forced(net.right, v, img);
    }
  }

  /** Whether the one contact closes on an off device. */
  function ClosedWhenOff(net: Net, d: Device): (b: bool) {
    if net.Leaf? then net.negated
    else if d in NetTested(net.left) then ClosedWhenOff(net.left, d) else ClosedWhenOff(net.right, d)
  }

  lemma {:induction false} Hangs(net: Net, d: Device, img: Image)
    requires ReadOnce(net) && d in NetTested(net) && Shows(img, OnAround(net, d), NetTested(net) - {d})
    ensures Value(net, img) == (ReadBit(img, d.kind, d.num) != ClosedWhenOff(net, d))
    decreases net
  {
    hide ReadBit;
    if !net.Leaf? {
      var inLeft := d in NetTested(net.left);
      var near, far := if inLeft then net.left else net.right, if inLeft then net.right else net.left;
      var on, others := OnAround(net, d), NetTested(net) - {d};
      OnlyItsOwn(near, net.Series?, d);
      OnlyItsOwn(far, net.Series?, d);
      ShowsPart(img, on, others, OnAround(near, d), NetTested(near) - {d});
      ShowsPart(img, on, others, OnFor(far, net.Series?), NetTested(far));
      Hangs(near, d, img);
      Forced(far, net.Series?, img);
    }
  }

  // -------------------------------------------------- exactly when it fits

  predicate AllSettable(net: Net) { forall d :: d in NetTested(net) ==> Settable(d) }

  /** Outside the network two images read the same. */
  ghost predicate SameOutside(a: Image, b: Image, net: Net) {
    forall d: Device :: d !in NetTested(net) ==> ReadBit(a, d.kind, d.num) == ReadBit(b, d.kind, d.num)
  }

  /** The image with exactly the given devices of a network on. */
  lemma Switch(net: Net, base: Image, on: set<Device>) returns (img: Image)
    requires AllSettable(net)
    ensures Shows(img, on, NetTested(net)) && SameOutside(img, base, net)
  {
    hide ReadBit, Showing, Settable;
    var devices := NetTested(net);
    var f := (d: Device) => if d in devices then d in on else ReadBit(base, d.kind, d.num);
    img := Showing(base, f);
    forall d: Device
      ensures ReadBit(img, d.kind, d.num) == if Settable(d) then f(d) else ReadBit(base, d.kind, d.num)
    {
      ReadShowing(base, f, d);
    }
  }

  /** Whatever the machine holds, when the blocks do not fit there is an image that it gets wrong. */
  lemma Misread(st: State, net: Net, base: Image) returns (img: Image)
    requires |st.block| < STACK_DEPTH < |st.block| + Need(net) && ReadOnce(net) && AllSettable(net)
    ensures SameOutside(img, base, net)
    ensures DoAll(st.(img := img), Compile(net)).result != Value(net, img)
  {
    hide DoAll, Compile, ReadBit;
    var lost := Lost(net, |st.block|);
    var on := OnAround(net, lost) - {lost};
    LostIsTested(net, |st.block|);
    var a := Switch(net, base, on);
    var b := Switch(net, base, on + {lost});
    ShowsPart(a, on, NetTested(net), OnAround(net, lost), NetTested(net) - {lost});
    ShowsPart(b, on + {lost}, NetTested(net), OnAround(net, lost), NetTested(net) - {lost});
    Hangs(net, lost, a);
    Hangs(net, lost, b);
    assert Agree(b, a, NetTested(net) - {lost});
    RunsBlind(st.(img := a), net, b);
    assert st.(img := a).(img := b) == st.(img := b);
    img := if DoAll(st.(img := a), Compile(net)).result != Value(net, a) then a else b;
  }

  /** The result of a network is right. */
  predicate ResultRight(st: State, net: Net) {
    DoAll(st, Compile(net)).result == (Gate(st.stl) && Value(net, st.img))
  }

  /** Exactly when a network that tests no device twice leaves the right result in every state with h entries on the
      block stack: when its blocks fit in the others. */
  lemma NetResultExact(net: Net, h: nat)
    requires h < 16 && ReadOnce(net) && AllSettable(net)
    ensures (forall st: State :: |st.block| == h ==> ResultRight(st, net)) <==> h + Need(net) <= 16
  {
    hide DoAll, Compile, Value, Need, ReadOnce, AllSettable;
    if h + Need(net) <= STACK_DEPTH {
      forall st: State | |st.block| == h
        ensures ResultRight(st, net)
      {
        NetRuns(st, net);
      }
    } else {
      var st := Begin(false, {}, 0, BLANK).(block := Repeat(false, h));
      var img := Misread(st, net, BLANK);
      assert !ResultRight(st.(img := img), net);
    }
  }
}
