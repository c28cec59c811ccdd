/** CALL and SRET: when a subroutine is executed, which code that is, and where the program goes on. */
module Calls {
  import opened Words
  import opened Devices
  import opened Timers
  import opened Instructions
  import opened Ladder
  import opened LadderScan
  import opened Listing
  import opened Networks
  import opened Branches
  import opened Programs
  import opened Rungs

  // ------------------------------------------------------------- the words

  /** CALL P and its two operand words. */
  predicate IsCall(code: Code, off: nat, pointer: nat) {
    pointer < 128 && Fetch(code, off) == 0x0012 && Fetch(code, off + 2) == 0x8800 + 2 * pointer
    && Fetch(code, off + 4) / 256 == 0x80
  }

  predicate IsSret(code: Code, off: nat) { Fetch(code, off) == 0x0014 }

  /** The first word of the program, in program order, that marks subroutine P. */
  predicate FirstMarker(code: Code, pointer: nat, at: nat) {
    && 0x5C <= at && at + 1 < PROGRAM_BYTES && at % 2 == 0 && Fetch(code, at) == 0xB000 + pointer
    && NoneBefore(code, pointer, at)
  }

  predicate NoneBefore(code: Code, pointer: nat, end: nat) {
    forall q :: 0x5C <= q < end && q % 2 == 0 ==> Fetch(code, q) != 0xB000 + pointer
  }

  /** There is no such word, or nothing follows it. */
  predicate NoSubroutine(code: Code, pointer: nat) {
    NoneBefore(code, pointer, PROGRAM_BYTES - 2)
  }

  lemma CallDecodes(code: Code, off: nat, pointer: nat)
    requires IsCall(code, off, pointer)
    ensures Decode(code, off) == Decoded(Call(Some(pointer)), off + 6)
  {
    hide Fetch, ParseApplied;
    assert ParseApplied(code, 0x12, off + 2) == None by { NotApplied(code, off + 2); }
  }

  lemma NotApplied(code: Code, p: nat)
    ensures ParseApplied(code, 0x12, p) == None && ParseApplied(code, 0x14, p) == None
  {
  }

  lemma SretDecodes(code: Code, off: nat)
    requires IsSret(code, off)
    ensures Decode(code, off) == Decoded(Sret, off + 2)
  {
    hide Fetch, ParseApplied;
    NotApplied(code, off + 2);
  }

  lemma Found(code: Code, pointer: Byte, at: nat)
    requires FirstMarker(code, pointer, at)
    ensures FindSubroutine(code, pointer) == at + 2
  {
    hide Fetch, FindMarker;
    var m := FindMarker(code, 0xB000 + pointer, CODE_OFFSET);
  }

  lemma NotFound(code: Code, pointer: Byte)
    requires NoSubroutine(code, pointer)
    ensures FindSubroutine(code, pointer) >= PROGRAM_BYTES
  {
    hide Fetch, FindMarker;
    var m := FindMarker(code, 0xB000 + pointer, CODE_OFFSET);
  }

  // ------------------------------------------------------ one CALL, one SRET

  /** A CALL is taken with power, right after an OUT, and anywhere inside STL. */
  predicate Taken(st: State) { st.result || st.outputJust || st.stl.active }

  /** What a CALL does: the word after its marker is next and the word after its operands is remembered; without power
      it goes on after its operands; a subroutine that is not there is refused, and so is a ninth nested call. */
  lemma CallExact(code: Code, ticks: Ticks, st: State, pointer: nat, at: nat)
    requires IsCall(code, st.off, pointer)
    ensures var after, next := Step(code, ticks, st), GoOn(st, st.off + 6);
            && (FirstMarker(code, pointer, at) && at + 2 < PROGRAM_BYTES ==>
                  after == (if !Taken(st) then next
                            else if |st.calls| < 8 then next.(off := at + 2, calls := st.calls + [st.off + 6])
                            else Refused(next, 0x0012)))
            && (NoSubroutine(code, pointer) ==> after == Refused(next, 0x0012))
  {
    assert pointer < 128;
    hide Decode, FindSubroutine, FirstMarker, NoSubroutine, Fetch, Step, IsCall, ExecCall;
    StepIsCall(code, ticks, st, pointer);
    if FirstMarker(code, pointer, at) && at + 2 < PROGRAM_BYTES {
      Found(code, pointer, at);
      CallTo(code, st, pointer);
    }
    if NoSubroutine(code, pointer) {
      NotFound(code, pointer);
      CallTo(code, st, pointer);
    }
  }

  lemma StepIsCall(code: Code, ticks: Ticks, st: State, pointer: nat)
    requires IsCall(code, st.off, pointer)
    ensures Step(code, ticks, st) == ExecCall(code, GoOn(st, st.off + 6), Some(pointer), st.outputJust, 0x0012)
  {
    CallDecodes(code, st.off, pointer);
    hide Decode, Fetch, ExecCall;
  }

  lemma CallTo(code: Code, st: State, pointer: Byte)
    ensures var next, target := GoOn(st, st.off + 6), FindSubroutine(code, pointer);
            ExecCall(code, next, Some(pointer), st.outputJust, 0x0012) ==
            if target >= PROGRAM_BYTES || (Taken(st) && |st.calls| >= 8) then Refused(next, 0x0012)
            else if Taken(st) then next.(off := target, calls := st.calls + [st.off + 6])
            else next
  {
    hide FindSubroutine;
  }

  /** A CALL whose operands are not those of a pointer is refused. */
  lemma BadCallRefused(code: Code, ticks: Ticks, st: State)
    requires var lo, hi := Fetch(code, st.off + 2), Fetch(code, st.off + 4);
             Fetch(code, st.off) == 0x0012 && !(lo / 256 == 0x88 && lo % 2 == 0 && hi / 256 == 0x80)
    ensures Step(code, ticks, st) == Refused(GoOn(st, st.off + 6), 0x0012)
  {
    BadCallDecodes(code, st.off);
    hide Decode, Fetch, FindSubroutine;
  }

  lemma BadCallDecodes(code: Code, off: nat)
    requires var lo, hi := Fetch(code, off + 2), Fetch(code, off + 4);
             Fetch(code, off) == 0x0012 && !(lo / 256 == 0x88 && lo % 2 == 0 && hi / 256 == 0x80)
    ensures Decode(code, off) == Decoded(Call(None), off + 6)
  {
    hide Fetch, ParseApplied;
    NotApplied(code, off + 2);
  }

  /** SRET goes back to the word after the latest CALL; without one it is refused. */
  lemma SretExact(code: Code, ticks: Ticks, st: State)
    requires IsSret(code, st.off)
    ensures var after, next, n := Step(code, ticks, st), GoOn(st, st.off + 2), |st.calls|;
            after == if n == 0 then Refused(next, 0x0014)
                     else next.(off := st.calls[n - 1], calls := st.calls[..n - 1])
  {
    SretDecodes(code, st.off);
    hide Decode, Fetch;
  }

  // ------------------------------------------------- a whole subroutine

  /** Listings work the same wherever they stand and whatever is called. */
  lemma DoAnywhere(st: State, instr: SimpleInstr, off: nat, calls: seq<nat>)
    ensures Do(st.(off := off, calls := calls), instr) == Do(st, instr).(off := off + 2, calls := calls)
  {
    hide Do;
    if instr.Contact? {
      ContactAnywhere(st, instr, off, calls);
    } else if instr.StlStep? || instr.Ret? {
      StepAnywhere(st, instr, off, calls);
    } else if instr.Out? || instr.Set? || instr.Rst? {
      CoilAnywhere(st, instr, off, calls);
    } else {
      StackAnywhere(st, instr, off, calls);
    }
  }

  lemma ContactAnywhere(st: State, instr: SimpleInstr, off: nat, calls: seq<nat>)
    requires instr.Contact?
    ensures Do(st.(off := off, calls := calls), instr) == Do(st, instr).(off := off + 2, calls := calls)
  {
    hide Do, ReadBit, Push;
    DoContact(st, instr.join, instr.negated, instr.dev);
    DoContact(st.(off := off, calls := calls), instr.join, instr.negated, instr.dev);
  }

  lemma StackAnywhere(st: State, instr: SimpleInstr, off: nat, calls: seq<nat>)
    requires instr.Mps? || instr.Mrd? || instr.Mpp? || instr.Anb? || instr.Orb?
    ensures Do(st.(off := off, calls := calls), instr) == Do(st, instr).(off := off + 2, calls := calls)
  {
    hide Do, Push;
    DoStack(st, instr);
    DoStack(st.(off := off, calls := calls), instr);
  }

  lemma StepAnywhere(st: State, instr: SimpleInstr, off: nat, calls: seq<nat>)
    requires instr.StlStep? || instr.Ret?
    ensures Do(st.(off := off, calls := calls), instr) == Do(st, instr).(off := off + 2, calls := calls)
  {
    hide Encode, ExecContact, ExecOut, ExecSet, ExecRst, ExecStack;
  }

  lemma CoilAnywhere(st: State, instr: SimpleInstr, off: nat, calls: seq<nat>)
    requires instr.Out? || instr.Set? || instr.Rst?
    ensures Do(st.(off := off, calls := calls), instr) == Do(st, instr).(off := off + 2, calls := calls)
  {
    hide Encode, ExecContact, ExecStl, ExecRet, ExecStack, WriteBit, RstEffect;
  }

  lemma {:induction false} DoAllAnywhere(st: State, listing: seq<SimpleInstr>, off: nat, calls: seq<nat>)
    ensures DoAll(st.(off := off, calls := calls), listing) ==
            DoAll(st, listing).(off := off + 2 * |listing|, calls := calls)
    decreases |listing|
  {
    hide Do;
    if listing != [] {
      DoAnywhere(st, listing[0], off, calls);
      DoAllAnywhere(Do(st, listing[0]), listing[1..], off + 2, calls);
    }
  }

  /** The subroutine P: a marker, its body and SRET. */
  predicate Subroutine(code: Code, pointer: nat, at: nat, body: seq<SimpleInstr>) {
    && FirstMarker(code, pointer, at) && At(code, at + 2, body)
    && at + 2 + 2 * |body| + 2 <= PROGRAM_BYTES && IsSret(code, at + 2 + 2 * |body|)
  }

  /** The state after a CALL and, if it is taken, its body and SRET. */
  function Called(st: State, body: seq<SimpleInstr>): State {
    var next := GoOn(st, st.off + 6);
    if Taken(st) then GoOn(DoAll(next, body), st.off + 6) else next
  }

  lemma {:induction false} StepsAdd(code: Code, ticks: Ticks, st: State, m: nat, n: nat)
    ensures Steps(code, ticks, st, m + n) == Steps(code, ticks, Steps(code, ticks, st, m), n)
    decreases m
  {
    hide Step;
    if m > 0 && Running(st) {
      StepsAdd(code, ticks, Step(code, ticks, st), m - 1, n);
    } else if m > 0 {
      assert Steps(code, ticks, st, n) == st;
    }
  }

  /** CALL executes the body on the devices as they are, and the program goes on after the operands with the devices the
      body left; a CALL that is not taken changes nothing. */
  lemma CallRuns(code: Code, ticks: Ticks, st: State, pointer: nat, at: nat, body: seq<SimpleInstr>)
    requires IsCall(code, st.off, pointer) && Subroutine(code, pointer, at, body)
    requires !st.halted && st.off + 6 <= PROGRAM_BYTES && |st.calls| < 8
    ensures Steps(code, ticks, st, if Taken(st) then |body| + 2 else 1) == Called(st, body)
  {
    hide Step, At, DoAll, IsCall, IsSret, FirstMarker;
    CallExact(code, ticks, st, pointer, at);
    var one := Step(code, ticks, st);
    assert Steps(code, ticks, st, 1) == one by { OneStep(code, ticks, st); }
    if Taken(st) {
      var next := GoOn(st, st.off + 6);
      var calls := st.calls + [st.off + 6];
      assert one == next.(off := at + 2, calls := calls);
      DoAllAnywhere(next, body, at + 2, calls);
      ListingRuns(code, ticks, one, body);
      var two := DoAll(one, body);
      DoAllMovesOn(next, body);
      SretExact(code, ticks, two);
      OneStep(code, ticks, two);
      StepsAdd(code, ticks, st, 1, |body|);
      StepsAdd(code, ticks, st, 1 + |body|, 1);
      assert calls[..|calls| - 1] == st.calls;
    }
  }

  lemma OneStep(code: Code, ticks: Ticks, st: State)
    requires Running(st)
    ensures Steps(code, ticks, st, 1) == Step(code, ticks, st)
  {
    hide Step;
    assert Steps(code, ticks, Step(code, ticks, st), 0) == Step(code, ticks, st);
  }

  // ------------------------------------------------------ a whole program

  /** Main listing, CALL P, more, END; somewhere behind it the subroutine. */
  predicate Program(code: Code, main: seq<SimpleInstr>, pointer: nat, rest: seq<SimpleInstr>) {
    var o := CODE_OFFSET + 2 * |main|;
    && At(code, CODE_OFFSET, main) && IsCall(code, o, pointer) && At(code, o + 6, rest)
    && o + 6 + 2 * |rest| + 2 <= PROGRAM_BYTES && Fetch(code, o + 6 + 2 * |rest|) == 0x000F
  }

  /** The rest of the program, from wherever the first part of it got to. */
  lemma RestRuns(code: Code, ticks: Ticks, st: State, n: nat, rest: seq<SimpleInstr>)
    requires st.calls == [] && var mid := Steps(code, ticks, st, n);
             && !mid.halted && mid.calls == [] && At(code, mid.off, rest) && mid.off + 2 * |rest| + 2 <= PROGRAM_BYTES
             && Fetch(code, mid.off + 2 * |rest|) == 0x000F
    ensures var end := DoAll(Steps(code, ticks, st, n), rest);
            RunLoop(code, ticks, st).img == end.img && RunLoop(code, ticks, st).stl.queued == end.stl.queued
  {
    hide Step, At, Fetch, Rank, DoAll, Running, Steps;
    var mid := Steps(code, ticks, st, n);
    RunLoopAfter(code, ticks, st, n);
    ListingRuns(code, ticks, mid, rest);
    DoAllMovesOn(mid, rest);
    var done := DoAll(mid, rest);
    EndHalts(code, ticks, done);
    RunLoopAfter(code, ticks, mid, |rest|);
    StopsAfter(code, ticks, done);
  }

  /** A scan executes the main listing, the subroutine if the CALL is taken, and the rest. */
  lemma SubroutineScan(code: Code, ticks: Ticks, first: bool, edges: set<nat>, lastBad: Word, img: Image,
        main: seq<SimpleInstr>, pointer: nat, at: nat, body: seq<SimpleInstr>, rest: seq<SimpleInstr>)
    requires Program(code, main, pointer, rest) && Subroutine(code, pointer, at, body)
    ensures var end := DoAll(Called(DoAll(Begin(first, edges, lastBad, img), main), body), rest);
            Scan(code, ticks, first, edges, lastBad, img).img == ClearQueued(end.img, end.stl.queued)
  {
    hide Step, At, Fetch, DoAll, ClearQueued, RunLoop, Subroutine, IsCall, Steps;
    var st := Begin(first, edges, lastBad, img);
    var s := DoAll(st, main);
    ListingRuns(code, ticks, st, main);
    DoAllMovesOn(st, main);
    CallRuns(code, ticks, s, pointer, at, body);
    CalledGoesOn(s, body);
    StepsAdd(code, ticks, st, |main|, if Taken(s) then |body| + 2 else 1);
    RestRuns(code, ticks, st, |main| + if Taken(s) then |body| + 2 else 1, rest);
  }

  lemma CalledGoesOn(st: State, body: seq<SimpleInstr>)
    ensures var after := Called(st, body);
            after.off == st.off + 6 && after.halted == st.halted && after.calls == st.calls
  {
    hide DoAll;
    DoAllMovesOn(GoOn(st, st.off + 6), body);
  }

  /** Without the subroutine a scan reports the CALL and executes the rest. */
  lemma MissingScan(code: Code, ticks: Ticks, first: bool, edges: set<nat>, lastBad: Word, img: Image,
        main: seq<SimpleInstr>, pointer: nat, rest: seq<SimpleInstr>)
    requires Program(code, main, pointer, rest) && NoSubroutine(code, pointer)
    ensures var s := DoAll(Begin(first, edges, lastBad, img), main);
            var end := DoAll(Refused(GoOn(s, s.off + 6), 0x0012), rest);
            Scan(code, ticks, first, edges, lastBad, img).img == ClearQueued(end.img, end.stl.queued)
  {
    hide Step, At, Fetch, DoAll, ClearQueued, RunLoop, NoSubroutine, IsCall, Steps;
    var st := Begin(first, edges, lastBad, img);
    var s := DoAll(st, main);
    ListingRuns(code, ticks, st, main);
    DoAllMovesOn(st, main);
    CallExact(code, ticks, s, pointer, 0);
    OneStep(code, ticks, s);
    StepsAdd(code, ticks, st, |main|, 1);
    RestRuns(code, ticks, st, |main| + 1, rest);
  }

  // ------------------------------------------- subroutines made of rungs

  /** Between rungs; the block stack may still hold what an unfinished rung left on it. */
  predicate Follow(st: State, rungs: seq<Rung>) {
    && st.branch == [] && st.stl == OUTSIDE && AllFit(rungs)
    && (rungs == [] || |st.block| + Need(rungs[0].net) <= STACK_DEPTH)
  }

  lemma RungsFollow(st: State, rungs: seq<Rung>)
    requires Follow(st, rungs)
    ensures var after := DoAll(st, RungsCode(rungs));
            && after.img == RungsEffect(rungs, st.img) && after.branch == [] && after.stl == OUTSIDE
            && (if rungs == [] then after == st else after.block == [] && after.outputJust)
  {
    if rungs == [] {
      DoNone(st);
    } else {
      assert AllFit(rungs[1..]) && Fits(rungs[0]);
      hide DoAll, RungCode, RungEffect, Fits, AllFit;
      DoAllAppend(st, RungCode(rungs[0]), RungsCode(rungs[1..]));
      RungFollows(st, rungs[0]);
      RungsFollowIdle(DoAll(st, RungCode(rungs[0])), rungs[1..]);
    }
  }

  lemma {:induction false} RungsFollowIdle(st: State, rungs: seq<Rung>)
    requires AllFit(rungs) && Idle(st) && st.outputJust
    ensures var after := DoAll(st, RungsCode(rungs));
            Idle(after) && after.outputJust && after.img == RungsEffect(rungs, st.img)
    decreases |rungs|
  {
    if rungs == [] {
      DoNone(st);
    } else {
      assert AllFit(rungs[1..]) && Fits(rungs[0]);
      hide DoAll, RungCode, RungEffect, Fits, AllFit;
      DoAllAppend(st, RungCode(rungs[0]), RungsCode(rungs[1..]));
      assert |st.block| == 0;
      RungFollows(st, rungs[0]);
      RungsFollowIdle(DoAll(st, RungCode(rungs[0])), rungs[1..]);
    }
  }

  lemma RungFollows(st: State, rung: Rung)
    requires Fits(rung) && st.branch == [] && st.stl == OUTSIDE && |st.block| + Need(rung.net) <= STACK_DEPTH
    ensures var after := DoAll(st, RungCode(rung));
            Idle(after) && after.outputJust && after.img == RungEffect(rung, st.img)
  {
    hide DoAll, Networks.Compile, Branches.Compile, Need, Nest, Value, Energize;
    var powered := AfterNet(st, rung.net);
    DoAllAppend(st, Networks.Compile(rung.net), Branches.Compile(rung.tree));
    NetRuns(st, rung.net);
    TreeRuns(powered, rung.tree);
    StaysOutside(rung.tree, powered.result, Effect(st.img, OUTSIDE));
  }

  /** Rungs that may follow a network without a coil: its left-over block-stack entry costs the first one a place. */
  predicate FitAfterCall(rungs: seq<Rung>) { AllFit(rungs) && (rungs != [] ==> 1 + Need(rungs[0].net) <= STACK_DEPTH) }

  /** A CALL outside STL of a subroutine made of rungs. */
  lemma CalledRungs(st: State, body: seq<Rung>)
    requires Follow(st, body)
    ensures var after := Called(st, RungsCode(body));
            && after.img == (if Taken(st) then RungsEffect(body, st.img) else st.img)
            && after.branch == [] && after.stl == OUTSIDE && (after.block == st.block || after.block == [])
  {
    hide DoAll, RungsCode, RungsEffect, AllFit;
    if Taken(st) {
      RungsFollow(GoOn(st, st.off + 6), body);
    }
  }

  /** LD network, CALL P: the subroutine's rungs are solved exactly when the network has power, then the rest, each on
      the devices left by the ones before. */
  lemma CallScan(code: Code, ticks: Ticks, first: bool, edges: set<nat>, lastBad: Word, img: Image, net: Net,
        pointer: nat, at: nat, body: seq<Rung>, rest: seq<Rung>)
    requires Program(code, Networks.Compile(net), pointer, RungsCode(rest))
    requires Subroutine(code, pointer, at, RungsCode(body))
    requires Need(net) <= STACK_DEPTH && FitAfterCall(body) && FitAfterCall(rest)
    ensures Scan(code, ticks, first, edges, lastBad, img).img ==
            RungsEffect(rest, if Value(net, img) then RungsEffect(body, img) else img)
  {
    hide Program, Subroutine, DoAll, Networks.Compile, RungsCode, RungsEffect, Scan, ClearQueued, Value, Need, AllFit,
         Called;
    var st := Begin(first, edges, lastBad, img);
    var s := AfterNet(st, net);
    SubroutineScan(code, ticks, first, edges, lastBad, img, Networks.Compile(net), pointer, at, RungsCode(body),
                   RungsCode(rest));
    NetRuns(st, net);
    CalledRungs(s, body);
    var called := Called(s, RungsCode(body));
    RungsFollow(called, rest);
    NothingQueued(DoAll(called, RungsCode(rest)).img);
  }

  /** A CALL right after a coil is taken with and without power. */
  lemma CallAfterCoilScan(code: Code, ticks: Ticks, first: bool, edges: set<nat>, lastBad: Word, img: Image,
        main: seq<Rung>, pointer: nat, at: nat, body: seq<Rung>, rest: seq<Rung>)
    requires Program(code, RungsCode(main), pointer, RungsCode(rest))
    requires Subroutine(code, pointer, at, RungsCode(body))
    requires main != [] && AllFit(main) && AllFit(body) && AllFit(rest)
    ensures Scan(code, ticks, first, edges, lastBad, img).img ==
            RungsEffect(rest, RungsEffect(body, RungsEffect(main, img)))
  {
    hide Program, Subroutine, DoAll, RungsCode, RungsEffect, Scan, ClearQueued, Called;
    var st := Begin(first, edges, lastBad, img);
    EmptyStackFollows(st, main);
    var s := DoAll(st, RungsCode(main));
    SubroutineScan(code, ticks, first, edges, lastBad, img, RungsCode(main), pointer, at, RungsCode(body),
                   RungsCode(rest));
    RungsFollow(st, main);
    EmptyStackFollows(s, body);
    CalledRungs(s, body);
    var called := Called(s, RungsCode(body));
    EmptyStackFollows(called, rest);
    RungsFollow(called, rest);
    NothingQueued(DoAll(called, RungsCode(rest)).img);
  }

  lemma EmptyStackFollows(st: State, rungs: seq<Rung>)
    requires st.branch == [] && st.stl == OUTSIDE && st.block == [] && AllFit(rungs)
    ensures Follow(st, rungs)
  {
  }

  /** ... and so is one inside an STL step, active or not. */
  lemma CallInStep(st: State, main: seq<SimpleInstr>, n: Byte)
    ensures Taken(DoAll(st, main + [StlStep(n)]))
  {
    hide DoAll, Encode;
    DoAllAppend(st, main, [StlStep(n)]);
    DoOne(DoAll(st, main), StlStep(n));
  }

  /** Such programs exist: the words in front of the subroutine are never taken for its marker. */
  lemma LoadProgram(main: seq<SimpleInstr>, pointer: nat, body: seq<SimpleInstr>, rest: seq<SimpleInstr>)
      returns (code: Code, at: nat)
    requires pointer < 128 && CODE_OFFSET + 2 * (|main| + |rest| + |body|) + 12 <= PROGRAM_BYTES
    ensures Program(code, main, pointer, rest) && Subroutine(code, pointer, at, body)
  {
    var call := [0x0012, 0x8800 + 2 * pointer, 0x8000];
    var front := EncodeAll(main) + call + EncodeAll(rest) + [0x000F];
    var back := [0xB000 + pointer] + EncodeAll(body) + [0x0014];
    hide Encode, Fetch, Assemble, EncodeAll, Holds;
    code := Assemble(front + back);
    at := CODE_OFFSET + 2 * |front|;
    AssembleHolds(front + back);
    HoldsParts(code, CODE_OFFSET, front, back);
    FrontHolds(code, main, pointer, rest);
    HoldsParts(code, at, [0xB000 + pointer] + EncodeAll(body), [0x0014]);
    HoldsParts(code, at, [0xB000 + pointer], EncodeAll(body));
    HoldsOne(code, at, 0xB000 + pointer);
    HoldsOne(code, at + 2 + 2 * |body|, 0x0014);
    HoldsListing(code, at + 2, body);
    FrontHasNone(code, main, pointer, rest);
  }

  predicate Holds(code: Code, off: nat, words: seq<Word>) {
    forall i: nat :: i < |words| ==> Fetch(code, off + 2 * i) == words[i]
  }

  lemma AssembleHolds(words: seq<Word>)
    requires CODE_OFFSET + 2 * |words| <= PROGRAM_BYTES
    ensures Holds(Assemble(words), CODE_OFFSET, words)
  {
    hide Fetch, Assemble;
    forall i: nat | i < |words|
      ensures Fetch(Assemble(words), CODE_OFFSET + 2 * i) == words[i]
    {
      AssembleFetch(words, i);
    }
  }

  lemma HoldsParts(code: Code, off: nat, a: seq<Word>, b: seq<Word>)
    requires Holds(code, off, a + b)
    ensures Holds(code, off, a) && Holds(code, off + 2 * |a|, b)
  {
    hide Fetch;
    forall i: nat | i < |a|
      ensures Fetch(code, off + 2 * i) == a[i]
    {
      assert (a + b)[i] == a[i];
    }
    forall i: nat | i < |b|
      ensures Fetch(code, off + 2 * |a| + 2 * i) == b[i]
    {
      assert (a + b)[|a| + i] == b[i] && off + 2 * |a| + 2 * i == off + 2 * (|a| + i);
    }
  }

  lemma HoldsOne(code: Code, off: nat, word: Word)
    requires Holds(code, off, [word])
    ensures Fetch(code, off) == word
  {
    hide Fetch;
    assert Fetch(code, off + 2 * 0) == [word][0];
  }

  lemma HoldsListing(code: Code, off: nat, listing: seq<SimpleInstr>)
    requires Holds(code, off, EncodeAll(listing)) && off + 2 * |listing| <= PROGRAM_BYTES
    ensures At(code, off, listing)
  {
    hide Fetch, Encode;
    forall i: nat | i < |listing|
      ensures Fetch(code, off + 2 * i) == Encode(listing[i])
    {
      assert EncodeAll(listing)[i] == Encode(listing[i]);
    }
  }

  lemma FrontHolds(code: Code, main: seq<SimpleInstr>, pointer: nat, rest: seq<SimpleInstr>)
    requires pointer < 128 && CODE_OFFSET + 2 * (|main| + |rest|) + 8 <= PROGRAM_BYTES
    requires Holds(code, CODE_OFFSET,
                   EncodeAll(main) + [0x0012, 0x8800 + 2 * pointer, 0x8000] + EncodeAll(rest) + [0x000F])
    ensures Program(code, main, pointer, rest)
  {
    var call: seq<Word> := [0x0012, 0x8800 + 2 * pointer, 0x8000];
    var o := CODE_OFFSET + 2 * |main|;
    hide Encode, Fetch, EncodeAll, Holds;
    HoldsParts(code, CODE_OFFSET, EncodeAll(main) + call + EncodeAll(rest), [0x000F]);
    HoldsParts(code, CODE_OFFSET, EncodeAll(main) + call, EncodeAll(rest));
    HoldsParts(code, CODE_OFFSET, EncodeAll(main), call);
    HoldsListing(code, CODE_OFFSET, main);
    HoldsListing(code, o + 6, rest);
    HoldsOne(code, o + 6 + 2 * |rest|, 0x000F);
    assert call == [0x0012] + [0x8800 + 2 * pointer] + [0x8000];
    HoldsParts(code, o, [0x0012] + [0x8800 + 2 * pointer], [0x8000]);
    HoldsParts(code, o, [0x0012], [0x8800 + 2 * pointer]);
    HoldsOne(code, o, 0x0012);
    HoldsOne(code, o + 2, 0x8800 + 2 * pointer);
    HoldsOne(code, o + 4, 0x8000);
  }

  lemma FrontHasNone(code: Code, main: seq<SimpleInstr>, pointer: nat, rest: seq<SimpleInstr>)
    requires pointer < 128 && Program(code, main, pointer, rest)
    ensures NoneBefore(code, pointer, CODE_OFFSET + 2 * |main| + 8 + 2 * |rest|)
  {
    hide Encode;
    var m, r := |main|, |rest|;
    forall q | 0x5C <= q < CODE_OFFSET + 2 * m + 8 + 2 * r && q % 2 == 0
      ensures Fetch(code, q) != 0xB000 + pointer
    {
      var i := (q - CODE_OFFSET) / 2;
      assert q == CODE_OFFSET + 2 * i;
      hide Fetch;
      if i < m {
        assert Fetch(code, CODE_OFFSET + 2 * i) == Encode(main[i]);
        NeverMarker(main[i], pointer);
      } else if m + 3 <= i < m + 3 + r {
        assert Fetch(code, CODE_OFFSET + 2 * m + 6 + 2 * (i - m - 3)) == Encode(rest[i - m - 3]);
        NeverMarker(rest[i - m - 3], pointer);
      }
    }
  }

  lemma NeverMarker(instr: SimpleInstr, pointer: nat)
    requires pointer < 128
    ensures Encode(instr) != 0xB000 + pointer
  {
  }
}
