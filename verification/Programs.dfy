/** A listing followed by END as a whole program: how it is loaded, and what a scan of it does. */
module Programs {
  import opened Words
  import opened Devices
  import opened Timers
  import opened Instructions
  import opened Ladder
  import opened LadderScan
  import opened Listing

  /** Program memory holds the listing and END. */
  predicate Loaded(code: Code, listing: seq<SimpleInstr>) {
    && At(code, CODE_OFFSET, listing)
    && CODE_OFFSET + 2 * |listing| + 2 <= PROGRAM_BYTES
    && Fetch(code, CODE_OFFSET + 2 * |listing|) == 0x000F
  }

  /** Any listing that fits can be loaded. */
  lemma Load(listing: seq<SimpleInstr>) returns (code: Code)
    requires CODE_OFFSET + 2 * |listing| + 2 <= PROGRAM_BYTES
    ensures Loaded(code, listing)
  {
    hide Encode, Fetch, Assemble;
    var words := EncodeAll(listing) + [0x000F];
    code := Assemble(words);
    forall i: nat | i < |words|
      ensures Fetch(code, CODE_OFFSET + 2 * i) == words[i]
    {
      AssembleFetch(words, i);
    }
    assert words[|listing|] == 0x000F;
    assert forall i: nat :: i < |listing| ==> words[i] == Encode(listing[i]);
  }

  /** A scan starts with the rung off: a coil in front of every contact goes off, and nothing else changes. */
  lemma StartsDark(code: Code, ticks: Ticks, first: bool, edges: set<nat>, lastBad: Word, img: Image, coil: SimpleInstr,
        dev: Byte, m: Byte)
    requires coil.Out? && Loaded(code, [coil])
    ensures ReadBit(Scan(code, ticks, first, edges, lastBad, img).img, dev, m) ==
            (ReadBit(img, dev, m) && !(Dev(dev, m) == coil.dev && Writable(dev, m)))
  {
    var st := Begin(first, edges, lastBad, img);
    ListingScan(code, ticks, first, edges, lastBad, img, [coil]);
    DoOneCoil(st, coil);
    ReadOverWriteBit(img, coil.dev.kind, coil.dev.num, false, dev, m);
    hide Scan, ReadBit, WriteBit, Writable, Loaded;
    var after := WriteBit(img, coil.dev.kind, coil.dev.num, false);
    assert ClearQueued(after, {}) == after;
  }

  lemma DoOneCoil(st: State, coil: SimpleInstr)
    requires coil.Out? && !st.stl.active
    ensures var after := DoAll(st, [coil]);
            after.img == WriteBit(st.img, coil.dev.kind, coil.dev.num, st.result) && after.stl.queued == st.stl.queued
  {
    hide WriteBit;
    assert [coil][1..] == [] && [coil][..0] == [];
  }

  lemma EndHalts(code: Code, ticks: Ticks, st: State)
    requires !st.halted && Fetch(code, st.off) == 0x000F
    ensures var after := Step(code, ticks, st);
            after.halted && after.img == st.img && after.stl.queued == st.stl.queued && after.calls == st.calls
  {
    hide Fetch, ExecApplied, ExecSftl, ExecAbsd, ExecDeco, ExecZrst, ExecMov, ExecMovBits, ExecCall, ExecSret;
    hide ExecStl, ExecRet, ExecContact, ExecCompare, ExecStack, ExecOut, ExecSet, ExecSetState, ExecRst, ExecPulse;
  }

  lemma StopsAfter(code: Code, ticks: Ticks, st: State)
    requires st.calls == [] && st.off + 2 <= PROGRAM_BYTES && !st.halted
    requires Step(code, ticks, st).halted && Step(code, ticks, st).calls == []
    ensures RunLoop(code, ticks, st) == Step(code, ticks, st)
  {
    hide Step, Rank;
  }

  /** A scan of a loaded listing executes it from the start state, then clears the queued states. */
  lemma ListingScan(code: Code, ticks: Ticks, first: bool, edges: set<nat>, lastBad: Word, img: Image,
        listing: seq<SimpleInstr>)
    requires Loaded(code, listing)
    ensures var end := DoAll(Begin(first, edges, lastBad, img), listing);
            Scan(code, ticks, first, edges, lastBad, img).img == ClearQueued(end.img, end.stl.queued)
  {
    var st := Begin(first, edges, lastBad, img);
    hide Step, Do, ClearQueued, At, Fetch, Rank, DoAll, Running;
    ListingRuns(code, ticks, st, listing);
    DoAllMovesOn(st, listing);
    var done := DoAll(st, listing);
    EndHalts(code, ticks, done);
    RunLoopAfter(code, ticks, st, |listing|);
    StopsAfter(code, ticks, done);
  }

  lemma NothingQueued(img: Image)
    ensures ClearQueued(img, {}) == img
  {
    assert ClearQueued(img, {}).s == img.s;
  }
}
