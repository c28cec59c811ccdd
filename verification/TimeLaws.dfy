/** Time, timers and counters over arbitrarily many scans. */
module TimeLaws {
  import opened Words
  import opened Devices
  import opened Timers
  import opened ScanRuntime

  function Sum(deltas: seq<DWord>): nat {
    if deltas == [] then 0 else Sum(deltas[..|deltas| - 1]) + deltas[|deltas| - 1]
  }

  /** The clock after a run of scans, last scan last. */
  function ClockAfter(c: Clock, deltas: seq<DWord>): (after: Clock)
    requires Settled(c)
    ensures Settled(after)
  {
    if deltas == [] then c else Advance(ClockAfter(c, deltas[..|deltas| - 1]), deltas[|deltas| - 1])
  }

  /** The ticks of each base handed out by a run of scans. */
  function Handed(c: Clock, deltas: seq<DWord>): Ticks
    requires Settled(c)
  {
    if deltas == [] then Ticks(0, 0, 0)
    else
      var before := Handed(c, deltas[..|deltas| - 1]);
      var now := ClockAfter(c, deltas).ticks;
      Ticks(before.ms1 + now.ms1, before.ms10 + now.ms10, before.ms100 + now.ms100)
  }

  /** No scan takes so long that the 32-bit accumulator wraps. */
  predicate NoWrap(deltas: seq<DWord>) {
    forall i :: 0 <= i < |deltas| ==> deltas[i] < 0x1_0000_0000 - 1000
  }

  /** One scan hands out its whole milliseconds, and keeps the rest, exactly when the sum does not wrap. */
  lemma AdvanceExact(c: Clock, delta: DWord)
    requires Settled(c)
    ensures var after := Advance(c, delta);
            1000 * after.ticks.ms1 + after.accum == c.accum + delta <==> c.accum + delta < 0x1_0000_0000
  {
    var sum := (c.accum + delta) % 0x1_0000_0000;
    assert 1000 * (sum / 1000) + sum % 1000 == sum;
  }

  lemma AdvanceCarries(c: Clock, delta: DWord)
    requires Settled(c) && c.accum + delta < 0x1_0000_0000
    ensures var after := Advance(c, delta);
            && 1000 * after.ticks.ms1 + after.accum == c.accum + delta
            && 10 * after.ticks.ms10 + after.rem10 == c.rem10 + after.ticks.ms1
            && 100 * after.ticks.ms100 + after.rem100 == c.rem100 + after.ticks.ms1
            && Settled(after)
  {
    var ms := (c.accum + delta) / 1000;
    if ms > 0 {
      assert 10 * ((c.rem10 + ms) / 10) + (c.rem10 + ms) % 10 == c.rem10 + ms;
      assert 100 * ((c.rem100 + ms) / 100) + (c.rem100 + ms) % 100 == c.rem100 + ms;
    }
  }

  /** Tick accounting never drifts: what was handed out and what remains add up to the elapsed time. */
  lemma {:induction false} TicksConserved(c: Clock, deltas: seq<DWord>)
    requires Settled(c) && NoWrap(deltas)
    ensures var after := ClockAfter(c, deltas);
            var handed := Handed(c, deltas);
            && 1000 * handed.ms1 + after.accum == c.accum + Sum(deltas)
            && 10 * handed.ms10 + after.rem10 == c.rem10 + handed.ms1
            && 100 * handed.ms100 + after.rem100 == c.rem100 + handed.ms1
    decreases |deltas|
  {
    hide Advance;
    if deltas != [] {
      var n := |deltas| - 1;
      TicksConserved(c, deltas[..n]);
      AdvanceCarries(ClockAfter(c, deltas[..n]), deltas[n]);
    }
  }

  /** The free-running milliseconds, from which the clock relays are made, count the milliseconds handed out. */
  lemma {:induction false} ClockRuns(c: Clock, deltas: seq<DWord>)
    requires Settled(c) && c.ms < 0x1_0000_0000
    ensures ClockAfter(c, deltas).ms == (c.ms + Handed(c, deltas).ms1) % 0x1_0000_0000
    decreases |deltas|
  {
    if deltas != [] {
      var n := |deltas| - 1;
      var before := ClockAfter(c, deltas[..n]);
      ClockRuns(c, deltas[..n]);
      AdvanceClock(before, deltas[n]);
      hide Advance;
      SumWraps(c.ms + Handed(c, deltas[..n]).ms1, ClockAfter(c, deltas).ticks.ms1);
    }
  }

  lemma AdvanceClock(c: Clock, delta: DWord)
    requires Settled(c)
    ensures Advance(c, delta).ms == (c.ms + Advance(c, delta).ticks.ms1) % 0x1_0000_0000
  {
  }

  lemma SumWraps(a: nat, b: nat)
    ensures (a % 0x1_0000_0000 + b) % 0x1_0000_0000 == (a + b) % 0x1_0000_0000
  {
  }

  /** The phase of the 100 ms base when the run starts, in microseconds. */
  function Phase(c: Clock): nat { 1000 * c.rem100 + c.accum }

  /** Summed ticks are the floor of elapsed time plus the initial remainder, in every base. */
  lemma TicksAreFloor(c: Clock, deltas: seq<DWord>)
    requires Settled(c) && NoWrap(deltas)
    ensures var handed := Handed(c, deltas);
            && handed.ms1 == (c.accum + Sum(deltas)) / 1000
            && handed.ms10 == (1000 * c.rem10 + c.accum + Sum(deltas)) / 10_000
            && handed.ms100 == (Phase(c) + Sum(deltas)) / 100_000
  {
    hide Handed, ClockAfter, Sum;
    TicksConserved(c, deltas);
  }

  /** The failing family: one scan longer than the accumulator can hold loses 2^32 microseconds. */
  lemma LongScanLosesTime(c: Clock, delta: DWord)
    requires Settled(c) && c.accum + delta >= 0x1_0000_0000
    ensures var after := Advance(c, delta);
            1000 * after.ticks.ms1 + after.accum == c.accum + delta - 0x1_0000_0000
  {
    var sum := (c.accum + delta) % 0x1_0000_0000;
    assert sum == c.accum + delta - 0x1_0000_0000;
    assert 1000 * (sum / 1000) + sum % 1000 == sum;
  }

  // ------------------------------------------------------------ scan time

  /** The scan-time registers after scans of these lengths, of which the first is the first after STOP. */
  function ScanTimes(img: Image, tenths: seq<Word>): Image {
    if tenths == [] then img
    else WithScanTime(ScanTimes(img, tenths[..|tenths| - 1]), tenths[|tenths| - 1], |tenths| == 1)
  }

  function Longest(tenths: seq<Word>, floor: Word): Word {
    if tenths == [] then floor
    else
      var before := Longest(tenths[..|tenths| - 1], floor);
      if tenths[|tenths| - 1] > before then tenths[|tenths| - 1] else before
  }

  /** D8011 is the shortest scan since the last start; D8012 outlives STOP. */
  lemma {:induction false} ScanTimeLaw(img: Image, tenths: seq<Word>)
    requires tenths != []
    ensures var after := ScanTimes(img, tenths);
            && GetD(after, 8010) == tenths[|tenths| - 1]
            && GetD(after, 8011) in tenths && (forall t :: t in tenths ==> GetD(after, 8011) <= t)
            && (forall t :: t in tenths ==> t <= GetD(after, 8012))
            && GetD(after, 8012) == Longest(tenths, GetD(img, 8012))
    decreases |tenths|
  {
    var n := |tenths| - 1;
    ScanTimeStep(ScanTimes(img, tenths[..n]), tenths[n], n == 0);
    assert tenths == tenths[..n] + [tenths[n]];
    hide GetD, WithScanTime;
    if n > 0 {
      ScanTimeLaw(img, tenths[..n]);
    }
  }

  /** A scan of up to 6.5 s is recorded in whole tenths of a millisecond. */
  lemma TenthsLaw(startUs: nat, nowUs: nat)
    requires startUs <= nowUs < startUs + 6_553_600
    ensures 100 * ScanTenths(startUs, nowUs) <= nowUs - startUs < 100 * ScanTenths(startUs, nowUs) + 100
  {
  }

  lemma ScanTimeStep(img: Image, tenths: Word, first: bool)
    ensures var after := WithScanTime(img, tenths, first);
            && GetD(after, D_SCAN_TIME) == tenths
            && GetD(after, D_SCAN_MAX) == (if tenths > GetD(img, D_SCAN_MAX) then tenths else GetD(img, D_SCAN_MAX))
            && GetD(after, D_SCAN_MIN) ==
               (if first || tenths < GetD(img, D_SCAN_MIN) then tenths else GetD(img, D_SCAN_MIN))
  {
  }

  // ------------------------------------------------------------- counters

  /** Inputs of one execution of a counter coil: the rung and, for C200 up, the direction relay. */
  datatype Pulse = Pulse(on: bool, down: bool)

  function CounterAfter(c: Counter, wide: bool, preset: Int32, inputs: seq<Pulse>): Counter {
    if inputs == [] then c
    else
      var last := inputs[|inputs| - 1];
      Counted(CounterAfter(c, wide, preset, inputs[..|inputs| - 1]), wide, last.down, preset, last.on)
  }

  /** Input k is a rising edge; before the first execution the input counts as off. */
  predicate Rises(inputs: seq<Pulse>, k: nat)
    requires k < |inputs|
  {
    inputs[k].on && (k == 0 || !inputs[k - 1].on)
  }

  function Edges(inputs: seq<Pulse>): nat {
    if inputs == [] then 0
    else Edges(inputs[..|inputs| - 1]) + (if Rises(inputs, |inputs| - 1) then 1 else 0)
  }

  /** Up edges minus down edges. */
  function Net(inputs: seq<Pulse>): int {
    if inputs == [] then 0
    else
      Net(inputs[..|inputs| - 1])
      + (if !Rises(inputs, |inputs| - 1) then 0 else if inputs[|inputs| - 1].down then -1 else 1)
  }

  lemma {:induction false} CountsUp(c: Counter, preset: Int32, inputs: seq<Pulse>)
    requires IsReset(c)
    ensures var after := CounterAfter(c, false, preset, inputs);
            var edges := Edges(inputs);
            && after.current == (if edges < preset then edges else if preset > 0 then preset else 0)
            && (after.done <==> edges >= (if preset > 1 then preset else 1))
            && (inputs != [] ==> after.lastIn == inputs[|inputs| - 1].on)
            && (inputs == [] ==> !after.lastIn)
    decreases |inputs|
  {
    if inputs != [] {
      var n := |inputs| - 1;
      CountsUp(c, preset, inputs[..n]);
      assert n > 0 ==> inputs[..n][n - 1] == inputs[n - 1];
    }
  }

  /** The net count after each edge stays within 32 bits. */
  predicate InRange(inputs: seq<Pulse>) {
    forall k :: 0 <= k <= |inputs| ==> -0x8000_0000 <= Net(inputs[..k]) < 0x8000_0000
  }

  /** The net count as of the last edge reached the preset; nothing is reached before the first edge. */
  predicate ReachedAtLastEdge(inputs: seq<Pulse>, preset: Int32) {
    if inputs == [] then false
    else if Rises(inputs, |inputs| - 1) then Net(inputs) >= preset
    else ReachedAtLastEdge(inputs[..|inputs| - 1], preset)
  }

  lemma {:induction false} CountsBothWays(c: Counter, preset: Int32, inputs: seq<Pulse>)
    requires IsReset(c) && InRange(inputs)
    ensures var after := CounterAfter(c, true, preset, inputs);
            && after.current == Net(inputs)
            && after.done == ReachedAtLastEdge(inputs, preset)
            && (inputs != [] ==> after.lastIn == inputs[|inputs| - 1].on)
            && (inputs == [] ==> !after.lastIn)
    decreases |inputs|
  {
    if inputs != [] {
      var n := |inputs| - 1;
      var front := inputs[..n];
      assert InRange(front) by {
        forall k | 0 <= k <= n
          ensures -0x8000_0000 <= Net(front[..k]) < 0x8000_0000
        {
          assert front[..k] == inputs[..k];
        }
      }
      CountsBothWays(c, preset, front);
      assert inputs[..|inputs|] == inputs;
      assert n > 0 ==> front[n - 1] == inputs[n - 1];
    }
  }

  /** One execution of a counter coil: the devices it finds and the rung. */
  datatype Execution = Execution(img: Image, rung: bool)

  /** What an execution leaves in its counter. */
  function Left(e: Execution, idx: nat, preset: Int32): Counter
    requires idx < NUM_C
  {
    CounterDrive(e.img, idx, preset, e.rung).c[idx]
  }

  /** Executions of the coil of one counter from reset. Between two of them only that counter keeps its value;
      every other device, the direction relay included, may change. */
  predicate CounterRun(es: seq<Execution>, idx: nat, preset: Int32)
    requires idx < NUM_C
  {
    if es == [] then true
    else
      var n := |es| - 1;
      var c := es[n].img.c[idx];
      if n == 0 then IsReset(c) else CounterRun(es[..n], idx, preset) && c == Left(es[n - 1], idx, preset)
  }

  predicate IsReset(c: Counter) { c.current == 0 && !c.done && !c.lastIn }

  lemma {:induction false} StartsReset(es: seq<Execution>, idx: nat, preset: Int32)
    requires idx < NUM_C && CounterRun(es, idx, preset) && es != []
    ensures IsReset(es[0].img.c[idx])
    decreases |es|
  {
    hide Left;
    if |es| > 1 {
      StartsReset(es[..|es| - 1], idx, preset);
    }
  }

  /** What each execution counts: its rung and, for C200 up, M8200 + (idx - 200) as it stands there. */
  function Seen(es: seq<Execution>, idx: nat): (inputs: seq<Pulse>)
    ensures |inputs| == |es|
  {
    seq(|es|, k requires 0 <= k < |es| => Pulse(es[k].rung, GetM(es[k].img, 8200 + idx - 200)))
  }

  lemma {:induction false} RunIsFold(es: seq<Execution>, idx: nat, preset: Int32)
    requires idx < NUM_C && CounterRun(es, idx, preset) && es != []
    ensures Left(es[|es| - 1], idx, preset) == CounterAfter(es[0].img.c[idx], idx >= 200, preset, Seen(es, idx))
    decreases |es|
  {
    hide GetM, Counted, Left;
    var n := |es| - 1;
    var c := es[0].img.c[idx];
    var front := es[..n];
    LeftIsCounted(es[n], idx, preset);
    assert Seen(es, idx)[..n] == Seen(front, idx);
    if n > 0 {
      RunIsFold(front, idx, preset);
    }
  }

  lemma LeftIsCounted(e: Execution, idx: nat, preset: Int32)
    requires idx < NUM_C
    ensures Left(e, idx, preset) == Counted(e.img.c[idx], idx >= 200, GetM(e.img, 8200 + idx - 200), preset, e.rung)
  {
    hide GetM;
  }

  /** Up counters C0-C199 from reset: min(preset, rising edges), done from the edge that reaches the preset on. */
  lemma UpCounterLaw(es: seq<Execution>, idx: nat, preset: Int32)
    requires idx < 200 && CounterRun(es, idx, preset) && es != []
    ensures var after := Left(es[|es| - 1], idx, preset);
            var edges := Edges(Seen(es, idx));
            && after.current == (if edges < preset then edges else if preset > 0 then preset else 0)
            && (after.done <==> edges >= (if preset > 1 then preset else 1))
  {
    hide CounterAfter, Edges, Seen, Left, CounterRun;
    RunIsFold(es, idx, preset);
    StartsReset(es, idx, preset);
    CountsUp(es[0].img.c[idx], preset, Seen(es, idx));
  }

  /** Bidirectional counters C200-C255 from reset: up edges minus down edges by the relay M8200 + (idx - 200) at each
      execution, done as of the last edge. */
  lemma UpDownCounterLaw(es: seq<Execution>, idx: nat, preset: Int32)
    requires 200 <= idx < NUM_C && CounterRun(es, idx, preset) && es != [] && InRange(Seen(es, idx))
    ensures var after := Left(es[|es| - 1], idx, preset);
            && after.current == Net(Seen(es, idx))
            && after.done == ReachedAtLastEdge(Seen(es, idx), preset)
  {
    hide CounterAfter, Net, ReachedAtLastEdge, Seen, InRange, Left, CounterRun;
    RunIsFold(es, idx, preset);
    StartsReset(es, idx, preset);
    CountsBothWays(es[0].img.c[idx], preset, Seen(es, idx));
  }
}
