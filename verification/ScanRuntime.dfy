/** The scan cycle around the ladder program: time, inputs, outputs, RUN and STOP. */
module ScanRuntime {
  import opened Words
  import opened Devices
  import opened Timers
  import opened PlcMemory

  /** Sub-millisecond remainder, free-running milliseconds, the carries of the 10 ms and 100 ms bases,
      and what the current scan is worth. */
  datatype Clock = Clock(accum: DWord, ms: DWord, rem10: DWord, rem100: DWord, ticks: Ticks)

  predicate Settled(c: Clock) { c.accum < 1000 && c.rem10 < 10 && c.rem100 < 100 }

  /** One scan delta of microseconds, in 32-bit arithmetic. */
  function Advance(c: Clock, delta: DWord): Clock
    requires Settled(c)
  {
    var sum := (c.accum + delta) % 0x1_0000_0000;
    var ms := sum / 1000;
    if ms == 0 then c.(accum := sum % 1000, ticks := Ticks(0, 0, 0))
    else
      Clock(sum % 1000, (c.ms + ms) % 0x1_0000_0000, (c.rem10 + ms) % 10, (c.rem100 + ms) % 100,
            Ticks(ms, (c.rem10 + ms) / 10, (c.rem100 + ms) / 100))
  }

  const NUM_INPUTS: nat := 10
  const NUM_OUTPUTS: nat := 7
  const NUM_ANALOG: nat := 3

  /** Inputs as read from the board. */
  function WithInputs(img: Image, inputs: Word, n: nat): Image
    requires n <= NUM_X
  {
    img.(x := seq(NUM_X, i requires 0 <= i < NUM_X => if i < n then Bit(inputs, i) else img.x[i]))
  }

  function WithAnalog(img: Image, analog: seq<Word>, n: nat): Image
    requires n <= |analog| && n <= 200
  {
    img.(ds := seq(NUM_D_SPECIAL, i requires 0 <= i < NUM_D_SPECIAL =>
      if 30 <= i < 30 + n then analog[i - 30] else img.ds[i]))
  }

  function Undriven(img: Image, n: nat): Image
    requires n <= NUM_T
  {
    img.(t := seq(NUM_T, i requires 0 <= i < NUM_T => if i < n then img.t[i].(driven := false) else img.t[i]))
  }

  /** The run monitor, the initial pulse and the four clock relays. */
  function WithRelays(img: Image, running: bool, first: bool, ms: nat): Image {
    SetM(SetM(SetM(SetM(SetM(SetM(img, 8000, running), 8002, first), 8011, ms % 10 < 5), 8012, ms % 100 < 50),
              8013, ms % 1000 < 500), 8014, ms % 60000 < 30000)
  }

  /** Non-retentive timers whose coil did not run in this scan reset. */
  function WithoutIdleTimers(img: Image, n: nat): Image
    requires n <= NUM_T
  {
    img.(t := seq(NUM_T, i requires 0 <= i < NUM_T =>
      if i < n && !img.t[i].driven && !IsRetentive(i) then img.t[i].(current := 0, done := false) else img.t[i]))
  }

  const D_SCAN_TIME: nat := 8010
  const D_SCAN_MIN: nat := 8011
  const D_SCAN_MAX: nat := 8012

  /** The length of a scan in tenths of a millisecond, through a 32-bit difference and a 16-bit register. */
  function ScanTenths(startUs: nat, nowUs: nat): Word { (nowUs - startUs) % 0x1_0000_0000 / 100 % 0x1_0000 }

  /** Scan-time registers: the current value, and the extremes; the first scan restarts the minimum only. */
  function WithScanTime(img: Image, tenths: Word, first: bool): Image {
    img.(ds := img.ds[D_SCAN_TIME - D_SPECIAL_BASE := tenths]
                     [D_SCAN_MAX - D_SPECIAL_BASE := if tenths > GetD(img, D_SCAN_MAX) then tenths
                                                     else GetD(img, D_SCAN_MAX)]
                     [D_SCAN_MIN - D_SPECIAL_BASE := if first || tenths < GetD(img, D_SCAN_MIN) then tenths
                                                     else GetD(img, D_SCAN_MIN)])
  }

  lemma PackOne(y: seq<bool>, i: nat)
    requires i < |y| && i < 16
    ensures Pack(y[..i + 1]) == Pack(y[..i]) + (if y[i] then Pow2(i) else 0)
    ensures Pack(y[..i + 1]) < 0x1_0000
  {
    hide Pack, Pow2;
    assert y[..i + 1] == y[..i] + [y[i]];
    PackAppend(y[..i], y[i]);
    PackBound(y[..i + 1]);
    Pow2Grows(i + 1, 16);
    Pow2Values();
  }

  /** The output word shows the first seven Y relays in RUN and nothing in STOP. */
  lemma OutputLaw(y: seq<bool>, running: bool, outputs: Word)
    requires |y| == NUM_Y && outputs == if running then Pack(y[..NUM_OUTPUTS]) else 0
    ensures forall i: nat :: Bit(outputs, i) <==> running && i < 7 && y[i]
  {
    hide Bit;
    forall i: nat
      ensures Bit(outputs, i) <==> running && i < 7 && y[i]
    {
      PackBit(y[..NUM_OUTPUTS], i);
      PackBit([], i);
    }
  }

  class Runtime {
    const mem: Memory
    var running: bool
    var first: bool
    var startUs: nat
    var lastTickUs: nat
    var accumUs: DWord
    var ticks1ms: DWord
    var ticks10ms: DWord
    var ticks100ms: DWord
    var clockMs: DWord
    var rem10: DWord
    var rem100: DWord
    var outputs: Word

    ghost predicate Valid()
      reads this
    {
      mem.Valid() && Settled(Now())
    }

    function Now(): Clock
      reads this
    {
      Clock(accumUs, clockMs, rem10, rem100, Due())
    }

    function Due(): Ticks
      reads this
    {
      Ticks(ticks1ms, ticks10ms, ticks100ms)
    }

    /** plc_scan_init, apart from the identification registers it sets. */
    constructor (mem: Memory, nowUs: nat)
      requires mem.Valid()
      ensures Valid() && this.mem == mem && !running && !first && lastTickUs == nowUs
      ensures Now() == Clock(0, 0, 0, 0, Ticks(0, 0, 0))
    {
      this.mem := mem;
      running, first, startUs, lastTickUs, accumUs := false, false, 0, nowUs, 0;
      ticks1ms, ticks10ms, ticks100ms, clockMs, rem10, rem100, outputs := 0, 0, 0, 0, 0, 0, 0;
    }

    method AdvanceTicks(nowUs: nat)
      requires Valid()
      modifies this
      ensures Valid() && Now() == Advance(old(Now()), (nowUs - old(lastTickUs)) % 0x1_0000_0000)
      ensures lastTickUs == nowUs && startUs == old(startUs)
      ensures running == old(running) && first == old(first) && outputs == old(outputs)
    {
      var delta: DWord := (nowUs - lastTickUs) % 0x1_0000_0000;
      lastTickUs := nowUs;
      accumUs := (accumUs + delta) % 0x1_0000_0000;
      var ms := accumUs / 1000;
      accumUs := accumUs % 1000;
      if ms == 0 {
        ticks1ms, ticks10ms, ticks100ms := 0, 0, 0;
        return;
      }
      Carry(ms);
    }

    /** Carry counters, so that the 10 ms and 100 ms bases stay exact over time. */
    method Carry(ms: DWord)
      requires Valid() && ms < 0x1_0000_0000 - 100
      modifies this`clockMs, this`ticks1ms, this`ticks10ms, this`ticks100ms, this`rem10, this`rem100
      ensures Now() == Clock(accumUs, (old(clockMs) + ms) % 0x1_0000_0000, (old(rem10) + ms) % 10,
                             (old(rem100) + ms) % 100, Ticks(ms, (old(rem10) + ms) / 10, (old(rem100) + ms) / 100))
    {
      clockMs := (clockMs + ms) % 0x1_0000_0000;
      ticks1ms := ms;
      rem10 := rem10 + ms;
      ticks10ms := rem10 / 10;
      rem10 := rem10 % 10;
      rem100 := rem100 + ms;
      ticks100ms := rem100 / 100;
      rem100 := rem100 % 100;
    }

    method UpdateSpecialRelays()
      requires Valid()
      modifies mem.m, mem.mSpecial
      ensures mem.Img() == WithRelays(old(mem.Img()), running, first, clockMs)
    {
      mem.SetM(8000, running);
      mem.SetM(8002, first);
      mem.SetM(8011, clockMs % 10 < 5);
      mem.SetM(8012, clockMs % 100 < 50);
      mem.SetM(8013, clockMs % 1000 < 500);
      mem.SetM(8014, clockMs % 60000 < 30000);
    }

    /** plc_scan_begin: time, read once for the length of the scan and once for the ticks, timer coils, inputs,
        analog channels, special relays. */
    method ScanBegin(beginUs: nat, nowUs: nat, inputs: Word, analog: seq<Word>)
      requires Valid() && |analog| == NUM_ANALOG && this !in mem.Repr()
      modifies this, mem.Repr()
      ensures Valid() && Now() == Advance(old(Now()), (nowUs - old(lastTickUs)) % 0x1_0000_0000)
      ensures running == old(running) && first == old(first) && startUs == beginUs
      ensures var sampled := WithInputs(Undriven(old(mem.Img()), NUM_T), inputs, NUM_INPUTS);
              mem.Img() == WithRelays(WithAnalog(sampled, analog, NUM_ANALOG), running, first, clockMs)
    {
      startUs := beginUs;
      AdvanceTicks(nowUs);
      ReleaseTimers();
      ReadInputs(inputs);
      ReadAnalog(analog);
      UpdateSpecialRelays();
    }

    method ReleaseTimers()
      requires Valid()
      modifies mem.t
      ensures mem.Img() == Undriven(old(mem.Img()), NUM_T)
    {
      ghost var img := mem.Img();
      assert img.t == Undriven(img, 0).t;
      for i := 0 to NUM_T
        invariant mem.Img() == Undriven(img, i)
      {
        mem.t[i] := mem.t[i].(driven := false);
        assert mem.Img().t == Undriven(img, i + 1).t;
      }
    }

    method ReadInputs(inputs: Word)
      requires Valid()
      modifies mem.x
      ensures mem.Img() == WithInputs(old(mem.Img()), inputs, NUM_INPUTS)
    {
      ghost var img := mem.Img();
      assert img.x == WithInputs(img, inputs, 0).x;
      for i := 0 to NUM_INPUTS
        invariant mem.Img() == WithInputs(img, inputs, i)
      {
        mem.SetX(i, Bit(inputs, i));
        assert mem.Img().x == WithInputs(img, inputs, i + 1).x;
      }
    }

    method ReadAnalog(analog: seq<Word>)
      requires Valid() && |analog| == NUM_ANALOG
      modifies mem.d, mem.dSpecial
      ensures mem.Img() == WithAnalog(old(mem.Img()), analog, NUM_ANALOG)
    {
      ghost var img := mem.Img();
      assert img.ds == WithAnalog(img, analog, 0).ds;
      for ch := 0 to NUM_ANALOG
        invariant mem.Img() == WithAnalog(img, analog, ch)
      {
        mem.SetD(8030 + ch, analog[ch]);
        assert mem.Img().ds == WithAnalog(img, analog, ch + 1).ds;
      }
    }

    /** plc_scan_end: idle timers, outputs, scan time, and the first scan is over. */
    method ScanEnd(nowUs: nat)
      requires Valid() && this !in mem.Repr()
      modifies this, mem.Repr()
      ensures Valid() && !first && running == old(running) && Now() == old(Now())
      ensures mem.Img() ==
              WithScanTime(WithoutIdleTimers(old(mem.Img()), NUM_T), ScanTenths(startUs, nowUs), old(first))
      ensures startUs == old(startUs)
      ensures forall i: nat :: Bit(outputs, i) <==> running && i < 7 && mem.Img().y[i]
    {
      hide Bit, Pack;
      ResetIdleTimers();
      outputs := 0;
      if running {
        outputs := OutputBits();
      }
      OutputLaw(mem.Img().y, running, outputs);
      RecordScanTime(nowUs);
      first := false;
    }

    method RecordScanTime(nowUs: nat)
      requires Valid()
      modifies mem.d, mem.dSpecial
      ensures mem.Img() == WithScanTime(old(mem.Img()), ScanTenths(startUs, nowUs), first)
    {
      var elapsedUs := (nowUs - startUs) % 0x1_0000_0000;
      var tenths: Word := elapsedUs / 100 % 0x1_0000;
      mem.SetD(D_SCAN_TIME, tenths);
      if tenths > mem.GetD(D_SCAN_MAX) {
        mem.SetD(D_SCAN_MAX, tenths);
      }
      if first || tenths < mem.GetD(D_SCAN_MIN) {
        mem.SetD(D_SCAN_MIN, tenths);
      }
      assert mem.Img().ds == WithScanTime(old(mem.Img()), tenths, first).ds;
    }

    method ResetIdleTimers()
      requires Valid()
      modifies mem.t
      ensures mem.Img() == WithoutIdleTimers(old(mem.Img()), NUM_T)
    {
      ghost var img := mem.Img();
      assert img.t == WithoutIdleTimers(img, 0).t;
      for i := 0 to NUM_T
        invariant mem.Img() == WithoutIdleTimers(img, i)
      {
        if !mem.t[i].driven && !IsRetentive(i) {
          mem.t[i] := mem.t[i].(current := 0, done := false);
        }
        assert mem.Img().t == WithoutIdleTimers(img, i + 1).t;
      }
    }

    method OutputBits() returns (bits: Word)
      requires Valid()
      ensures bits == Pack(mem.Img().y[..NUM_OUTPUTS])
    {
      hide Memory.Img;
      ghost var y := mem.Img().y;
      bits := 0;
      for i := 0 to NUM_OUTPUTS
        invariant bits == Pack(y[..i]) && mem.Img().y == y
      {
        var on := mem.GetY(i);
        PackOne(y, i);
        if on {
          bits := bits + Pow2(i);
        }
      }
    }

    /** plc_scan_set_mode: STOP -> RUN starts from a clean non-retentive image and arms the initial pulse. */
    method SetMode(run: bool)
      requires Valid() && this !in mem.Repr()
      modifies this, mem.Repr()
      ensures Valid() && running == run && Now() == old(Now())
      ensures run != old(running) ==> first == run
      ensures run == old(running) ==> first == old(first)
      ensures mem.Img() == if run && !old(running) then AfterReset(old(mem.Img())) else old(mem.Img())
      ensures outputs == if !run && old(running) then 0 else old(outputs)
    {
      if run == running {
        return;
      }
      if run {
        mem.ResetNonretentive();
        first := true;
      } else {
        first := false;
        outputs := 0;
      }
      running := run;
    }

    // ------------------------------------------------ timers and counters

    method TimerDrive(idx: nat, preset: Word, enable: bool)
      requires Valid()
      modifies mem.t
      ensures mem.Img() == Timers.TimerDrive(old(mem.Img()), Due(), idx, preset, enable)
    {
      if idx >= NUM_T {
        return;
      }
      var t := mem.t[idx].(preset := preset, driven := enable);
      if !enable {
        if !IsRetentive(idx) {
          t := t.(current := 0, done := false);
        }
        mem.t[idx] := t;
        return;
      }
      var n := TicksFor(Due(), idx);
      if n > 0 {
        var next := t.current + n;
        t := t.(current := if next > 0xFFFF then 0xFFFF else next);
      }
      if preset != 0 && t.current >= preset {
        t := t.(current := preset, done := true);
      }
      mem.t[idx] := t;
    }

    method TimerReset(idx: nat)
      requires Valid()
      modifies mem.t
      ensures mem.Img() == Timers.TimerReset(old(mem.Img()), idx)
    {
      if idx >= NUM_T {
        return;
      }
      mem.t[idx] := mem.t[idx].(current := 0, done := false, driven := false);
    }

    method CounterDrive(idx: nat, preset: Int32, enable: bool)
      requires Valid()
      modifies mem.c
      ensures mem.Img() == Timers.CounterDrive(old(mem.Img()), idx, preset, enable)
    {
      if idx >= NUM_C {
        return;
      }
      var c := mem.c[idx].(preset := preset);
      var rising := enable && !c.lastIn;
      c := c.(lastIn := enable);
      if !rising {
        mem.c[idx] := c;
        return;
      }
      if idx < 200 {
        if c.current < preset {
          c := c.(current := c.current + 1);
        }
        if c.current >= preset {
          c := c.(done := true);
        }
      } else {
        var down := mem.GetM(8200 + idx - 200);
        c := c.(current := WrapInt32(if down then c.current - 1 else c.current + 1));
        c := c.(done := c.current >= preset);
      }
      mem.c[idx] := c;
    }

    method CounterReset(idx: nat)
      requires Valid()
      modifies mem.c
      ensures mem.Img() == Timers.CounterReset(old(mem.Img()), idx)
    {
      if idx >= NUM_C {
        return;
      }
      mem.c[idx] := mem.c[idx].(current := 0, done := false, lastIn := false);
    }
  }
}
