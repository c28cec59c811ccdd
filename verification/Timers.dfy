/** What one OUT T, OUT C or RST does to a timer or a counter. */
module Timers {
  import opened Words
  import opened Devices

  /** How many ticks of each time base the current scan is worth. */
  datatype Ticks = Ticks(ms1: nat, ms10: nat, ms100: nat)

  function TimerBaseMs(idx: nat): nat {
    if idx < 200 then 100 else if idx < 246 then 10 else if idx < 250 then 1 else 100
  }

  predicate IsRetentive(idx: nat) { idx >= 246 }

  function TicksFor(ticks: Ticks, idx: nat): nat {
    match TimerBaseMs(idx)
    case 1 => ticks.ms1
    case 10 => ticks.ms10
    case _ => ticks.ms100
  }

  /** One execution of a timer coil worth n ticks: saturate at 16 bits, then stop at the preset. */
  function Driven(t: Timer, retentive: bool, preset: Word, enable: bool, n: nat): Timer {
    if !enable then
      if retentive then t.(preset := preset, driven := false)
      else Timer(0, preset, false, false)
    else
      var next := if t.current + n > 0xFFFF then 0xFFFF else t.current + n;
      if preset != 0 && next >= preset then Timer(preset, preset, true, true)
      else Timer(next, preset, t.done, true)
  }

  function TimerDrive(img: Image, ticks: Ticks, idx: nat, preset: Word, enable: bool): Image {
    if idx >= NUM_T then img
    else img.(t := img.t[idx := Driven(img.t[idx], IsRetentive(idx), preset, enable, TicksFor(ticks, idx))])
  }

  function TimerReset(img: Image, idx: nat): Image {
    if idx >= NUM_T then img
    else img.(t := img.t[idx := img.t[idx].(current := 0, done := false, driven := false)])
  }

  /** One execution of a counter coil: only a rising input counts. */
  function Counted(c: Counter, wide: bool, down: bool, preset: Int32, enable: bool): Counter {
    if !enable || c.lastIn then c.(preset := preset, lastIn := enable)
    else if wide then
      var next := WrapInt32(if down then c.current - 1 else c.current + 1);
      Counter(next, preset, next >= preset, true)
    else
      var next: Int32 := if c.current < preset then c.current + 1 else c.current;
      Counter(next, preset, c.done || next >= preset, true)
  }

  function CounterDrive(img: Image, idx: nat, preset: Int32, enable: bool): Image {
    if idx >= NUM_C then img
    else
      var down := idx >= 200 && GetM(img, 8200 + idx - 200);
      img.(c := img.c[idx := Counted(img.c[idx], idx >= 200, down, preset, enable)])
  }

  function CounterReset(img: Image, idx: nat): Image {
    if idx >= NUM_C then img
    else img.(c := img.c[idx := img.c[idx].(current := 0, done := false, lastIn := false)])
  }
}
