/** One turn of the main loop, device by device: inputs, analog channels, special relays, and the end of the scan. */
module ScanLaws {
  import opened Words
  import opened Instructions
  import opened LadderScan
  import opened ScanRuntime
  import opened TimerScans

  /** At the start of a scan X0-X9 show the input word, D8030-D8032 the analog channels, and six special relays the run
      monitor, the initial pulse and square waves of 10 ms, 100 ms, 1 s and 1 min; nothing else changes but the marks of
      powered timer coils. */
  lemma BeginLaw(c: Clock, y: Cycle)
    requires Measured(y)
    ensures var img, was := Begun(c, y), y.img;
            && (forall i: nat :: i < 256 ==> img.x[i] == if i < 10 then Bit(y.inputs, i) else was.x[i])
            && (forall i: nat :: i < 256 ==> img.ds[i] == if 30 <= i <= 32 then y.analog[i - 30] else was.ds[i])
            && (forall i: nat :: i < 256 ==> i !in {0, 2, 11, 12, 13, 14} ==> img.ms[i] == was.ms[i])
            && img.ms[0] && img.ms[2] == y.first && img.ms[11] == (c.ms % 10 < 5) && img.ms[12] == (c.ms % 100 < 50)
            && img.ms[13] == (c.ms % 1000 < 500) && img.ms[14] == (c.ms % 60000 < 30000)
            && (forall i: nat :: i < 256 ==> img.t[i] == was.t[i].(driven := false))
            && img == was.(x := img.x, ds := img.ds, ms := img.ms, t := img.t)
  {
    hide Bit;
  }

  /** At its end the queued states go off, D8010 is the length of the scan, D8012 the longest so far and D8011 the
      shortest since the first scan, and idle timers reset; nothing else changes. */
  lemma EndLaw(code: Code, c: Clock, y: Cycle)
    requires Measured(y)
    ensures var end := RunLoop(code, c.ticks, Entered(c, y));
            var img, was := Ended(code, c, y), end.img;
            && (forall i: nat :: i < 1000 ==> img.s[i] == (was.s[i] && i !in end.stl.queued))
            && (forall i: nat :: i < 256 ==> i !in {10, 11, 12} ==> img.ds[i] == was.ds[i])
            && img.ds[10] == y.tenths
            && img.ds[12] == (if y.tenths > was.ds[12] then y.tenths else was.ds[12])
            && img.ds[11] == (if y.first || y.tenths < was.ds[11] then y.tenths else was.ds[11])
            && (forall i: nat :: i < 256 ==>
                  img.t[i] == if i < 246 && !was.t[i].driven then was.t[i].(current := 0, done := false) else was.t[i])
            && img == was.(s := img.s, ds := img.ds, t := img.t)
  {
    hide RunLoop, Begun;
  }
}
