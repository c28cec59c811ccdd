/** Images told apart by what contacts read in them. */
module Relays {
  import opened Devices
  import opened Instructions

  predicate Agree(a: Image, b: Image, devices: set<Device>) {
    forall d: Device :: d in devices ==> ReadBit(a, d.kind, d.num) == ReadBit(b, d.kind, d.num)
  }

  lemma AgreeItself(img: Image, tested: set<Device>)
    ensures Agree(img, img, tested)
  {
  }

  lemma AgreeTwice(a: Image, b: Image, c: Image, tested: set<Device>)
    requires Agree(a, b, tested) && Agree(b, c, tested)
    ensures Agree(a, c, tested)
  {
    hide ReadBit;
  }

  /** The devices whose contacts can have either state. */
  predicate Settable(d: Device) { Writable(d.kind, d.num) || d.kind == DEV_T || d.kind == DEV_C }

  /** The image in which every contact reads as f says. */
  function Showing(img: Image, f: Device -> bool): Image {
    img.(x := seq(NUM_X, i requires 0 <= i < NUM_X => f(Dev(DEV_X, i))),
         y := seq(NUM_Y, i requires 0 <= i < NUM_Y => f(Dev(DEV_Y, i))),
         m := seq(NUM_M, i requires 0 <= i < NUM_M => i < 1536 && f(Dev(DEV_M + i / 256, i % 256))),
         ms := seq(NUM_M_SPECIAL, i requires 0 <= i < NUM_M_SPECIAL => f(Dev(DEV_MS, i))),
         s := seq(NUM_S, i requires 0 <= i < NUM_S => f(Dev(i / 256, i % 256))),
         t := seq(NUM_T, i requires 0 <= i < NUM_T => img.t[i].(done := f(Dev(DEV_T, i)))),
         c := seq(NUM_C, i requires 0 <= i < NUM_C => img.c[i].(done := f(Dev(DEV_C, i)))))
  }

  lemma ReadShowing(img: Image, f: Device -> bool, d: Device)
    ensures ReadBit(Showing(img, f), d.kind, d.num) == if Settable(d) then f(d) else ReadBit(img, d.kind, d.num)
  {
    var i := DeviceNumber(d.kind, d.num);
    assert d == Dev(d.kind, d.num);
    if DEV_M <= d.kind <= 0xD {
      assert i / 256 == d.kind - DEV_M && i % 256 == d.num;
    } else if IsS(d.kind) {
      assert i / 256 == d.kind && i % 256 == d.num;
    }
  }
}
