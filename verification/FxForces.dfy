/** Force frames: which relay they switch, and remote RUN and STOP. */
module FxForces {
  import opened Words
  import opened Devices
  import opened PlcMemory
  import opened FxAddr
  import opened FxProtocol
  import opened FxCommands
  import opened FxWire

  /** 'E' '7' or 'E' '8' and a force address, low byte first. */
  function ForceBody(on: bool, a: Word): (body: seq<Byte>)
    ensures |body| == 6
  {
    [0x45, if on then 0x37 else 0x38] + HexByte(a % 256) + HexByte(a / 256)
  }

  /** '7' or '8' and a bit address (8 times the byte address, plus the bit), low byte first. */
  function BitForceBody(on: bool, a: Word): (body: seq<Byte>)
    ensures |body| == 5
  {
    [if on then 0x37 else 0x38] + HexByte(a % 256) + HexByte(a / 256)
  }

  lemma SwappedDigits(a: Word)
    ensures var raw := ParseHex(HexByte(a % 256) + HexByte(a / 256));
            raw.Some? && Swapped(raw.value) == a
  {
    hide HexByte, ParseHex, Swapped;
    ParseHexByte(a % 256);
    ParseHexByte(a / 256);
    ParseTwo(HexByte(a % 256), HexByte(a / 256));
    SwapBack(a);
  }

  lemma SwapBack(a: Word)
    ensures Swapped(256 * (a % 256) + a / 256) == a
  {
  }

  lemma ForceFrame(on: bool, a: Word)
    ensures var f := Frame(ForceBody(on, a));
            && Sound(f) && |f| == 10 && f[1] == 0x45 && f[2] == (if on then 0x37 else 0x38)
            && f[3..7] == HexByte(a % 256) + HexByte(a / 256)
  {
    hide ParseHex, Checksum;
    FramedIsSound(ForceBody(on, a));
  }

  lemma BitForceFrame(on: bool, a: Word)
    ensures var f := Frame(BitForceBody(on, a));
            && Sound(f) && |f| == 9 && f[1] == (if on then 0x37 else 0x38)
            && f[2..6] == HexByte(a % 256) + HexByte(a / 256)
  {
    hide ParseHex, Checksum;
    FramedIsSound(BitForceBody(on, a));
  }

  lemma ForceIsHandled(s: PortState, on: bool, a: Word)
    ensures Handle(s, Frame(ForceBody(on, a))) ==
            (var forced := s.(plant := s.plant.(img := Force(s.plant.img, a, on)));
             Accept(if on && a == 0x0E24 then SetMode(forced, true)
                    else if on && a == 0x0E25 then SetMode(forced, false)
                    else forced))
  {
    hide Sound, Frame, ForceBody, Force, SetMode, HexByte, ParseHex, ExtendedTransfer, Announce;
    ForceFrame(on, a);
    SwappedDigits(a);
  }

  /** Special relay M8000 + n after forcing address a. */
  lemma ForcedRelay(img: Image, a: Word, on: bool, b: Word)
    ensures ForceRead(Force(img, a, on), b) ==
            (if a == b && (a < 3328 || 3584 <= a < 3840 || 4608 <= a < 4864 || 5120 <= a < 6120) then on
             else ForceRead(img, b))
    ensures var after := Force(img, a, on);
            after.t == img.t && after.c == img.c && after.d == img.d && after.ds == img.ds
  {
    ForceLaw(img, a, on, b);
  }

  /** A force frame is acknowledged and switches its relay, if its address is M0-M3071, Y, M8000-M8255, X or S0-S999;
      no other relay and no number changes, unless it starts the PLC. M8036 on starts it, M8037 on stops it; nothing
      else changes the mode. */
  lemma ForceFrameLaw(s: PortState, on: bool, a: Word, b: Word)
    ensures var h := Handle(s, Frame(ForceBody(on, a)));
            var t := h.state;
            && h.reply == [0x06]
            && t.running == (if on && a == 0x0E24 then true else if on && a == 0x0E25 then false else s.running)
            && (t.running == s.running ==>
                  && t == s.(plant := s.plant.(img := t.plant.img))
                  && ForceRead(t.plant.img, b) ==
                     (if a == b && (a < 3328 || 3584 <= a < 3840 || 4608 <= a < 4864 || 5120 <= a < 6120) then on
                      else ForceRead(s.plant.img, b))
                  && t.plant.img.t == s.plant.img.t && t.plant.img.c == s.plant.img.c
                  && t.plant.img.d == s.plant.img.d && t.plant.img.ds == s.plant.img.ds)
  {
    hide Handle, Frame, ForceBody, Force, ForceRead, AfterReset;
    ForceIsHandled(s, on, a);
    ForcedRelay(s.plant.img, a, on, b);
  }

  /** Remote RUN of a stopped PLC, by M8036: it runs, the initial pulse is due, Y, M, S, D, T0-T245 and C0-C99 are
      clear, and everything else is as it was, apart from M8036 itself. */
  lemma RemoteRun(s: PortState)
    requires !s.running
    ensures var t := Handle(s, Frame(ForceBody(true, 0x0E24))).state;
            var img, was := t.plant.img, s.plant.img;
            && t == s.(running := true, first := true, plant := s.plant.(img := img))
            && (forall i :: 0 <= i < 256 ==> !img.y[i]) && (forall i :: 0 <= i < 3072 ==> !img.m[i])
            && (forall i :: 0 <= i < 1000 ==> !img.s[i]) && (forall i :: 0 <= i < 8000 ==> img.d[i] == 0)
            && (forall i :: 0 <= i < 246 ==> img.t[i] == Timer(0, 0, false, false))
            && (forall i :: 246 <= i < 256 ==> img.t[i] == was.t[i])
            && (forall i :: 0 <= i < 100 ==> img.c[i] == Counter(0, 0, false, false))
            && (forall i :: 100 <= i < 256 ==> img.c[i] == was.c[i])
            && img.x == was.x && img.ds == was.ds && img.ms == was.ms[36 := true]
  {
    hide Handle, Frame, ForceBody;
    ForceIsHandled(s, true, 0x0E24);
  }

  /** Remote STOP of a running PLC, by M8037: it stops, no initial pulse is due, and the devices keep their values,
      apart from M8037 itself. */
  lemma RemoteStop(s: PortState)
    requires s.running
    ensures var t := Handle(s, Frame(ForceBody(true, 0x0E25))).state;
            var was := s.plant.img;
            t == s.(running := false, first := false, plant := s.plant.(img := was.(ms := was.ms[37 := true])))
  {
    hide Handle, Frame, ForceBody;
    ForceIsHandled(s, true, 0x0E25);
  }

  /** The sequence of a remote RUN: M8037 off, M8035 on, M8036 on; that of a remote STOP: M8037 on. From every link. */
  lemma RemoteOnTheWire(l: Link)
    ensures var start :=
              Frame(ForceBody(false, 0x0E25)) + Frame(ForceBody(true, 0x0E23)) + Frame(ForceBody(true, 0x0E24));
            && Run(l, start).state.running && Run(l, start).sent == l.sent + [0x06, 0x06, 0x06]
            && !Run(l, Frame(ForceBody(true, 0x0E25))).state.running
            && Run(l, Frame(ForceBody(true, 0x0E25))).sent == l.sent + [0x06]
  {
    hide Handle, Frame, ForceBody, ForceRead;
    var one, two := Frame(ForceBody(false, 0x0E25)), Frame(ForceBody(true, 0x0E23));
    var three := Frame(ForceBody(true, 0x0E24));
    ForceRuns(l, true, 0x0E25);
    ForceRuns(l, false, 0x0E25);
    var l1 := Run(l, one);
    ForceRuns(l1, true, 0x0E23);
    RunAppend(l, one, two);
    var l2 := Run(l1, two);
    ForceRuns(l2, true, 0x0E24);
    RunAppend(l, one + two, three);
  }

  /** On the wire, from every link. */
  lemma ForceRuns(l: Link, on: bool, a: Word)
    ensures var h := Handle(l.state, Frame(ForceBody(on, a)));
            Run(l, Frame(ForceBody(on, a))) == Link(Receiver([], false), h.state, l.sent + [0x06]) && h.reply == [0x06]
    ensures Run(l, Frame(ForceBody(on, a))).state.running ==
            (if on && a == 0x0E24 then true else if on && a == 0x0E25 then false else l.state.running)
  {
    ForceIsFramable(on, a);
    hide Handle, Frame, ForceBody;
    FrameIsAnswered(l, ForceBody(on, a));
    ForceFrameLaw(l.state, on, a, 0);
  }

  lemma ForceIsFramable(on: bool, a: Word)
    ensures Framable(ForceBody(on, a))
  {
    hide HexByte;
    HexIsPlain(a % 256);
    HexIsPlain(a / 256);
  }

  /** A force frame whose address is no hex number is acknowledged all the same, without effect. */
  lemma BadForceIgnored(s: PortState, on: bool, digits: seq<Byte>)
    requires |digits| == 4 && ParseHex(digits) == None
    ensures Handle(s, Frame([0x45, if on then 0x37 else 0x38] + digits)) == Handled(s, [0x06])
  {
    var body := [0x45, if on then 0x37 else 0x38] + digits;
    var f := Frame(body);
    FramedIsSound(body);
    assert f[3..7] == digits && f[1] == 0x45 && |f| == 10;
    hide Sound, Frame, ExtendedTransfer, Announce, ParseHex;
  }

  lemma BitForceIsHandled(s: PortState, on: bool, a: Word)
    ensures Handle(s, Frame(BitForceBody(on, a))) ==
            Accept(s.(plant := s.plant.(img := PutBitAt(s.plant.img, a / 8, a % 8, on))))
  {
    hide Sound, Frame, BitForceBody, HexByte, ParseHex, PutBitAt, Extended, DeviceRead, DeviceWrite, SetMode;
    BitForceFrame(on, a);
    SwappedDigits(a);
  }

  /** The short force frame is acknowledged and switches the bit it names, if that is a relay, a timer or counter
      contact; no other bit changes, and no mode. */
  lemma BitForceLaw(s: PortState, on: bool, a: Word, b: Word)
    requires b / 8 < 0x200
    ensures var h := Handle(s, Frame(BitForceBody(on, a)));
            var known := a / 8 < 0x7D || 0x80 <= a / 8 < 0xE0 || 0x100 <= a / 8 < 0x200;
            && h.reply == [0x06] && h.state == s.(plant := s.plant.(img := h.state.plant.img))
            && BitAt(h.state.plant.img, b / 8, b % 8) ==
               (if a == b && known then on else BitAt(s.plant.img, b / 8, b % 8))
  {
    hide Handle, Frame, BitForceBody, PutBitAt, BitAt;
    BitForceIsHandled(s, on, a);
    if a / 8 < 0x200 {
      BitOverBit(s.plant.img, a / 8, a % 8, on, b / 8, b % 8);
      assert a == 8 * (a / 8) + a % 8 && b == 8 * (b / 8) + b % 8;
    } else {
      NoSuchBit(s.plant.img, a / 8, a % 8, on);
    }
  }

  lemma NoSuchBit(img: Image, addr: Word, bit: nat, on: bool)
    requires addr >= 0x200 && bit < 8
    ensures PutBitAt(img, addr, bit, on) == img
  {
  }
}
