/** One wrong byte on the serial line: when the sum check catches it, and what is carried out when it does not. */
module FxLineErrors {
  import opened Words
  import opened FxAddr
  import opened FxMonitor
  import opened FxProtocol
  import opened FxCommands
  import opened FxWire

  /** The condition for a delivered frame to be carried out. */
  lemma WholeIsSound(body: seq<Byte>, hi: Byte, lo: Byte)
    ensures Sound(Whole(body, hi, lo)) <==> body != [] && ParseHex([hi, lo]) == Some(Checksum(body + [ETX]) as nat)
  {
    hide ParseHex, Checksum;
    var f := Whole(body, hi, lo);
    assert f[|f| - 2..] == [hi, lo] && f[1..|f| - 2] == body + [ETX];
  }

  // ------------------------------------------- check digits say nothing more

  /** Frames that differ in their check digits only. */
  predicate SameRequest(f: seq<Byte>, g: seq<Byte>) { |f| == |g| >= 5 && f[..|f| - 2] == g[..|f| - 2] }

  lemma SameField(f: seq<Byte>, g: seq<Byte>, from: nat, to: nat)
    requires SameRequest(f, g) && from <= to <= |f| - 2
    ensures f[from..to] == g[from..to] && Hex(f, from, to) == Hex(g, from, to)
  {
    assert f[from..to] == f[..|f| - 2][from..to];
    assert g[from..to] == g[..|f| - 2][from..to];
  }

  lemma SameByte(f: seq<Byte>, g: seq<Byte>, i: nat)
    requires SameRequest(f, g) && i < |f| - 2
    ensures f[i] == g[i]
  {
    assert f[i] == f[..|f| - 2][i];
  }

  lemma SameDevices(s: PortState, f: seq<Byte>, g: seq<Byte>, on: bool)
    requires SameRequest(f, g)
    ensures DeviceRead(s, f) == DeviceRead(s, g) && DeviceWrite(s, f) == DeviceWrite(s, g)
    ensures DeviceForce(s, f, on) == DeviceForce(s, g, on)
  {
    if |f| >= 9 {
      SameField(f, g, 2, 6);
    }
    if |f| >= 11 {
      SameField(f, g, 6, 8);
      SameField(f, g, 8, |f| - 3);
    }
    hide Hex, ReadReply, Write, PutBitAt;
  }

  lemma SameTransfer(s: PortState, f: seq<Byte>, g: seq<Byte>)
    requires SameRequest(f, g)
    ensures ExtendedTransfer(s, f) == ExtendedTransfer(s, g)
  {
    if |f| >= 13 {
      SameField(f, g, 2, 4);
      SameField(f, g, 4, 8);
      SameField(f, g, 8, 10);
      SameField(f, g, 10, |f| - 3);
    }
    hide Hex, ReadReply, Write, Sampled;
  }

  lemma SameExtended(s: PortState, f: seq<Byte>, g: seq<Byte>)
    requires SameRequest(f, g)
    ensures Extended(s, f) == Extended(s, g)
  {
    SameTransfer(s, f, g);
    if |f| >= 10 {
      SameByte(f, g, 2);
      SameByte(f, g, 3);
      SameField(f, g, 3, 7);
    }
    if |f| >= 15 {
      SameField(f, g, 4, 8);
      SameField(f, g, 8, 10);
      SameField(f, g, 10, 12);
    }
    hide Hex, ExtendedTransfer, Force, SetMode, Frame, HexWord;
  }

  /** What a sound frame does does not depend on how its check digits are written. */
  lemma SoundIsFrame(s: PortState, body: seq<Byte>, hi: Byte, lo: Byte)
    requires Sound(Whole(body, hi, lo))
    ensures Handle(s, Whole(body, hi, lo)) == Handle(s, Frame(body))
  {
    var f, g := Whole(body, hi, lo), Frame(body);
    assert f[..|f| - 2] == [STX] + body + [ETX] == g[..|f| - 2] by {
      FrameIsWhole(body);
    }
    FramedIsSound(body) by {
      WholeIsSound(body, hi, lo);
    }
    SameByte(f, g, 1);
    SameExtended(s, f, g);
    SameDevices(s, f, g, f[1] == 0x37);
    hide Sound, Whole, Frame, Extended, DeviceRead, DeviceWrite, DeviceForce, SetMode;
  }

  // ------------------------------------------------------- one wrong byte

  /** The replies to the enquiries among bytes outside a frame. */
  function Enquiries(s: seq<Byte>): seq<Byte> {
    if s == [] then [] else Enquiries(s[..|s| - 1]) + if s[|s| - 1] == ENQ then [ACK] else []
  }

  lemma {:induction false} OutsideFrames(l: Link, bytes: seq<Byte>)
    requires l.rx == Receiver([], false) && STX !in bytes
    ensures Run(l, bytes) == l.(sent := l.sent + Enquiries(bytes))
  {
    hide Handle;
    if bytes != [] {
      OutsideFrames(l, bytes[..|bytes| - 1]);
    }
  }

  /** The request that the port makes out of a framed body in which byte i has become b, if it accepts any: what
      follows a false STX if the bytes up to it sum to 0, what precedes a false ETX if the next two bytes are the
      check digits of that. */
  function Misread(body: seq<Byte>, i: nat, b: Byte): (m: Option<seq<Byte>>)
    requires i < |body|
    ensures m.Some? ==> m.value != [] && |m.value| < |body|
  {
    if b == STX && i + 1 < |body| && Checksum(body[..i + 1]) == 0 then Some(body[i + 1..])
    else if b == ETX && 1 <= i && i + 2 < |body| &&
            ParseHex(body[i + 1..i + 3]) == Some(Checksum(body[..i] + [ETX]) as nat) then Some(body[..i])
    else None
  }

  /** What a false ETX leaves over. */
  function Leftover(body: seq<Byte>, i: nat, b: Byte): seq<Byte>
    requires i < |body|
  {
    if b == ETX then Frame(body)[i + 4..] else []
  }

  /** How the misread request is handled; without one, the frame is refused. */
  function Outcome(s: PortState, m: Option<seq<Byte>>): Handled {
    if m.Some? then Handle(s, Frame(m.value)) else Reject(s)
  }

  lemma HandleWhole(s: PortState, body: seq<Byte>, hi: Byte, lo: Byte)
    ensures Handle(s, Whole(body, hi, lo)) ==
            Outcome(s, if body != [] && ParseHex([hi, lo]) == Some(Checksum(body + [ETX]) as nat) then Some(body)
                       else None)
  {
    WholeIsSound(body, hi, lo);
    if Sound(Whole(body, hi, lo)) {
      SoundIsFrame(s, body, hi, lo);
    }
  }

  lemma FalseByte(l: Link, body: seq<Byte>, i: nat, b: Byte)
    requires Framable(body) && i < |body| && b != body[i] && b != STX && b != ETX
    ensures Run(l, Frame(body)[1 + i := b]) == Link(Receiver([], false), l.state, l.sent + [NAK])
  {
    hide Handle, Frame, HexByte, Run, Checksum;
    var d := HexByte(Checksum(body + [ETX]));
    FrameIsWhole(body);
    assert Whole(body, d[0], d[1])[1 + i := b] == Whole(body[i := b], d[0], d[1]);
    DeliveredChangeIsRefused(l.state, body, i, b);
    WholeIsAnswered(l, body[i := b], d[0], d[1]);
  }

  lemma {:induction false} TotalSplit(a: seq<Byte>, b: seq<Byte>)
    ensures Total(a + b) == Total(a) + Total(b)
    decreases |b|
  {
    if b == [] {
      assert a + b == a;
    } else {
      assert (a + b)[..|a + b| - 1] == a + b[..|b| - 1];
      TotalSplit(a, b[..|b| - 1]);
    }
  }

  lemma ChecksumSplit(a: seq<Byte>, b: seq<Byte>)
    ensures Checksum(a + b) == Checksum(b) <==> Checksum(a) == 0
  {
    hide Checksum, Total;
    TotalSplit(a, b);
    ChecksumIsTotal(a);
    ChecksumIsTotal(b);
    ChecksumIsTotal(a + b);
  }

  lemma FalseStart(l: Link, body: seq<Byte>, i: nat)
    requires Framable(body) && i < |body|
    ensures var h := Outcome(l.state, Misread(body, i, STX));
            Run(l, Frame(body)[1 + i := STX]) == Link(Receiver([], false), h.state, l.sent + h.reply)
  {
    hide Handle, Frame, HexByte, Run, Checksum, ParseHex, Outcome, FeedAll, Events;
    var c := Checksum(body + [ETX]);
    var d := HexByte(c);
    var head, rest := [STX] + body[..i], body[i + 1..];
    FrameIsWhole(body);
    assert Whole(body, d[0], d[1])[1 + i := STX] == head + Whole(rest, d[0], d[1]);
    RunAppend(l, head, Whole(rest, d[0], d[1]));
    BodyIsStored(l.rx, body, i);
    StoringIsSilent(l, head);
    WholeIsAnswered(Run(l, head), rest, d[0], d[1]);
    ParseHexByte(c);
    assert [d[0], d[1]] == d;
    assert body[..i + 1] + (rest + [ETX]) == body + [ETX];
    ChecksumSplit(body[..i + 1], rest + [ETX]);
    HandleWhole(l.state, rest, d[0], d[1]);
  }

  /** The two characters that a false ETX takes for check digits: hex digits only if both are from the body. */
  lemma FalseDigits(body: seq<Byte>, i: nat)
    requires Framable(body) && i < |body|
    ensures var g := Frame(body);
            var x, y := g[2 + i], g[3 + i];
            && x != STX && y != STX && STX !in g[4 + i..]
            && g[1 + i := ETX] == Whole(body[..i], x, y) + g[4 + i..]
            && (if i + 2 < |body| then [x, y] == body[i + 1..i + 3] else ParseHex([x, y]) == None)
  {
    hide Frame, HexByte, Checksum, ParseHex;
    var d := HexByte(Checksum(body + [ETX]));
    FrameIsWhole(body);
    var g := Frame(body);
    var x, y := g[2 + i], g[3 + i];
    assert g == [STX] + body + [ETX] + [d[0], d[1]];
    assert g[1 + i := ETX] == [STX] + body[..i] + [ETX, x, y] + g[4 + i..];
    if i + 2 >= |body| {
      assert x == ETX || y == ETX;
      EtxIsNoDigit(x, y);
    }
  }

  lemma EtxIsNoDigit(x: Byte, y: Byte)
    requires x == ETX || y == ETX
    ensures ParseHex([x, y]) == None
  {
    assert [x, y][..1] == [x];
  }

  lemma FalseEnd(l: Link, body: seq<Byte>, i: nat)
    requires Framable(body) && i < |body|
    ensures var h := Outcome(l.state, Misread(body, i, ETX));
            Run(l, Frame(body)[1 + i := ETX]) ==
            Link(Receiver([], false), h.state, l.sent + h.reply + Enquiries(Leftover(body, i, ETX)))
  {
    hide Handle, Frame, Run, Checksum, ParseHex, Outcome, Enquiries, Whole;
    var g := Frame(body);
    var x, y := g[2 + i], g[3 + i];
    FalseDigits(body, i);
    WholeIsAnswered(l, body[..i], x, y);
    HandleWhole(l.state, body[..i], x, y);
    RunAppend(l, Whole(body[..i], x, y), g[4 + i..]);
    OutsideFrames(Run(l, Whole(body[..i], x, y)), g[4 + i..]);
  }

  /** What one wrong byte does, on the wire, from every link: the port carries out exactly the request it misreads,
      and without one it changes nothing and refuses. What a false ETX leaves over is answered byte by byte. */
  lemma OneWrongByte(l: Link, body: seq<Byte>, i: nat, b: Byte)
    requires Framable(body) && i < |body| && b != body[i]
    ensures var h := Outcome(l.state, Misread(body, i, b));
            Run(l, Frame(body)[1 + i := b]) ==
            Link(Receiver([], false), h.state, l.sent + h.reply + Enquiries(Leftover(body, i, b)))
  {
    hide Handle, Frame, Run, Checksum, ParseHex;
    if b == STX {
      FalseStart(l, body, i);
    } else if b == ETX {
      FalseEnd(l, body, i);
    } else {
      FalseByte(l, body, i, b);
    }
  }

  /** A wrong byte that the sum check does not catch: the write of B0 7B to 0x4000, its tenth character become STX,
      stops the PLC and is acknowledged. */
  lemma WriteBecomesStop(l: Link)
    requires l.state.running
    ensures var body := WriteBody(0x4000, [0xB0, 0x7B]);
            && body[9] == 0x37 && Misread(body, 9, STX) == Some([0x42])
            && Run(l, Frame(body)[10 := STX]) ==
               Link(Receiver([], false), l.state.(running := false, first := false), l.sent + [ACK])
  {
    var body := WriteBody(0x4000, [0xB0, 0x7B]);
    assert body == [0x31, 0x34, 0x30, 0x30, 0x30, 0x30, 0x32, 0x42, 0x30, 0x37, 0x42];
    SumIsZero();
    assert body[..10] == [0x31, 0x34, 0x30, 0x30, 0x30, 0x30, 0x32, 0x42, 0x30, 0x37];
    assert body[10..] == [0x42];
    StopIsCarriedOut(l.state);
    RequestsAreFramable(0x4000, [0xB0, 0x7B]);
    hide Handle, Frame, Run, Checksum, ParseHex, WriteBody;
    OneWrongByte(l, body, 9, STX);
  }

  lemma StopIsCarriedOut(s: PortState)
    requires s.running
    ensures Handle(s, Frame([0x42])) == Accept(s.(running := false, first := false))
  {
    FramedIsSound([0x42]);
    hide Sound;
    assert Frame([0x42])[1] == 0x42;
  }

  lemma SumIsZero()
    ensures Checksum([0x31, 0x34, 0x30, 0x30, 0x30, 0x30, 0x32, 0x42, 0x30, 0x37]) == 0
  {
    var s: seq<Byte> := [0x31, 0x34, 0x30, 0x30, 0x30, 0x30, 0x32, 0x42, 0x30, 0x37];
    forall k: nat | 0 < k <= |s|
      ensures Total(s[..k]) == Total(s[..k - 1]) + s[k - 1]
    {
      assert s[..k][..k - 1] == s[..k - 1];
    }
    hide Checksum, Total;
    assert s[..10] == s && Total(s[..0]) == 0 && s[7] == 0x42 && s[8] == 0x30 && s[9] == 0x37;
    ChecksumIsTotal(s);
    assert Total(s[..1]) == 0x31 && Total(s[..2]) == 0x65 && Total(s[..3]) == 0x95;
    assert Total(s[..4]) == 0xC5 && Total(s[..5]) == 0xF5 && Total(s[..6]) == 0x125;
    assert Total(s[..7]) == 0x157 && Total(s[..8]) == 0x199 && Total(s[..9]) == 0x1C9;
  }
}
