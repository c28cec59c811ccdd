/** The programming port seen from the wire: a stream of bytes in, a stream of bytes out. */
module FxWire {
  import opened Words
  import opened FxMonitor
  import opened FxProtocol
  import opened FxCommands

  datatype Link = Link(rx: Receiver, state: PortState, sent: seq<Byte>)

  /** What an event does to the devices, and what it sends. */
  function After(s: PortState, e: Event): Handled {
    match e
    case Enquiry => Accept(s)
    case Delivered(f) => Handle(s, f)
    case _ => Handled(s, [])
  }

  function Next(l: Link, b: Byte): Link {
    var (rx, e) := Feed(l.rx, b);
    var h := After(l.state, e);
    Link(rx, h.state, l.sent + h.reply)
  }

  function Run(l: Link, bytes: seq<Byte>): Link {
    if bytes == [] then l else Next(Run(l, bytes[..|bytes| - 1]), bytes[|bytes| - 1])
  }

  lemma {:induction false} RunAppend(l: Link, a: seq<Byte>, b: seq<Byte>)
    ensures Run(l, a + b) == Run(Run(l, a), b)
    decreases |b|
  {
    hide Next;
    if b == [] {
      assert a + b == a;
    } else {
      var n := |b| - 1;
      RunAppend(l, a, b[..n]);
      assert (a + b)[..|a + b| - 1] == a + b[..n];
    }
  }

  /** Bytes that are only stored reach the receiver and nothing else. */
  lemma {:induction false} StoringIsSilent(l: Link, bytes: seq<Byte>)
    requires Events(l.rx, bytes) == seq(|bytes|, _ => Stored)
    ensures Run(l, bytes) == l.(rx := FeedAll(l.rx, bytes))
  {
    hide Feed, Handle;
    if bytes != [] {
      var n := |bytes| - 1;
      assert Events(l.rx, bytes[..n]) == Events(l.rx, bytes)[..n] == seq(n, _ => Stored);
      assert Events(l.rx, bytes)[n] == Stored;
      StoringIsSilent(l, bytes[..n]);
    }
  }

  /** Bytes of which the last delivers all of them, and the others are stored, are carried out once. */
  lemma DeliveredIsAnswered(l: Link, f: seq<Byte>)
    requires f != [] && FeedAll(l.rx, f) == Receiver([], false)
    requires Events(l.rx, f) == seq(|f| - 1, _ => Stored) + [Delivered(f)]
    ensures var h := Handle(l.state, f);
            Run(l, f) == Link(Receiver([], false), h.state, l.sent + h.reply)
  {
    hide Feed, Handle, FeedAll, Events;
    var n := |f| - 1;
    assert f == f[..n] + [f[n]];
    FeedLast(l.rx, f[..n], f[n]);
    assert Events(l.rx, f[..n]) == Events(l.rx, f)[..n] == seq(n, _ => Stored);
    assert Feed(FeedAll(l.rx, f[..n]), f[n]).1 == Events(l.rx, f)[n] == Delivered(f);
    StoringIsSilent(l, f[..n]);
    assert f[..|f| - 1] == f[..n];
  }

  /** From every receiver state, what stands between STX and two characters after ETX is handled once. */
  lemma WholeIsAnswered(l: Link, body: seq<Byte>, hi: Byte, lo: Byte)
    requires Framable(body) && hi != STX && lo != STX
    ensures var h := Handle(l.state, Whole(body, hi, lo));
            Run(l, Whole(body, hi, lo)) == Link(Receiver([], false), h.state, l.sent + h.reply)
  {
    hide Whole;
    WholeIsDelivered(l.rx, body, hi, lo);
    DeliveredIsAnswered(l, Whole(body, hi, lo));
  }

  /** From every receiver state, a framed body is carried out once and answered once. */
  lemma FrameIsAnswered(l: Link, body: seq<Byte>)
    requires Framable(body)
    ensures var h := Handle(l.state, Frame(body));
            Run(l, Frame(body)) == Link(Receiver([], false), h.state, l.sent + h.reply)
  {
    hide Frame;
    FrameIsDelivered(l.rx, body);
    DeliveredIsAnswered(l, Frame(body));
  }

  predicate Plain(s: seq<Byte>) { STX !in s && ETX !in s }

  lemma HexIsPlain(v: Byte)
    ensures Plain(HexByte(v))
  {
  }

  lemma {:induction false} EncodedIsPlain(bytes: seq<Byte>)
    ensures Plain(EncodeBytes(bytes))
  {
    hide HexByte;
    if bytes != [] {
      EncodedIsPlain(bytes[..|bytes| - 1]);
      HexIsPlain(bytes[|bytes| - 1]);
    }
  }

  lemma RequestsAreFramable(addr: Word, bytes: seq<Byte>)
    requires |bytes| <= 64
    ensures Framable(WriteBody(addr, bytes)) && Framable(ReadBody(addr, |bytes|))
  {
    hide HexByte;
    HexIsPlain(addr / 256);
    HexIsPlain(addr % 256);
    HexIsPlain(|bytes|);
    EncodedIsPlain(bytes);
  }

  /** End to end on the wire: whatever the receiver held, the bytes of a write request and of a read request
      for the same range send back an acknowledgement and a reply that decodes to what was written. */
  lemma WireWriteThenRead(l: Link, addr: Word, bytes: seq<Byte>)
    requires 1 <= |bytes| <= 64 && AllBacked(addr, |bytes|) && |l.state.readable| <= RESULT_BYTES
    ensures var stream := Frame(WriteBody(addr, bytes)) + Frame(ReadBody(addr, |bytes|));
            var sent := Run(l, stream).sent;
            && |sent| > |l.sent| && sent[..|l.sent| + 1] == l.sent + [ACK]
            && DecodeReply(sent[|l.sent| + 1..]) == Some(bytes)
  {
    hide Handle, Frame, Run, AllBacked, WriteBody, ReadBody, DecodeReply;
    var w, r := WriteBody(addr, bytes), ReadBody(addr, |bytes|);
    RequestsAreFramable(addr, bytes);
    RunAppend(l, Frame(w), Frame(r));
    FrameIsAnswered(l, w);
    FrameIsAnswered(Run(l, Frame(w)), r);
    WriteThenRead(l.state, addr, bytes);
    var reply := Handle(Handle(l.state, Frame(w)).state, Frame(r)).reply;
    assert Run(l, Frame(w) + Frame(r)).sent == l.sent + [ACK] + reply;
    assert (l.sent + [ACK] + reply)[|l.sent| + 1..] == reply;
  }
}
