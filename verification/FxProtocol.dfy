/** The programming-port protocol as functions: hex codec, frames, receiver, commands. */
module FxProtocol {
  import opened Words

  const STX: Byte := 0x02
  const ETX: Byte := 0x03
  const ENQ: Byte := 0x05
  const ACK: Byte := 0x06
  const NAK: Byte := 0x15
  const BUF_SIZE: nat := 256

  // ----------------------------------------------------------- hex codec

  function HexDigit(nibble: nat): Byte
    requires nibble < 16
  {
    if nibble < 10 then 0x30 + nibble else 0x41 + (nibble - 10)
  }

  function HexValue(ch: Byte): Option<nat> {
    if 0x30 <= ch <= 0x39 then Some(ch - 0x30)
    else if 0x41 <= ch <= 0x46 then Some(ch - 0x41 + 10)
    else if 0x61 <= ch <= 0x66 then Some(ch - 0x61 + 10)
    else None
  }

  /** The number written in hex digits, most significant first. */
  function ParseHex(s: seq<Byte>): Option<nat> {
    if s == [] then Some(0)
    else
      var front, d := ParseHex(s[..|s| - 1]), HexValue(s[|s| - 1]);
      if front.None? || d.None? then None else Some(16 * front.value + d.value)
  }

  function HexByte(v: Byte): (s: seq<Byte>)
    ensures |s| == 2
  {
    [HexDigit(v / 16), HexDigit(v % 16)]
  }

  function HexWord(w: Word): (s: seq<Byte>)
    ensures |s| == 4
  {
    HexByte(w / 256) + HexByte(w % 256)
  }

  function EncodeBytes(bytes: seq<Byte>): (s: seq<Byte>)
    ensures |s| == 2 * |bytes|
  {
    if bytes == [] then [] else EncodeBytes(bytes[..|bytes| - 1]) + HexByte(bytes[|bytes| - 1])
  }

  /** Sum check over a run of characters; only the low byte is used. */
  function Checksum(s: seq<Byte>): Byte {
    if s == [] then 0 else (Checksum(s[..|s| - 1]) + s[|s| - 1]) % 256
  }

  /** Appending one digit to a run of hex digits. */
  lemma ParseNext(s: seq<Byte>, d: Byte)
    ensures ParseHex(s + [d]) ==
            if ParseHex(s).None? || HexValue(d).None? then None
            else Some(16 * ParseHex(s).value + HexValue(d).value)
  {
    hide HexValue;
    assert (s + [d])[..|s|] == s;
  }

  lemma ParseHexByte(v: Byte)
    ensures ParseHex(HexByte(v)) == Some(v)
  {
    var s := HexByte(v);
    assert s[..1] == [s[0]] && [s[0]][..0] == [];
    assert ParseHex(s[..1]) == Some(v / 16) by {
      assert ParseHex([s[0]][..0]) == Some(0);
    }
  }

  lemma ParseTwo(a: seq<Byte>, b: seq<Byte>)
    requires |b| == 2 && ParseHex(a).Some? && ParseHex(b).Some?
    ensures ParseHex(a + b) == Some(256 * ParseHex(a).value + ParseHex(b).value)
  {
    hide ParseHex, HexValue;
    ParseNothing();
    ParseNext([], b[0]);
    ParseNext([b[0]], b[1]);
    ParseNext(a, b[0]);
    ParseNext(a + [b[0]], b[1]);
    assert [] + [b[0]] == [b[0]] && [b[0]] + [b[1]] == b && (a + [b[0]]) + [b[1]] == a + b;
  }

  lemma ParseNothing()
    ensures ParseHex([]) == Some(0)
  {
  }

  lemma ParseHexWord(w: Word)
    ensures ParseHex(HexWord(w)) == Some(w)
  {
    ParseHexByte(w / 256);
    ParseHexByte(w % 256);
    ParseTwo(HexByte(w / 256), HexByte(w % 256));
  }

  // -------------------------------------------------------------- frames

  /** STX, the body, ETX, and two check digits over body and ETX. */
  function Frame(body: seq<Byte>): (f: seq<Byte>)
    ensures |f| == |body| + 4
  {
    [STX] + body + [ETX] + HexByte(Checksum(body + [ETX]))
  }

  /** The bytes a well-formed data reply carries. */
  function DecodeReply(f: seq<Byte>): Option<seq<Byte>> {
    if |f| < 4 || f[0] != STX || f[|f| - 3] != ETX then None
    else if ParseHex(f[|f| - 2..]) != Some(Checksum(f[1..|f| - 2]) as nat) then None
    else DecodeBytes(f[1..|f| - 3])
  }

  function DecodeBytes(s: seq<Byte>): Option<seq<Byte>>
    decreases |s|
  {
    if s == [] then Some([])
    else if |s| == 1 then None
    else
      var front, v := DecodeBytes(s[..|s| - 2]), ParseHex(s[|s| - 2..]);
      if front.None? || v.None? || v.value > 255 then None else Some(front.value + [v.value])
  }

  lemma DecodeLast(s: seq<Byte>, pair: seq<Byte>)
    requires |pair| == 2 && DecodeBytes(s).Some? && ParseHex(pair).Some? && ParseHex(pair).value <= 255
    ensures DecodeBytes(s + pair) == Some(DecodeBytes(s).value + [ParseHex(pair).value as Byte])
  {
    hide ParseHex;
    assert (s + pair)[..|s|] == s && (s + pair)[|s|..] == pair;
  }

  lemma {:induction false} DecodeEncoded(bytes: seq<Byte>)
    ensures DecodeBytes(EncodeBytes(bytes)) == Some(bytes)
    decreases |bytes|
  {
    hide ParseHex, HexByte;
    if bytes != [] {
      var n := |bytes| - 1;
      DecodeEncoded(bytes[..n]);
      ParseHexByte(bytes[n]);
      DecodeLast(EncodeBytes(bytes[..n]), HexByte(bytes[n]));
      assert bytes == bytes[..n] + [bytes[n]];
    }
  }

  lemma FrameParts(body: seq<Byte>)
    ensures var f := Frame(body);
            && f[0] == STX && f[|f| - 3] == ETX && f[1..|f| - 3] == body && f[1..|f| - 2] == body + [ETX]
            && ParseHex(f[|f| - 2..]) == Some(Checksum(body + [ETX]) as nat)
  {
    var f := Frame(body);
    assert f[|f| - 2..] == HexByte(Checksum(body + [ETX]));
    ParseHexByte(Checksum(body + [ETX]));
  }

  /** A data reply decodes to the bytes it was built from. */
  lemma ReplyDecodes(bytes: seq<Byte>)
    ensures DecodeReply(Frame(EncodeBytes(bytes))) == Some(bytes)
  {
    FrameParts(EncodeBytes(bytes));
    DecodeEncoded(bytes);
  }

  // ------------------------------------------------------------ receiver

  datatype Receiver = Receiver(rx: seq<Byte>, inFrame: bool)

  /** What one received byte leads to. Console bytes and the dump request are outside the protocol. */
  datatype Event = Enquiry | Dump | Console(b: Byte) | Dropped | Stored | Delivered(frame: seq<Byte>)

  function Feed(r: Receiver, b: Byte): (Receiver, Event) {
    if b == ENQ && !r.inFrame then (r, Enquiry)
    else if b == 0x3F && !r.inFrame then (r, Dump)
    else
      var s := if b == STX then Receiver([], true) else r;
      if s.inFrame then InFrame(s.rx, b) else (s, Console(b))
  }

  /** A byte inside a frame: too many drop the frame, and two after ETX complete it. */
  function InFrame(before: seq<Byte>, b: Byte): (Receiver, Event) {
    if |before| >= BUF_SIZE then (Receiver([], false), Dropped)
    else
      var rx := before + [b];
      if |rx| >= 4 && rx[|rx| - 3] == ETX then (Receiver([], false), Delivered(rx))
      else (Receiver(rx, true), Stored)
  }

  function FeedAll(r: Receiver, bytes: seq<Byte>): Receiver {
    if bytes == [] then r else Feed(FeedAll(r, bytes[..|bytes| - 1]), bytes[|bytes| - 1]).0
  }

  function Events(r: Receiver, bytes: seq<Byte>): seq<Event> {
    if bytes == [] then []
    else
      var n := |bytes| - 1;
      Events(r, bytes[..n]) + [Feed(FeedAll(r, bytes[..n]), bytes[n]).1]
  }

  /** A body that can be framed: no control characters of the framing, and short enough for the buffer. */
  predicate Framable(body: seq<Byte>) {
    |body| + 4 <= 256 && 0x02 !in body && 0x03 !in body
  }

  lemma FeedLast(r: Receiver, bytes: seq<Byte>, b: Byte)
    ensures FeedAll(r, bytes + [b]) == Feed(FeedAll(r, bytes), b).0
    ensures Events(r, bytes + [b]) == Events(r, bytes) + [Feed(FeedAll(r, bytes), b).1]
  {
    hide Feed;
    assert (bytes + [b])[..|bytes|] == bytes;
  }

  /** One more byte inside a frame is stored. */
  lemma Stores(r: Receiver, head: seq<Byte>, b: Byte)
    requires 1 <= |head| < BUF_SIZE && b != STX
    requires FeedAll(r, head) == Receiver(head, true) && Events(r, head) == seq(|head|, _ => Stored)
    requires |head| >= 3 ==> head[|head| - 2] != ETX
    ensures FeedAll(r, head + [b]) == Receiver(head + [b], true)
    ensures Events(r, head + [b]) == seq(|head| + 1, _ => Stored)
  {
    FeedLast(r, head, b);
    assert Feed(Receiver(head, true), b) == (Receiver(head + [b], true), Stored);
    assert seq(|head| + 1, _ => Stored) == seq(|head|, _ => Stored) + [Stored];
  }

  lemma {:induction false} BodyIsStored(r: Receiver, body: seq<Byte>, n: nat)
    requires Framable(body) && n <= |body|
    ensures FeedAll(r, [STX] + body[..n]) == Receiver([STX] + body[..n], true)
    ensures Events(r, [STX] + body[..n]) == seq(n + 1, _ => Stored)
  {
    hide Feed, FeedAll, Events;
    if n == 0 {
      StartOfFrame(r);
      assert [STX] + body[..0] == [STX];
    } else {
      BodyIsStored(r, body, n - 1);
      var head := [STX] + body[..n - 1];
      assert n >= 3 ==> head[|head| - 2] == body[n - 3];
      Stores(r, head, body[n - 1]);
      assert head + [body[n - 1]] == [STX] + body[..n];
    }
  }

  lemma StartOfFrame(r: Receiver)
    ensures FeedAll(r, [STX]) == Receiver([STX], true) && Events(r, [STX]) == seq(1, _ => Stored)
  {
    FeedLast(r, [], STX);
    assert [] + [STX] == [STX];
  }

  lemma HexDigitRange(nibble: nat)
    requires nibble < 16
    ensures HexDigit(nibble) != STX && HexDigit(nibble) != ETX && HexDigit(nibble) != ENQ
  {
  }

  lemma Completes(head: seq<Byte>, b: Byte)
    requires 3 <= |head| < BUF_SIZE && b != STX && head[|head| - 2] == ETX
    ensures Feed(Receiver(head, true), b) == (Receiver([], false), Delivered(head + [b]))
  {
  }

  /** A body between STX and ETX with any two characters for its check digits. */
  function Whole(body: seq<Byte>, hi: Byte, lo: Byte): (f: seq<Byte>)
    ensures |f| == |body| + 4
  {
    [STX] + body + [ETX, hi, lo]
  }

  lemma FrameIsWhole(body: seq<Byte>)
    ensures var d := HexByte(Checksum(body + [ETX]));
            Frame(body) == Whole(body, d[0], d[1]) && d[0] != STX && d[1] != STX && d[0] != ENQ && d[1] != ENQ
  {
    var c := Checksum(body + [ETX]);
    HexDigitRange(c / 16);
    HexDigitRange(c % 16);
    assert HexByte(c) == [HexByte(c)[0], HexByte(c)[1]];
  }

  /** Self-synchronisation: from every receiver state, feeding STX, a body, ETX and two characters stores them and
      then delivers exactly that frame, sound or not, and nothing else. */
  lemma WholeIsDelivered(r: Receiver, body: seq<Byte>, hi: Byte, lo: Byte)
    requires Framable(body) && hi != STX && lo != STX
    ensures FeedAll(r, Whole(body, hi, lo)) == Receiver([], false)
    ensures Events(r, Whole(body, hi, lo)) == seq(|body| + 3, _ => Stored) + [Delivered(Whole(body, hi, lo))]
  {
    hide FeedAll, Events;
    var n := |body|;
    var a := [STX] + body;
    BodyIsStored(r, body, n);
    assert body[..n] == body;
    assert n >= 2 ==> a[|a| - 2] == body[n - 2];
    Stores(r, a, ETX);
    var b := a + [ETX];
    assert n >= 1 ==> b[|b| - 2] == body[n - 1];
    Stores(r, b, hi);
    var d := b + [hi];
    FeedLast(r, d, lo);
    assert d + [lo] == Whole(body, hi, lo);
    Completes(d, lo);
  }

  /** The same for a frame as it should be. */
  lemma FrameIsDelivered(r: Receiver, body: seq<Byte>)
    requires Framable(body)
    ensures FeedAll(r, Frame(body)) == Receiver([], false)
    ensures Events(r, Frame(body)) == seq(|body| + 3, _ => Stored) + [Delivered(Frame(body))]
  {
    hide FeedAll, Events, Frame, Whole, HexByte;
    var d := HexByte(Checksum(body + [ETX]));
    FrameIsWhole(body);
    WholeIsDelivered(r, body, d[0], d[1]);
  }
}
