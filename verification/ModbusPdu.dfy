/** What a Modbus request answers and changes, from the unit identifier onwards. */
module ModbusPdu {
  import opened Words
  import opened Devices
  import opened BitPacking
  import opened ModbusMap

  const PDU_MAX: nat := 256
  const MBAP: nat := 6
  const ADU_MAX: nat := MBAP + PDU_MAX
  const ILLEGAL_FUNCTION: Byte := 0x01
  const ILLEGAL_ADDRESS: Byte := 0x02
  const ILLEGAL_VALUE: Byte := 0x03

  function Be16(s: seq<Byte>, i: nat): Word
    requires i + 1 < |s|
  {
    FromBytes(s[i + 1], s[i])
  }

  function Exception(req: seq<Byte>, code: Byte): (r: seq<Byte>)
    requires |req| >= 2
    ensures |r| == 3
  {
    [req[0], req[1] % 128 + 128, code]
  }

  /** The reply of every accepted write. */
  function Echo(req: seq<Byte>): seq<Byte>
    requires |req| >= 6
  {
    req[..6]
  }

  function Start(req: seq<Byte>): Word
    requires |req| >= 6
  {
    Be16(req, 2)
  }

  function Count(req: seq<Byte>): Word
    requires |req| >= 6
  {
    Be16(req, 4)
  }

  /** Item i of a run: addresses wrap at 16 bits. */
  function Nth(start: Word, i: nat): Word { Wrap16(start + i) }

  /** Which item of a run an address is. */
  function Offset(start: Word, addr: Word): nat { Wrap16(addr - start) }

  lemma OffsetOfNth(start: Word, i: nat)
    requires i < 0x1_0000
    ensures Offset(start, Nth(start, i)) == i
  {
  }

  lemma NthOfOffset(start: Word, addr: Word)
    ensures Nth(start, Offset(start, addr)) == addr
  {
  }

  // ------------------------------------------------------------- reading

  function BitCell(img: Image, discrete: bool, addr: Word): Option<bool> {
    if discrete then Discrete(img, addr) else Coil(img, addr)
  }

  function WordCell(img: Image, input: bool, addr: Word): Option<Word> {
    if input then Input(img, addr) else Holding(img, addr)
  }

  predicate BitsReadable(img: Image, discrete: bool, start: Word, n: nat) {
    forall i: nat :: i < n ==> BitCell(img, discrete, Nth(start, i)).Some?
  }

  predicate WordsReadable(img: Image, input: bool, start: Word, n: nat) {
    forall i: nat :: i < n ==> WordCell(img, input, Nth(start, i)).Some?
  }

  function BitRun(img: Image, discrete: bool, start: Word, n: nat): (bits: seq<bool>)
    ensures |bits| == n
  {
    seq(n, i requires 0 <= i < n =>
      match BitCell(img, discrete, Nth(start, i)) case Some(v) => v case None => false)
  }

  function WordRun(img: Image, input: bool, start: Word, n: nat): (words: seq<Word>)
    ensures |words| == n
  {
    seq(n, i requires 0 <= i < n =>
      match WordCell(img, input, Nth(start, i)) case Some(v) => v case None => 0)
  }

  /** Registers travel high byte first. */
  function BigEndian(words: seq<Word>): (bytes: seq<Byte>)
    ensures |bytes| == 2 * |words|
  {
    seq(2 * |words|, k requires 0 <= k < 2 * |words| => if k % 2 == 0 then High(words[k / 2]) else Low(words[k / 2]))
  }

  function ReadBits(img: Image, req: seq<Byte>, discrete: bool): seq<Byte>
    requires |req| >= 6
  {
    var n := Count(req);
    if n == 0 || n > 2000 then Exception(req, ILLEGAL_VALUE)
    else if !BitsReadable(img, discrete, Start(req), n) then Exception(req, ILLEGAL_ADDRESS)
    else [req[0], req[1], (n + 7) / 8] + PackBytes(BitRun(img, discrete, Start(req), n))
  }

  function ReadWords(img: Image, req: seq<Byte>, input: bool): seq<Byte>
    requires |req| >= 6
  {
    var n := Count(req);
    if n == 0 || n > 125 then Exception(req, ILLEGAL_VALUE)
    else if !WordsReadable(img, input, Start(req), n) then Exception(req, ILLEGAL_ADDRESS)
    else [req[0], req[1], 2 * n] + BigEndian(WordRun(img, input, Start(req), n))
  }

  // ------------------------------------------------------------- writing

  /** How many of the n items from start on come before the first unmapped address. */
  function MappedCoils(start: Word, n: nat): (k: nat)
    ensures k <= n
    ensures forall i: nat :: i < k ==> CoilMapped(Nth(start, i))
    ensures k < n ==> !CoilMapped(Nth(start, k))
  {
    if n == 0 then 0
    else
      var k := MappedCoils(start, n - 1);
      if k == n - 1 && CoilMapped(Nth(start, k)) then n else k
  }

  function MappedRegisters(start: Word, n: nat): (k: nat)
    ensures k <= n
    ensures forall i: nat :: i < k ==> HoldingMapped(Nth(start, i))
    ensures k < n ==> !HoldingMapped(Nth(start, k))
  {
    if n == 0 then 0
    else
      var k := MappedRegisters(start, n - 1);
      if k == n - 1 && HoldingMapped(Nth(start, k)) then n else k
  }

  function WithCoils(img: Image, start: Word, bits: seq<bool>): Image {
    if bits == [] then img
    else
      var n := |bits| - 1;
      PutCoil(WithCoils(img, start, bits[..n]), Nth(start, n), bits[n])
  }

  function WithRegisters(img: Image, start: Word, words: seq<Word>): Image {
    if words == [] then img
    else
      var n := |words| - 1;
      PutHolding(WithRegisters(img, start, words[..n]), Nth(start, n), words[n])
  }

  /** The byte count is there, and so are that many bytes. */
  predicate PayloadFits(req: seq<Byte>) { |req| >= 7 && 7 + req[6] <= |req| }

  predicate GoodCoilWrite(req: seq<Byte>) {
    |req| >= 6 && PayloadFits(req) && Count(req) > 0 && req[6] == (Count(req) + 7) / 8
  }

  predicate GoodRegisterWrite(req: seq<Byte>) {
    |req| >= 6 && PayloadFits(req) && Count(req) > 0 && req[6] == 2 * Count(req)
  }

  function CoilPayload(req: seq<Byte>): (bits: seq<bool>)
    requires GoodCoilWrite(req)
    ensures |bits| == Count(req)
  {
    Unpack(req[7..], Count(req))
  }

  function RegisterPayload(req: seq<Byte>): (words: seq<Word>)
    requires GoodRegisterWrite(req)
    ensures |words| == Count(req)
  {
    seq(Count(req), i requires 0 <= i < Count(req) => Be16(req, 7 + 2 * i))
  }

  /** The items before the first unmapped address are written; the rest are not. */
  function WriteCoils(img: Image, req: seq<Byte>): (Image, seq<Byte>)
    requires |req| >= 6
  {
    if !GoodCoilWrite(req) then (img, Exception(req, ILLEGAL_VALUE))
    else
      var k := MappedCoils(Start(req), Count(req));
      (WithCoils(img, Start(req), CoilPayload(req)[..k]),
       if k == Count(req) then Echo(req) else Exception(req, ILLEGAL_ADDRESS))
  }

  function WriteRegisters(img: Image, req: seq<Byte>): (Image, seq<Byte>)
    requires |req| >= 6
  {
    if !GoodRegisterWrite(req) then (img, Exception(req, ILLEGAL_VALUE))
    else
      var k := MappedRegisters(Start(req), Count(req));
      (WithRegisters(img, Start(req), RegisterPayload(req)[..k]),
       if k == Count(req) then Echo(req) else Exception(req, ILLEGAL_ADDRESS))
  }

  function WriteOneCoil(img: Image, req: seq<Byte>): (Image, seq<Byte>)
    requires |req| >= 6
  {
    var addr, value := Start(req), Count(req);
    if value != 0 && value != 0xFF00 then (img, Exception(req, ILLEGAL_VALUE))
    else if !CoilMapped(addr) then (img, Exception(req, ILLEGAL_ADDRESS))
    else (PutCoil(img, addr, value == 0xFF00), Echo(req))
  }

  function WriteOneRegister(img: Image, req: seq<Byte>): (Image, seq<Byte>)
    requires |req| >= 6
  {
    if !HoldingMapped(Start(req)) then (img, Exception(req, ILLEGAL_ADDRESS))
    else (PutHolding(img, Start(req), Count(req)), Echo(req))
  }

  // ------------------------------------------------------------ requests

  /** The device image after a request, and the reply; no reply at all is []. */
  function PduExec(img: Image, req: seq<Byte>): (Image, seq<Byte>) {
    if |req| < 2 then (img, [])
    else if |req| < 6 then (img, Exception(req, ILLEGAL_VALUE))
    else
      match req[1]
      case 0x01 => (img, ReadBits(img, req, false))
      case 0x02 => (img, ReadBits(img, req, true))
      case 0x03 => (img, ReadWords(img, req, false))
      case 0x04 => (img, ReadWords(img, req, true))
      case 0x05 => WriteOneCoil(img, req)
      case 0x06 => WriteOneRegister(img, req)
      case 0x0F => WriteCoils(img, req)
      case 0x10 => WriteRegisters(img, req)
      case _ => (img, Exception(req, ILLEGAL_FUNCTION))
  }

  /** Transaction, protocol 0, and the length of what follows. */
  function MbapHeader(hi: Byte, lo: Byte, length: Word): (h: seq<Byte>)
    ensures |h| == 6 && h[0] == hi && h[1] == lo && h[2] == 0 && h[3] == 0
    ensures h[4] == High(length) && h[5] == Low(length)
  {
    [hi, lo, 0, 0, High(length), Low(length)]
  }

  /** A request, or a reply, in a TCP frame of its own. */
  function Adu(hi: Byte, lo: Byte, body: seq<Byte>): (f: seq<Byte>)
    ensures |f| == 6 + |body|
  {
    MbapHeader(hi, lo, Wrap16(|body|)) + body
  }

  lemma AduParts(hi: Byte, lo: Byte, body: seq<Byte>)
    ensures var f := Adu(hi, lo, body);
            && f[6..] == body && f[0] == hi && f[1] == lo
            && Be16(f, 2) == 0 && Be16(f, 4) == Wrap16(|body|)
  {
    hide MbapHeader, Wrap16, Low, High;
    WordOfBytes(Wrap16(|body|));
  }

  /** A TCP frame: the header must say Modbus and agree with the frame's own size. */
  function AduExec(img: Image, adu: seq<Byte>): (Image, seq<Byte>) {
    if |adu| < 8 || Be16(adu, 2) != 0 || Be16(adu, 4) != Wrap16(|adu| - 6) then (img, [])
    else
      var (after, reply) := PduExec(img, adu[6..]);
      (after, if reply == [] then [] else Adu(adu[0], adu[1], reply))
  }

  // ---------------------------------------------------- what is guaranteed

  /** Every request long enough to name a function gets one reply that fits a frame, from the unit it
      addressed, for the function it asked, or that function's exception. */
  lemma ReplyShape(img: Image, req: seq<Byte>)
    ensures var reply := PduExec(img, req).1;
            && |reply| <= PDU_MAX && (reply == [] <==> |req| < 2)
            && (reply != [] ==> |reply| >= 3 && reply[0] == req[0] &&
                                (reply[1] == req[1] || (|reply| == 3 && reply[1] == req[1] % 128 + 128)))
  {
    hide PackBytes, BigEndian, BitsReadable, WordsReadable;
  }

  /** The coils of a run read the bits written to it, by offset from its start; every other coil is kept. */
  lemma {:induction false} CoilRunRead(img: Image, start: Word, bits: seq<bool>, b: Word)
    requires |bits| <= 0x1_0000
    ensures Coil(WithCoils(img, start, bits), b) ==
            (var i := Offset(start, b); if i < |bits| && CoilMapped(b) then Some(bits[i]) else Coil(img, b))
  {
    hide Coil, PutCoil, CoilMapped;
    if bits != [] {
      var n := |bits| - 1;
      CoilRunRead(img, start, bits[..n], b);
      CoilOverCoil(WithCoils(img, start, bits[..n]), Nth(start, n), bits[n], b);
    }
  }

  lemma {:induction false} RegisterRunRead(img: Image, start: Word, words: seq<Word>, b: Word)
    requires |words| <= 0x1_0000
    ensures Holding(WithRegisters(img, start, words), b) ==
            (var i := Offset(start, b); if i < |words| && HoldingMapped(b) then Some(words[i]) else Holding(img, b))
  {
    hide Holding, PutHolding, HoldingMapped;
    if words != [] {
      var n := |words| - 1;
      RegisterRunRead(img, start, words[..n], b);
      HoldingOverHolding(WithRegisters(img, start, words[..n]), Nth(start, n), words[n], b);
    }
  }

  lemma {:induction false} CoilsKeepRegisters(img: Image, start: Word, bits: seq<bool>, b: Word)
    ensures Holding(WithCoils(img, start, bits), b) == Holding(img, b)
  {
    hide Holding, PutCoil;
    if bits != [] {
      var n := |bits| - 1;
      CoilsKeepRegisters(img, start, bits[..n], b);
      TablesAreSeparate(WithCoils(img, start, bits[..n]), Nth(start, n), bits[n], 0, b);
    }
  }

  lemma {:induction false} RegistersKeepCoils(img: Image, start: Word, words: seq<Word>, b: Word)
    ensures Coil(WithRegisters(img, start, words), b) == Coil(img, b)
  {
    hide Coil, PutHolding;
    if words != [] {
      var n := |words| - 1;
      RegistersKeepCoils(img, start, words[..n], b);
      TablesAreSeparate(WithRegisters(img, start, words[..n]), Nth(start, n), false, words[n], b);
    }
  }

  lemma WriteCodes(img: Image, req: seq<Byte>)
    requires |req| >= 6
    ensures req[1] == 0x0F ==> PduExec(img, req) == WriteCoils(img, req)
    ensures req[1] == 0x10 ==> PduExec(img, req) == WriteRegisters(img, req)
    ensures req[1] == 0x01 ==> PduExec(img, req) == (img, ReadBits(img, req, false))
    ensures req[1] == 0x03 ==> PduExec(img, req) == (img, ReadWords(img, req, false))
    ensures forall code :: Echo(req) != Exception(req, code)
  {
    hide WriteCoils, WriteRegisters, ReadBits, ReadWords;
    forall code
      ensures Echo(req) != Exception(req, code)
    {
      assert |Echo(req)| == 6 && |Exception(req, code)| == 3;
    }
  }

  /** A well-formed multiple-coil write is accepted if and only if every address is mapped. Either way, the
      coils that change are those before the first unmapped address, and they get their bits. */
  lemma CoilWriteExact(img: Image, req: seq<Byte>, b: Word)
    requires GoodCoilWrite(req) && req[1] == 0x0F
    ensures var (after, reply) := PduExec(img, req);
            var n, i := Count(req), Offset(Start(req), b);
            && (reply == Echo(req) <==> forall j: nat :: j < n ==> CoilMapped(Nth(Start(req), j)))
            && (reply != Echo(req) ==> reply == Exception(req, ILLEGAL_ADDRESS))
            && Coil(after, b) == (if i < MappedCoils(Start(req), n) then Some(CoilPayload(req)[i]) else Coil(img, b))
            && Holding(after, b) == Holding(img, b)
  {
    WriteCodes(img, req);
    hide PduExec, Coil, CoilMapped, CoilPayload, Holding, WithCoils, Nth, Echo, Exception;
    var start, bits, i := Start(req), CoilPayload(req), Offset(Start(req), b);
    var k := MappedCoils(start, Count(req));
    CoilRunRead(img, start, bits[..k], b);
    CoilsKeepRegisters(img, start, bits[..k], b);
    NthOfOffset(start, b);
    hide GoodCoilWrite, Start, Count, Offset, MappedCoils;
  }

  lemma RegisterWriteExact(img: Image, req: seq<Byte>, b: Word)
    requires GoodRegisterWrite(req) && req[1] == 0x10
    ensures var (after, reply) := PduExec(img, req);
            var n, i := Count(req), Offset(Start(req), b);
            && (reply == Echo(req) <==> forall j: nat :: j < n ==> HoldingMapped(Nth(Start(req), j)))
            && (reply != Echo(req) ==> reply == Exception(req, ILLEGAL_ADDRESS))
            && Holding(after, b) ==
               (if i < MappedRegisters(Start(req), n) then Some(RegisterPayload(req)[i]) else Holding(img, b))
            && Coil(after, b) == Coil(img, b)
  {
    WriteCodes(img, req);
    hide PduExec, Coil, HoldingMapped, RegisterPayload, Holding, WithRegisters, Nth, Echo, Exception;
    var start, words, i := Start(req), RegisterPayload(req), Offset(Start(req), b);
    var k := MappedRegisters(start, Count(req));
    RegisterRunRead(img, start, words[..k], b);
    RegistersKeepCoils(img, start, words[..k], b);
    NthOfOffset(start, b);
    hide GoodRegisterWrite, Start, Count, Offset, MappedRegisters;
  }

  /** A read request for the range another request wrote. */
  function ReadBack(req: seq<Byte>, code: Byte): (r: seq<Byte>)
    requires |req| >= 6
    ensures |r| == 6 && r[0] == req[0] && r[1] == code && Start(r) == Start(req) && Count(r) == Count(req)
  {
    [req[0], code] + req[2..6]
  }

  /** The data reply that carries a register write's own payload. */
  function PayloadReply(req: seq<Byte>): (r: seq<Byte>)
    requires GoodRegisterWrite(req) && Count(req) <= 125
    ensures |r| == 3 + 2 * Count(req)
  {
    [req[0], 0x03, 2 * Count(req)] + req[7..7 + 2 * Count(req)]
  }

  /** What an accepted register write leaves behind. */
  lemma AcceptedRegisters(img: Image, req: seq<Byte>, start: Word, n: nat)
    requires |req| >= 6 && WriteRegisters(img, req).1 == Echo(req) && start == Start(req) && n == Count(req)
    ensures GoodRegisterWrite(req)
    ensures WordsReadable(WriteRegisters(img, req).0, false, start, n)
    ensures WordRun(WriteRegisters(img, req).0, false, start, n) == RegisterPayload(req)
  {
    hide Holding, HoldingMapped, WithRegisters, RegisterPayload, Start, Count, Be16, Nth, Offset;
    assert forall code :: Echo(req) != Exception(req, code) by { WriteCodes(img, req); }
    hide Echo, Exception, PduExec;
    var words, after := RegisterPayload(req), WriteRegisters(img, req).0;
    assert words[..n] == words;
    forall i: nat | i < n
      ensures Holding(after, Nth(start, i)) == Some(words[i])
    {
      OffsetOfNth(start, i);
      RegisterRunRead(img, start, words, Nth(start, i));
    }
  }

  lemma AcceptedCoils(img: Image, req: seq<Byte>, start: Word, n: nat)
    requires |req| >= 6 && WriteCoils(img, req).1 == Echo(req) && start == Start(req) && n == Count(req)
    ensures GoodCoilWrite(req)
    ensures BitsReadable(WriteCoils(img, req).0, false, start, n)
    ensures BitRun(WriteCoils(img, req).0, false, start, n) == CoilPayload(req)
  {
    hide Coil, CoilMapped, WithCoils, CoilPayload, Start, Count, Be16, Nth, Offset;
    assert forall code :: Echo(req) != Exception(req, code) by { WriteCodes(img, req); }
    hide Echo, Exception, PduExec;
    var bits, after := CoilPayload(req), WriteCoils(img, req).0;
    assert bits[..n] == bits;
    forall i: nat | i < n
      ensures Coil(after, Nth(start, i)) == Some(bits[i])
    {
      OffsetOfNth(start, i);
      CoilRunRead(img, start, bits, Nth(start, i));
    }
  }

  /** Function 16 then function 3: if the write is accepted, reading the range back gives exactly the bytes of
      the payload. Requests that fit a frame never write more registers than one read may return. */
  lemma RegistersRoundTrip(img: Image, req: seq<Byte>)
    requires |req| >= 6 && req[1] == 0x10 && PduExec(img, req).1 == Echo(req)
    ensures var (after, n) := (PduExec(img, req).0, Count(req));
            && GoodRegisterWrite(req) && (|req| <= PDU_MAX ==> n <= 125)
            && PduExec(after, ReadBack(req, 0x03)) ==
               (after, if n <= 125 then PayloadReply(req)
                       else Exception(ReadBack(req, 0x03), ILLEGAL_VALUE))
  {
    var after, back := PduExec(img, req).0, ReadBack(req, 0x03);
    WriteCodes(img, req);
    WriteCodes(after, back);
    hide PduExec, WriteRegisters, WordsReadable, WordRun, ReadBack, Start, Count, Echo, Exception;
    AcceptedRegisters(img, req, Start(req), Count(req));
    PayloadIsBigEndian(req);
  }

  lemma PayloadIsBigEndian(req: seq<Byte>)
    requires GoodRegisterWrite(req)
    ensures BigEndian(RegisterPayload(req)) == req[7..7 + 2 * Count(req)]
  {
    hide Count, Low, High, FromBytes;
    forall k | 0 <= k < 2 * Count(req)
      ensures BigEndian(RegisterPayload(req))[k] == req[7 + k]
    {
      var i := k / 2;
      assert RegisterPayload(req)[i] == FromBytes(req[7 + 2 * i + 1], req[7 + 2 * i]);
      BytesOfWord(req[7 + 2 * i + 1], req[7 + 2 * i]);
      assert 7 + k == 7 + 2 * i + k % 2;
    }
  }

  /** Function 15 then function 1: if the write is accepted, the range reads back as the bits written, packed
      with zero padding. */
  lemma CoilsRoundTrip(img: Image, req: seq<Byte>)
    requires |req| >= 6 && req[1] == 0x0F && PduExec(img, req).1 == Echo(req)
    ensures var (after, n) := (PduExec(img, req).0, Count(req));
            && GoodCoilWrite(req) && (|req| <= PDU_MAX ==> n <= 2000)
            && PduExec(after, ReadBack(req, 0x01)) ==
               (after, if n <= 2000 then [req[0], 0x01, req[6]] + PackBytes(CoilPayload(req))
                       else Exception(ReadBack(req, 0x01), ILLEGAL_VALUE))
            && Unpack(PackBytes(CoilPayload(req)), n) == Unpack(req[7..], n)
  {
    var after, back := PduExec(img, req).0, ReadBack(req, 0x01);
    WriteCodes(img, req);
    WriteCodes(after, back);
    hide PduExec, WriteCoils, BitsReadable, BitRun, ReadBack, Start, Count, Echo, Exception, PackBytes, Unpack;
    AcceptedCoils(img, req, Start(req), Count(req));
    UnpackPacked(CoilPayload(req));
  }

  /** A frame's reply carries the frame's own transaction and a length that agrees with its size. */
  lemma AduReplyShape(img: Image, adu: seq<Byte>)
    ensures var reply := AduExec(img, adu).1;
            && |reply| <= ADU_MAX
            && (reply != [] ==> |adu| >= 8 && |reply| >= 9 && reply[0] == adu[0] && reply[1] == adu[1]
                                && Be16(reply, 2) == 0 && Be16(reply, 4) == |reply| - 6)
  {
    hide PduExec, Adu, Be16;
    if |adu| >= 8 {
      ReplyShape(img, adu[6..]);
      AduParts(adu[0], adu[1], PduExec(img, adu[6..]).1);
    }
  }
}
