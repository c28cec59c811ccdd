/** What the programming port refuses, and what a refused request leaves behind. */
module FxRefusals {
  import opened Words
  import opened FxProtocol
  import opened FxCommands
  import opened FxTransfers
  import opened FxWire

  /** Hex digits are 0 to 9, A to F and a to f, most significant first; one other character spoils the number. */
  lemma HexDigits(s: seq<Byte>, ch: Byte)
    ensures var digit := if 48 <= ch <= 57 then ch - 48
                         else if 65 <= ch <= 70 then ch - 55
                         else if 97 <= ch <= 102 then ch - 87
                         else 16;
            ParseHex([]) == Some(0) &&
            ParseHex(s + [ch]) ==
            if digit == 16 || ParseHex(s) == None then None else Some(16 * ParseHex(s).value + digit)
  {
    hide ParseHex;
    ParseNext(s, ch);
    ParseNothing();
  }

  /** Numbers are sent in digits and capital letters. */
  lemma DigitsSent(v: Byte)
    ensures ParseHex(HexByte(v)) == Some(v)
    ensures forall k :: 0 <= k < 2 ==> 48 <= HexByte(v)[k] <= 57 || 65 <= HexByte(v)[k] <= 70
  {
    ParseHexByte(v);
  }

  /** '1' AAAA LL and any data characters. */
  function WriteChars(addr: Word, count: Byte, data: seq<Byte>): (body: seq<Byte>)
    ensures |body| == 7 + |data|
  {
    [0x31] + HexWord(addr) + HexByte(count) + data
  }

  /** Reads of 1 to 64 bytes are answered; all others are refused. */
  lemma ReadExact(s: PortState, addr: Word, count: Byte)
    ensures Handle(s, Frame(ReadBody(addr, count))) ==
            Handled(s, if 1 <= count <= 64 then Frame(EncodeBytes(ReadRange(s, addr, count))) else [0x15])
  {
    var body := ReadBody(addr, count);
    var f := Frame(body);
    hide ParseHex, HexByte, HexWord, Checksum, EncodeBytes;
    if 1 <= count <= 64 {
      ReadIsAnswered(s, addr, count);
    } else {
      FramedIsSound(body);
      assert f[1] == 0x30 && f[2..6] == HexWord(addr) && f[6..8] == HexByte(count);
      ParseHexWord(addr);
      ParseHexByte(count);
      hide Sound, Frame;
    }
  }

  lemma WriteFields(addr: Word, count: Byte, data: seq<Byte>)
    ensures var f := Frame(WriteChars(addr, count, data));
            && Sound(f) && |f| == 11 + |data| && f[1] == 0x31
            && Hex(f, 2, 6) == Some(addr) && Hex(f, 6, 8) == Some(count) && f[8..|f| - 3] == data
  {
    hide ParseHex, HexWord, Checksum;
    var f := Frame(WriteChars(addr, count, data));
    FramedIsSound(WriteChars(addr, count, data));
    ParseHexWord(addr);
    ParseHexByte(count);
    assert f[2..6] == HexWord(addr) && f[6..8] == HexByte(count);
  }

  /** Writes whose count is 0 or above 64, or not that of their data, are refused and change nothing. */
  lemma WrongCountRefused(s: PortState, addr: Word, count: Byte, data: seq<Byte>)
    requires count == 0 || count > 64 || |data| != 2 * count
    ensures Handle(s, Frame(WriteChars(addr, count, data))) == Handled(s, [0x15])
  {
    hide Sound, Frame, WriteChars, Hex, Write, Extended, DeviceRead, DeviceForce, SetMode;
    WriteFields(addr, count, data);
  }

  /** A write with a bad pair of data characters is refused after the bytes before it have been stored. */
  lemma BadPairRefused(s: PortState, addr: Word, good: seq<Byte>, bad: seq<Byte>, more: seq<Byte>)
    requires |bad| == 2 && ParseHex(bad) == None && |more| % 2 == 0 && |good| + 1 + |more| / 2 <= 64
    ensures Handle(s, Frame(WriteChars(addr, |good| + 1 + |more| / 2, EncodeBytes(good) + bad + more))) ==
            Handled(StoreAll(s, addr, good, 0, false), [0x15])
  {
    var data := EncodeBytes(good) + bad + more;
    hide Sound, Frame, WriteChars, Hex, EncodeBytes, ParseHex, WriteFrom, StoreAll, Extended, DeviceRead, DeviceForce,
         SetMode;
    WriteFields(addr, |good| + 1 + |more| / 2, data);
    StopsAtBadPair(s, addr, good, bad, more, 0);
  }

  lemma {:induction false} StopsAtBadPair(s: PortState, addr: Word, good: seq<Byte>, bad: seq<Byte>, more: seq<Byte>,
        i: nat)
    requires |bad| == 2 && ParseHex(bad) == None && |more| % 2 == 0 && i <= |good|
    ensures WriteFrom(s, addr, EncodeBytes(good) + bad + more, i, false) == (StoreAll(s, addr, good, i, false), false)
    decreases |good| - i
  {
    hide ParseHex, HexByte, WriteAt, EncodeBytes;
    var hex := EncodeBytes(good) + bad + more;
    if i < |good| {
      EncodedPair(good, i);
      ParseHexByte(good[i]);
      assert hex[2 * i..2 * i + 2] == EncodeBytes(good)[2 * i..2 * i + 2];
      StopsAtBadPair(WriteAt(s, Wrap16(addr + i), good[i], false), addr, good, bad, more, i + 1);
    } else {
      assert hex[2 * i..2 * i + 2] == bad;
    }
  }

  /** Bodies that name no command, and a stop with anything behind it, are refused. */
  lemma UnknownRefused(s: PortState, body: seq<Byte>)
    requires body != []
    requires body[0] !in {0x30, 0x31, 0x37, 0x38, 0x42, 0x45} || (body[0] == 0x42 && |body| > 1)
    ensures Handle(s, Frame(body)) == Handled(s, [0x15])
  {
    var f := Frame(body);
    FramedIsSound(body);
    assert f[1] == body[0];
    hide Sound, Frame;
  }

  /** The bare stop command: five bytes on the wire. */
  lemma StopFrame(s: PortState)
    ensures Frame([0x42]) == [0x02, 0x42, 0x03, 0x34, 0x35]
    ensures Handle(s, Frame([0x42])) == Handled(if s.running then s.(running := false, first := false) else s, [0x06])
  {
    assert [0x42] + [0x03] == [0x42, 0x03];
    assert Checksum([0x42, 0x03]) == 0x45 by {
      assert [0x42, 0x03][..1] == [0x42] && [0x42][..0] == [];
      assert Checksum([0x42]) == 0x42;
    }
    FramedIsSound([0x42]);
    assert Frame([0x42])[1] == 0x42;
    hide Sound;
  }

  /** Extended transfers with a sub-command other than 00, 01, 10, 11, or with a count of 0 or above 64, are refused. */
  lemma TransferRefused(s: PortState, sub: Byte, addr: Word, count: Byte, data: seq<Byte>)
    requires sub < 0x20 && (sub % 16 > 1 || count == 0 || count > 64)
    ensures Handle(s, Frame(TransferBody(sub, addr, count) + data)) == Handled(s, [0x15])
  {
    hide Sound, Frame, TransferBody, Hex, ExtendedWrite, ExtendedRead, Announce, ExtendedForce;
    TransferFrame(sub, addr, count, data);
  }

  /** Announcing no words, more than 64, or a range of the program below 0x8000 is refused. */
  lemma AnnounceRefused(s: PortState, addr: Word, words: Byte)
    requires words == 0 || words > 64 || addr < 0x8000
    ensures Handle(s, Frame(AnnounceBody(addr, words))) == Handled(s, [0x15])
  {
    hide Sound, Frame, AnnounceBody, Hex, HexWord, ExtendedTransfer, ExtendedForce;
    AnnounceFrame(addr, words);
  }

  // ------------------------------------------------------ outside requests

  /** Between frames ENQ is answered at once. */
  lemma EnquiryAnswered(l: Link)
    requires !l.rx.inFrame
    ensures Run(l, [0x05]) == l.(sent := l.sent + [0x06])
  {
    hide Handle;
    assert [0x05][..0] == [];
  }

  /** A frame that has not ended after 256 bytes is dropped. */
  lemma OverlongDropped(rx: seq<Byte>, b: Byte)
    requires |rx| == 256 && b != 0x02
    ensures Feed(Receiver(rx, true), b) == (Receiver([], false), Dropped)
  {
  }
}
