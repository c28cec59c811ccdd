/** Extended transfers: downloads with their check value, and Monitor Mode end to end. */
module FxTransfers {
  import opened Words
  import opened FxAddr
  import opened FxMonitor
  import opened FxProtocol
  import opened FxCommands

  /** 'E' sub AAAA LL: reads have sub 0x00 or 0x01, writes 0x10 or 0x11. */
  function TransferBody(sub: Byte, addr: Word, count: Byte): (body: seq<Byte>)
    ensures |body| == 9
  {
    [0x45] + HexByte(sub) + HexWord(addr) + HexByte(count)
  }

  function ExtendedReadBody(program: bool, addr: Word, count: Byte): seq<Byte> {
    TransferBody(if program then 0x01 else 0x00, addr, count)
  }

  function ExtendedWriteBody(program: bool, addr: Word, bytes: seq<Byte>): seq<Byte>
    requires |bytes| < 256
  {
    TransferBody(if program then 0x11 else 0x10, addr, |bytes|) + EncodeBytes(bytes)
  }

  /** 'E' '4' '1' AAAA LL HH: announces a range of words of the program. */
  function AnnounceBody(addr: Word, words: Byte): seq<Byte> {
    [0x45, 0x34, 0x31] + HexWord(addr) + HexByte(words) + HexByte(0)
  }

  /** The fields of a framed transfer. */
  lemma TransferFrame(sub: Byte, addr: Word, count: Byte, data: seq<Byte>)
    requires sub < 0x20
    ensures var f := Frame(TransferBody(sub, addr, count) + data);
            && Sound(f) && |f| == 13 + |data| && f[1] == 0x45 && f[2] != 0x34 && f[2] != 0x37 && f[2] != 0x38
            && Hex(f, 2, 4) == Some(sub) && Hex(f, 4, 8) == Some(addr) && Hex(f, 8, 10) == Some(count)
            && f[10..|f| - 3] == data
  {
    hide ParseHex, HexWord, Checksum;
    var body := TransferBody(sub, addr, count) + data;
    var f := Frame(body);
    FramedIsSound(body);
    ParseHexByte(sub);
    ParseHexWord(addr);
    ParseHexByte(count);
    assert f[2..4] == HexByte(sub) && f[4..8] == HexWord(addr) && f[8..10] == HexByte(count);
    assert f[2] == HexDigit(sub / 16);
  }

  lemma TransferIsHandled(s: PortState, sub: Byte, addr: Word, count: Byte, data: seq<Byte>)
    requires sub < 0x20 && sub % 16 <= 1 && 1 <= count <= 64
    ensures var f := Frame(TransferBody(sub, addr, count) + data);
            && |f| >= 13
            && Handle(s, f) ==
               if sub / 16 == 1 then ExtendedWrite(s, f, addr, count) else ExtendedRead(s, f, addr, count)
  {
    hide Sound, Frame, TransferBody, Hex, ExtendedWrite, ExtendedRead, Announce, ExtendedForce;
    TransferFrame(sub, addr, count, data);
  }

  /** The transfer that follows an announced range and is taken for its check value. */
  predicate IsTransferCheck(s: PortState, addr: Word, count: nat) { s.pending == Some(addr) && count == 2 }

  /** A transfer is written from its data characters, unless it is the announced check value. */
  function Transferred(s: PortState, addr: Word, data: seq<Byte>): Handled
    requires |data| % 2 == 0
  {
    if IsTransferCheck(s, addr, |data| / 2) then Accept(s.(pending := None))
    else Write(s.(pending := None), addr, data, true)
  }

  lemma TransferData(s: PortState, program: bool, addr: Word, data: seq<Byte>)
    requires 2 <= |data| <= 128 && |data| % 2 == 0
    ensures Handle(s, Frame(TransferBody(if program then 0x11 else 0x10, addr, |data| / 2) + data)) ==
            Transferred(s, addr, data)
  {
    var sub: Byte := if program then 0x11 else 0x10;
    var count: nat := |data| / 2;
    var f := Frame(TransferBody(sub, addr, count) + data);
    hide Handle, Frame, TransferBody, ExtendedWrite, ExtendedRead, Transferred, Hex, Sound;
    TransferFrame(sub, addr, count, data);
    TransferIsHandled(s, sub, addr, count, data);
    WriteOfData(s, f, addr, data);
  }

  lemma WriteOfData(s: PortState, f: seq<Byte>, addr: Word, data: seq<Byte>)
    requires 2 <= |data| <= 128 && |data| % 2 == 0 && |f| == 13 + |data| && f[10..|f| - 3] == data
    ensures ExtendedWrite(s, f, addr, |data| / 2) == Transferred(s, addr, data)
  {
    hide Write;
  }

  /** An extended write stores its bytes, watch list included, unless it is the announced check value. */
  lemma ExtendedWriteIsStored(s: PortState, program: bool, addr: Word, bytes: seq<Byte>)
    requires 1 <= |bytes| <= 64
    ensures Handle(s, Frame(ExtendedWriteBody(program, addr, bytes))) ==
            Accept(if IsTransferCheck(s, addr, |bytes|) then s.(pending := None)
                   else Marked(StoreAll(s.(pending := None), addr, bytes, 0, true), addr, true))
  {
    hide Handle, Frame, TransferBody, EncodeBytes, WriteFrom, StoreAll;
    TransferData(s, program, addr, EncodeBytes(bytes));
    StoresAll(s.(pending := None), addr, bytes, 0, true);
  }

  /** ... and a stored one has the program saved exactly when it starts in program memory. */
  lemma SavedExactly(s: PortState, program: bool, addr: Word, bytes: seq<Byte>)
    requires 1 <= |bytes| <= 64
    ensures Handle(s, Frame(ExtendedWriteBody(program, addr, bytes))).state.dirty ==
            (s.dirty || (addr >= 0x8000 && !IsTransferCheck(s, addr, |bytes|)))
  {
    hide Handle, Frame, ExtendedWriteBody, StoreAll, ByteAt;
    ExtendedWriteIsStored(s, program, addr, bytes);
    StoredReads(s.(pending := None), addr, bytes, 0, 0, true);
  }

  /** Reading the result address samples first; any other read changes nothing. */
  lemma ExtendedReadIsAnswered(s: PortState, program: bool, addr: Word, count: Byte)
    requires 1 <= count <= 64
    ensures var now := if addr == RESULT_ADDR then s.(readable := Sampled(s.plant, s.list)) else s;
            Handle(s, Frame(ExtendedReadBody(program, addr, count))) == Handled(now, ReadReply(now, addr, count))
  {
    var sub: Byte := if program then 0x01 else 0x00;
    TransferFrame(sub, addr, count, []);
    TransferIsHandled(s, sub, addr, count, []);
    hide Handle, Frame, TransferBody, Hex, Sound, Sampled, ReadReply;
    assert TransferBody(sub, addr, count) + [] == TransferBody(sub, addr, count);
  }

  /** A download block reads back: an extended write to addresses that hold what is written, then a read. */
  lemma DownloadReadsBack(s: PortState, program: bool, addr: Word, bytes: seq<Byte>)
    requires 1 <= |bytes| <= 64 && AllBacked(addr, |bytes|) && |s.readable| <= RESULT_BYTES
    requires !IsTransferCheck(s, addr, |bytes|)
    ensures var written := Handle(s, Frame(ExtendedWriteBody(program, addr, bytes)));
            && written.reply == [ACK]
            && DecodeReply(Handle(written.state, Frame(ExtendedReadBody(program, addr, |bytes|))).reply) == Some(bytes)
  {
    var start := s.(pending := None);
    var after := Marked(StoreAll(start, addr, bytes, 0, true), addr, true);
    assert addr != RESULT_ADDR by {
      FirstIsBacked(addr, |bytes|);
    }
    hide Handle, Frame, ExtendedWriteBody, ExtendedReadBody, AllBacked, StoreAll, DecodeReply, ReadRange, EncodeBytes;
    ExtendedWriteIsStored(s, program, addr, bytes);
    StoredRange(start, addr, bytes, true);
    SavedReads(StoreAll(start, addr, bytes, 0, true), addr, |bytes|);
    ExtendedReadIsAnswered(after, program, addr, |bytes|);
    ReplyDecodes(bytes);
  }

  lemma SavedReads(s: PortState, addr: Word, count: nat)
    ensures ReadRange(Marked(s, addr, true), addr, count) == ReadRange(s, addr, count)
  {
    hide ByteAt;
    var m := Marked(s, addr, true);
    forall i | 0 <= i < count
      ensures ReadRange(m, addr, count)[i] == ReadRange(s, addr, count)[i]
    {
      assert ReadAt(m, Wrap16(addr + i)) == ReadAt(s, Wrap16(addr + i));
    }
  }

  lemma FirstIsBacked(addr: Word, n: nat)
    requires AllBacked(addr, n) && n > 0
    ensures Backed(addr)
  {
    assert Wrap16(addr - addr) == 0;
  }

  /** Announcing a program range makes the next two-byte transfer to its second word a check value, whatever its
      data characters are, hex digits or not: it is acknowledged without changing the plant, once. The same
      transfer again is stored byte by byte. */
  lemma CheckValueOnce(s: PortState, addr: Word, words: Byte, program: bool, data: seq<Byte>)
    requires 1 <= words <= 64 && ADDR_PROGRAM <= addr && |data| == 4
    ensures var announced := Handle(s, Frame(AnnounceBody(addr, words)));
            var at := Wrap16(addr + 2);
            var transfer := Frame(TransferBody(if program then 0x11 else 0x10, at, 2) + data);
            var checked := Handle(announced.state, transfer);
            && announced.reply == Frame([0x31] + HexWord(addr))
            && announced.state == s.(pending := Some(at))
            && checked == Accept(s.(pending := None))
            && Handle(checked.state, transfer) == Write(s.(pending := None), at, data, true)
  {
    AnnounceIsHandled(s, addr, words);
    var at := Wrap16(addr + 2);
    TransferData(s.(pending := Some(at)), program, at, data);
    TransferData(s.(pending := None), program, at, data);
    hide Handle, Frame, AnnounceBody, TransferBody, HexWord, Write;
  }

  lemma AnnounceFrame(addr: Word, words: Byte)
    ensures var f := Frame(AnnounceBody(addr, words));
            && Sound(f) && |f| == 15 && f[1] == 0x45 && f[2] == 0x34 && f[3] == 0x31
            && Hex(f, 4, 8) == Some(addr) && Hex(f, 8, 10) == Some(words) && Hex(f, 10, 12) == Some(0)
  {
    hide ParseHex, HexWord, HexByte, Checksum;
    var f := Frame(AnnounceBody(addr, words));
    FramedIsSound(AnnounceBody(addr, words));
    ParseHexWord(addr);
    ParseHexByte(words);
    ParseHexByte(0);
    assert f[4..8] == HexWord(addr) && f[8..10] == HexByte(words) && f[10..12] == HexByte(0);
  }

  lemma AnnounceIsHandled(s: PortState, addr: Word, words: Byte)
    requires 1 <= words <= 64 && ADDR_PROGRAM <= addr
    ensures Handle(s, Frame(AnnounceBody(addr, words))) ==
            Handled(s.(pending := Some(Wrap16(addr + 2))), Frame([0x31] + HexWord(addr)))
  {
    hide Sound, Frame, AnnounceBody, Hex, HexWord;
    AnnounceFrame(addr, words);
  }

  // ---------------------------------------------------------- Monitor Mode

  /** Writing into the watch list stores its bytes there and nowhere else. */
  lemma {:induction false} ListStored(s: PortState, off: nat, bytes: seq<Byte>, i: nat)
    requires off + |bytes| <= LIST_BYTES && i <= |bytes|
    ensures StoreAll(s, LIST_ADDR + off, bytes, i, true) ==
            s.(list := Spliced(s.list, off, bytes, i))
    decreases |bytes| - i
  {
    hide WriteAt, Spliced;
    SpliceNext(s.list, off, bytes, i);
    if i < |bytes| {
      ListWrite(s, off + i, bytes[i]);
      ListStored(s.(list := s.list[off + i := bytes[i]]), off, bytes, i + 1);
    }
  }

  /** The list with bytes i.. stored from off + i on. */
  function Spliced(list: WatchList, off: nat, bytes: seq<Byte>, i: nat): WatchList
    requires off + |bytes| <= LIST_BYTES && i <= |bytes|
  {
    list[..off + i] + bytes[i..] + list[off + |bytes|..]
  }

  lemma SpliceNext(list: WatchList, off: nat, bytes: seq<Byte>, i: nat)
    requires off + |bytes| <= LIST_BYTES && i <= |bytes|
    ensures Spliced(list, off, bytes, i) ==
            if i == |bytes| then list else Spliced(list[off + i := bytes[i]], off, bytes, i + 1)
  {
    if i < |bytes| {
      var next := list[off + i := bytes[i]];
      assert next[..off + i + 1] == list[..off + i] + [bytes[i]];
      assert bytes[i..] == [bytes[i]] + bytes[i + 1..];
    }
  }

  lemma ListWrite(s: PortState, at: nat, v: Byte)
    requires at < LIST_BYTES
    ensures WriteAt(s, Wrap16(LIST_ADDR + at), v, true) == s.(list := s.list[at := v])
  {
  }

  /** Monitor Mode end to end: a framed write of a watch list, then a framed read of the result address, is
      answered with the bytes sampled from the devices for exactly that list. */
  lemma WatchThenRead(s: PortState, list: seq<Byte>, count: Byte)
    requires 4 <= |list| <= 64 && 1 <= count <= 64 && !IsTransferCheck(s, 0x1400, |list|)
    ensures var watched := list + s.list[|list|..];
            var written := Handle(s, Frame(ExtendedWriteBody(false, 0x1400, list)));
            var read := Handle(written.state, Frame(ExtendedReadBody(false, 0x1790, count)));
            && written.reply == [ACK] && written.state.plant == s.plant && written.state.list == watched
            && read.state.plant == s.plant
            && (count <= |Sampled(s.plant, watched)| ==>
                  DecodeReply(read.reply) == Some(Sampled(s.plant, watched)[..count]))
  {
    hide Handle, Frame, ExtendedWriteBody, ExtendedReadBody, StoreAll, DecodeReply, Sampled, EncodeBytes, ReadRange;
    var watched: WatchList := list + s.list[|list|..];
    var after := s.(pending := None, list := watched);
    ExtendedWriteIsStored(s, false, LIST_ADDR, list);
    WatchStored(s.(pending := None), list);
    ExtendedReadIsAnswered(after, false, RESULT_ADDR, count);
    var now := after.(readable := Sampled(s.plant, watched));
    if count <= |now.readable| {
      ResultRead(now, count);
      ReplyDecodes(now.readable[..count]);
    }
  }

  lemma WatchStored(s: PortState, list: seq<Byte>)
    requires |list| <= 64
    ensures StoreAll(s, LIST_ADDR, list, 0, true) == s.(list := list + s.list[|list|..])
  {
    hide StoreAll;
    ListStored(s, 0, list, 0);
    assert s.list[..0] + list[0..] == list;
  }

  /** What was sampled shadows the result address. */
  lemma ResultRead(s: PortState, count: Byte)
    requires count <= |s.readable|
    ensures ReadRange(s, RESULT_ADDR, count) == s.readable[..count]
  {
    hide ByteAt;
  }
}
