/** What the programming port answers to a frame, and what the frame changes. */
module FxCommands {
  import opened Words
  import opened PlcMemory
  import opened FxAddr
  import opened FxMonitor
  import opened FxProtocol

  /** Everything a frame can read or change. pending is the address of an announced transfer check, dirty says that
      the program is to be saved. */
  datatype PortState = PortState(plant: Plant, list: WatchList, readable: seq<Byte>, pending: Option<Word>,
                                 running: bool, first: bool, dirty: bool)

  datatype Handled = Handled(state: PortState, reply: seq<Byte>)

  function Reject(s: PortState): Handled { Handled(s, [NAK]) }

  function Accept(s: PortState): Handled { Handled(s, [ACK]) }

  // ------------------------------------------------------------- reading

  /** Monitor results shadow their addresses; everything else is the plant. */
  function ReadAt(s: PortState, addr: Word): Byte {
    if addr >= RESULT_ADDR && addr - RESULT_ADDR < |s.readable| then s.readable[addr - RESULT_ADDR]
    else ByteAt(s.plant, addr)
  }

  function ReadRange(s: PortState, addr: Word, count: nat): (bytes: seq<Byte>)
    ensures |bytes| == count
  {
    seq<Byte>(count, i requires 0 <= i < count => ReadAt(s, Wrap16(addr + i)))
  }

  function ReadReply(s: PortState, addr: Word, count: nat): seq<Byte> { Frame(EncodeBytes(ReadRange(s, addr, count))) }

  // ------------------------------------------------------------- writing

  function WriteAt(s: PortState, addr: Word, v: Byte, extended: bool): PortState {
    if extended && LIST_ADDR <= addr < RESULT_ADDR then s.(list := s.list[addr - LIST_ADDR := v])
    else s.(plant := PutByteAt(s.plant, addr, v))
  }

  /** Bytes i.. of a write, from their hex pairs; a bad pair stops it with the earlier bytes written. */
  function WriteFrom(s: PortState, addr: Word, hex: seq<Byte>, i: nat, extended: bool): (PortState, bool)
    requires 2 * i <= |hex| && |hex| % 2 == 0
    decreases |hex| - 2 * i
  {
    if 2 * i == |hex| then (s, true)
    else
      var v := ParseHex(hex[2 * i..2 * i + 2]);
      if v.None? then (s, false)
      else WriteFrom(WriteAt(s, Wrap16(addr + i), v.value % 256, extended), addr, hex, i + 1, extended)
  }

  /** An extended write that got through to the end and starts in the program has it saved. */
  function Marked(s: PortState, addr: Word, extended: bool): PortState {
    if extended && addr >= ADDR_PROGRAM then s.(dirty := true) else s
  }

  function Write(s: PortState, addr: Word, hex: seq<Byte>, extended: bool): Handled
    requires |hex| % 2 == 0
  {
    var (after, ok) := WriteFrom(s, addr, hex, 0, extended);
    if ok then Accept(Marked(after, addr, extended)) else Reject(after)
  }

  // ------------------------------------------------------------ commands

  function SetMode(s: PortState, run: bool): PortState {
    if run == s.running then s
    else if run then s.(running := true, first := true, plant := s.plant.(img := AfterReset(s.plant.img)))
    else s.(running := false, first := false)
  }

  function Hex(f: seq<Byte>, from: nat, to: nat): Option<nat>
    requires from <= to <= |f|
  {
    ParseHex(f[from..to])
  }

  /** A count that a transfer may have. */
  predicate GoodCount(count: Option<nat>) { count.Some? && 1 <= count.value <= 64 }

  /** '0' AAAA LL. */
  function DeviceRead(s: PortState, f: seq<Byte>): Handled
    requires |f| >= 5
  {
    if |f| - 3 != 8 then Reject(s)
    else
      var addr, count := Hex(f, 2, 6), Hex(f, 6, 8);
      if addr.None? || !GoodCount(count) then Reject(s)
      else Handled(s, ReadReply(s, addr.value % 0x1_0000, count.value))
  }

  /** '1' AAAA LL data. */
  function DeviceWrite(s: PortState, f: seq<Byte>): Handled
    requires |f| >= 5
  {
    if |f| - 3 < 8 then Reject(s)
    else
      var addr, count := Hex(f, 2, 6), Hex(f, 6, 8);
      if addr.None? || !GoodCount(count) || |f| - 3 != 8 + 2 * count.value then Reject(s)
      else Write(s, addr.value % 0x1_0000, f[8..|f| - 3], false)
  }

  /** Swaps the two bytes of a force address. */
  function Swapped(raw: nat): Word { (raw % 256) * 256 + raw / 256 % 256 }

  /** '7' or '8' AAAA: force one bit of the byte space. */
  function DeviceForce(s: PortState, f: seq<Byte>, on: bool): Handled
    requires |f| >= 5
  {
    if |f| - 3 != 6 then Reject(s)
    else
      var addr := Hex(f, 2, 6);
      if addr.None? then Reject(s)
      else
        var a := Swapped(addr.value);
        Accept(s.(plant := s.plant.(img := PutBitAt(s.plant.img, a / 8, a % 8, on))))
  }

  /** 'E' '4' space AAAA words: announces a range of the program (space 1) or of the devices. */
  function Announce(s: PortState, f: seq<Byte>): Handled
    requires |f| == 15
  {
    var addr, lo, hi := Hex(f, 4, 8), Hex(f, 8, 10), Hex(f, 10, 12);
    if addr.None? || lo.None? || hi.None? then Reject(s)
    else
      var words := lo.value + 256 * hi.value;
      if words == 0 || words > 64 || (f[3] == 0x31 && addr.value < ADDR_PROGRAM) then Reject(s)
      else
        Handled(if f[3] == 0x31 then s.(pending := Some(Wrap16(addr.value + 2))) else s,
                Frame([f[3]] + HexWord(addr.value % 0x1_0000)))
  }

  /** 'E' '7' or '8': force in the force space; M8036 and M8037 also set the mode. Always acknowledged. */
  function ExtendedForce(s: PortState, f: seq<Byte>): Handled
    requires |f| == 10
  {
    var raw := Hex(f, 3, 7);
    if raw.None? then Accept(s)
    else
      var a := Swapped(raw.value);
      var on := f[2] == 0x37;
      var forced := s.(plant := s.plant.(img := Force(s.plant.img, a, on)));
      Accept(if on && a == FORCE_MS + 36 then SetMode(forced, true)
             else if on && a == FORCE_MS + 37 then SetMode(forced, false)
             else forced)
  }

  /** The check value that follows an announced range is acknowledged without being stored. */
  function ExtendedWrite(s: PortState, f: seq<Byte>, addr: Word, count: nat): Handled
    requires |f| >= 13 && 1 <= count <= 64
  {
    if |f| - 3 != 10 + 2 * count then Reject(s)
    else if s.pending.Some? && count == 2 && addr == s.pending.value then Accept(s.(pending := None))
    else Write(s.(pending := None), addr, f[10..|f| - 3], true)
  }

  /** Reading the result address samples the watch list first. */
  function ExtendedRead(s: PortState, f: seq<Byte>, addr: Word, count: nat): Handled
    requires |f| >= 13
  {
    if |f| - 3 != 10 then Reject(s)
    else
      var now := if addr == RESULT_ADDR then s.(readable := Sampled(s.plant, s.list)) else s;
      Handled(now, ReadReply(now, addr, count))
  }

  /** 'E' sub AAAA LL: low nibble the space, high nibble the direction. */
  function ExtendedTransfer(s: PortState, f: seq<Byte>): Handled
    requires |f| >= 5
  {
    if |f| - 3 < 10 then Reject(s)
    else
      var sub, addr, count := Hex(f, 2, 4), Hex(f, 4, 8), Hex(f, 8, 10);
      if sub.None? || addr.None? || !GoodCount(count) then Reject(s)
      else if sub.value % 16 > 1 || sub.value / 16 > 1 then Reject(s)
      else if sub.value / 16 == 1 then ExtendedWrite(s, f, addr.value % 0x1_0000, count.value)
      else ExtendedRead(s, f, addr.value % 0x1_0000, count.value)
  }

  function Extended(s: PortState, f: seq<Byte>): Handled
    requires |f| >= 5
  {
    if |f| == 15 && f[2] == 0x34 && (f[3] == 0x30 || f[3] == 0x31) then Announce(s, f)
    else if |f| == 10 && (f[2] == 0x37 || f[2] == 0x38) then ExtendedForce(s, f)
    else ExtendedTransfer(s, f)
  }

  /** STX, ETX in place, and a check sum that matches. */
  predicate Sound(f: seq<Byte>) {
    && |f| >= 5 && f[0] == STX && f[|f| - 3] == ETX
    && ParseHex(f[|f| - 2..]) == Some(Checksum(f[1..|f| - 2]) as nat)
  }

  function Handle(s: PortState, f: seq<Byte>): Handled {
    if !Sound(f) then Reject(s)
    else
      var cmd := f[1];
      if cmd == 0x30 then DeviceRead(s, f)
      else if cmd == 0x31 then DeviceWrite(s, f)
      else if cmd == 0x45 then Extended(s, f)
      else if cmd == 0x42 then if |f| - 3 != 2 then Reject(s) else Accept(SetMode(s, false))
      else if cmd == 0x37 || cmd == 0x38 then DeviceForce(s, f, cmd == 0x37)
      else Reject(s)
  }

  // ------------------------------------------------- what frames guarantee

  /** A frame whose check sum is wrong changes nothing and is refused. */
  lemma WrongChecksumChangesNothing(s: PortState, f: seq<Byte>)
    requires |f| < 3 || ParseHex(f[|f| - 2..]) != Some(Checksum(f[1..|f| - 2]) as nat)
    ensures Handle(s, f) == Handled(s, [NAK])
  {
  }

  /** A frame delivered whole, with one byte of its body changed, fails the sum check. What the receiver delivers
      when the changed byte is STX or ETX is another matter: see FxLineErrors. */
  lemma DeliveredChangeIsRefused(s: PortState, body: seq<Byte>, i: nat, b: Byte)
    requires i < |body| && b != body[i]
    ensures Handle(s, Frame(body)[1 + i := b]) == Handled(s, [NAK])
  {
    var f := Frame(body);
    var g := f[1 + i := b];
    var summed := body + [ETX];
    assert g[|g| - 2..] == f[|f| - 2..];
    FrameParts(body);
    ChecksumChanges(summed, i, b);
    hide Frame, Checksum, ParseHex, Handle;
    assert g[1..|g| - 2] == f[1..|f| - 2][i := b] == summed[i := b];
    WrongChecksumChangesNothing(s, g);
  }

  function Total(s: seq<Byte>): nat {
    if s == [] then 0 else Total(s[..|s| - 1]) + s[|s| - 1]
  }

  lemma {:induction false} ChecksumIsTotal(s: seq<Byte>)
    ensures Checksum(s) == Total(s) % 256
  {
    if s != [] {
      ChecksumIsTotal(s[..|s| - 1]);
      AddModulo(Total(s[..|s| - 1]), s[|s| - 1]);
    }
  }

  lemma AddModulo(t: nat, l: nat)
    ensures (t % 256 + l) % 256 == (t + l) % 256
  {
  }

  lemma {:induction false} TotalChange(s: seq<Byte>, i: nat, b: Byte)
    requires i < |s|
    ensures Total(s[i := b]) == Total(s) + b - s[i]
  {
    var n := |s| - 1;
    if i == n {
      assert s[i := b][..n] == s[..n];
    } else {
      assert s[i := b][..n] == s[..n][i := b];
      TotalChange(s[..n], i, b);
    }
  }

  lemma ChecksumChanges(s: seq<Byte>, i: nat, b: Byte)
    requires i < |s| && b != s[i]
    ensures Checksum(s[i := b]) != Checksum(s)
  {
    hide Checksum, Total;
    TotalChange(s, i, b);
    ChecksumIsTotal(s);
    ChecksumIsTotal(s[i := b]);
  }

  function ReadBody(addr: Word, count: Byte): seq<Byte> { [0x30] + HexWord(addr) + HexByte(count) }

  function WriteBody(addr: Word, bytes: seq<Byte>): seq<Byte>
    requires |bytes| < 256
  {
    [0x31] + HexWord(addr) + HexByte(|bytes|) + EncodeBytes(bytes)
  }

  lemma FramedIsSound(body: seq<Byte>)
    requires body != []
    ensures Sound(Frame(body))
  {
    FrameParts(body);
  }

  /** A well-formed read is answered with the bytes of its range. */
  lemma ReadIsAnswered(s: PortState, addr: Word, count: nat)
    requires 1 <= count <= 64
    ensures Handle(s, Frame(ReadBody(addr, count))) == Handled(s, ReadReply(s, addr, count))
  {
    hide ParseHex, HexByte, HexWord, ReadReply, Checksum;
    var body := ReadBody(addr, count);
    var f := Frame(body);
    FramedIsSound(body);
    assert f[2..6] == HexWord(addr) && f[6..8] == HexByte(count);
    ParseHexWord(addr);
    ParseHexByte(count);
    hide Sound, Frame;
  }

  /** A well-formed write stores its bytes one after the other and is acknowledged. */
  lemma WriteIsStored(s: PortState, addr: Word, bytes: seq<Byte>)
    requires 1 <= |bytes| <= 64
    ensures Handle(s, Frame(WriteBody(addr, bytes))) == Accept(StoreAll(s, addr, bytes, 0, false))
  {
    hide ParseHex, HexByte, HexWord, Checksum, EncodeBytes;
    var body := WriteBody(addr, bytes);
    var f := Frame(body);
    FramedIsSound(body);
    assert |f| - 3 == 8 + 2 * |bytes|;
    assert f[1] == 0x31;
    assert f[2..6] == HexWord(addr) && f[6..8] == HexByte(|bytes|) && f[8..|f| - 3] == EncodeBytes(bytes);
    ParseHexWord(addr);
    ParseHexByte(|bytes|);
    StoresAll(s, addr, bytes, 0, false);
    hide Sound, Frame, WriteFrom, StoreAll;
  }

  /** Byte i and the following ones stored one after the other. */
  function StoreAll(s: PortState, addr: Word, bytes: seq<Byte>, i: nat, extended: bool): PortState
    decreases |bytes| - i
  {
    if i >= |bytes| then s
    else StoreAll(WriteAt(s, Wrap16(addr + i), bytes[i], extended), addr, bytes, i + 1, extended)
  }

  lemma {:induction false} EncodedPair(bytes: seq<Byte>, i: nat)
    requires i < |bytes|
    ensures EncodeBytes(bytes)[2 * i..2 * i + 2] == HexByte(bytes[i])
    decreases |bytes|
  {
    hide HexByte;
    var n := |bytes| - 1;
    if i < n {
      EncodedPair(bytes[..n], i);
      assert EncodeBytes(bytes)[2 * i..2 * i + 2] == EncodeBytes(bytes[..n])[2 * i..2 * i + 2];
    }
  }

  lemma {:induction false} StoresAll(s: PortState, addr: Word, bytes: seq<Byte>, i: nat, extended: bool)
    requires i <= |bytes|
    ensures WriteFrom(s, addr, EncodeBytes(bytes), i, extended) == (StoreAll(s, addr, bytes, i, extended), true)
    decreases |bytes| - i
  {
    hide ParseHex, HexByte, WriteAt, EncodeBytes;
    if i < |bytes| {
      EncodedPair(bytes, i);
      ParseHexByte(bytes[i]);
      StoresAll(WriteAt(s, Wrap16(addr + i), bytes[i], extended), addr, bytes, i + 1, extended);
    }
  }

  predicate AllBacked(addr: Word, n: nat) {
    forall a: Word :: Wrap16(a - addr) < n ==> Backed(a)
  }

  /** After a write to addresses that hold what is written, every address of the range reads its new byte and
      every other address its old one. */
  lemma {:induction false} StoredReads(s: PortState, addr: Word, bytes: seq<Byte>, i: nat, a: Word, extended: bool)
    requires i <= |bytes| <= 64
    ensures var after := StoreAll(s, addr, bytes, i, extended);
            && after == s.(plant := after.plant, list := after.list) && (!extended ==> after.list == s.list)
            && ByteAt(after.plant, a) ==
               (var k := Wrap16(a - addr); if i <= k < |bytes| && Backed(a) then bytes[k] else ByteAt(s.plant, a))
    decreases |bytes| - i
  {
    hide ByteAt, WriteAt, Backed;
    if i < |bytes| {
      var w := Wrap16(addr + i);
      WrittenReads(s, w, bytes[i], a, extended);
      OffsetIsIndex(addr, i, a);
      StoredReads(WriteAt(s, w, bytes[i], extended), addr, bytes, i + 1, a, extended);
    }
  }

  /** One byte written through the command, then read from the plant. */
  lemma WrittenReads(s: PortState, w: Word, v: Byte, a: Word, extended: bool)
    ensures var after := WriteAt(s, w, v, extended);
            && after == s.(plant := after.plant, list := after.list) && (!extended ==> after.list == s.list)
            && ByteAt(after.plant, a) == if a == w && Backed(a) then v else ByteAt(s.plant, a)
  {
    hide ByteAt, PutByteAt;
    ByteOverByte(s.plant, w, v, a);
  }

  lemma OffsetIsIndex(addr: Word, i: nat, a: Word)
    requires i <= 64
    ensures a == Wrap16(addr + i) <==> Wrap16(a - addr) == i
  {
  }

  /** No monitor result hides an address that holds what is written to it. */
  lemma BackedIsNotShadowed(s: PortState, addr: Word)
    requires Backed(addr) && |s.readable| <= RESULT_BYTES
    ensures ReadAt(s, addr) == ByteAt(s.plant, addr)
  {
    hide ByteAt;
  }

  /** End to end: a framed write of up to 64 bytes to addresses that hold what is written is acknowledged, and
      a framed read of the same range then gets a reply that decodes to the same bytes. */
  lemma WriteThenRead(s: PortState, addr: Word, bytes: seq<Byte>)
    requires 1 <= |bytes| <= 64 && AllBacked(addr, |bytes|) && |s.readable| <= RESULT_BYTES
    ensures var written := Handle(s, Frame(WriteBody(addr, bytes)));
            var read := Handle(written.state, Frame(ReadBody(addr, |bytes|)));
            && written.reply == [ACK]
            && DecodeReply(read.reply) == Some(bytes)
            && read.state == written.state
  {
    hide Handle, AllBacked, StoreAll, Frame, EncodeBytes, DecodeReply, ReadRange, WriteBody, ReadBody;
    WriteIsStored(s, addr, bytes);
    var after := StoreAll(s, addr, bytes, 0, false);
    StoredRange(s, addr, bytes, false);
    ReadIsAnswered(after, addr, |bytes|);
    ReplyDecodes(bytes);
  }

  lemma StoredRange(s: PortState, addr: Word, bytes: seq<Byte>, extended: bool)
    requires 1 <= |bytes| <= 64 && AllBacked(addr, |bytes|) && |s.readable| <= RESULT_BYTES
    ensures ReadRange(StoreAll(s, addr, bytes, 0, extended), addr, |bytes|) == bytes
  {
    hide ByteAt, Backed, StoreAll, ReadAt;
    var after := StoreAll(s, addr, bytes, 0, extended);
    forall k: nat | k < |bytes|
      ensures ReadAt(after, Wrap16(addr + k)) == bytes[k]
    {
      var a := Wrap16(addr + k);
      assert Wrap16(a - addr) == k;
      assert Backed(a);
      StoredReads(s, addr, bytes, 0, a, extended);
      BackedIsNotShadowed(after, a);
    }
  }
}
