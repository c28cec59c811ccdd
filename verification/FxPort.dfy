/** The programming port itself: the receive buffer, the handlers and the replies, updated in place. */
module FxPort {
  import opened Words
  import opened PlcMemory
  import opened ScanRuntime
  import opened FxAddr
  import opened FxMonitor
  import opened FxProtocol
  import opened FxCommands
  import opened FxWire

  /** A bad digit spoils every run that starts with it. */
  lemma {:induction false} ParseSpoiled(s: seq<Byte>, n: nat)
    requires n <= |s| && ParseHex(s[..n]).None?
    ensures ParseHex(s).None?
    decreases |s|
  {
    if n < |s| {
      assert s[..|s| - 1][..n] == s[..n];
      ParseSpoiled(s[..|s| - 1], n);
    } else {
      assert s[..n] == s;
    }
  }

  lemma ChecksumNext(s: seq<Byte>, b: Byte)
    ensures Checksum(s + [b]) == (Checksum(s) + b) % 256
  {
    assert (s + [b])[..|s|] == s;
  }

  lemma EncodeNext(bytes: seq<Byte>, b: Byte)
    ensures EncodeBytes(bytes + [b]) == EncodeBytes(bytes) + HexByte(b)
  {
    assert (bytes + [b])[..|bytes|] == bytes;
  }

  lemma RangeNext(s: PortState, addr: Word, n: nat)
    ensures ReadRange(s, addr, n + 1) == ReadRange(s, addr, n) + [ReadAt(s, Wrap16(addr + n))]
  {
  }

  /** One more character of a reply under construction, and its running sum. */
  method PutChar(frame: array<Byte>, n: nat, sum: Byte, ch: Byte, ghost body: seq<Byte>) returns (next: Byte)
    requires 1 <= n < frame.Length && frame[..n] == [STX] + body && sum == Checksum(body)
    modifies frame
    ensures frame[..n + 1] == [STX] + (body + [ch]) && next == Checksum(body + [ch])
  {
    hide Checksum;
    frame[n] := ch;
    assert frame[..n + 1] == frame[..n] + [ch];
    ChecksumNext(body, ch);
    next := (sum + ch) % 256;
  }

  /** ETX and the check digits. */
  method CloseFrame(frame: array<Byte>, n: nat, sum: Byte, ghost body: seq<Byte>)
    requires 1 <= n && n + 3 <= frame.Length && frame[..n] == [STX] + body && sum == Checksum(body)
    modifies frame
    ensures frame[..n + 3] == Frame(body)
  {
    hide Checksum, HexDigit;
    ChecksumNext(body, ETX);
    var total := (sum + ETX) % 256;
    frame[n], frame[n + 1], frame[n + 2] := ETX, HexDigit(total / 16), HexDigit(total % 16);
    assert frame[..n + 3] == frame[..n] + [ETX] + HexByte(total);
  }

  class Port {
    const bus: Bus
    const monitor: Monitor
    const rt: Runtime
    const rx: array<Byte>
    var rxLen: nat
    var inFrame: bool
    var pending: bool
    var pendingAddr: Word
    /** plc_storage_mark_dirty: the program is to be saved to flash. */
    var dirty: bool
    /** Everything handed to the serial driver. */
    var sent: seq<Byte>

    /** The parts belong together and share nothing they should not. */
    ghost predicate Wired()
      reads rt, monitor
    {
      && bus.Valid() && monitor.Valid() && monitor.bus == bus && rt.Valid() && rt.mem == bus.mem
      && rx.Length == BUF_SIZE
      && rx !in bus.Repr() && rx != monitor.list && rx != monitor.result && rt !in bus.Repr()
    }

    ghost predicate Valid()
      reads `rxLen, rt, monitor
    {
      Wired() && rxLen <= BUF_SIZE
    }

    ghost function Footprint(): set<object> {
      bus.Repr() + {rt, monitor, monitor.list, monitor.result}
    }

    ghost function State(): (s: PortState)
      requires Wired()
      reads `pending, `pendingAddr, `dirty, rt, monitor, Footprint()
      ensures s.pending == if pending then Some(pendingAddr) else None
    {
      PortState(bus.Now(), monitor.List(), monitor.Readable(), if pending then Some(pendingAddr) else None,
                rt.running, rt.first, dirty)
    }

    ghost function Rx(): seq<Byte>
      requires rxLen <= rx.Length
      reads `rxLen, rx
    {
      rx[..rxLen]
    }

    ghost function View(): Link
      requires Valid()
      reads this, rx, rt, monitor, Footprint()
    {
      Link(Receiver(Rx(), inFrame), State(), sent)
    }

    /** fx_protocol_init. */
    constructor (bus: Bus, monitor: Monitor, rt: Runtime)
      requires bus.Valid() && monitor.Valid() && monitor.bus == bus && rt.Valid() && rt.mem == bus.mem
      requires rt !in bus.Repr()
      ensures Valid() && this.bus == bus && this.monitor == monitor && this.rt == rt
      ensures fresh(rx) && Rx() == [] && !inFrame && State().pending == None && !State().dirty && sent == []
    {
      this.bus, this.monitor, this.rt := bus, monitor, rt;
      rx := new Byte[BUF_SIZE](_ => 0);
      rxLen, inFrame, pending, pendingAddr, dirty, sent := 0, false, false, 0, false, [];
    }

    // ---------------------------------------------------------- parsing

    method ParseHexAt(from: nat, n: nat) returns (v: Option<nat>)
      requires Valid() && from + n <= rxLen
      ensures v == ParseHex(Rx()[from..from + n]) && State() == old(State())
    {
      hide HexValue, ParseHex;
      ghost var s := Rx()[from..from + n];
      var acc := 0;
      ParseNothing();
      assert s[..0] == [];
      for i := 0 to n
        invariant ParseHex(s[..i]) == Some(acc)
      {
        var d := HexValue(rx[from + i]);
        assert s[i] == rx[from + i];
        assert s[..i + 1] == s[..i] + [s[i]];
        ParseNext(s[..i], s[i]);
        if d.None? {
          ParseSpoiled(s, i + 1);
          return None;
        }
        acc := 16 * acc + d.value;
      }
      assert s[..n] == s;
      return Some(acc);
    }

    method ChecksumAt(from: nat, n: nat) returns (sum: Byte)
      requires Valid() && from + n <= rxLen
      ensures sum == Checksum(Rx()[from..from + n]) && State() == old(State())
    {
      ghost var s := Rx()[from..from + n];
      sum := 0;
      for i := 0 to n
        invariant sum == Checksum(s[..i])
      {
        assert s[..i + 1] == s[..i] + [s[i]];
        ChecksumNext(s[..i], s[i]);
        sum := (sum + rx[from + i]) % 256;
      }
      assert s[..n] == s;
    }

    // ---------------------------------------------------------- replies

    method ReadOne(a: Word) returns (v: Byte)
      requires Valid()
      ensures v == ReadAt(State(), a)
    {
      hide ByteAt;
      if monitor.OwnsRead(a) {
        v := monitor.result[a - RESULT_ADDR];
      } else {
        v := bus.ReadByte(a);
      }
    }

    /** The two digits of the byte at one address. */
    method PutDevice(frame: array<Byte>, n: nat, sum: Byte, a: Word, ghost bytes: seq<Byte>) returns (next: Byte)
      requires Valid() && frame !in Footprint() && frame != rx
      requires 1 <= n && n + 2 <= frame.Length && frame[..n] == [STX] + EncodeBytes(bytes)
      requires sum == Checksum(EncodeBytes(bytes))
      modifies frame
      ensures frame[..n + 2] == [STX] + EncodeBytes(bytes + [ReadAt(old(State()), a)])
      ensures next == Checksum(EncodeBytes(bytes + [ReadAt(old(State()), a)]))
    {
      hide ReadAt, HexDigit, Checksum, EncodeBytes, State;
      var v := ReadOne(a);
      ghost var body := EncodeBytes(bytes);
      EncodeNext(bytes, v);
      var hi, lo := HexDigit(v / 16), HexDigit(v % 16);
      next := PutChar(frame, n, sum, hi, body);
      next := PutChar(frame, n + 1, next, lo, body + [hi]);
      assert body + HexByte(v) == body + [hi] + [lo];
    }

    /** The digits of a whole range, after STX. */
    method PutRange(frame: array<Byte>, addr: Word, count: nat) returns (sum: Byte)
      requires Valid() && frame !in Footprint() && frame != rx && frame.Length == 260 && count <= 64
      modifies frame
      ensures frame[..1 + 2 * count] == [STX] + EncodeBytes(ReadRange(State(), addr, count))
      ensures sum == Checksum(EncodeBytes(ReadRange(State(), addr, count)))
    {
      hide ReadAt, Checksum, EncodeBytes, ReadRange, State;
      ghost var s := State();
      frame[0] := STX;
      sum := 0;
      NothingRead(s, addr);
      for i := 0 to count
        invariant State() == s
        invariant frame[..1 + 2 * i] == [STX] + EncodeBytes(ReadRange(s, addr, i))
        invariant sum == Checksum(EncodeBytes(ReadRange(s, addr, i)))
      {
        RangeNext(s, addr, i);
        sum := PutDevice(frame, 1 + 2 * i, sum, Wrap16(addr + i), ReadRange(s, addr, i));
      }
    }

    /** send_read_response: the hex digits of the range between STX and ETX, summed as they are built. */
    method ReadResponse(addr: Word, count: nat) returns (reply: seq<Byte>)
      requires Valid() && count <= 64
      ensures reply == ReadReply(State(), addr, count) && State() == old(State())
    {
      hide Checksum, EncodeBytes, ReadRange, Frame, State;
      ghost var s := State();
      var frame := new Byte[260](_ => 0);
      var sum := PutRange(frame, addr, count);
      CloseFrame(frame, 1 + 2 * count, sum, EncodeBytes(ReadRange(s, addr, count)));
      var n := 1 + 2 * count + 3;
      return frame[..n];
    }

    /** send_upload_range_response. */
    method RangeResponse(space: Byte, addr: Word) returns (reply: seq<Byte>)
      requires Valid()
      ensures reply == Frame([space] + HexWord(addr)) && State() == old(State())
    {
      hide HexWord, HexDigit, Checksum, Frame;
      var frame := new Byte[9](_ => 0);
      frame[0] := STX;
      EmptySum();
      var sum := PutChar(frame, 1, 0, space, []);
      ghost var digits := HexWord(addr);
      assert [space] + digits[..0] == [] + [space];
      var shift := 4096;
      for i := 0 to 4
        invariant shift == [4096, 256, 16, 1, 0][i]
        invariant frame[..2 + i] == [STX] + ([space] + digits[..i])
        invariant sum == Checksum([space] + digits[..i])
      {
        var ch := HexDigit(addr / shift % 16);
        Nibble(addr, i);
        assert [space] + digits[..i + 1] == [space] + digits[..i] + [ch];
        sum := PutChar(frame, 2 + i, sum, ch, [space] + digits[..i]);
        shift := shift / 16;
      }
      assert digits[..4] == digits;
      CloseFrame(frame, 6, sum, [space] + digits);
      return frame[..9];
    }

    // ---------------------------------------------------------- writing

    method WriteOne(a: Word, v: Byte, extended: bool)
      requires Valid()
      modifies monitor.list, bus.Repr()
      ensures State() == WriteAt(old(State()), a, v, extended)
    {
      hide ByteAt, PutByteAt;
      if extended && monitor.OwnsWrite(a) {
        monitor.WriteList(a, v);
      } else {
        bus.WriteByte(a, v);
      }
    }

    /** The payload starting at rx[first], byte by byte, up to the first bad hex pair. */
    method WritePayload(addr: Word, first: nat, count: nat, extended: bool) returns (ok: bool)
      requires Valid() && first + 2 * count <= rxLen
      modifies monitor.list, bus.Repr()
      ensures (State(), ok) == WriteFrom(old(State()), addr, old(Rx())[first..first + 2 * count], 0, extended)
    {
      hide WriteAt, ParseHex, WriteFrom, State;
      ghost var hex := Rx()[first..first + 2 * count];
      ghost var s := State();
      var i := 0;
      while i < count
        invariant i <= count && Rx()[first..first + 2 * count] == hex && State() == s
        invariant WriteFrom(s, addr, hex, i, extended) == WriteFrom(old(State()), addr, hex, 0, extended)
      {
        var v := ParseHexAt(first + 2 * i, 2);
        assert Rx()[first + 2 * i..first + 2 * i + 2] == hex[2 * i..2 * i + 2];
        WriteStep(s, addr, hex, i, extended);
        if v.None? {
          return false;
        }
        WriteOne(Wrap16(addr + i), v.value % 256, extended);
        s := WriteAt(s, Wrap16(addr + i), v.value % 256, extended);
        i := i + 1;
      }
      WriteStep(s, addr, hex, i, extended);
      return true;
    }

    // --------------------------------------------------------- handlers

    method SwitchMode(run: bool)
      requires Valid()
      modifies rt, bus.Repr()
      ensures Valid() && State() == SetMode(old(State()), run)
    {
      hide AfterReset;
      rt.SetMode(run);
    }

    method HandleRead() returns (reply: seq<Byte>)
      requires Valid() && rxLen >= 5
      ensures Handled(State(), reply) == DeviceRead(old(State()), old(Rx()))
    {
      hide ParseHex, ReadReply, State;
      if rxLen - 3 != 8 {
        return [NAK];
      }
      var addr := ParseHexAt(2, 4);
      var count := ParseHexAt(6, 2);
      if addr.None? || count.None? || count.value == 0 || count.value > 64 {
        return [NAK];
      }
      reply := ReadResponse(addr.value % 0x1_0000, count.value);
    }

    method HandleWrite() returns (reply: seq<Byte>)
      requires Valid() && rxLen >= 5
      modifies monitor.list, bus.Repr()
      ensures Handled(State(), reply) == DeviceWrite(old(State()), old(Rx()))
    {
      hide ParseHex, WriteFrom, State;
      if rxLen - 3 < 8 {
        return [NAK];
      }
      var addr := ParseHexAt(2, 4);
      var count := ParseHexAt(6, 2);
      if addr.None? || count.None? || count.value == 0 || count.value > 64 || rxLen - 3 != 8 + 2 * count.value {
        return [NAK];
      }
      var ok := WritePayload(addr.value % 0x1_0000, 8, count.value, false);
      return [if ok then ACK else NAK];
    }

    method HandleForce(on: bool) returns (reply: seq<Byte>)
      requires Valid() && rxLen >= 5
      modifies bus.Repr()
      ensures Handled(State(), reply) == DeviceForce(old(State()), old(Rx()), on)
    {
      hide ParseHex, PutBitAt;
      if rxLen - 3 != 6 {
        return [NAK];
      }
      var addr := ParseHexAt(2, 4);
      if addr.None? {
        return [NAK];
      }
      var a := Swapped(addr.value);
      bus.WriteBit(a / 8, a % 8, on);
      return [ACK];
    }

    method HandleAnnounce() returns (reply: seq<Byte>)
      requires Valid() && rxLen == 15
      modifies this`pending, this`pendingAddr
      ensures Handled(State(), reply) == Announce(old(State()), old(Rx()))
    {
      hide ParseHex, Frame, HexWord;
      var addr := ParseHexAt(4, 4);
      var lo := ParseHexAt(8, 2);
      var hi := ParseHexAt(10, 2);
      if addr.None? || lo.None? || hi.None? {
        return [NAK];
      }
      var words := lo.value + 256 * hi.value;
      if words == 0 || words > 64 || (rx[3] == 0x31 && addr.value < ADDR_PROGRAM) {
        return [NAK];
      }
      if rx[3] == 0x31 {
        pending, pendingAddr := true, Wrap16(addr.value + 2);
      }
      reply := RangeResponse(rx[3], addr.value % 0x1_0000);
    }

    method HandleExtendedForce() returns (reply: seq<Byte>)
      requires Valid() && rxLen == 10
      modifies rt, bus.Repr()
      ensures Valid() && Handled(State(), reply) == ExtendedForce(old(State()), old(Rx()))
    {
      hide ParseHex, Force, SetMode;
      var raw := ParseHexAt(3, 4);
      if raw.Some? {
        var a := Swapped(raw.value);
        var on := rx[2] == 0x37;
        bus.ForceBit(a, on);
        if on && a == FORCE_MS + 36 {
          SwitchMode(true);
        } else if on && a == FORCE_MS + 37 {
          SwitchMode(false);
        }
      }
      return [ACK];
    }

    method ForgetAnnounced()
      requires Valid()
      modifies this`pending
      ensures State() == old(State()).(pending := None)
    {
      pending := false;
    }

    method MarkDirty()
      requires Valid()
      modifies this`dirty
      ensures State() == old(State()).(dirty := true)
    {
      dirty := true;
    }

    method HandleExtendedWrite(addr: Word, count: nat) returns (reply: seq<Byte>)
      requires Valid() && rxLen >= 13 && 1 <= count <= 64
      modifies this`pending, this`dirty, monitor.list, bus.Repr()
      ensures Handled(State(), reply) == ExtendedWrite(old(State()), old(Rx()), addr, count)
    {
      hide Write, State;
      if rxLen - 3 != 10 + 2 * count {
        return [NAK];
      }
      var check := pending && count == 2 && addr == pendingAddr;
      ForgetAnnounced();
      if check {
        return [ACK];
      }
      reply := StoreExtended(addr, count);
    }

    method StoreExtended(addr: Word, count: nat) returns (reply: seq<Byte>)
      requires Valid() && rxLen - 3 == 10 + 2 * count
      modifies this`dirty, monitor.list, bus.Repr()
      ensures Handled(State(), reply) == Write(old(State()), addr, old(Rx())[10..rxLen - 3], true)
    {
      hide WriteFrom, State;
      var ok := WritePayload(addr, 10, count, true);
      if !ok {
        return [NAK];
      }
      if addr >= ADDR_PROGRAM {
        MarkDirty();
      }
      return [ACK];
    }

    method HandleExtendedRead(addr: Word, count: nat) returns (reply: seq<Byte>)
      requires Valid() && rxLen >= 13 && 1 <= count <= 64
      modifies monitor`resultLen, monitor.result
      ensures Valid() && Handled(State(), reply) == ExtendedRead(old(State()), old(Rx()), addr, count)
    {
      hide Sampled, ReadReply;
      if rxLen - 3 != 10 {
        return [NAK];
      }
      if addr == RESULT_ADDR {
        monitor.Sample();
      }
      reply := ReadResponse(addr, count);
    }

    /** Sub-command, address and count of a transfer. */
    method TransferFields() returns (sub: Option<nat>, addr: Option<nat>, count: Option<nat>)
      requires Valid() && rxLen >= 13
      ensures sub == Hex(Rx(), 2, 4) && addr == Hex(Rx(), 4, 8) && count == Hex(Rx(), 8, 10) && State() == old(State())
    {
      hide ParseHex, State;
      sub := ParseHexAt(2, 2);
      addr := ParseHexAt(4, 4);
      count := ParseHexAt(8, 2);
    }

    method HandleTransfer() returns (reply: seq<Byte>)
      requires Valid() && rxLen >= 5
      modifies this`pending, this`dirty, monitor`resultLen, monitor.list, monitor.result, bus.Repr()
      ensures Valid() && Handled(State(), reply) == ExtendedTransfer(old(State()), old(Rx()))
    {
      hide Hex, ExtendedWrite, ExtendedRead, State;
      if rxLen - 3 < 10 {
        return [NAK];
      }
      var sub, addr, count := TransferFields();
      if sub.None? || addr.None? || count.None? || count.value == 0 || count.value > 64 {
        return [NAK];
      }
      if sub.value % 16 > 1 || sub.value / 16 > 1 {
        return [NAK];
      }
      reply := Transfer(sub.value / 16 == 1, addr.value % 0x1_0000, count.value);
    }

    method Transfer(write: bool, addr: Word, count: nat) returns (reply: seq<Byte>)
      requires Valid() && rxLen >= 13 && 1 <= count <= 64
      modifies this`pending, this`dirty, monitor`resultLen, monitor.list, monitor.result, bus.Repr()
      ensures Valid()
      ensures Handled(State(), reply) == if write then ExtendedWrite(old(State()), old(Rx()), addr, count)
                                         else ExtendedRead(old(State()), old(Rx()), addr, count)
    {
      hide ExtendedWrite, ExtendedRead, State;
      if write {
        reply := HandleExtendedWrite(addr, count);
      } else {
        reply := HandleExtendedRead(addr, count);
      }
    }

    method HandleExtended() returns (reply: seq<Byte>)
      requires Valid() && rxLen >= 5
      modifies this`pending, this`pendingAddr, this`dirty
      modifies rt, monitor`resultLen, monitor.list, monitor.result, bus.Repr()
      ensures Valid() && Handled(State(), reply) == Extended(old(State()), old(Rx()))
    {
      hide Announce, ExtendedForce, ExtendedTransfer, State;
      if rxLen == 15 && rx[2] == 0x34 && (rx[3] == 0x30 || rx[3] == 0x31) {
        reply := HandleAnnounce();
      } else if rxLen == 10 && (rx[2] == 0x37 || rx[2] == 0x38) {
        reply := HandleExtendedForce();
      } else {
        reply := HandleTransfer();
      }
    }

    method HandleStop() returns (reply: seq<Byte>)
      requires Valid() && Sound(Rx()) && rxLen >= 5 && rx[1] == 0x42
      modifies rt, bus.Repr()
      ensures Valid() && Handled(State(), reply) == Handle(old(State()), old(Rx()))
    {
      hide Sound, SetMode, State;
      if rxLen - 3 != 2 {
        return [NAK];
      }
      SwitchMode(false);
      return [ACK];
    }

    /** STX, ETX in place, and the check sum. */
    method CheckFrame() returns (ok: bool)
      requires Valid()
      ensures ok == Sound(Rx()) && State() == old(State())
    {
      hide ParseHex, Checksum;
      if rxLen < 5 || rx[0] != STX || rx[rxLen - 3] != ETX {
        return false;
      }
      var got := ParseHexAt(rxLen - 2, 2);
      var sum := ChecksumAt(1, rxLen - 3);
      assert Rx()[rxLen - 2..rxLen] == Rx()[rxLen - 2..];
      return got.Some? && got.value == sum;
    }

    /** handle_frame: the frame in the buffer is checked, carried out and answered. */
    method HandleFrame() returns (reply: seq<Byte>)
      requires Valid()
      modifies this`pending, this`pendingAddr, this`dirty
      modifies rt, monitor`resultLen, monitor.list, monitor.result, bus.Repr()
      ensures Valid() && Handled(State(), reply) == Handle(old(State()), old(Rx()))
    {
      hide State, Sound, DeviceRead, DeviceWrite, DeviceForce, Extended, SetMode;
      var ok := CheckFrame();
      if !ok {
        return [NAK];
      }
      assert rxLen >= 5 by { SoundIsLong(Rx()); }
      var cmd := rx[1];
      match cmd {
        case 0x30 => reply := HandleRead();
        case 0x31 => reply := HandleWrite();
        case 0x45 => reply := HandleExtended();
        case 0x42 => reply := HandleStop();
        case 0x37 => reply := HandleForce(true);
        case 0x38 => reply := HandleForce(false);
        case _ => return [NAK];
      }
    }

    /** Starts or abandons a frame. */
    method Restart(open: bool)
      requires Valid()
      modifies this`inFrame, this`rxLen
      ensures Valid() && inFrame == open && Rx() == [] && State() == old(State())
    {
      inFrame, rxLen := open, 0;
    }

    method Push(b: Byte)
      requires Valid() && rxLen < BUF_SIZE
      modifies this`rxLen, rx
      ensures Valid() && Rx() == old(Rx()) + [b] && State() == old(State())
    {
      rx[rxLen] := b;
      rxLen := rxLen + 1;
    }

    method Send(reply: seq<Byte>)
      requires Valid()
      modifies this`sent
      ensures sent == old(sent) + reply && State() == old(State())
    {
      sent := sent + reply;
    }

    method Deliver()
      requires Valid()
      modifies this, rt, monitor`resultLen, monitor.list, monitor.result, bus.Repr()
      ensures Valid() && Rx() == [] && !inFrame
      ensures State() == Handle(old(State()), old(Rx())).state
      ensures sent == old(sent) + Handle(old(State()), old(Rx())).reply
    {
      hide Handle, State;
      var reply := HandleFrame();
      Send(reply);
      Restart(false);
    }

    /** ETX and two check characters are in. */
    function Ended(): (e: bool)
      requires rxLen <= rx.Length
      reads `rxLen, rx
      ensures e == (|Rx()| >= 4 && Rx()[|Rx()| - 3] == ETX)
    {
      rxLen >= 4 && rx[rxLen - 3] == ETX
    }

    /** A byte inside a frame. */
    method Store(b: Byte) returns (ghost e: Event)
      requires Valid() && inFrame
      modifies this, rx, rt, monitor`resultLen, monitor.list, monitor.result, bus.Repr()
      ensures Valid()
      ensures (Receiver(Rx(), inFrame), e) == InFrame(old(Rx()), b)
      ensures State() == After(old(State()), e).state && sent == old(sent) + After(old(State()), e).reply
    {
      hide Handle, State, InFrame;
      ghost var s := State();
      InFrameCases(Rx(), b);
      AfterFrame(s, Rx() + [b]);
      hide After;
      if rxLen >= BUF_SIZE {
        Restart(false);
        return Dropped;
      }
      Push(b);
      if !Ended() {
        return Stored;
      }
      assert State() == s;
      e := Delivered(Rx());
      Deliver();
    }

    /** One received byte: fx_protocol_task's loop body, without the dump and the console. */
    method Receive(b: Byte) returns (ghost e: Event)
      requires Valid()
      modifies this, rx, rt, monitor`resultLen, monitor.list, monitor.result, bus.Repr()
      ensures Valid()
      ensures View() == Next(old(View()), b) && e == Feed(old(View()).rx, b).1
    {
      hide Handle, State;
      if b == ENQ && !inFrame {
        Send([ACK]);
        return Enquiry;
      }
      if b == 0x3F && !inFrame {
        return Dump;
      }
      if b == STX {
        Restart(true);
      }
      if !inFrame {
        return Console(b);
      }
      e := Store(b);
    }
  }

  lemma SoundIsLong(f: seq<Byte>)
    requires Sound(f)
    ensures |f| >= 5
  {
  }

  lemma WriteStep(s: PortState, addr: Word, hex: seq<Byte>, i: nat, extended: bool)
    requires 2 * i <= |hex| && |hex| % 2 == 0
    ensures WriteFrom(s, addr, hex, i, extended) ==
            if 2 * i == |hex| then (s, true)
            else
              var v := ParseHex(hex[2 * i..2 * i + 2]);
              if v.None? then (s, false)
              else WriteFrom(WriteAt(s, Wrap16(addr + i), v.value % 256, extended), addr, hex, i + 1, extended)
  {
  }

  lemma AfterFrame(s: PortState, f: seq<Byte>)
    ensures After(s, Dropped) == After(s, Stored) == Handled(s, []) && After(s, Delivered(f)) == Handle(s, f)
  {
    hide Handle;
  }

  lemma InFrameCases(before: seq<Byte>, b: Byte)
    ensures var rx := before + [b];
            InFrame(before, b) ==
            if |before| >= BUF_SIZE then (Receiver([], false), Dropped)
            else if |rx| < 4 || rx[|rx| - 3] != ETX then (Receiver(rx, true), Stored)
            else (Receiver([], false), Delivered(rx))
  {
  }

  lemma EmptySum()
    ensures Checksum([]) == 0
  {
  }

  lemma NothingRead(s: PortState, addr: Word)
    ensures ReadRange(s, addr, 0) == [] && EncodeBytes([]) == [] && Checksum([]) == 0
  {
  }

  /** The digits of a word, by shifting. */
  lemma Nibble(w: Word, i: nat)
    requires i < 4
    ensures HexWord(w)[i] == HexDigit(w / [4096, 256, 16, 1][i] % 16)
  {
    hide HexDigit;
    assert w / 256 / 16 == w / 4096;
    assert w % 256 / 16 == w / 16 % 16 && w % 256 % 16 == w % 16;
    assert w / 4096 % 16 == w / 4096;
  }
}
