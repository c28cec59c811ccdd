/** The request handler itself: replies built in a buffer, devices written item by item. */
module ModbusServer {
  import opened Words
  import opened Devices
  import opened PlcMemory
  import opened BitPacking
  import opened ModbusMap
  import opened ModbusPdu

  /** Where the reply to the protocol data unit starts in the buffer. */
  const BASE: nat := MBAP

  lemma NextRegister(words: seq<Word>, i: nat)
    requires i < |words|
    ensures BigEndian(words[..i + 1]) == BigEndian(words[..i]) + [High(words[i]), Low(words[i])]
  {
  }

  lemma FirstUnmappedBit(img: Image, discrete: bool, start: Word, n: nat, i: nat)
    requires i < n && BitCell(img, discrete, Nth(start, i)).None?
    ensures !BitsReadable(img, discrete, start, n)
  {
  }

  lemma FirstUnmappedWord(img: Image, input: bool, start: Word, n: nat, i: nat)
    requires i < n && WordCell(img, input, Nth(start, i)).None?
    ensures !WordsReadable(img, input, start, n)
  {
  }

  lemma {:induction false} StopsAtCoil(start: Word, n: nat, i: nat)
    requires i < n && MappedCoils(start, i) == i && !CoilMapped(Nth(start, i))
    ensures MappedCoils(start, n) == i
  {
    hide CoilMapped, Nth;
    if i < n - 1 {
      StopsAtCoil(start, n - 1, i);
    }
  }

  lemma {:induction false} StopsAtRegister(start: Word, n: nat, i: nat)
    requires i < n && MappedRegisters(start, i) == i && !HoldingMapped(Nth(start, i))
    ensures MappedRegisters(start, n) == i
  {
    hide HoldingMapped, Nth;
    if i < n - 1 {
      StopsAtRegister(start, n - 1, i);
    }
  }

  class Server {
    const mem: Memory

    ghost predicate Valid() { mem.Valid() }

    constructor (mem: Memory)
      requires mem.Valid()
      ensures Valid() && this.mem == mem
    {
      this.mem := mem;
    }

    method Refuse(req: seq<Byte>, resp: array<Byte>, code: Byte) returns (n: nat)
      requires |req| >= 2 && resp.Length == ADU_MAX
      modifies resp
      ensures n == 3 && resp[BASE..BASE + n] == Exception(req, code)
    {
      resp[BASE], resp[BASE + 1], resp[BASE + 2] := req[0], PutBit8(req[1], 7, true), code;
      SetsTopBit(req[1]);
      return 3;
    }

    method Copy(req: seq<Byte>, resp: array<Byte>) returns (n: nat)
      requires |req| >= 6 && resp.Length == ADU_MAX
      modifies resp
      ensures n == 6 && resp[BASE..BASE + n] == Echo(req)
    {
      for i := 0 to 6
        invariant resp[BASE..BASE + i] == req[..i]
      {
        resp[BASE + i] := req[i];
      }
      return 6;
    }

    method Header(req: seq<Byte>, resp: array<Byte>, bytes: Byte)
      requires |req| >= 2 && resp.Length == ADU_MAX
      modifies resp
      ensures resp[BASE..BASE + 3] == [req[0], req[1], bytes]
    {
      resp[BASE], resp[BASE + 1], resp[BASE + 2] := req[0], req[1], bytes;
    }

    method Clear(resp: array<Byte>, m: nat)
      requires resp.Length == ADU_MAX && BASE + 3 + m <= resp.Length
      modifies resp
      ensures resp[BASE + 3..BASE + 3 + m] == seq(m, _ => 0) && resp[..BASE + 3] == old(resp[..BASE + 3])
    {
      for i := 0 to m
        invariant resp[BASE + 3..BASE + 3 + i] == seq(i, _ => 0)
        invariant resp[..BASE + 3] == old(resp[..BASE + 3])
      {
        resp[BASE + 3 + i] := 0;
      }
    }

    function BitAt(discrete: bool, addr: Word): (v: Option<bool>)
      requires Valid()
      reads mem.Repr()
      ensures v == BitCell(mem.Img(), discrete, addr)
    {
      if discrete then ReadDiscrete(mem, addr) else ReadCoil(mem, addr)
    }

    function WordAt(input: bool, addr: Word): (v: Option<Word>)
      requires Valid()
      reads mem.Repr()
      ensures v == WordCell(mem.Img(), input, addr)
    {
      if input then ReadInput(mem, addr) else ReadHolding(mem, addr)
    }

    /** Bits start.. packed after the header, until an address that is not mapped. */
    method PackRun(resp: array<Byte>, start: Word, count: nat, discrete: bool) returns (ok: bool)
      requires Valid() && resp !in mem.Repr() && resp.Length == ADU_MAX && BASE + 3 + (count + 7) / 8 <= resp.Length
      modifies resp
      ensures ok == BitsReadable(mem.Img(), discrete, start, count)
      ensures ok ==> resp[BASE + 3..BASE + 3 + (count + 7) / 8] == PackBytes(BitRun(mem.Img(), discrete, start, count))
      ensures resp[..BASE + 3] == old(resp[..BASE + 3])
    {
      hide BitCell, PackedUpTo, Nth, Memory.Img;
      ghost var img := mem.Img();
      ghost var bits := BitRun(img, discrete, start, count);
      var m := (count + 7) / 8;
      Clear(resp, m);
      PackedNothing(bits, m);
      for i := 0 to count
        invariant mem.Img() == img
        invariant forall j: nat :: j < i ==> BitCell(img, discrete, Nth(start, j)).Some?
        invariant resp[BASE + 3..BASE + 3 + m] == PackedUpTo(bits, i, m)
        invariant resp[..BASE + 3] == old(resp[..BASE + 3])
      {
        var v := BitAt(discrete, Nth(start, i));
        if v.None? {
          FirstUnmappedBit(img, discrete, start, count, i);
          return false;
        }
        OrBit(resp, BASE + 3, i, v.value, m, bits);
      }
      return true;
    }

    method AnswerBits(req: seq<Byte>, resp: array<Byte>, discrete: bool) returns (n: nat)
      requires Valid() && |req| >= 6 && resp !in mem.Repr() && resp.Length == ADU_MAX
      modifies resp
      ensures BASE + n <= resp.Length && resp[BASE..BASE + n] == ReadBits(mem.Img(), req, discrete)
      ensures mem.Img() == old(mem.Img())
    {
      hide BitsReadable, BitRun, PackBytes, Exception, Memory.Img;
      var start, count := Start(req), Count(req);
      if count == 0 || count > 2000 {
        n := Refuse(req, resp, ILLEGAL_VALUE);
        return;
      }
      var bytes := (count + 7) / 8;
      Header(req, resp, bytes);
      assert resp[..BASE + 3][BASE..] == [req[0], req[1], bytes];
      var ok := PackRun(resp, start, count, discrete);
      if !ok {
        n := Refuse(req, resp, ILLEGAL_ADDRESS);
        return;
      }
      n := 3 + bytes;
      assert resp[BASE..BASE + n] == resp[..BASE + 3][BASE..] + resp[BASE + 3..BASE + n];
    }

    /** Register i of a reply. */
    method PutRegister(resp: array<Byte>, ghost words: seq<Word>, i: nat, v: Word)
      requires i < |words| && v == words[i] && resp.Length == ADU_MAX && BASE + 5 + 2 * i <= resp.Length
      requires resp[BASE + 3..BASE + 3 + 2 * i] == BigEndian(words[..i])
      modifies resp
      ensures resp[BASE + 3..BASE + 3 + 2 * (i + 1)] == BigEndian(words[..i + 1])
      ensures resp[..BASE + 3] == old(resp[..BASE + 3])
    {
      hide BigEndian, High, Low;
      NextRegister(words, i);
      var at := BASE + 3 + 2 * i;
      resp[at], resp[at + 1] := High(v), Low(v);
      assert resp[BASE + 3..at + 2] == resp[BASE + 3..at] + [High(v), Low(v)];
    }

    method PutRegisters(resp: array<Byte>, start: Word, count: nat, input: bool) returns (ok: bool)
      requires Valid() && resp !in mem.Repr() && resp.Length == ADU_MAX && BASE + 3 + 2 * count <= resp.Length
      modifies resp
      ensures ok == WordsReadable(mem.Img(), input, start, count)
      ensures ok ==> resp[BASE + 3..BASE + 3 + 2 * count] == BigEndian(WordRun(mem.Img(), input, start, count))
      ensures resp[..BASE + 3] == old(resp[..BASE + 3])
    {
      hide WordCell, BigEndian, Nth, Memory.Img;
      ghost var img := mem.Img();
      ghost var words := WordRun(img, input, start, count);
      NoRegisters();
      for i := 0 to count
        invariant mem.Img() == img
        invariant forall j: nat :: j < i ==> WordCell(img, input, Nth(start, j)).Some?
        invariant resp[BASE + 3..BASE + 3 + 2 * i] == BigEndian(words[..i])
        invariant resp[..BASE + 3] == old(resp[..BASE + 3])
      {
        var v := WordAt(input, Nth(start, i));
        if v.None? {
          FirstUnmappedWord(img, input, start, count, i);
          return false;
        }
        PutRegister(resp, words, i, v.value);
      }
      assert words[..count] == words;
      return true;
    }

    method AnswerWords(req: seq<Byte>, resp: array<Byte>, input: bool) returns (n: nat)
      requires Valid() && |req| >= 6 && resp !in mem.Repr() && resp.Length == ADU_MAX
      modifies resp
      ensures BASE + n <= resp.Length && resp[BASE..BASE + n] == ReadWords(mem.Img(), req, input)
      ensures mem.Img() == old(mem.Img())
    {
      hide WordsReadable, WordRun, BigEndian, Exception, Memory.Img;
      var start, count := Start(req), Count(req);
      if count == 0 || count > 125 {
        n := Refuse(req, resp, ILLEGAL_VALUE);
        return;
      }
      Header(req, resp, 2 * count);
      assert resp[..BASE + 3][BASE..] == [req[0], req[1], 2 * count];
      var ok := PutRegisters(resp, start, count, input);
      if !ok {
        n := Refuse(req, resp, ILLEGAL_ADDRESS);
        return;
      }
      n := 3 + 2 * count;
      assert resp[BASE..BASE + n] == resp[..BASE + 3][BASE..] + resp[BASE + 3..BASE + n];
    }

    // ------------------------------------------------------------ writes

    /** Item by item, stopping at the first address that is not mapped. */
    method StoreCoils(req: seq<Byte>) returns (ok: bool)
      requires Valid() && GoodCoilWrite(req)
      modifies mem.Repr()
      ensures var k := MappedCoils(Start(req), Count(req));
              ok == (k == Count(req)) && mem.Img() == WithCoils(old(mem.Img()), Start(req), CoilPayload(req)[..k])
    {
      hide PutCoil, CoilMapped, Nth, Memory.Img;
      var start, count := Start(req), Count(req);
      ghost var bits := CoilPayload(req);
      for i := 0 to count
        invariant MappedCoils(start, i) == i
        invariant mem.Img() == WithCoils(old(mem.Img()), start, bits[..i])
      {
        var written := WriteCoil(mem, Nth(start, i), Bit(req[7 + i / 8], i % 8));
        if !written {
          StopsAtCoil(start, count, i);
          UnmappedIgnored(WithCoils(old(mem.Img()), start, bits[..i]), Nth(start, i), bits[i], 0);
          return false;
        }
        assert bits[..i + 1][..i] == bits[..i];
      }
      return true;
    }

    method StoreRegisters(req: seq<Byte>) returns (ok: bool)
      requires Valid() && GoodRegisterWrite(req)
      modifies mem.Repr()
      ensures var k := MappedRegisters(Start(req), Count(req));
              && ok == (k == Count(req))
              && mem.Img() == WithRegisters(old(mem.Img()), Start(req), RegisterPayload(req)[..k])
    {
      hide PutHolding, HoldingMapped, Nth, Memory.Img;
      var start, count := Start(req), Count(req);
      ghost var words := RegisterPayload(req);
      for i := 0 to count
        invariant MappedRegisters(start, i) == i
        invariant mem.Img() == WithRegisters(old(mem.Img()), start, words[..i])
      {
        var written := WriteHolding(mem, Nth(start, i), Be16(req, 7 + 2 * i));
        if !written {
          StopsAtRegister(start, count, i);
          UnmappedIgnored(WithRegisters(old(mem.Img()), start, words[..i]), Nth(start, i), false, words[i]);
          return false;
        }
        assert words[..i + 1][..i] == words[..i];
      }
      return true;
    }

    method AnswerCoilRun(req: seq<Byte>, resp: array<Byte>) returns (n: nat)
      requires Valid() && |req| >= 6 && resp !in mem.Repr() && resp.Length == ADU_MAX
      modifies mem.Repr(), resp
      ensures BASE + n <= resp.Length && (mem.Img(), resp[BASE..BASE + n]) == WriteCoils(old(mem.Img()), req)
    {
      hide Exception, Echo, WithCoils, CoilPayload, MappedCoils, Memory.Img;
      if |req| < 7 || 7 + req[6] > |req| || Count(req) == 0 || req[6] != (Count(req) + 7) / 8 {
        n := Refuse(req, resp, ILLEGAL_VALUE);
        return;
      }
      var ok := StoreCoils(req);
      if ok {
        n := Copy(req, resp);
      } else {
        n := Refuse(req, resp, ILLEGAL_ADDRESS);
      }
    }

    method AnswerRegisterRun(req: seq<Byte>, resp: array<Byte>) returns (n: nat)
      requires Valid() && |req| >= 6 && resp !in mem.Repr() && resp.Length == ADU_MAX
      modifies mem.Repr(), resp
      ensures BASE + n <= resp.Length && (mem.Img(), resp[BASE..BASE + n]) == WriteRegisters(old(mem.Img()), req)
    {
      hide Exception, Echo, WithRegisters, RegisterPayload, MappedRegisters, Memory.Img;
      if |req| < 7 || 7 + req[6] > |req| || Count(req) == 0 || req[6] != 2 * Count(req) {
        n := Refuse(req, resp, ILLEGAL_VALUE);
        return;
      }
      var ok := StoreRegisters(req);
      if ok {
        n := Copy(req, resp);
      } else {
        n := Refuse(req, resp, ILLEGAL_ADDRESS);
      }
    }

    method StoreCoil(req: seq<Byte>, resp: array<Byte>) returns (n: nat)
      requires Valid() && |req| >= 6 && resp !in mem.Repr() && resp.Length == ADU_MAX
      modifies mem.Repr(), resp
      ensures BASE + n <= resp.Length && (mem.Img(), resp[BASE..BASE + n]) == WriteOneCoil(old(mem.Img()), req)
    {
      hide Exception, Echo, PutCoil, CoilMapped, Memory.Img;
      var addr, value := Start(req), Count(req);
      if value != 0x0000 && value != 0xFF00 {
        n := Refuse(req, resp, ILLEGAL_VALUE);
        return;
      }
      var ok := WriteCoil(mem, addr, value == 0xFF00);
      if !ok {
        UnmappedIgnored(old(mem.Img()), addr, value == 0xFF00, 0);
        n := Refuse(req, resp, ILLEGAL_ADDRESS);
        return;
      }
      n := Copy(req, resp);
    }

    method StoreRegister(req: seq<Byte>, resp: array<Byte>) returns (n: nat)
      requires Valid() && |req| >= 6 && resp !in mem.Repr() && resp.Length == ADU_MAX
      modifies mem.Repr(), resp
      ensures BASE + n <= resp.Length && (mem.Img(), resp[BASE..BASE + n]) == WriteOneRegister(old(mem.Img()), req)
    {
      hide Exception, Echo, PutHolding, HoldingMapped, Memory.Img;
      var ok := WriteHolding(mem, Start(req), Count(req));
      if !ok {
        UnmappedIgnored(old(mem.Img()), Start(req), false, Count(req));
        n := Refuse(req, resp, ILLEGAL_ADDRESS);
        return;
      }
      n := Copy(req, resp);
    }

    // ---------------------------------------------------------- requests

    /** modbus_pdu_exec: a request from the unit identifier onwards, answered from resp[6] onwards. */
    method ExecPdu(req: seq<Byte>, resp: array<Byte>) returns (n: nat)
      requires Valid() && resp !in mem.Repr() && resp.Length == ADU_MAX
      modifies mem.Repr(), resp
      ensures BASE + n <= resp.Length && (mem.Img(), resp[BASE..BASE + n]) == PduExec(old(mem.Img()), req)
    {
      hide ReadBits, ReadWords, WriteOneCoil, WriteOneRegister, WriteCoils, WriteRegisters, Exception, Memory.Img;
      if |req| < 2 {
        return 0;
      }
      if |req| < 6 {
        n := Refuse(req, resp, ILLEGAL_VALUE);
        return;
      }
      match req[1] {
        case 0x01 => n := AnswerBits(req, resp, false);
        case 0x02 => n := AnswerBits(req, resp, true);
        case 0x03 => n := AnswerWords(req, resp, false);
        case 0x04 => n := AnswerWords(req, resp, true);
        case 0x05 => n := StoreCoil(req, resp);
        case 0x06 => n := StoreRegister(req, resp);
        case 0x0F => n := AnswerCoilRun(req, resp);
        case 0x10 => n := AnswerRegisterRun(req, resp);
        case _ => n := Refuse(req, resp, ILLEGAL_FUNCTION);
      }
    }

    /** The frame's own transaction, and the length of the reply. */
    method PutHeader(adu: seq<Byte>, resp: array<Byte>, n: nat)
      requires |adu| >= 2 && resp.Length == ADU_MAX && BASE + n <= resp.Length
      modifies resp
      ensures resp[..BASE + n] == Adu(adu[0], adu[1], old(resp[BASE..BASE + n]))
    {
      var length := Wrap16(n);
      hide MbapHeader, Wrap16, High, Low;
      ghost var reply := resp[BASE..BASE + n];
      ghost var header := MbapHeader(adu[0], adu[1], length);
      resp[0], resp[1], resp[2], resp[3] := adu[0], adu[1], 0, 0;
      resp[4], resp[5] := High(length), Low(length);
      assert resp[..BASE] == header;
      assert resp[BASE..BASE + n] == reply;
      assert resp[..BASE + n] == resp[..BASE] + resp[BASE..BASE + n];
    }

    /** modbus_tcp_adu_exec. */
    method ExecAdu(adu: seq<Byte>, resp: array<Byte>) returns (n: nat)
      requires Valid() && resp !in mem.Repr() && resp.Length == ADU_MAX
      modifies mem.Repr(), resp
      ensures n <= resp.Length && (mem.Img(), resp[..n]) == AduExec(old(mem.Img()), adu)
    {
      hide PduExec, Adu, Memory.Img;
      if |adu| < 8 {
        return 0;
      }
      if Be16(adu, 2) != 0 || Be16(adu, 4) != Wrap16(|adu| - 6) {
        return 0;
      }
      n := ExecPdu(adu[6..], resp);
      if n == 0 {
        return;
      }
      PutHeader(adu, resp, n);
      n := BASE + n;
    }
  }

  lemma NoRegisters()
    ensures BigEndian([]) == []
  {
  }

  lemma Pow2Of7()
    ensures Pow2(7) == 128
  {
    assert Pow2(3) == 8;
  }

  lemma SetsTopBit(v: Byte)
    ensures PutBit8(v, 7, true) == v % 128 + 128
  {
    hide WithBit, Bit, Pow2;
    Pow2Of7();
    TopBit(v);
    WithBitValue(v, 7, true);
  }

  lemma TopBit(v: Byte)
    ensures Bit(v, 7) == (v >= 128)
  {
    assert Bit(v, 7) == Bit(v / 2, 6) == Bit(v / 2 / 2, 5) == Bit(v / 2 / 2 / 2, 4);
    assert Bit(v / 2 / 2 / 2, 4) == Bit(v / 2 / 2 / 2 / 2, 3) == Bit(v / 2 / 2 / 2 / 2 / 2, 2);
    assert Bit(v / 2 / 2 / 2 / 2 / 2, 2) == Bit(v / 2 / 2 / 2 / 2 / 2 / 2, 1) == Bit(v / 2 / 2 / 2 / 2 / 2 / 2 / 2, 0);
  }
}
