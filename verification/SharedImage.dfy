/** The serial port and the Modbus server look at one device image: what either writes, the other reads. */
module SharedImage {
  import opened Words
  import opened Devices
  import opened FxAddr
  import opened FxMonitor
  import opened FxProtocol
  import opened FxCommands
  import opened ModbusMap
  import opened ModbusPdu

  /** Where the serial port finds holding register r. */
  function RegisterAddr(r: nat): Word
    requires r < NUM_D
  {
    ADDR_D + 2 * r
  }

  lemma RegistersAgree(p: Plant, r: nat)
    requires r < NUM_D
    ensures Holding(p.img, r) == Some(FromBytes(ByteAt(p, RegisterAddr(r)), ByteAt(p, RegisterAddr(r) + 1)))
  {
    hide ByteAt, Holding, WordByte, FromBytes, Low, High;
    HoldingIsRegister(p.img, r);
    BytesOfRegister(p, r);
    WordOfBytes(p.img.d[r]);
  }

  lemma HoldingIsRegister(img: Image, r: nat)
    requires r < NUM_D
    ensures Holding(img, r) == Some(img.d[r])
  {
  }

  lemma RegisterByteAt(p: Plant, addr: Word)
    requires ADDR_D <= addr < ADDR_D_END
    ensures ByteAt(p, addr) == WordByte(p.img.d[(addr - ADDR_D) / 2], addr)
  {
    hide WordByte, BitsAt, PackByte, CounterByte;
  }

  lemma BytesOfRegister(p: Plant, r: nat)
    requires r < NUM_D
    ensures ByteAt(p, RegisterAddr(r)) == Low(p.img.d[r]) && ByteAt(p, RegisterAddr(r) + 1) == High(p.img.d[r])
  {
    hide ByteAt, Low, High;
    RegisterByteAt(p, RegisterAddr(r));
    RegisterByteAt(p, RegisterAddr(r) + 1);
  }

  /** Relays that both protocols can name have the same state in both. */
  lemma CoilsAgree(img: Image, n: nat)
    ensures n < NUM_Y ==> Coil(img, COIL_Y + n) == Some(BitAt(img, ADDR_Y + n / 8, n % 8))
    ensures n < 1536 ==> Coil(img, COIL_M + n) == Some(BitAt(img, ADDR_M + n / 8, n % 8))
    ensures n < NUM_S ==> Coil(img, COIL_S + n) == Some(BitAt(img, n / 8, n % 8))
    ensures n < NUM_X ==> Discrete(img, DISCRETE_X + n) == Some(BitAt(img, ADDR_X + n / 8, n % 8))
  {
  }

  /** Registers as the serial port transfers them, low byte first. */
  function LittleEndian(words: seq<Word>): (bytes: seq<Byte>)
    ensures |bytes| == 2 * |words|
  {
    seq(2 * |words|, k requires 0 <= k < 2 * |words| => if k % 2 == 0 then Low(words[k / 2]) else High(words[k / 2]))
  }

  lemma RegisterBytes(p: Plant, r: nat, w: Word)
    requires r < NUM_D && Holding(p.img, r) == Some(w)
    ensures ByteAt(p, RegisterAddr(r)) == Low(w) && ByteAt(p, RegisterAddr(r) + 1) == High(w)
  {
    hide ByteAt, Holding, Low, High;
    HoldingIsRegister(p.img, r);
    BytesOfRegister(p, r);
  }

  /** Registers start.. hold words. */
  predicate Hold(img: Image, start: Word, words: seq<Word>) {
    forall i: nat :: i < |words| ==> Holding(img, Nth(start, i)) == Some(words[i])
  }

  lemma HeldBytes(s: PortState, start: Word, words: seq<Word>)
    requires Hold(s.plant.img, start, words) && start + |words| <= NUM_D && 1 <= |words| <= 32
    requires |s.readable| <= RESULT_BYTES
    ensures ReadRange(s, RegisterAddr(start), 2 * |words|) == LittleEndian(words)
  {
    hide ByteAt, Holding, ReadAt;
    forall k | 0 <= k < 2 * |words|
      ensures ReadAt(s, Wrap16(RegisterAddr(start) + k)) == LittleEndian(words)[k]
    {
      var i := k / 2;
      assert Nth(start, i) == start + i;
      RegisterBytes(s.plant, start + i, words[i]);
      assert RegisterAddr(start + i) + k % 2 == RegisterAddr(start) + k;
      DataIsNotShadowed(s, RegisterAddr(start) + k);
    }
  }

  lemma AcceptedHold(img: Image, req: seq<Byte>)
    requires |req| >= 6 && req[1] == 0x10 && PduExec(img, req).1 == Echo(req)
    ensures GoodRegisterWrite(req) && Hold(PduExec(img, req).0, Start(req), RegisterPayload(req))
  {
    WriteCodes(img, req);
    hide PduExec, WriteRegisters, Holding, Start, Count, Echo, RegisterPayload, Nth;
    AcceptedRegisters(img, req, Start(req), Count(req));
    var after, words := PduExec(img, req).0, RegisterPayload(req);
    forall i: nat | i < |words|
      ensures Holding(after, Nth(Start(req), i)) == Some(words[i])
    {
      assert WordRun(after, false, Start(req), Count(req))[i] == words[i];
    }
  }

  lemma DataIsNotShadowed(s: PortState, addr: Word)
    requires ADDR_D <= addr < ADDR_D_END && |s.readable| <= RESULT_BYTES
    ensures ReadAt(s, addr) == ByteAt(s.plant, addr)
  {
    hide ByteAt;
  }

  /** A register write accepted over Modbus is what the serial port then reads from the data registers. */
  lemma ModbusWriteSerialRead(s: PortState, req: seq<Byte>)
    requires |req| >= 6 && req[1] == 0x10 && PduExec(s.plant.img, req).1 == Echo(req)
    requires Start(req) + Count(req) <= NUM_D && Count(req) <= 32 && |s.readable| <= RESULT_BYTES
    ensures GoodRegisterWrite(req)
    ensures var after := s.(plant := s.plant.(img := PduExec(s.plant.img, req).0));
            DecodeReply(Handle(after, Frame(ReadBody(RegisterAddr(Start(req)), 2 * Count(req)))).reply) ==
            Some(LittleEndian(RegisterPayload(req)))
  {
    hide PduExec, Hold, Handle, ReadBody, ReadRange, Start, Count, Echo, DecodeReply, Frame, LittleEndian,
         RegisterPayload;
    AcceptedHold(s.plant.img, req);
    var after := s.(plant := s.plant.(img := PduExec(s.plant.img, req).0));
    HeldBytes(after, Start(req), RegisterPayload(req));
    ReadIsAnswered(after, RegisterAddr(Start(req)), 2 * Count(req));
    ReplyDecodes(LittleEndian(RegisterPayload(req)));
  }

  /** Bytes written to the data registers over the serial port are what Modbus then reads, word by word. */
  lemma SerialWriteModbusRead(s: PortState, unit: Byte, start: Word, words: seq<Word>)
    requires 1 <= |words| <= 32 && start + |words| <= NUM_D
    ensures var written := Handle(s, Frame(WriteBody(RegisterAddr(start), LittleEndian(words))));
            && written.reply == [ACK]
            && PduExec(written.state.plant.img, ReadRequest(unit, start, |words|)) ==
               (written.state.plant.img, [unit, 0x03, 2 * |words|] + BigEndian(words))
  {
    var bytes, req := LittleEndian(words), ReadRequest(unit, start, |words|);
    var after := StoreAll(s, RegisterAddr(start), bytes, 0, false);
    WriteCodes(after.plant.img, req);
    hide PduExec, Holding, Handle, WriteBody, StoreAll, Frame, LittleEndian, BigEndian, Start, Count;
    WriteIsStored(s, RegisterAddr(start), bytes);
    forall i: nat | i < |words|
      ensures Holding(after.plant.img, Nth(start, i)) == Some(words[i])
    {
      StoredRegister(s, start, words, i);
    }
    assert WordRun(after.plant.img, false, start, |words|) == words;
  }

  function ReadRequest(unit: Byte, start: Word, n: Byte): (req: seq<Byte>)
    ensures |req| == 6 && req[0] == unit && req[1] == 0x03 && Start(req) == start && Count(req) == n
  {
    [unit, 0x03, High(start), Low(start), 0, n]
  }

  lemma StoredByte(s: PortState, start: Word, words: seq<Word>, k: nat)
    requires 1 <= |words| <= 32 && start + |words| <= NUM_D && k < 2 * |words|
    ensures ByteAt(StoreAll(s, RegisterAddr(start), LittleEndian(words), 0, false).plant, RegisterAddr(start) + k) ==
            LittleEndian(words)[k]
  {
    hide ByteAt, StoreAll, LittleEndian;
    var a: int := RegisterAddr(start) + k;
    assert ADDR_D <= a < ADDR_D_END;
    assert Wrap16(a - RegisterAddr(start)) == k && Backed(a);
    StoredReads(s, RegisterAddr(start), LittleEndian(words), 0, a, false);
  }

  lemma StoredRegister(s: PortState, start: Word, words: seq<Word>, i: nat)
    requires 1 <= |words| <= 32 && start + |words| <= NUM_D && i < |words|
    ensures var after := StoreAll(s, RegisterAddr(start), LittleEndian(words), 0, false);
            Holding(after.plant.img, Nth(start, i)) == Some(words[i])
  {
    hide Holding, ByteAt, StoreAll;
    StoredByte(s, start, words, 2 * i);
    StoredByte(s, start, words, 2 * i + 1);
    RegistersAgree(StoreAll(s, RegisterAddr(start), LittleEndian(words), 0, false).plant, start + i);
  }
}
