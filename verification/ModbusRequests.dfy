/** Modbus requests by their bytes: what each function answers and changes, over the published address tables. */
module ModbusRequests {
  import opened Words
  import opened Devices
  import opened BitPacking
  import opened ModbusMap
  import opened ModbusPdu
  import opened ModbusTcp

  // ------------------------------------------------------ the four tables

  /** Coils: Y0-Y255 at 0, M0-M3071 at 1000, S0-S999 at 5000. */
  function CoilTable(img: Image, a: Word): Option<bool> {
    if a <= 255 then Some(img.y[a])
    else if 1000 <= a <= 4071 then Some(img.m[a - 1000])
    else if 5000 <= a <= 5999 then Some(img.s[a - 5000])
    else None
  }

  /** Discrete inputs: X0-X255 at 0, T contacts at 1000, C contacts at 2000. */
  function InputTable(img: Image, a: Word): Option<bool> {
    if a <= 255 then Some(img.x[a])
    else if 1000 <= a <= 1255 then Some(img.t[a - 1000].done)
    else if 2000 <= a <= 2255 then Some(img.c[a - 2000].done)
    else None
  }

  /** Holding registers: D0-D7999 at 0, D8000-D8255 at 8000. */
  function RegisterTable(img: Image, a: Word): Option<Word> {
    if a <= 7999 then Some(img.d[a]) else if a <= 8255 then Some(img.ds[a - 8000]) else None
  }

  /** Input registers: T currents at 0, the low words of C currents at 1000, analog inputs D8030-D8032 at 2000. */
  function ValueTable(img: Image, a: Word): Option<Word> {
    if a <= 255 then Some(img.t[a].current)
    else if 1000 <= a <= 1255 then Some(img.c[a - 1000].current % 0x1_0000)
    else if 2000 <= a <= 2002 then Some(img.ds[30 + a - 2000])
    else None
  }

  lemma BitTables(img: Image, a: Word)
    ensures Coil(img, a) == CoilTable(img, a) && Discrete(img, a) == InputTable(img, a)
    ensures CoilMapped(a) <==> CoilTable(img, a).Some?
  {
  }

  lemma WordTables(img: Image, a: Word)
    ensures Holding(img, a) == RegisterTable(img, a) && Input(img, a) == ValueTable(img, a)
    ensures HoldingMapped(a) <==> RegisterTable(img, a).Some?
  {
  }

  // ---------------------------------------------------------- the requests

  /** Unit, function, an address and a number, and possibly more. */
  function Request(unit: Byte, fn: Byte, a: Word, v: Word, more: seq<Byte>): (req: seq<Byte>)
    ensures |req| == 6 + |more|
  {
    [unit, fn, a / 256, a % 256, v / 256, v % 256] + more
  }

  function Refusal(unit: Byte, fn: Byte, code: Byte): seq<Byte>
    requires fn < 0x80
  {
    [unit, fn + 0x80, code]
  }

  lemma RequestFields(unit: Byte, fn: Byte, a: Word, v: Word, more: seq<Byte>)
    requires fn < 0x80
    ensures var req := Request(unit, fn, a, v, more);
            && Start(req) == a && Count(req) == v && req[0] == unit && req[1] == fn
            && Echo(req) == [unit, fn, a / 256, a % 256, v / 256, v % 256]
            && forall code: Byte :: Exception(req, code) == Refusal(unit, fn, code)
  {
  }

  // --------------------------------------------------------------- reading

  function BitTable(img: Image, fn: Byte, a: Word): Option<bool> {
    if fn == 2 then InputTable(img, a) else CoilTable(img, a)
  }

  function WordTable(img: Image, fn: Byte, a: Word): Option<Word> {
    if fn == 4 then ValueTable(img, a) else RegisterTable(img, a)
  }

  /** Addresses count on past 65535 from 0. */
  function Item(a: Word, i: nat): Word { (a + i) % 0x1_0000 }

  predicate BitsThere(img: Image, fn: Byte, a: Word, n: nat) {
    forall k: nat :: k < n ==> BitTable(img, fn, Item(a, k)).Some?
  }

  predicate WordsThere(img: Image, fn: Byte, a: Word, n: nat) {
    forall k: nat :: k < n ==> WordTable(img, fn, Item(a, k)).Some?
  }

  lemma CellIsTable(img: Image, fn: Byte, a: Word)
    ensures BitCell(img, fn == 2, a) == BitTable(img, fn, a)
    ensures WordCell(img, fn == 4, a) == WordTable(img, fn, a)
  {
    hide Coil, Discrete, Holding, Input, CoilTable, InputTable, RegisterTable, ValueTable;
    BitTables(img, a);
    WordTables(img, a);
  }

  lemma RunIsTable(img: Image, fn: Byte, a: Word, n: nat)
    ensures BitsReadable(img, fn == 2, a, n) == BitsThere(img, fn, a, n)
    ensures WordsReadable(img, fn == 4, a, n) == WordsThere(img, fn, a, n)
    ensures BitsThere(img, fn, a, n) ==>
              forall i: nat :: i < n ==> Some(BitRun(img, fn == 2, a, n)[i]) == BitTable(img, fn, Item(a, i))
    ensures WordsThere(img, fn, a, n) ==>
              forall i: nat :: i < n ==> Some(WordRun(img, fn == 4, a, n)[i]) == WordTable(img, fn, Item(a, i))
  {
    hide BitCell, WordCell, BitTable, WordTable;
    forall k: nat
      ensures BitCell(img, fn == 2, Nth(a, k)) == BitTable(img, fn, Item(a, k))
      ensures WordCell(img, fn == 4, Nth(a, k)) == WordTable(img, fn, Item(a, k))
    {
      CellIsTable(img, fn, Item(a, k));
    }
  }

  lemma ReadIsExecuted(img: Image, unit: Byte, fn: Byte, a: Word, n: Word, more: seq<Byte>)
    requires 1 <= fn <= 4
    ensures var req := Request(unit, fn, a, n, more);
            && (fn <= 2 ==> PduExec(img, req) == (img, ReadBits(img, req, fn == 2)))
            && (fn >= 3 ==> PduExec(img, req) == (img, ReadWords(img, req, fn == 4)))
  {
    hide ReadBits, ReadWords, WriteCoils, WriteRegisters, WriteOneCoil, WriteOneRegister;
  }

  /** Functions 1 and 2: bit i of the reply is item i, padding is 0; 1 to 2000 items, all of them mapped. */
  lemma BitsAnswered(img: Image, unit: Byte, fn: Byte, a: Word, n: Word, more: seq<Byte>, i: nat)
    requires fn == 1 || fn == 2
    ensures var (after, reply) := PduExec(img, Request(unit, fn, a, n, more));
            && after == img
            && (if n == 0 || n > 2000 then reply == Refusal(unit, fn, 3)
                else if !BitsThere(img, fn, a, n) then reply == Refusal(unit, fn, 2)
                else
                  && |reply| == 3 + (n + 7) / 8 && reply[..3] == [unit, fn, (n + 7) / 8]
                  && (i < n ==> Some(Bit(reply[3 + i / 8], i % 8)) == BitTable(img, fn, Item(a, i)))
                  && (n <= i < 8 * ((n + 7) / 8) ==> !Bit(reply[3 + i / 8], i % 8)))
  {
    var req := Request(unit, fn, a, n, more);
    hide PduExec, Request, PackBytes, Start, Count, Exception, Refusal, BitTable, Bit, BitsThere, BitsReadable, BitRun;
    RequestFields(unit, fn, a, n, more);
    ReadIsExecuted(img, unit, fn, a, n, more);
    RunIsTable(img, fn, a, n);
    if 1 <= n <= 2000 && BitsThere(img, fn, a, n) {
      var bits := BitRun(img, fn == 2, a, n);
      var reply := ReadBits(img, req, fn == 2);
      assert reply == [unit, fn, (n + 7) / 8] + PackBytes(bits);
      if i < 8 * ((n + 7) / 8) {
        PackedBits(bits, i);
        assert reply[3 + i / 8] == PackBytes(bits)[i / 8];
      }
    }
  }

  /** Functions 3 and 4: item i, high byte first; 1 to 125 items, all of them mapped. */
  lemma WordsAnswered(img: Image, unit: Byte, fn: Byte, a: Word, n: Word, more: seq<Byte>, i: nat)
    requires fn == 3 || fn == 4
    ensures var (after, reply) := PduExec(img, Request(unit, fn, a, n, more));
            && after == img
            && (if n == 0 || n > 125 then reply == Refusal(unit, fn, 3)
                else if !WordsThere(img, fn, a, n) then reply == Refusal(unit, fn, 2)
                else
                  && |reply| == 3 + 2 * n && reply[..3] == [unit, fn, 2 * n]
                  && (i < n ==> WordTable(img, fn, Item(a, i)) == Some(FromBytes(reply[4 + 2 * i], reply[3 + 2 * i]))))
  {
    var req := Request(unit, fn, a, n, more);
    hide PduExec, Request, Start, Count, Exception, Refusal, WordTable, WordsThere, WordsReadable, WordRun;
    RequestFields(unit, fn, a, n, more);
    ReadIsExecuted(img, unit, fn, a, n, more);
    RunIsTable(img, fn, a, n);
    if 1 <= n <= 125 && WordsThere(img, fn, a, n) {
      var words := WordRun(img, fn == 4, a, n);
      var reply := ReadWords(img, req, fn == 4);
      assert reply == [unit, fn, 2 * n] + BigEndian(words);
      if i < n {
        WordOfReply([unit, fn, 2 * n], words, i);
      }
    }
  }

  lemma WordOfReply(head: seq<Byte>, words: seq<Word>, i: nat)
    requires |head| == 3 && i < |words|
    ensures var reply := head + BigEndian(words); FromBytes(reply[4 + 2 * i], reply[3 + 2 * i]) == words[i]
  {
    hide High, Low, FromBytes;
    assert BigEndian(words)[2 * i] == High(words[i]) && BigEndian(words)[2 * i + 1] == Low(words[i]);
    WordOfBytes(words[i]);
  }

  // --------------------------------------------------------------- writing

  /** Function 5: FF00 switches a coil on, 0000 off, and the request is the reply; nothing else changes. Any other value
      is refused with exception 3, an unmapped coil with exception 2. */
  lemma CoilAnswered(img: Image, unit: Byte, a: Word, v: Word, more: seq<Byte>, b: Word)
    ensures var req := Request(unit, 5, a, v, more);
            var (after, reply) := PduExec(img, req);
            if v != 0x0000 && v != 0xFF00 then after == img && reply == Refusal(unit, 5, 3)
            else if CoilTable(img, a).None? then after == img && reply == Refusal(unit, 5, 2)
            else
              && reply == req[..6] && after == img.(y := after.y, m := after.m, s := after.s)
              && CoilTable(after, b) == if b == a then Some(v == 0xFF00) else CoilTable(img, b)
  {
    hide PduExec, Request, Start, Count, Exception, Refusal, CoilTable, PutCoil, CoilMapped, Echo;
    RequestFields(unit, 5, a, v, more);
    OneIsExecuted(img, Request(unit, 5, a, v, more));
    BitTables(img, a);
    CoilPut(img, a, v == 0xFF00, b);
    FirstSix(unit, 5, a, v, more);
  }

  lemma OneIsExecuted(img: Image, req: seq<Byte>)
    requires |req| >= 6
    ensures req[1] == 5 ==> PduExec(img, req) == WriteOneCoil(img, req)
    ensures req[1] == 6 ==> PduExec(img, req) == WriteOneRegister(img, req)
  {
    hide ReadBits, ReadWords, WriteCoils, WriteRegisters, WriteOneCoil, WriteOneRegister;
  }

  lemma FirstSix(unit: Byte, fn: Byte, a: Word, v: Word, more: seq<Byte>)
    ensures Request(unit, fn, a, v, more)[..6] == [unit, fn, a / 256, a % 256, v / 256, v % 256]
  {
  }

  lemma CoilPut(img: Image, a: Word, on: bool, b: Word)
    ensures var after := PutCoil(img, a, on);
            && after == img.(y := after.y, m := after.m, s := after.s)
            && CoilTable(after, b) == if a == b && CoilTable(img, a).Some? then Some(on) else CoilTable(img, b)
  {
    CoilPutFrame(img, a, on);
    hide Coil, PutCoil, CoilTable, CoilMapped;
    CoilOverCoil(img, a, on, b);
    BitTables(img, a);
    BitTables(img, b);
    BitTables(PutCoil(img, a, on), b);
  }

  lemma CoilPutFrame(img: Image, a: Word, on: bool)
    ensures var after := PutCoil(img, a, on); after == img.(y := after.y, m := after.m, s := after.s)
  {
  }

  /** Function 6: the register takes the value, and the request is the reply; nothing else changes. An unmapped register
      is refused with exception 2. */
  lemma RegisterAnswered(img: Image, unit: Byte, a: Word, v: Word, more: seq<Byte>, b: Word)
    ensures var req := Request(unit, 6, a, v, more);
            var (after, reply) := PduExec(img, req);
            if RegisterTable(img, a).None? then after == img && reply == Refusal(unit, 6, 2)
            else
              && reply == req[..6] && after == img.(d := after.d, ds := after.ds)
              && RegisterTable(after, b) == if b == a then Some(v) else RegisterTable(img, b)
  {
    hide PduExec, Request, Start, Count, Exception, Refusal, RegisterTable, PutHolding, HoldingMapped, Echo;
    RequestFields(unit, 6, a, v, more);
    OneIsExecuted(img, Request(unit, 6, a, v, more));
    WordTables(img, a);
    RegisterPut(img, a, v, b);
    FirstSix(unit, 6, a, v, more);
  }

  lemma RegisterPut(img: Image, a: Word, v: Word, b: Word)
    ensures var after := PutHolding(img, a, v);
            && after == img.(d := after.d, ds := after.ds)
            && RegisterTable(after, b) ==
               if a == b && RegisterTable(img, a).Some? then Some(v) else RegisterTable(img, b)
  {
    RegisterPutFrame(img, a, v);
    hide Holding, PutHolding, RegisterTable, HoldingMapped;
    HoldingOverHolding(img, a, v, b);
    WordTables(img, a);
    WordTables(img, b);
    WordTables(PutHolding(img, a, v), b);
  }

  lemma RegisterPutFrame(img: Image, a: Word, v: Word)
    ensures var after := PutHolding(img, a, v); after == img.(d := after.d, ds := after.ds)
  {
  }

  /** Function 5, then function 1 on the same coil. */
  lemma CoilReadsBack(img: Image, unit: Byte, a: Word, v: Word)
    requires CoilTable(img, a).Some? && (v == 0x0000 || v == 0xFF00)
    ensures var after := PduExec(img, Request(unit, 5, a, v, [])).0;
            PduExec(after, Request(unit, 1, a, 1, [])).1 == [unit, 1, 1, if v == 0xFF00 then 1 else 0]
  {
    hide PduExec, Request, CoilTable, Bit;
    CoilAnswered(img, unit, a, v, [], a);
    var after := PduExec(img, Request(unit, 5, a, v, [])).0;
    var reply := PduExec(after, Request(unit, 1, a, 1, [])).1;
    assert BitsThere(after, 1, a, 1) by {
      assert Item(a, 0) == a;
    }
    BitsAnswered(after, unit, 1, a, 1, [], 0);
    forall i: nat | 1 <= i < 8
      ensures !Bit(reply[3], i)
    {
      BitsAnswered(after, unit, 1, a, 1, [], i);
    }
    OneBit(reply[3], v == 0xFF00);
    assert reply == reply[..3] + [reply[3]];
  }

  /** A byte with only bit 0. */
  lemma OneBit(b: Byte, on: bool)
    requires Bit(b, 0) == on && forall i: nat :: 1 <= i < 8 ==> !Bit(b, i)
    ensures b == if on then 1 else 0
  {
    Pow2Values();
    var n := if on then 1 else 0;
    forall k: nat | k < 8
      ensures Bit(b, k) == Bit(n, k)
    {
      if k > 0 {
        PackBit([on], k);
        assert Pack([on]) == n;
      }
    }
    BitsDetermine(b, n, 8);
  }

  /** Function 6, then function 3 on the same register. */
  lemma RegisterReadsBack(img: Image, unit: Byte, a: Word, v: Word)
    requires RegisterTable(img, a).Some?
    ensures var after := PduExec(img, Request(unit, 6, a, v, [])).0;
            PduExec(after, Request(unit, 3, a, 1, [])).1 == [unit, 3, 2, v / 256, v % 256]
  {
    hide PduExec, Request, RegisterTable;
    RegisterAnswered(img, unit, a, v, [], a);
    var after := PduExec(img, Request(unit, 6, a, v, [])).0;
    var reply := PduExec(after, Request(unit, 3, a, 1, [])).1;
    assert WordsThere(after, 3, a, 1) by {
      assert Item(a, 0) == a;
    }
    WordsAnswered(after, unit, 3, a, 1, [], 0);
    assert reply == reply[..3] + [reply[3], reply[4]];
  }

  /** The payload of a run is complete: a byte count that agrees with the number of items, and as many bytes. */
  predicate Complete(fn: Byte, n: Word, more: seq<Byte>) {
    n > 0 && |more| >= 1 && more[0] as int == (if fn == 15 then (n + 7) / 8 else 2 * n) && |more| > more[0]
  }

  lemma RunFields(unit: Byte, fn: Byte, a: Word, n: Word, more: seq<Byte>)
    requires fn == 15 || fn == 16
    ensures var req := Request(unit, fn, a, n, more);
            && (fn == 15 ==> (GoodCoilWrite(req) <==> Complete(fn, n, more)))
            && (fn == 16 ==> (GoodRegisterWrite(req) <==> Complete(fn, n, more)))
  {
    RequestFields(unit, fn, a, n, more);
  }

  lemma PayloadItems(unit: Byte, fn: Byte, a: Word, n: Word, more: seq<Byte>, i: nat)
    requires (fn == 15 || fn == 16) && Complete(fn, n, more) && i < n
    ensures var req := Request(unit, fn, a, n, more);
            && (fn == 15 ==> GoodCoilWrite(req) && CoilPayload(req)[i] == Bit(more[1 + i / 8], i % 8))
            && (fn == 16 ==> GoodRegisterWrite(req)
                             && RegisterPayload(req)[i] == FromBytes(more[2 + 2 * i], more[1 + 2 * i]))
  {
    hide Bit, FromBytes;
    RequestFields(unit, fn, a, n, more);
    RunFields(unit, fn, a, n, more);
  }

  /** Function 15: coil i takes bit i of the payload, low bits first, up to the first unmapped coil. All mapped: the
      first six bytes are the reply; else exception 2. An incomplete payload is refused with exception 3. */
  lemma CoilsAnswered(img: Image, unit: Byte, a: Word, n: Word, more: seq<Byte>, b: Word)
    ensures var req := Request(unit, 15, a, n, more);
            var (after, reply) := PduExec(img, req);
            if !Complete(15, n, more) then after == img && reply == Refusal(unit, 15, 3)
            else
              var i, k := (b - a) % 0x1_0000, MappedCoils(a, n);
              && reply == (if k == n then req[..6] else Refusal(unit, 15, 2))
              && CoilTable(after, b) == if i < k then Some(Bit(more[1 + i / 8], i % 8)) else CoilTable(img, b)
  {
    var req := Request(unit, 15, a, n, more);
    RequestFields(unit, 15, a, n, more);
    RunFields(unit, 15, a, n, more);
    WriteCodes(img, req);
    BitTables(img, b);
    BitTables(PduExec(img, req).0, b);
    hide PduExec, Coil, CoilTable, Refusal, Exception, Start, Count, MappedCoils, CoilMapped, Request, GoodCoilWrite,
         Bit, WithCoils, Complete, CoilPayload;
    if Complete(15, n, more) {
      CoilWriteExact(img, req, b);
      RunReply(img, req, b);
      if Offset(a, b) < MappedCoils(a, n) {
        PayloadItems(unit, 15, a, n, more, Offset(a, b));
      }
    }
  }

  /** Whether all items are mapped shows in the reply. */
  lemma RunReply(img: Image, req: seq<Byte>, b: Word)
    requires (GoodCoilWrite(req) && req[1] == 15) || (GoodRegisterWrite(req) && req[1] == 16)
    ensures var mapped := if req[1] == 15 then MappedCoils(Start(req), Count(req))
                          else MappedRegisters(Start(req), Count(req));
            PduExec(img, req).1 == if mapped == Count(req) then Echo(req) else Exception(req, 2)
  {
    WriteCodes(img, req);
    hide PduExec, CoilMapped, HoldingMapped, CoilPayload, RegisterPayload, WithCoils, WithRegisters, Echo, Exception,
         MappedCoils, MappedRegisters;
  }

  /** Function 16: register i takes word i of the payload, high byte first, up to the first unmapped register. */
  lemma RegistersAnswered(img: Image, unit: Byte, a: Word, n: Word, more: seq<Byte>, b: Word)
    ensures var req := Request(unit, 16, a, n, more);
            var (after, reply) := PduExec(img, req);
            if !Complete(16, n, more) then after == img && reply == Refusal(unit, 16, 3)
            else
              var i, k := (b - a) % 0x1_0000, MappedRegisters(a, n);
              && reply == (if k == n then req[..6] else Refusal(unit, 16, 2))
              && RegisterTable(after, b) ==
                 if i < k then Some(FromBytes(more[2 + 2 * i], more[1 + 2 * i])) else RegisterTable(img, b)
  {
    var req := Request(unit, 16, a, n, more);
    RequestFields(unit, 16, a, n, more);
    RunFields(unit, 16, a, n, more);
    WriteCodes(img, req);
    WordTables(img, b);
    WordTables(PduExec(img, req).0, b);
    hide PduExec, Holding, RegisterTable, Refusal, Exception, Start, Count, MappedRegisters, HoldingMapped, Request,
         GoodRegisterWrite, WithRegisters, Complete, RegisterPayload, FromBytes;
    if Complete(16, n, more) {
      RegisterWriteExact(img, req, b);
      RunReply(img, req, b);
      if Offset(a, b) < MappedRegisters(a, n) {
        PayloadItems(unit, 16, a, n, more, Offset(a, b));
      }
    }
  }

  /** The number of items before the first one that is not in the table. */
  lemma MappedBefore(img: Image, a: Word, n: Word)
    ensures var k := MappedCoils(a, n);
            && k <= n && (forall i: nat :: i < k ==> CoilTable(img, Item(a, i)).Some?)
            && (k < n ==> CoilTable(img, Item(a, k)).None?)
    ensures var k := MappedRegisters(a, n);
            && k <= n && (forall i: nat :: i < k ==> RegisterTable(img, Item(a, i)).Some?)
            && (k < n ==> RegisterTable(img, Item(a, k)).None?)
  {
    hide CoilTable, RegisterTable, CoilMapped, HoldingMapped, MappedCoils, MappedRegisters;
    forall i: nat
      ensures CoilMapped(Nth(a, i)) <==> CoilTable(img, Item(a, i)).Some?
      ensures HoldingMapped(Nth(a, i)) <==> RegisterTable(img, Item(a, i)).Some?
    {
      BitTables(img, Item(a, i));
      WordTables(img, Item(a, i));
    }
  }

  // -------------------------------------------------------------- refusals

  /** Any other function gets exception 1, a short request exception 3, and one too short to name a function nothing. */
  lemma OthersRefused(img: Image, req: seq<Byte>)
    ensures |req| < 2 ==> PduExec(img, req) == (img, [])
    ensures 2 <= |req| < 6 && req[1] < 0x80 ==> PduExec(img, req) == (img, Refusal(req[0], req[1], 3))
    ensures |req| >= 6 && req[1] < 0x80 && req[1] !in {1, 2, 3, 4, 5, 6, 15, 16} ==>
              PduExec(img, req) == (img, Refusal(req[0], req[1], 1))
  {
  }

  /** A transaction, protocol 0, the length of what follows, and that. */
  function Framed(hi: Byte, lo: Byte, body: seq<Byte>): seq<Byte>
    requires |body| <= 256
  {
    [hi, lo, 0, 0, |body| / 256, |body| % 256] + body
  }

  lemma FramedIsAdu(hi: Byte, lo: Byte, body: seq<Byte>)
    requires |body| <= 256
    ensures Framed(hi, lo, body) == Adu(hi, lo, body)
  {
  }

  /** A request in a TCP frame is carried out, and its reply comes in a frame of the same transaction. */
  lemma FrameAnswered(img: Image, hi: Byte, lo: Byte, req: seq<Byte>)
    requires 2 <= |req| <= 256
    ensures var (after, reply) := PduExec(img, req);
            1 <= |reply| <= 256 && AduExec(img, Framed(hi, lo, req)) == (after, Framed(hi, lo, reply))
  {
    hide PduExec, AduExec, Adu, Framed;
    AduIsExecuted(img, hi, lo, req);
    FramedIsAdu(hi, lo, req);
    FramedIsAdu(hi, lo, PduExec(img, req).1);
  }

  /** A frame of fewer than 8 bytes, for another protocol, or with a length that is not its own gets no reply and
      changes nothing. */
  lemma FrameIgnored(img: Image, adu: seq<Byte>)
    requires |adu| < 8 || adu[2] != 0 || adu[3] != 0 || FromBytes(adu[5], adu[4]) != (|adu| - 6) % 0x1_0000
    ensures AduExec(img, adu) == (img, [])
  {
    hide PduExec;
  }
}
