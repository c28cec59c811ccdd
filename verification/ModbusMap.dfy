/** The four Modbus tables over the device image. */
module ModbusMap {
  import opened Words
  import opened Devices
  import opened PlcMemory

  const COIL_Y: Word := 0
  const COIL_M: Word := 1000
  const COIL_S: Word := 5000
  const DISCRETE_X: Word := 0
  const DISCRETE_T: Word := 1000
  const DISCRETE_C: Word := 2000
  const HOLDING_D: Word := 0
  const HOLDING_D_SPECIAL: Word := 8000
  const INPUT_T: Word := 0
  const INPUT_C: Word := 1000
  const INPUT_ANALOG: Word := 2000
  const ANALOG_BASE: nat := 8030

  /** The end of a block is computed in 16 bits. */
  predicate InRange(addr: Word, base: Word, count: Word) { base <= addr < Wrap16(base + count) }

  // ---------------------------------------------------------- the tables

  predicate CoilMapped(addr: Word) {
    InRange(addr, COIL_Y, NUM_Y) || InRange(addr, COIL_M, NUM_M) || InRange(addr, COIL_S, NUM_S)
  }

  predicate HoldingMapped(addr: Word) {
    InRange(addr, HOLDING_D, NUM_D) || InRange(addr, HOLDING_D_SPECIAL, NUM_D_SPECIAL)
  }

  function Coil(img: Image, addr: Word): Option<bool> {
    if InRange(addr, COIL_Y, NUM_Y) then Some(GetFlag(img.y, addr - COIL_Y))
    else if InRange(addr, COIL_M, NUM_M) then Some(Devices.GetM(img, addr - COIL_M))
    else if InRange(addr, COIL_S, NUM_S) then Some(GetFlag(img.s, addr - COIL_S))
    else None
  }

  function PutCoil(img: Image, addr: Word, v: bool): Image {
    if InRange(addr, COIL_Y, NUM_Y) then Devices.SetY(img, addr - COIL_Y, v)
    else if InRange(addr, COIL_M, NUM_M) then Devices.SetM(img, addr - COIL_M, v)
    else if InRange(addr, COIL_S, NUM_S) then Devices.SetS(img, addr - COIL_S, v)
    else img
  }

  function Discrete(img: Image, addr: Word): Option<bool> {
    if InRange(addr, DISCRETE_X, NUM_X) then Some(GetFlag(img.x, addr - DISCRETE_X))
    else if InRange(addr, DISCRETE_T, NUM_T) then Some(img.t[addr - DISCRETE_T].done)
    else if InRange(addr, DISCRETE_C, NUM_C) then Some(img.c[addr - DISCRETE_C].done)
    else None
  }

  function Holding(img: Image, addr: Word): Option<Word> {
    if InRange(addr, HOLDING_D, NUM_D) then Some(Devices.GetD(img, addr - HOLDING_D))
    else if InRange(addr, HOLDING_D_SPECIAL, NUM_D_SPECIAL) then
      Some(Devices.GetD(img, D_SPECIAL_BASE + addr - HOLDING_D_SPECIAL))
    else None
  }

  function PutHolding(img: Image, addr: Word, v: Word): Image {
    if InRange(addr, HOLDING_D, NUM_D) then Devices.SetD(img, addr - HOLDING_D, v)
    else if InRange(addr, HOLDING_D_SPECIAL, NUM_D_SPECIAL) then
      Devices.SetD(img, D_SPECIAL_BASE + addr - HOLDING_D_SPECIAL, v)
    else img
  }

  /** 32-bit counters are reported by their low word. */
  function Input(img: Image, addr: Word): Option<Word> {
    if InRange(addr, INPUT_T, NUM_T) then Some(img.t[addr - INPUT_T].current)
    else if InRange(addr, INPUT_C, NUM_C) then Some(Wrap16(img.c[addr - INPUT_C].current))
    else if InRange(addr, INPUT_ANALOG, 3) then Some(Devices.GetD(img, ANALOG_BASE + addr - INPUT_ANALOG))
    else None
  }

  // ------------------------------------------------------------ the laws

  /** A coil reads what was last written to it, and no other coil. */
  lemma CoilOverCoil(img: Image, a: Word, v: bool, b: Word)
    ensures Coil(PutCoil(img, a, v), b) == (if a == b && CoilMapped(a) then Some(v) else Coil(img, b))
    ensures Coil(img, b).Some? <==> CoilMapped(b)
  {
  }

  lemma HoldingOverHolding(img: Image, a: Word, v: Word, b: Word)
    ensures Holding(PutHolding(img, a, v), b) == (if a == b && HoldingMapped(a) then Some(v) else Holding(img, b))
    ensures Holding(img, b).Some? <==> HoldingMapped(b)
  {
  }

  /** A write outside the tables changes nothing. */
  lemma UnmappedIgnored(img: Image, a: Word, on: bool, v: Word)
    ensures !CoilMapped(a) ==> PutCoil(img, a, on) == img
    ensures !HoldingMapped(a) ==> PutHolding(img, a, v) == img
  {
  }

  /** The writable tables are independent, and the read-only tables change only where the analog inputs are
      special registers. */
  lemma TablesAreSeparate(img: Image, a: Word, on: bool, v: Word, b: Word)
    ensures Holding(PutCoil(img, a, on), b) == Holding(img, b)
    ensures Input(PutCoil(img, a, on), b) == Input(img, b) && Discrete(PutCoil(img, a, on), b) == Discrete(img, b)
    ensures Coil(PutHolding(img, a, v), b) == Coil(img, b) && Discrete(PutHolding(img, a, v), b) == Discrete(img, b)
    ensures Input(PutHolding(img, a, v), b) ==
            (if INPUT_ANALOG <= b < INPUT_ANALOG + 3 && a == ANALOG_BASE + (b - INPUT_ANALOG) then Some(v)
             else Input(img, b))
  {
  }

  // ---------------------------------------------------- over device memory

  function ReadCoil(mem: Memory, addr: Word): (v: Option<bool>)
    requires mem.Valid()
    reads mem.Repr()
    ensures v == Coil(mem.Img(), addr)
  {
    if InRange(addr, COIL_Y, NUM_Y) then Some(mem.GetY(addr - COIL_Y))
    else if InRange(addr, COIL_M, NUM_M) then Some(mem.GetM(addr - COIL_M))
    else if InRange(addr, COIL_S, NUM_S) then Some(mem.GetS(addr - COIL_S))
    else None
  }

  method WriteCoil(mem: Memory, addr: Word, v: bool) returns (ok: bool)
    requires mem.Valid()
    modifies mem.Repr()
    ensures ok == CoilMapped(addr) && mem.Img() == PutCoil(old(mem.Img()), addr, v)
  {
    ok := true;
    if InRange(addr, COIL_Y, NUM_Y) {
      mem.SetY(addr - COIL_Y, v);
    } else if InRange(addr, COIL_M, NUM_M) {
      mem.SetM(addr - COIL_M, v);
    } else if InRange(addr, COIL_S, NUM_S) {
      mem.SetS(addr - COIL_S, v);
    } else {
      ok := false;
    }
  }

  function ReadDiscrete(mem: Memory, addr: Word): (v: Option<bool>)
    requires mem.Valid()
    reads mem.Repr()
    ensures v == Discrete(mem.Img(), addr)
  {
    if InRange(addr, DISCRETE_X, NUM_X) then Some(mem.GetX(addr - DISCRETE_X))
    else if InRange(addr, DISCRETE_T, NUM_T) then Some(mem.t[addr - DISCRETE_T].done)
    else if InRange(addr, DISCRETE_C, NUM_C) then Some(mem.c[addr - DISCRETE_C].done)
    else None
  }

  function ReadHolding(mem: Memory, addr: Word): (v: Option<Word>)
    requires mem.Valid()
    reads mem.Repr()
    ensures v == Holding(mem.Img(), addr)
  {
    if InRange(addr, HOLDING_D, NUM_D) then Some(mem.GetD(addr - HOLDING_D))
    else if InRange(addr, HOLDING_D_SPECIAL, NUM_D_SPECIAL) then
      Some(mem.GetD(D_SPECIAL_BASE + addr - HOLDING_D_SPECIAL))
    else None
  }

  method WriteHolding(mem: Memory, addr: Word, v: Word) returns (ok: bool)
    requires mem.Valid()
    modifies mem.Repr()
    ensures ok == HoldingMapped(addr) && mem.Img() == PutHolding(old(mem.Img()), addr, v)
  {
    ok := true;
    if InRange(addr, HOLDING_D, NUM_D) {
      mem.SetD(addr - HOLDING_D, v);
    } else if InRange(addr, HOLDING_D_SPECIAL, NUM_D_SPECIAL) {
      mem.SetD(D_SPECIAL_BASE + addr - HOLDING_D_SPECIAL, v);
    } else {
      ok := false;
    }
  }

  function ReadInput(mem: Memory, addr: Word): (v: Option<Word>)
    requires mem.Valid()
    reads mem.Repr()
    ensures v == Input(mem.Img(), addr)
  {
    if InRange(addr, INPUT_T, NUM_T) then Some(mem.t[addr - INPUT_T].current)
    else if InRange(addr, INPUT_C, NUM_C) then Some(Wrap16(mem.c[addr - INPUT_C].current))
    else if InRange(addr, INPUT_ANALOG, 3) then Some(mem.GetD(ANALOG_BASE + addr - INPUT_ANALOG))
    else None
  }
}
