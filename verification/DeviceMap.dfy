/** The names of each device: in the ladder program, over Modbus, and in the two address spaces of the serial port. */
module DeviceMap {
  import opened Words
  import opened Devices
  import opened Instructions
  import opened FxAddr
  import opened ModbusMap

  /** One relay under all its names. */
  lemma Inputs(img: Image, n: Byte)
    ensures ReadBit(img, 0x4, n) == img.x[n] && BitAt(img, 0x80 + n / 8, n % 8) == img.x[n]
    ensures ForceRead(img, 0x1200 + n) == img.x[n] && Discrete(img, n) == Some(img.x[n])
  {
  }

  lemma Outputs(img: Image, n: Byte)
    ensures ReadBit(img, 0x5, n) == img.y[n] && BitAt(img, 0xA0 + n / 8, n % 8) == img.y[n]
    ensures ForceRead(img, 0x0C00 + n) == img.y[n] && Coil(img, n) == Some(img.y[n])
  {
  }

  /** M0-M1535 have all names; the others none in the program and no bit address. */
  lemma Relays(img: Image, n: nat)
    requires n < 3072
    ensures ForceRead(img, n) == img.m[n] && Coil(img, 1000 + n) == Some(img.m[n])
    ensures n < 1536 ==> ReadBit(img, 0x8 + n / 256, n % 256) == img.m[n]
    ensures n < 1536 ==> BitAt(img, 0x100 + n / 8, n % 8) == img.m[n]
  {
  }

  lemma SpecialRelays(img: Image, n: Byte)
    ensures ReadBit(img, 0xF, n) == img.ms[n] && BitAt(img, 0x1E0 + n / 8, n % 8) == img.ms[n]
    ensures ForceRead(img, 0x0E00 + n) == img.ms[n]
  {
  }

  lemma States(img: Image, n: nat)
    requires n < 1000
    ensures ReadBit(img, n / 256, n % 256) == img.s[n] && BitAt(img, n / 8, n % 8) == img.s[n]
    ensures ForceRead(img, 0x1400 + n) == img.s[n] && Coil(img, 5000 + n) == Some(img.s[n])
  {
  }

  lemma Contacts(img: Image, n: Byte)
    ensures ReadBit(img, 0x6, n) == img.t[n].done && BitAt(img, 0xC0 + n / 8, n % 8) == img.t[n].done
    ensures Discrete(img, 1000 + n) == Some(img.t[n].done)
    ensures ReadBit(img, 0xE, n) == img.c[n].done && BitAt(img, 0x1C0 + n / 8, n % 8) == img.c[n].done
    ensures Discrete(img, 2000 + n) == Some(img.c[n].done)
  {
  }

  /** A register is two bytes, low byte first. */
  predicate IsPair(p: Plant, addr: nat, w: Word)
    requires addr + 1 < 0x1_0000
  {
    ByteAt(p, addr) == w % 256 && ByteAt(p, addr + 1) == w / 256
  }

  lemma Registers(p: Plant, n: nat)
    requires n < 8000
    ensures GetD(p.img, n) == p.img.d[n] && Holding(p.img, n) == Some(p.img.d[n])
    ensures IsPair(p, 0x4000 + 2 * n, p.img.d[n])
  {
    hide BitsAt, PackByte, CounterByte;
  }

  lemma SpecialRegisters(p: Plant, n: Byte)
    ensures GetD(p.img, 8000 + n) == p.img.ds[n] && Holding(p.img, 8000 + n) == Some(p.img.ds[n])
    ensures IsPair(p, 0x0E00 + 2 * n, p.img.ds[n])
  {
    hide BitsAt, PackByte, CounterByte;
  }

  lemma TimerValues(p: Plant, n: Byte)
    ensures Input(p.img, n) == Some(p.img.t[n].current) && IsPair(p, 0x0800 + 2 * n, p.img.t[n].current)
  {
    hide BitsAt, PackByte, CounterByte;
  }

  /** C0-C199 are two bytes, C200-C255 four, low byte first; Modbus has the low word of both. */
  lemma CounterValues(p: Plant, n: Byte)
    ensures Input(p.img, 1000 + n) == Some(p.img.c[n].current % 0x1_0000)
    ensures n < 200 ==> IsPair(p, 0x0A00 + 2 * n, p.img.c[n].current % 0x1_0000)
    ensures n >= 200 ==>
              var w, a := p.img.c[n].current % 0x1_0000_0000, 0x0C00 + 4 * (n - 200);
              IsPair(p, a, w % 0x1_0000) && IsPair(p, a + 2, w / 0x1_0000)
  {
    hide BitsAt, PackByte;
    if n >= 200 {
      LongCounter(p, n);
    }
  }

  lemma LongByte(p: Plant, n: Byte, k: nat)
    requires n >= 200 && k < 4
    ensures ByteAt(p, 0x0C00 + 4 * (n - 200) + k) == CounterByte(p.img.c[n].current, k)
  {
    hide BitsAt, PackByte, WordByte, CounterByte;
    var a := 0x0C00 + 4 * (n - 200);
    assert (a + k - 0x0C00) / 4 == n - 200 && (a + k - 0x0C00) % 4 == k;
  }

  lemma LongCounter(p: Plant, n: Byte)
    requires n >= 200
    ensures var w, a := p.img.c[n].current % 0x1_0000_0000, 0x0C00 + 4 * (n - 200);
            IsPair(p, a, w % 0x1_0000) && IsPair(p, a + 2, w / 0x1_0000)
  {
    hide ByteAt, CounterByte;
    BytesOfLong(p.img.c[n].current);
    LongByte(p, n, 0);
    LongByte(p, n, 1);
    LongByte(p, n, 2);
    LongByte(p, n, 3);
  }

  lemma BytesOfLong(v: Int32)
    ensures var low, high := v % 0x1_0000_0000 % 0x1_0000, v % 0x1_0000_0000 / 0x1_0000;
            && CounterByte(v, 0) == low % 256 && CounterByte(v, 1) == low / 256
            && CounterByte(v, 2) == high % 256 && CounterByte(v, 3) == high / 256
  {
  }

  /** Program memory, from its first byte on. */
  lemma ProgramBytes(p: Plant, off: nat)
    requires off < PROGRAM_BYTES
    ensures ByteAt(p, 0x8000 + off) == p.code[off]
  {
    hide BitsAt, PackByte, CounterByte, WordByte;
  }

  /** Byte addresses that name nothing read 0; past the end of the program, erased. */
  lemma Gaps(p: Plant, a: Word)
    ensures 0x7D <= a < 0x80 || 0xE0 <= a < 0x100 || 0x200 <= a < 0x800 ==> ByteAt(p, a) == 0
    ensures 0xB90 <= a < 0xC00 || 0xCE0 <= a < 0xE00 ==> ByteAt(p, a) == 0
    ensures 0x1000 <= a < 0x4000 || 0x7E80 <= a < 0x8000 ==> ByteAt(p, a) == 0
    ensures a >= 0xFD00 ==> ByteAt(p, a) == 0xFF
  {
    hide PackByte, CounterByte, WordByte;
    if a < 0x200 {
      if 0x7D <= a < 0x80 || 0xE0 <= a < 0x100 {
        assert BitsAt(p.img, a) == seq(8, _ => false);
        AllOff();
      }
    } else if 0x1000 <= a < 0x4000 {
      NothingThere(a);
    }
  }

  lemma AllOff()
    ensures PackByte(seq(8, _ => false)) == 0
  {
    PackBit([], 0);
    forall k: nat | k < 8
      ensures !Bit(Pack(seq(8, _ => false)), k) && !Bit(0, k)
    {
      PackBit(seq(8, _ => false), k);
      PackBit([], k);
    }
    PackBound(seq(8, _ => false));
    Pow2Values();
    BitsDetermine(Pack(seq(8, _ => false)), 0, 8);
  }

  lemma NothingThere(a: Word)
    ensures WordByte(0, a) == 0
  {
  }
}
