/** The device image as a value: what every other module's meaning is stated over. */
module Devices {
  import opened Words

  datatype Timer = Timer(current: Word, preset: Word, done: bool, driven: bool)

  datatype Counter = Counter(current: Int32, preset: Int32, done: bool, lastIn: bool)

  const NUM_X: nat := 256
  const NUM_Y: nat := 256
  const NUM_M: nat := 3072
  const NUM_M_SPECIAL: nat := 256
  const M_SPECIAL_BASE: nat := 8000
  const NUM_S: nat := 1000
  const NUM_T: nat := 256
  const NUM_C: nat := 256
  const NUM_D: nat := 8000
  const NUM_D_SPECIAL: nat := 256
  const D_SPECIAL_BASE: nat := 8000

  const IDLE_TIMER := Timer(0, 0, false, false)
  const IDLE_COUNTER := Counter(0, 0, false, false)

  datatype RawImage = Image(
    x: seq<bool>, y: seq<bool>, m: seq<bool>, ms: seq<bool>, s: seq<bool>,
    t: seq<Timer>, c: seq<Counter>, d: seq<Word>, ds: seq<Word>)
  {
    predicate Sized() {
      && |x| == NUM_X && |y| == NUM_Y && |m| == NUM_M && |ms| == NUM_M_SPECIAL && |s| == NUM_S
      && |t| == NUM_T && |c| == NUM_C && |d| == NUM_D && |ds| == NUM_D_SPECIAL
    }
  }

  function Repeat<T>(v: T, n: nat): (r: seq<T>)
    ensures |r| == n && forall i :: 0 <= i < n ==> r[i] == v
  {
    seq(n, _ => v)
  }

  const BLANK: RawImage := Image(
    Repeat(false, NUM_X), Repeat(false, NUM_Y), Repeat(false, NUM_M), Repeat(false, NUM_M_SPECIAL),
    Repeat(false, NUM_S), Repeat(IDLE_TIMER, NUM_T), Repeat(IDLE_COUNTER, NUM_C),
    Repeat(0, NUM_D), Repeat(0, NUM_D_SPECIAL))

  type Image = img: RawImage | img.Sized() witness BLANK

  // ------------------------------------------------------ single devices

  function GetFlag(flags: seq<bool>, i: nat): bool { i < |flags| && flags[i] }

  /** A write outside the family is ignored. */
  function PutFlag(flags: seq<bool>, i: nat, v: bool): (r: seq<bool>)
    ensures |r| == |flags|
  {
    if i < |flags| then flags[i := v] else flags
  }

  function GetM(img: Image, i: nat): bool {
    if i >= M_SPECIAL_BASE then GetFlag(img.ms, i - M_SPECIAL_BASE) else GetFlag(img.m, i)
  }

  function SetM(img: Image, i: nat, v: bool): Image {
    if i >= M_SPECIAL_BASE then img.(ms := PutFlag(img.ms, i - M_SPECIAL_BASE, v))
    else img.(m := PutFlag(img.m, i, v))
  }

  function SetX(img: Image, i: nat, v: bool): Image { img.(x := PutFlag(img.x, i, v)) }

  function SetY(img: Image, i: nat, v: bool): Image { img.(y := PutFlag(img.y, i, v)) }

  function SetS(img: Image, i: nat, v: bool): Image { img.(s := PutFlag(img.s, i, v)) }

  function GetD(img: Image, i: nat): Word {
    if i >= D_SPECIAL_BASE then
      if i - D_SPECIAL_BASE < NUM_D_SPECIAL then img.ds[i - D_SPECIAL_BASE] else 0
    else img.d[i]
  }

  function SetD(img: Image, i: nat, v: Word): Image {
    if i >= D_SPECIAL_BASE then
      if i - D_SPECIAL_BASE < NUM_D_SPECIAL then img.(ds := img.ds[i - D_SPECIAL_BASE := v]) else img
    else img.(d := img.d[i := v])
  }

  /** A register pair, low word first. */
  function SetD32(img: Image, i: nat, v: DWord): Image {
    SetD(SetD(img, i, v % 0x1_0000), (i + 1) % 0x1_0000, v / 0x1_0000)
  }

  /** The active step relays. */
  function ActiveS(img: Image): set<nat> {
    set i: nat | i < NUM_S && img.s[i]
  }

  // --------------------------------- devices named by instruction operands

  const DEV_X: Byte := 0x4
  const DEV_Y: Byte := 0x5
  const DEV_T: Byte := 0x6
  const DEV_M: Byte := 0x8
  const DEV_C: Byte := 0xE
  const DEV_MS: Byte := 0xF

  /** M and S continue over several device nibbles, 256 numbers each. */
  function DeviceNumber(dev: Byte, n: Byte): (i: nat)
    ensures i < 1536
  {
    if DEV_M <= dev <= 0xD then n + 256 * (dev - DEV_M)
    else if dev <= 0x3 then n + 256 * dev
    else n
  }

  predicate IsS(dev: Byte) { dev <= 0x3 }

  function ReadBit(img: Image, dev: Byte, n: Byte): bool {
    var i := DeviceNumber(dev, n);
    if dev == DEV_X then GetFlag(img.x, i)
    else if dev == DEV_Y then GetFlag(img.y, i)
    else if dev == DEV_MS then GetM(img, M_SPECIAL_BASE + n)
    else if dev == DEV_T then img.t[i].done
    else if dev == DEV_C then img.c[i].done
    else if DEV_M <= dev <= 0xD then GetM(img, i)
    else if IsS(dev) then GetFlag(img.s, i)
    else false
  }

  function WriteBit(img: Image, dev: Byte, n: Byte, v: bool): Image {
    var i := DeviceNumber(dev, n);
    if dev == DEV_Y then SetY(img, i, v)
    else if dev == DEV_MS then SetM(img, M_SPECIAL_BASE + n, v)
    else if dev == DEV_X then SetX(img, i, v)
    else if DEV_M <= dev <= 0xD then SetM(img, i, v)
    else if IsS(dev) then SetS(img, i, v)
    else img
  }

  /** The operands a coil can change: X, Y, M, special M, and S0 to S999. */
  predicate Writable(dev: Byte, n: Byte) {
    || dev == DEV_X || dev == DEV_Y || dev == DEV_MS || DEV_M <= dev <= 0xD
    || (IsS(dev) && DeviceNumber(dev, n) < NUM_S)
  }

  /** Operands never alias: a coil changes the one device it names, if that device is writable. */
  lemma ReadOverWriteBit(img: Image, dev: Byte, n: Byte, v: bool, dev': Byte, n': Byte)
    ensures ReadBit(WriteBit(img, dev, n, v), dev', n') ==
            (if dev == dev' && n == n' && Writable(dev, n) then v else ReadBit(img, dev', n'))
  {
  }

  lemma UnwritableIgnored(img: Image, dev: Byte, n: Byte, v: bool)
    requires !Writable(dev, n)
    ensures WriteBit(img, dev, n, v) == img
  {
  }

  lemma WriteBitTwice(img: Image, dev: Byte, n: Byte, u: bool, v: bool)
    ensures WriteBit(WriteBit(img, dev, n, u), dev, n, v) == WriteBit(img, dev, n, v)
  {
    var i := DeviceNumber(dev, n);
    if dev == DEV_Y {
      assert img.y[i := u][i := v] == img.y[i := v];
    } else if dev == DEV_X {
      assert img.x[i := u][i := v] == img.x[i := v];
    } else if dev == DEV_MS {
      assert img.ms[i := u][i := v] == img.ms[i := v];
    } else if DEV_M <= dev <= 0xD {
      assert img.m[i := u][i := v] == img.m[i := v];
    } else if IsS(dev) && i < NUM_S {
      assert img.s[i := u][i := v] == img.s[i := v];
    }
  }

  lemma WriteBitsCommute(img: Image, dev: Byte, n: Byte, u: bool, n': Byte, v: bool)
    requires n != n'
    ensures WriteBit(WriteBit(img, dev, n, u), dev, n', v) == WriteBit(WriteBit(img, dev, n', v), dev, n, u)
  {
    var i, j := DeviceNumber(dev, n), DeviceNumber(dev, n');
    if dev == DEV_Y {
      assert img.y[i := u][j := v] == img.y[j := v][i := u];
    } else if dev == DEV_X {
      assert img.x[i := u][j := v] == img.x[j := v][i := u];
    } else if dev == DEV_MS {
      assert img.ms[i := u][j := v] == img.ms[j := v][i := u];
    } else if DEV_M <= dev <= 0xD {
      assert img.m[i := u][j := v] == img.m[j := v][i := u];
    } else if IsS(dev) && i < NUM_S && j < NUM_S {
      assert img.s[i := u][j := v] == img.s[j := v][i := u];
    }
  }

  // ------------------------------------------------ runs of bit devices

  function ReadRun(img: Image, dev: Byte, first: Byte, n: nat): (bits: seq<bool>)
    ensures |bits| == n
  {
    seq(n, i requires 0 <= i < n => ReadBit(img, dev, (first + i) % 256))
  }

  /** Writes bits to consecutive numbers, wrapping at 256 as the 8-bit operand does. */
  function WriteRun(img: Image, dev: Byte, first: Byte, bits: seq<bool>): Image {
    if bits == [] then img
    else WriteBit(WriteRun(img, dev, first, bits[..|bits| - 1]), dev, (first + |bits| - 1) % 256, bits[|bits| - 1])
  }

  lemma {:induction false} ReadOverWriteRun(img: Image, dev: Byte, first: Byte, bits: seq<bool>, dev': Byte, n': Byte)
    requires first + |bits| <= 256
    ensures ReadBit(WriteRun(img, dev, first, bits), dev', n') ==
            (if dev == dev' && first <= n' < first + |bits| && Writable(dev, n') then bits[n' - first]
             else ReadBit(img, dev', n'))
  {
    hide ReadBit, WriteBit, Writable;
    if bits != [] {
      var k := |bits| - 1;
      ReadOverWriteRun(img, dev, first, bits[..k], dev', n');
      ReadOverWriteBit(WriteRun(img, dev, first, bits[..k]), dev, first + k, bits[k], dev', n');
    }
  }

  /** Rewriting one cell of a written run is the same as having written the changed run. */
  lemma {:induction false} WriteRunUpdate(img: Image, dev: Byte, first: Byte, bits: seq<bool>, i: nat, v: bool)
    requires first + |bits| <= 256 && i < |bits|
    ensures WriteBit(WriteRun(img, dev, first, bits), dev, first + i, v) == WriteRun(img, dev, first, bits[i := v])
  {
    hide ReadBit, WriteBit, Writable;
    var k := |bits| - 1;
    var before := WriteRun(img, dev, first, bits[..k]);
    if i == k {
      assert bits[i := v][..k] == bits[..k];
      WriteBitTwice(before, dev, first + k, bits[k], v);
    } else {
      assert bits[i := v][..k] == bits[..k][i := v];
      WriteBitsCommute(before, dev, first + k, bits[k], first + i, v);
      WriteRunUpdate(img, dev, first, bits[..k], i, v);
    }
  }

  /** Writing back what is there changes nothing. */
  lemma {:induction false} WriteRunSame(img: Image, dev: Byte, first: Byte, n: nat)
    requires first + n <= 256
    ensures WriteRun(img, dev, first, ReadRun(img, dev, first, n)) == img
  {
    hide ReadBit, WriteBit, Writable;
    if n > 0 {
      var bits := ReadRun(img, dev, first, n);
      assert bits[..n - 1] == ReadRun(img, dev, first, n - 1);
      WriteRunSame(img, dev, first, n - 1);
      WriteBitSame(img, dev, first + n - 1);
    }
  }

  lemma WriteBitSame(img: Image, dev: Byte, n: Byte)
    ensures WriteBit(img, dev, n, ReadBit(img, dev, n)) == img
  {
    var i := DeviceNumber(dev, n);
    assert i < NUM_S ==> img.s[i := img.s[i]] == img.s;
    assert i < NUM_X ==> img.x[i := img.x[i]] == img.x && img.y[i := img.y[i]] == img.y;
    assert img.m[i := img.m[i]] == img.m;
    assert img.ms[n := img.ms[n]] == img.ms;
  }

  /** Only the bit families are touched, and S only through an S operand. */
  lemma {:induction false} WriteRunFrame(img: Image, dev: Byte, first: Byte, bits: seq<bool>)
    ensures var after := WriteRun(img, dev, first, bits);
            && after.t == img.t && after.c == img.c && after.d == img.d && after.ds == img.ds
            && (!IsS(dev) ==> after.s == img.s)
  {
    if bits != [] {
      WriteRunFrame(img, dev, first, bits[..|bits| - 1]);
    }
  }
}
