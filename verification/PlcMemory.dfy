/** The firmware's device memory: packed 16-bit words, updated in place. */
module PlcMemory {
  import opened Words
  import opened Devices

  function BitGet(words: array<Word>, count: nat, i: nat): (v: bool)
    requires count <= 16 * words.Length
    reads words
    ensures v == GetFlag(Flags(words[..], count), i)
  {
    i < count && Bit(words[i / 16], i % 16)
  }

  method BitSet(words: array<Word>, count: nat, i: nat, v: bool)
    requires count <= 16 * words.Length
    modifies words
    ensures Flags(words[..], count) == PutFlag(old(Flags(words[..], count)), i, v)
  {
    if i >= count {
      return;
    }
    ghost var before := words[..];
    words[i / 16] := PutBit16(words[i / 16], i % 16, v);
    FlagsUpdate(before, count, i, v);
    assert words[..] == before[i / 16 := PutBit16(before[i / 16], i % 16, v)];
  }

  method FillWords(words: array<Word>, v: Word)
    modifies words
    ensures words[..] == Repeat(v, words.Length)
  {
    for i := 0 to words.Length
      invariant forall j :: 0 <= j < i ==> words[j] == v
    {
      words[i] := v;
    }
  }

  class Memory {
    const x: array<Word>
    const y: array<Word>
    const m: array<Word>
    const mSpecial: array<Word>
    const s: array<Word>
    const t: array<Timer>
    const c: array<Counter>
    const d: array<Word>
    const dSpecial: array<Word>

    /** Sizes, and no array shared between device families. Nothing here ever changes. */
    ghost predicate Valid() {
      && x.Length == 16 && y.Length == 16 && m.Length == 192 && mSpecial.Length == 16 && s.Length == 63
      && t.Length == NUM_T && c.Length == NUM_C && d.Length == NUM_D && dSpecial.Length == NUM_D_SPECIAL
      && x != y && x != m && x != mSpecial && x != s && x != d && x != dSpecial
      && y != m && y != mSpecial && y != s && y != d && y != dSpecial
      && m != mSpecial && m != s && m != d && m != dSpecial
      && mSpecial != s && mSpecial != d && mSpecial != dSpecial
      && s != d && s != dSpecial && d != dSpecial
    }

    ghost function Repr(): set<object> {
      {x as object, y, m, mSpecial, s, t, c, d, dSpecial}
    }

    /** The device image these arrays hold. */
    ghost function Img(): Image
      requires Valid()
      reads Repr()
    {
      Image(Flags(x[..], NUM_X), Flags(y[..], NUM_Y), Flags(m[..], NUM_M), Flags(mSpecial[..], NUM_M_SPECIAL),
            Flags(s[..], NUM_S), t[..], c[..], d[..], dSpecial[..])
    }

    /** plc_memory_init: every device cleared. */
    constructor ()
      ensures Valid() && fresh(Repr()) && Img() == BLANK
    {
      x, y, s := new Word[16](_ => 0), new Word[16](_ => 0), new Word[63](_ => 0);
      m, mSpecial := new Word[192](_ => 0), new Word[16](_ => 0);
      t, c := new Timer[NUM_T](_ => IDLE_TIMER), new Counter[NUM_C](_ => IDLE_COUNTER);
      d, dSpecial := new Word[NUM_D](_ => 0), new Word[NUM_D_SPECIAL](_ => 0);
      new;
      ZeroFlags(x[..], NUM_X);
      ZeroFlags(y[..], NUM_Y);
      ZeroFlags(m[..], NUM_M);
      ZeroFlags(mSpecial[..], NUM_M_SPECIAL);
      ZeroFlags(s[..], NUM_S);
      assert t[..] == Repeat(IDLE_TIMER, NUM_T);
      assert c[..] == Repeat(IDLE_COUNTER, NUM_C);
      assert d[..] == Repeat(0, NUM_D);
      assert dSpecial[..] == Repeat(0, NUM_D_SPECIAL);
    }

    // ------------------------------------------------------- accessors

    function GetX(i: nat): (v: bool)
      requires Valid()
      reads Repr()
      ensures v == GetFlag(Img().x, i)
    {
      BitGet(x, NUM_X, i)
    }

    function GetY(i: nat): (v: bool)
      requires Valid()
      reads Repr()
      ensures v == GetFlag(Img().y, i)
    {
      BitGet(y, NUM_Y, i)
    }

    function GetS(i: nat): (v: bool)
      requires Valid()
      reads Repr()
      ensures v == GetFlag(Img().s, i)
    {
      BitGet(s, NUM_S, i)
    }

    function GetM(i: nat): (v: bool)
      requires Valid()
      reads Repr()
      ensures v == Devices.GetM(Img(), i)
    {
      if i >= M_SPECIAL_BASE then BitGet(mSpecial, NUM_M_SPECIAL, i - M_SPECIAL_BASE)
      else BitGet(m, NUM_M, i)
    }

    function GetD(i: nat): (v: Word)
      requires Valid()
      reads Repr()
      ensures v == Devices.GetD(Img(), i)
    {
      if i >= D_SPECIAL_BASE then
        var k := i - D_SPECIAL_BASE;
        if k < NUM_D_SPECIAL then dSpecial[k] else 0
      else d[i]
    }

    method SetX(i: nat, v: bool)
      requires Valid()
      modifies x
      ensures Img() == Devices.SetX(old(Img()), i, v)
    {
      BitSet(x, NUM_X, i, v);
    }

    method SetY(i: nat, v: bool)
      requires Valid()
      modifies y
      ensures Img() == Devices.SetY(old(Img()), i, v)
    {
      BitSet(y, NUM_Y, i, v);
    }

    method SetS(i: nat, v: bool)
      requires Valid()
      modifies s
      ensures Img() == Devices.SetS(old(Img()), i, v)
    {
      BitSet(s, NUM_S, i, v);
    }

    method SetM(i: nat, v: bool)
      requires Valid()
      modifies m, mSpecial
      ensures Img() == Devices.SetM(old(Img()), i, v)
    {
      if i >= M_SPECIAL_BASE {
        BitSet(mSpecial, NUM_M_SPECIAL, i - M_SPECIAL_BASE, v);
        return;
      }
      BitSet(m, NUM_M, i, v);
    }

    method SetD(i: nat, v: Word)
      requires Valid()
      modifies d, dSpecial
      ensures Img() == Devices.SetD(old(Img()), i, v)
    {
      if i >= D_SPECIAL_BASE {
        var k := i - D_SPECIAL_BASE;
        if k < NUM_D_SPECIAL {
          dSpecial[k] := v;
        }
        return;
      }
      if i < NUM_D {
        d[i] := v;
      }
    }

    method SetD32(i: nat, v: DWord)
      requires Valid()
      modifies d, dSpecial
      ensures Img() == Devices.SetD32(old(Img()), i, v)
    {
      SetD(i, v % 0x1_0000);
      SetD((i + 1) % 0x1_0000, v / 0x1_0000);
    }

    // ----------------------------------- devices named by instructions

    function ReadBit(dev: Byte, n: Byte): (v: bool)
      requires Valid()
      reads Repr()
      ensures v == Devices.ReadBit(Img(), dev, n)
    {
      var i := DeviceNumber(dev, n);
      if dev == DEV_X then GetX(i)
      else if dev == DEV_Y then GetY(i)
      else if dev == DEV_MS then GetM(M_SPECIAL_BASE + n)
      else if dev == DEV_T then t[i].done
      else if dev == DEV_C then c[i].done
      else if 0x8 <= dev <= 0xD then GetM(i)
      else if IsS(dev) then GetS(i)
      else false
    }

    method WriteBit(dev: Byte, n: Byte, v: bool)
      requires Valid()
      modifies Repr()
      ensures Img() == Devices.WriteBit(old(Img()), dev, n, v)
    {
      var i := DeviceNumber(dev, n);
      if dev == DEV_Y {
        SetY(i, v);
      } else if dev == DEV_MS {
        SetM(M_SPECIAL_BASE + n, v);
      } else if dev == DEV_X {
        SetX(i, v);
      } else if 0x8 <= dev <= 0xD {
        SetM(i, v);
      } else if IsS(dev) {
        SetS(i, v);
      }
    }

    /** What STOP -> RUN clears. Inputs, special devices, T246-T255 and C100-C255 stay. */
    method ResetNonretentive()
      requires Valid()
      modifies Repr()
      ensures Img() == AfterReset(old(Img()))
    {
      FillWords(y, 0);
      FillWords(m, 0);
      FillWords(s, 0);
      FillWords(d, 0);
      ZeroFlags(y[..], NUM_Y);
      ZeroFlags(m[..], NUM_M);
      ZeroFlags(s[..], NUM_S);
      for i := 0 to 246
        modifies t
        invariant forall j :: 0 <= j < NUM_T ==> t[j] == if j < i then IDLE_TIMER else old(t[j])
      {
        t[i] := IDLE_TIMER;
      }
      for i := 0 to 100
        modifies c
        invariant forall j :: 0 <= j < NUM_C ==> c[j] == if j < i then IDLE_COUNTER else old(c[j])
      {
        c[i] := IDLE_COUNTER;
      }
      assert t[..] == AfterReset(old(Img())).t;
      assert c[..] == AfterReset(old(Img())).c;
    }
  }

  function AfterReset(img: Image): Image {
    img.(y := BLANK.y, m := BLANK.m, s := BLANK.s, d := BLANK.d,
         t := Repeat(IDLE_TIMER, 246) + img.t[246..], c := Repeat(IDLE_COUNTER, 100) + img.c[100..])
  }

  lemma ZeroFlags(words: seq<Word>, n: nat)
    requires n <= 16 * |words| && forall i :: 0 <= i < |words| ==> words[i] == 0
    ensures Flags(words, n) == Repeat(false, n)
  {
    forall i | 0 <= i < n
      ensures !Bit(words[i / 16], i % 16)
    {
      PackBit([], i % 16);
    }
  }
}
