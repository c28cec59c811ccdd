/** Fixed-width numbers and the bit operations the firmware applies to them. */
module Words {
  type Byte = b: int | 0 <= b < 0x100
  type Word = w: int | 0 <= w < 0x1_0000
  type DWord = w: int | 0 <= w < 0x1_0000_0000
  type Int32 = i: int | -0x8000_0000 <= i < 0x8000_0000

  datatype Option<+T> = None | Some(value: T)

  function Pow2(k: nat): (p: nat)
    ensures p >= 1
  {
    if k == 0 then 1 else 2 * Pow2(k - 1)
  }

  function Low(w: Word): Byte { w % 256 }

  function High(w: Word): Byte { w / 256 }

  function FromBytes(lo: Byte, hi: Byte): Word { lo + 256 * hi }

  lemma WordOfBytes(w: Word)
    ensures FromBytes(Low(w), High(w)) == w
  {
  }

  lemma BytesOfWord(lo: Byte, hi: Byte)
    ensures Low(FromBytes(lo, hi)) == lo && High(FromBytes(lo, hi)) == hi
  {
  }

  function Wrap16(i: int): Word { i % 0x1_0000 }

  /** The value of a word read as a two's complement 16-bit number. */
  function Signed16(w: Word): int { if w < 0x8000 then w else w - 0x1_0000 }

  /** A 32-bit increment or decrement that wraps. */
  function WrapInt32(i: int): Int32 {
    (i + 0x8000_0000) % 0x1_0000_0000 - 0x8000_0000
  }

  /** C's integer division, which truncates toward zero. */
  function TruncDiv(a: int, b: int): int
    requires b != 0
  {
    if a >= 0 then a / b else -((-a) / b)
  }

  function TruncMod(a: int, b: int): int
    requires b != 0
  {
    a - b * TruncDiv(a, b)
  }

  // ---------------------------------------------------------------- bits

  /** Bit k of v: (v >> k) & 1. */
  predicate Bit(v: nat, k: nat)
    decreases k
  {
    if k == 0 then v % 2 == 1 else Bit(v / 2, k - 1)
  }

  /** v with bit k forced: v | (1 << k), or v & ~(1 << k). */
  function WithBit(v: nat, k: nat, on: bool): nat
    decreases k
  {
    if k == 0 then v - v % 2 + (if on then 1 else 0)
    else 2 * WithBit(v / 2, k - 1, on) + v % 2
  }

  lemma {:induction false} BitWithBit(v: nat, k: nat, on: bool, j: nat)
    ensures Bit(WithBit(v, k, on), j) == (if j == k then on else Bit(v, j))
    decreases k
  {
    if k > 0 {
      assert WithBit(v, k, on) / 2 == WithBit(v / 2, k - 1, on);
      if j > 0 {
        BitWithBit(v / 2, k - 1, on, j - 1);
      }
    } else if j > 0 {
      assert WithBit(v, k, on) / 2 == v / 2;
    }
  }

  /** WithBit really is the bitwise or / and-not: it adds or removes 2^k. */
  lemma {:induction false} WithBitValue(v: nat, k: nat, on: bool)
    ensures WithBit(v, k, on) ==
            v + (if on && !Bit(v, k) then Pow2(k) else 0) - (if !on && Bit(v, k) then Pow2(k) else 0)
    decreases k
  {
    if k > 0 {
      WithBitValue(v / 2, k - 1, on);
    }
  }

  lemma {:induction false} WithBitBound(v: nat, k: nat, on: bool, width: nat)
    requires k < width && v < Pow2(width)
    ensures WithBit(v, k, on) < Pow2(width)
    decreases k
  {
    if k > 0 {
      WithBitBound(v / 2, k - 1, on, width - 1);
    } else {
      assert Pow2(width) % 2 == 0;
    }
  }

  /** Numbers of the same width with the same bits are the same number. */
  lemma {:induction false} BitsDetermine(u: nat, v: nat, width: nat)
    requires u < Pow2(width) && v < Pow2(width)
    requires forall k: nat :: k < width ==> Bit(u, k) == Bit(v, k)
    ensures u == v
    decreases width
  {
    if width > 0 {
      forall k: nat | k < width - 1
        ensures Bit(u / 2, k) == Bit(v / 2, k)
      {
        assert Bit(u, k + 1) == Bit(v, k + 1);
      }
      BitsDetermine(u / 2, v / 2, width - 1);
      assert Bit(u, 0) == Bit(v, 0);
    }
  }

  /** The number whose bit k is bits[k]. */
  function Pack(bits: seq<bool>): nat {
    if bits == [] then 0
    else (if bits[0] then 1 else 0) + 2 * Pack(bits[1..])
  }

  lemma {:induction false} PackBound(bits: seq<bool>)
    ensures Pack(bits) < Pow2(|bits|)
  {
    if bits != [] {
      PackBound(bits[1..]);
    }
  }

  lemma {:induction false} PackBit(bits: seq<bool>, k: nat)
    ensures Bit(Pack(bits), k) == (k < |bits| && bits[k])
    decreases k
  {
    if bits == [] {
      if k > 0 {
        PackBit(bits, k - 1);
      }
    } else {
      assert Pack(bits) / 2 == Pack(bits[1..]);
      if k > 0 {
        PackBit(bits[1..], k - 1);
      }
    }
  }

  /** Or-ing the next bit into a partly packed number appends it. */
  lemma {:induction false} PackAppend(bits: seq<bool>, on: bool)
    ensures Pack(bits + [on]) == Pack(bits) + (if on then Pow2(|bits|) else 0)
  {
    if bits == [] {
      assert bits + [on] == [on];
      assert Pack([on]) == (if on then 1 else 0) + 2 * Pack([]);
    } else {
      assert (bits + [on])[1..] == bits[1..] + [on];
      PackAppend(bits[1..], on);
    }
  }

  lemma {:induction false} Pow2Grows(a: nat, b: nat)
    requires a <= b
    ensures Pow2(a) <= Pow2(b)
  {
    if a < b {
      Pow2Grows(a, b - 1);
    }
  }

  lemma Pow2Values()
    ensures Pow2(8) == 0x100 && Pow2(16) == 0x1_0000 && Pow2(32) == 0x1_0000_0000
  {
    assert Pow2(4) == 16;
    assert Pow2(8) == 0x100;
    assert Pow2(12) == 0x1000;
    assert Pow2(16) == 0x1_0000;
    assert Pow2(20) == 0x10_0000;
    assert Pow2(24) == 0x100_0000;
    assert Pow2(28) == 0x1000_0000;
  }

  lemma {:induction false} Pow2Sum(a: nat, b: nat)
    ensures Pow2(a + b) == Pow2(a) * Pow2(b)
  {
    if a > 0 {
      Pow2Sum(a - 1, b);
      assert 2 * (Pow2(a - 1) * Pow2(b)) == (2 * Pow2(a - 1)) * Pow2(b);
    }
  }

  /** Bits of a number put together from a low part of m bits and a high part. */
  lemma {:induction false} BitOfParts(low: nat, high: nat, m: nat, k: nat)
    requires low < Pow2(m)
    ensures Bit(low + Pow2(m) * high, k) == if k < m then Bit(low, k) else Bit(high, k - m)
    decreases m
  {
    if m > 0 {
      var rest := Pow2(m - 1) * high;
      assert Pow2(m) * high == 2 * rest;
      assert (low + 2 * rest) / 2 == low / 2 + rest && (low + 2 * rest) % 2 == low % 2;
      if k > 0 {
        BitOfParts(low / 2, high, m - 1, k - 1);
      }
    }
  }

  // ------------------------------------------------ operations on all bits

  datatype BitFn = BitAnd | BitOr | BitXor

  function Combine(fn: BitFn, p: bool, q: bool): bool {
    match fn
    case BitAnd => p && q
    case BitOr => p || q
    case BitXor => p != q
  }

  /** a & b, a | b or a ^ b. */
  function Bitwise(fn: BitFn, a: Word, b: Word): Word {
    var bits := seq(16, k requires 0 <= k < 16 => Combine(fn, Bit(a, k), Bit(b, k)));
    PackBound(bits);
    Pow2Values();
    Pack(bits)
  }

  lemma BitwiseBit(fn: BitFn, a: Word, b: Word, k: nat)
    requires k < 16
    ensures Bit(Bitwise(fn, a, b), k) == Combine(fn, Bit(a, k), Bit(b, k))
  {
    hide Bit, Pack;
    PackBit(seq(16, j requires 0 <= j < 16 => Combine(fn, Bit(a, j), Bit(b, j))), k);
  }

  /** The remainder on top of the quotient. */
  function Exchange(v: nat, p: nat, q: nat): nat
    requires p >= 1
  {
    v / p + q * (v % p)
  }

  lemma ExchangeParts(v: nat, p: nat, q: nat) returns (low: nat, high: nat)
    requires p >= 1 && v < p * q
    ensures low < p && high < q && v == low + p * high
    ensures Exchange(v, p, q) == high + q * low < p * q
  {
    low, high := v % p, v / p;
    assert v == p * high + low;
    if high >= q {
      TimesGrows(p, q, high);
      assert false;
    }
    TimesGrows(q, low, p - 1);
    assert q * (p - 1) == p * q - q;
  }

  lemma TimesGrows(k: nat, a: nat, b: nat)
    requires a <= b
    ensures k * a <= k * b
  {
  }

  /** (v >> n) | (v << (16 - n)), the low n bits coming in at the top. */
  function RotateRight(v: Word, n: nat): Word
    requires n <= 16
  {
    RotateSplits(v, n);
    Exchange(v, Pow2(n), Pow2(16 - n))
  }

  /** (v << n) | (v >> (16 - n)). */
  function RotateLeft(v: Word, n: nat): Word
    requires n <= 16
  {
    RotateRight(v, 16 - n)
  }

  lemma RotateSplits(v: Word, n: nat)
    requires n <= 16
    ensures Exchange(v, Pow2(n), Pow2(16 - n)) < 0x1_0000
    ensures exists low: nat, high: nat :: Split(v, n, low, high)
  {
    hide Pow2, Exchange;
    Pow2Sum(n, 16 - n);
    Pow2Values();
    var low, high := ExchangeParts(v, Pow2(n), Pow2(16 - n));
    assert Split(v, n, low, high);
  }

  /** The low n bits of a word, and the others. */
  predicate Split(v: Word, n: nat, low: nat, high: nat)
    requires n <= 16
  {
    low < Pow2(n) && high < Pow2(16 - n) && v == low + Pow2(n) * high
    && Exchange(v, Pow2(n), Pow2(16 - n)) == high + Pow2(16 - n) * low
  }

  lemma RotateBit(v: Word, n: nat, k: nat)
    requires n <= 16 && k < 16
    ensures Bit(RotateRight(v, n), k) == Bit(v, (k + n) % 16)
  {
    hide Pow2, Bit, Exchange;
    RotateSplits(v, n);
    var low, high :| Split(v, n, low, high);
    BitOfParts(high, low, 16 - n, k);
    BitOfParts(low, high, n, if k < 16 - n then k + n else k + n - 16);
    assert (k + n) % 16 == if k < 16 - n then k + n else k + n - 16;
  }

  // ------------------------------------------------------- packed bitmaps

  /** The first n flags held 16 to a word. */
  function Flags(words: seq<Word>, n: nat): (flags: seq<bool>)
    requires n <= 16 * |words|
    ensures |flags| == n
  {
    seq(n, i requires 0 <= i < n => Bit(words[i / 16], i % 16))
  }

  /** The numbers below n marked in a bitmap of 32-bit words. */
  function Marks(words: seq<DWord>, n: nat): set<nat>
    requires n <= 32 * |words|
  {
    set i: nat | i < n && Bit(words[i / 32], i % 32)
  }

  function PutBit16(w: Word, k: nat, on: bool): Word
    requires k < 16
  {
    Pow2Values();
    WithBitBound(w, k, on, 16);
    WithBit(w, k, on)
  }

  function PutBit32(w: DWord, k: nat, on: bool): DWord
    requires k < 32
  {
    Pow2Values();
    WithBitBound(w, k, on, 32);
    WithBit(w, k, on)
  }

  function PutBit8(w: Byte, k: nat, on: bool): Byte
    requires k < 8
  {
    Pow2Values();
    WithBitBound(w, k, on, 8);
    WithBit(w, k, on)
  }

  lemma FlagsUpdate(words: seq<Word>, n: nat, i: nat, on: bool)
    requires n <= 16 * |words| && i < n
    ensures Flags(words[i / 16 := PutBit16(words[i / 16], i % 16, on)], n) == Flags(words, n)[i := on]
  {
    var after := words[i / 16 := PutBit16(words[i / 16], i % 16, on)];
    forall j | 0 <= j < n
      ensures Flags(after, n)[j] == Flags(words, n)[i := on][j]
    {
      BitWithBit(words[i / 16], i % 16, on, j % 16);
    }
  }

  lemma MarksUpdate(words: seq<DWord>, n: nat, i: nat, on: bool)
    requires n <= 32 * |words| && i < n
    ensures Marks(words[i / 32 := PutBit32(words[i / 32], i % 32, on)], n) ==
            (if on then Marks(words, n) + {i} else Marks(words, n) - {i})
  {
    var after := words[i / 32 := PutBit32(words[i / 32], i % 32, on)];
    forall j: nat | j < n
      ensures j in Marks(after, n) <==> (if j == i then on else j in Marks(words, n))
    {
      BitWithBit(words[i / 32], i % 32, on, j % 32);
    }
  }
}
