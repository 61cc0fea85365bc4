/**
 CRC-32: the table-driven and sliced forms, and combining, all against the remainder of the
 polynomial taken one bit at a time (section 8 of RFC 1952).
 */
module Crc32 {

  const POLY: bv32 := 0xedb88320
  const ONES: bv32 := 0xffffffff

  function Xor(a: bv32, b: bv32): bv32 {
    a ^ b
  }

  function Half(c: bv32): bv32 {
    c >> 1
  }

  predicate Odd(c: bv32) {
    c & 1 == 1
  }

  /** Multiply the register by x modulo the polynomial: one zero bit. */
  function Bit1(c: bv32): bv32 {
    if Odd(c) then Xor(POLY, Half(c)) else Half(c)
  }

  /** `n` zero bits. */
  function Times(c: bv32, n: nat): bv32
    decreases n
  {
    if n == 0 then c else Times(Bit1(c), n - 1)
  }

  /** One bit of data, the lowest of `b`. */
  function BitStep(c: bv32, b: bv8): bv32 {
    Bit1(Xor(c, (b & 1) as bv32))
  }

  /** The `n` low bits of a byte, lowest first. */
  function BitSteps(c: bv32, b: bv8, n: nat): bv32
    decreases n
  {
    if n == 0 then c else BitSteps(BitStep(c, b), b >> 1, n - 1)
  }

  /** The register after a byte string. */
  function Register(c: bv32, data: seq<bv8>): bv32
    decreases |data|
  {
    if data == [] then c else Register(BitSteps(c, data[0], 8), data[1..])
  }

  /** The CRC of `data` when `crc` is the CRC of what came before it. */
  function Crc(crc: bv32, data: seq<bv8>): bv32 {
    Xor(Register(Xor(crc, ONES), data), ONES)
  }

  // ---------- words as vectors over GF(2) ----------

  lemma XorLaws(a: bv32, b: bv32, c: bv32)
    ensures Xor(Xor(a, b), c) == Xor(a, Xor(b, c)) && Xor(a, b) == Xor(b, a)
  {
  }

  lemma XorSelf(a: bv32)
    ensures Xor(a, a) == 0 && Xor(a, 0) == a && Xor(0, a) == a
  {
  }

  lemma HalfXor(a: bv32, b: bv32)
    ensures Half(Xor(a, b)) == Xor(Half(a), Half(b))
  {
  }

  lemma OddXor(a: bv32, b: bv32)
    ensures Odd(Xor(a, b)) <==> Odd(a) != Odd(b)
  {
    assert (a ^ b) & 1 == (a & 1) ^ (b & 1);
  }

  lemma Bit1Xor(a: bv32, b: bv32)
    ensures Bit1(Xor(a, b)) == Xor(Bit1(a), Bit1(b))
  {
    hide Xor, Half, Odd;
    HalfXor(a, b);
    OddXor(a, b);
    var p, x, y := POLY, Half(a), Half(b);
    XorLaws(p, x, y);
    XorLaws(x, p, y);
    XorLaws(x, y, p);
    XorLaws(Xor(p, x), p, y);
    XorLaws(p, x, p);
    XorLaws(x, p, p);
    XorSelf(p);
    XorSelf(x);
  }

  lemma {:induction false} TimesXor(a: bv32, b: bv32, n: nat)
    ensures Times(Xor(a, b), n) == Xor(Times(a, n), Times(b, n))
    decreases n
  {
    hide Bit1, Xor;
    if n > 0 {
      Bit1Xor(a, b);
      TimesXor(Bit1(a), Bit1(b), n - 1);
    }
  }

  lemma {:induction false} TimesAdd(c: bv32, m: nat, n: nat)
    ensures Times(c, m + n) == Times(Times(c, m), n)
    decreases m
  {
    hide Bit1;
    if m > 0 {
      TimesAdd(Bit1(c), m - 1, n);
    }
  }

  lemma {:induction false} TimesZero(n: nat)
    ensures Times(0, n) == 0
  {
    if n > 0 {
      assert Bit1(0) == 0;
      TimesZero(n - 1);
    }
  }

  // ---------- bits shifted out ----------

  /** The word has its `n` lowest bits clear. */
  predicate Clear(y: bv32, n: nat)
    decreases n
  {
    n == 0 || (!Odd(y) && Clear(Half(y), n - 1))
  }

  function Halves(y: bv32, n: nat): bv32
    decreases n
  {
    if n == 0 then y else Halves(Half(y), n - 1)
  }

  lemma {:induction false} ShiftOut(y: bv32, n: nat)
    requires Clear(y, n)
    ensures Times(y, n) == Halves(y, n)
    decreases n
  {
    hide Half, Odd, Xor;
    if n > 0 {
      ShiftOut(Half(y), n - 1);
    }
  }

  lemma {:induction false} HalvesNext(y: bv32, n: nat)
    ensures Halves(y, n + 1) == Half(Halves(y, n))
    decreases n
  {
    hide Half;
    if n > 0 {
      HalvesNext(Half(y), n - 1);
    }
  }

  lemma EightHalves(y: bv32)
    ensures Half(Half(Half(Half(Half(Half(Half(Half(y)))))))) == y >> 8
  {
  }

  lemma Halves8(y: bv32)
    ensures Halves(y, 8) == y >> 8
  {
    hide Half;
    assert Halves(y, 0) == y;
    HalvesNext(y, 0);
    HalvesNext(y, 1);
    HalvesNext(y, 2);
    HalvesNext(y, 3);
    HalvesNext(y, 4);
    HalvesNext(y, 5);
    HalvesNext(y, 6);
    HalvesNext(y, 7);
    EightHalves(y);
  }

  /** Eight clear bits are shifted out. */
  lemma EightClear(y: bv32)
    requires y & 0xff == 0
    ensures Clear(y, 8)
  {
    hide Half, Odd, Xor;
    var y1 := Half(y);
    var y2 := Half(y1);
    var y3 := Half(y2);
    var y4 := Half(y3);
    var y5 := Half(y4);
    var y6 := Half(y5);
    var y7 := Half(y6);
    EightEven(y);
    assert Clear(Half(y7), 0);
    assert Clear(y7, 1);
    assert Clear(y6, 2);
    assert Clear(y5, 3);
    assert Clear(y4, 4);
    assert Clear(y3, 5);
    assert Clear(y2, 6);
    assert Clear(y1, 7);
  }

  lemma EightEven(y: bv32)
    requires y & 0xff == 0
    ensures !Odd(y) && !Odd(Half(y)) && !Odd(Half(Half(y))) && !Odd(Half(Half(Half(y))))
    ensures !Odd(Half(Half(Half(Half(y)))))
    ensures !Odd(Half(Half(Half(Half(Half(y)))))) && !Odd(Half(Half(Half(Half(Half(Half(y)))))))
    ensures !Odd(Half(Half(Half(Half(Half(Half(Half(y))))))))
  {
  }

  lemma ByteOut(y: bv32)
    requires y & 0xff == 0
    ensures Times(y, 8) == y >> 8
  {
    hide Half, Odd, Xor, Clear, Times, Halves;
    EightClear(y);
    ShiftOut(y, 8);
    Halves8(y);
  }

  // ---------- a byte at a time ----------

  lemma StepSplit(c: bv32, b: bv8)
    ensures Bit1(Xor(c, b as bv32)) == Xor(BitStep(c, b), (b >> 1) as bv32)
  {
    hide Bit1, Xor;
    var lo, hi := (b & 1) as bv32, ((b >> 1) as bv32) << 1;
    ByteParts(b);
    XorLaws(c, lo, hi);
    Bit1Xor(Xor(c, lo), hi);
    DoubleByte(b >> 1);
  }

  lemma ByteParts(b: bv8)
    ensures b as bv32 == Xor((b & 1) as bv32, ((b >> 1) as bv32) << 1) && (b >> 1) & 0x80 == 0
  {
  }

  lemma DoubleByte(b: bv8)
    requires b & 0x80 == 0
    ensures Bit1((b as bv32) << 1) == b as bv32
  {
  }

  /** The byte has no bits above the n lowest. */
  predicate FitsIn(b: bv8, n: nat)
    decreases n
  {
    if n == 0 then b == 0 else FitsIn(b >> 1, n - 1)
  }

  /** Data bits may be added to the register all at once. */
  lemma {:induction false} BitsAtOnce(c: bv32, b: bv8, n: nat)
    requires FitsIn(b, n)
    ensures BitSteps(c, b, n) == Times(Xor(c, b as bv32), n)
    decreases n
  {
    hide Bit1, BitStep, Xor;
    if n > 0 {
      StepSplit(c, b);
      BitsAtOnce(BitStep(c, b), b >> 1, n - 1);
    } else {
      XorSelf(c);
    }
  }

  lemma EightFit(b: bv8)
    ensures FitsIn(b, 8)
  {
    EightHalfBytes(b);
    var b1 := b >> 1;
    var b2 := b1 >> 1;
    var b3 := b2 >> 1;
    var b4 := b3 >> 1;
    var b5 := b4 >> 1;
    var b6 := b5 >> 1;
    var b7 := b6 >> 1;
    assert FitsIn(b7 >> 1, 0);
    assert FitsIn(b7, 1);
    assert FitsIn(b6, 2);
    assert FitsIn(b5, 3);
    assert FitsIn(b4, 4);
    assert FitsIn(b3, 5);
    assert FitsIn(b2, 6);
    assert FitsIn(b1, 7);
  }

  lemma EightHalfBytes(b: bv8)
    ensures (((((((b >> 1) >> 1) >> 1) >> 1) >> 1) >> 1) >> 1) >> 1 == 0
  {
  }

  lemma ByteIs(c: bv32, b: bv8)
    ensures BitSteps(c, b, 8) == Times(Xor(c, b as bv32), 8)
  {
    EightFit(b);
    BitsAtOnce(c, b, 8);
  }
}
