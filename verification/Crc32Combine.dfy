/** crc32_combine: zero bytes applied by repeated squaring of matrices over GF(2). */
module Crc32Combine {
  import opened Bits
  import opened Crc32
  import opened Crc32Tables

  const GF2_DIM := 32

  function Double(c: bv32): bv32 {
    c << 1
  }

  /** `u << i`. */
  function Up(u: bv32, i: nat): bv32 {
    if i == 0 then u else Double(Up(u, i - 1))
  }

  /** The matrix is the operator of `k` zero bits: its columns are the images of the unit vectors. */
  ghost predicate Operator(mat: seq<bv32>, k: nat) {
    |mat| == GF2_DIM && forall i :: 0 <= i < GF2_DIM ==> mat[i] == Times(Up(1, i), k)
  }

  lemma DoubleXor(a: bv32, b: bv32)
    ensures Double(Xor(a, b)) == Xor(Double(a), Double(b))
  {
  }

  lemma {:induction false} UpXor(a: bv32, b: bv32, i: nat)
    ensures Up(Xor(a, b), i) == Xor(Up(a, i), Up(b, i))
    decreases i
  {
    hide Xor, Double;
    if i > 0 {
      UpXor(a, b, i - 1);
      DoubleXor(Up(a, i - 1), Up(b, i - 1));
    }
  }

  lemma {:induction false} UpDouble(u: bv32, i: nat)
    ensures Up(Double(u), i) == Up(u, i + 1)
    decreases i
  {
    hide Double;
    if i > 0 {
      UpDouble(u, i - 1);
    }
  }

  lemma SplitLow(u: bv32)
    ensures u == Xor(if Odd(u) then 1 else 0, Double(Half(u)))
  {
  }

  lemma {:induction false} UpZero(i: nat)
    ensures Up(0, i) == 0
  {
    if i > 0 {
      UpZero(i - 1);
      assert Double(0) == 0;
    }
  }

  /** The bits of a vector from the lowest up. */
  lemma UpSplit(u: bv32, i: nat)
    ensures Up(u, i) == Xor(if Odd(u) then Up(1, i) else 0, Up(Half(u), i + 1))
  {
    hide Xor, Double, Half, Odd;
    SplitLow(u);
    UpXor(if Odd(u) then 1 else 0, Double(Half(u)), i);
    UpDouble(Half(u), i);
    UpZero(i);
  }

  function Down8(v: bv32): bv32 {
    v >> 8
  }

  lemma HalvesDown(v: bv32)
    ensures Halves(v, 8) == Down8(v)
  {
    Halves8(v);
  }

  lemma FourDowns(v: bv32)
    ensures Down8(Down8(Down8(Down8(v)))) == 0
  {
  }

  /** After 32 halvings nothing is left. */
  lemma AllHalves(v: bv32)
    ensures Halves(v, 32) == 0
  {
    hide Half, Halves, Down8;
    HalvesDown(v);
    HalvesAdd(v, 8, 8);
    HalvesDown(Down8(v));
    HalvesAdd(v, 16, 8);
    HalvesDown(Down8(Down8(v)));
    HalvesAdd(v, 24, 8);
    HalvesDown(Down8(Down8(Down8(v))));
    FourDowns(v);
  }

  lemma {:induction false} HalvesAdd(v: bv32, m: nat, n: nat)
    ensures Halves(v, m + n) == Halves(Halves(v, m), n)
    decreases m
  {
    hide Half;
    if m > 0 {
      HalvesAdd(Half(v), m - 1, n);
    }
  }

  /** gf2_matrix_times: the matrix of k zero bits applied to a vector. */
  method MatrixTimes(mat: seq<bv32>, v: bv32, ghost k: nat) returns (sum: bv32)
    requires Operator(mat, k)
    ensures sum == Times(v, k)
  {
    hide Xor, Double, Half, Odd, Times, Up;
    sum := 0;
    var vec := v;
    var i: nat := 0;
    assert Up(v, 0) == v by { UpNone(v); }
    assert Halves(v, 0) == v;
    XorSelf(Times(v, k));
    while vec != 0
      invariant i <= GF2_DIM && vec == Halves(v, i) && Times(v, k) == Xor(sum, Times(Up(vec, i), k))
      decreases GF2_DIM - i
    {
      hide Xor, Double, Half, Odd, Times, Up;
      if i == GF2_DIM {
        AllHalves(v);
        assert false;
      }
      UpSplit(vec, i);
      TimesXor(if Odd(vec) then Up(1, i) else 0, Up(Half(vec), i + 1), k);
      TimesZero(k);
      XorLaws(sum, if Odd(vec) then mat[i] else 0, Times(Up(Half(vec), i + 1), k));
      XorSelf(sum);
      HalvesNext(v, i);
      if Odd(vec) {
        sum := Xor(sum, mat[i]);
      }
      vec := Half(vec);
      i := i + 1;
    }
    UpZero(i);
    TimesZero(k);
    XorSelf(sum);
  }

  lemma UpNone(v: bv32)
    ensures Up(v, 0) == v
  {
  }

  /** gf2_matrix_square: twice as many zero bits. */
  method MatrixSquare(mat: seq<bv32>, ghost k: nat) returns (square: seq<bv32>)
    requires Operator(mat, k)
    ensures Operator(square, 2 * k)
  {
    hide Xor, Times, Up;
    square := [];
    var n := 0;
    while n < GF2_DIM
      invariant 0 <= n == |square| <= GF2_DIM
      invariant forall i :: 0 <= i < n ==> square[i] == Times(Up(1, i), 2 * k)
    {
      var col := MatrixTimes(mat, mat[n], k);
      TimesAdd(Up(1, n), k, k);
      square := square + [col];
      n := n + 1;
    }
  }

  lemma UnitStep(i: nat)
    requires 1 <= i < GF2_DIM
    ensures Bit1(Up(1, i)) == Up(1, i - 1)
  {
    hide Xor, Double, Half, Odd;
    UnitBound(i - 1);
    DoubleHalf(Up(1, i - 1));
  }

  lemma DoubleHalf(u: bv32)
    requires u & 0x80000000 == 0
    ensures !Odd(Double(u)) && Half(Double(u)) == u
  {
  }

  /** The unit vectors below the last keep the top bit clear. */
  lemma {:induction false} UnitBound(i: nat)
    requires i < GF2_DIM - 1
    ensures Up(1, i) & 0x80000000 == 0
  {
    UnitIs(i);
  }

  lemma {:induction false} UnitIs(i: nat)
    requires i < GF2_DIM
    ensures Up(1, i) == 1 << i
  {
    if i > 0 {
      UnitIs(i - 1);
      ShiftNext(i - 1);
    }
  }

  lemma ShiftNext(i: nat)
    requires i < GF2_DIM - 1
    ensures Double(1 << i) == 1 << (i + 1)
  {
  }

  /** The operator of one zero bit, as crc32_combine sets it up. */
  method OneBit() returns (odd: seq<bv32>)
    ensures Operator(odd, 1)
  {
    hide Double, Half, Odd, Xor;
    odd := [POLY];
    FirstColumn();
    var row: bv32 := 1;
    var n := 1;
    assert Up(1, 0) == 1;
    while n < GF2_DIM
      invariant 1 <= n == |odd| <= GF2_DIM && row == Up(1, n - 1)
      invariant forall i :: 0 <= i < n ==> odd[i] == Times(Up(1, i), 1)
    {
      UnitStep(n);
      TimesOne(Up(1, n));
      odd := odd + [row];
      row := Double(row);
      n := n + 1;
    }
  }

  lemma FirstColumn()
    ensures POLY == Times(Up(1, 0), 1)
  {
    assert Odd(1) && Half(1) == 0 && Xor(POLY, 0) == POLY;
  }

  lemma TimesOne(c: bv32)
    ensures Times(c, 1) == Bit1(c)
  {
    hide Bit1;
  }

  // ---------- combining ----------

  /** One step of the loop: the operator of 2^e zero bits, for one bit of the length. */
  lemma OneMore(c: bv32, len: nat, e: nat)
    ensures Times(c, Shl(len, e)) == Times(if len % 2 == 1 then Times(c, Pow2(e)) else c, Shl(len / 2, e + 1))
  {
    hide Times, Shl, Pow2;
    var h, b := len / 2, len % 2;
    assert Shl(len, e) == Shl(h, e + 1) + Shl(b, e) by {
      ShlAdd(2 * h, b, e);
      DoubleShl(h, e);
    }
    ShlOne(e);
    TimesAdd(c, Shl(b, e), Shl(h, e + 1));
    NoTimes(c);
  }

  lemma NoTimes(c: bv32)
    ensures Times(c, 0) == c
  {
  }

  lemma DoubleShl(h: nat, e: nat)
    ensures Shl(2 * h, e) == Shl(h, e + 1)
  {
    ShlShl(h, 1, e);
    assert Shl(h, 1) == 2 * h;
  }

  /** crc32_combine: |B| zero bytes applied to the first CRC, plus the second. */
  method CombineZeros(crc1: bv32, crc2: bv32, len2: nat) returns (r: bv32)
    ensures len2 > 0 ==> r == Xor(Times(crc1, 8 * len2), crc2)
    ensures len2 == 0 ==> r == crc1
  {
    hide Times, Shl, Pow2, Operator, Xor;
    if len2 == 0 {
      return crc1;
    }
    var odd := OneBit();
    var even := MatrixSquare(odd, 1);
    odd := MatrixSquare(even, 2);
    var c, len := crc1, len2;
    ghost var e: nat := 3;
    Pow2Values();
    assert Shl(len2, 3) == 8 * len2 by { EightTimes(len2); }
    while len != 0
      invariant e >= 3 && Times(c, Shl(len, e)) == Times(crc1, 8 * len2) && Operator(odd, Pow2(e - 1))
      decreases len
    {
      hide Times, Shl, Pow2, Operator, Xor;
      Pow2Next(e - 1);
      OneMore(c, len, e);
      even := MatrixSquare(odd, Pow2(e - 1));
      if len % 2 == 1 {
        c := MatrixTimes(even, c, Pow2(e));
      }
      len := len / 2;
      e := e + 1;
      if len == 0 {
        break;
      }
      Pow2Next(e - 1);
      OneMore(c, len, e);
      odd := MatrixSquare(even, Pow2(e - 1));
      if len % 2 == 1 {
        c := MatrixTimes(odd, c, Pow2(e));
      }
      len := len / 2;
      e := e + 1;
    }
    assert Times(c, Shl(0, e)) == c by { ShlOne(e); NoTimes(c); }
    r := Xor(c, crc2);
  }

  lemma EightTimes(n: nat)
    ensures Shl(n, 3) == 8 * n
  {
    assert Shl(n, 1) == 2 * n;
    assert Shl(n, 2) == 4 * n;
  }

  /** What the register becomes is zeros applied to the start, plus the data from zero. */
  lemma {:induction false} Affine(c: bv32, data: seq<bv8>)
    ensures Register(c, data) == Xor(Times(c, 8 * |data|), Register(0, data))
    decreases |data|
  {
    hide BitSteps, Xor, Times;
    if data == [] {
      NoTimes(c);
      XorSelf(c);
    } else {
      var b, rest := data[0], data[1..];
      ByteIs(c, b);
      ByteIs(0, b);
      TimesXor(c, b as bv32, 8);
      XorSelf(b as bv32);
      var c1, z1 := BitSteps(c, b, 8), BitSteps(0, b, 8);
      Affine(c1, rest);
      Affine(z1, rest);
      var n := 8 * |rest|;
      assert c1 == Xor(Times(c, 8), z1);
      TimesXor(Times(c, 8), z1, n);
      TimesAdd(c, 8, n);
      XorLaws(Times(c, 8 + n), Times(z1, n), Register(0, rest));
    }
  }

  /** crc32_combine is a homomorphism: the CRC of a concatenation from the CRCs of its parts. */
  method CrcCombine(crc1: bv32, crc2: bv32, len2: nat, ghost a: seq<bv8>, ghost b: seq<bv8>) returns (r: bv32)
    requires crc1 == Crc(0, a) && crc2 == Crc(0, b) && len2 == |b|
    ensures r == Crc(0, a + b)
  {
    hide Times, Xor, Register;
    r := CombineZeros(crc1, crc2, len2);
    Combined(a, b);
    if b == [] {
      assert a + b == a;
    }
  }

  lemma Combined(a: seq<bv8>, b: seq<bv8>)
    ensures Crc(0, a + b) == Xor(Times(Crc(0, a), 8 * |b|), Crc(0, b))
  {
    hide Times, Xor, Register;
    var f := Xor(0, ONES);
    var ra, n := Register(f, a), 8 * |b|;
    RegisterAppend(f, a, b);
    Affine(ra, b);
    Affine(f, b);
    XorSelf(ONES);
    var z, tf, ta := Register(0, b), Times(f, n), Times(ra, n);
    TimesXor(ra, ONES, n);
    // (ta + tf) + ((tf + z) + f) == (ta + z) + f
    XorLaws(ta, tf, Xor(Xor(tf, z), f));
    XorLaws(tf, Xor(tf, z), f);
    XorLaws(tf, tf, z);
    XorSelf(tf);
    XorSelf(z);
    XorLaws(ta, z, f);
  }
}
