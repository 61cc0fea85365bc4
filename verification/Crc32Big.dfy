/** crc32_big: the same register kept byte-reversed, for big-endian words. */
module Crc32Big {
  import opened Crc32
  import opened Crc32Tables

  lemma RevXor(a: bv32, b: bv32)
    ensures Rev(Xor(a, b)) == Xor(Rev(a), Rev(b))
  {
    RevParts(a);
    RevParts(b);
    RevParts(a ^ b);
    PartsXor(a, b);
  }

  /** Reversal without carries. */
  function RevOr(w: bv32): bv32 {
    (w >> 24) | ((w >> 8) & 0xff00) | ((w & 0xff00) << 8) | ((w & 0xff) << 24)
  }

  lemma RevParts(w: bv32)
    ensures Rev(w) == RevOr(w)
  {
  }

  lemma PartsXor(a: bv32, b: bv32)
    ensures RevOr(a ^ b) == RevOr(a) ^ RevOr(b)
  {
  }

  lemma RevRev(a: bv32)
    ensures Rev(Rev(a)) == a && Rev(ONES) == ONES
  {
    RevParts(a);
    RevParts(RevOr(a));
    RevTwice(a);
  }

  lemma RevTwice(a: bv32)
    ensures RevOr(RevOr(a)) == a
  {
  }

  lemma RevBytes(c: bv32)
    ensures Byte0(Rev(c)) == Byte3(c) && Byte1(Rev(c)) == Byte2(c) && Byte2(Rev(c)) == Byte1(c)
    ensures Byte3(Rev(c)) == Byte0(c)
  {
    RevParts(c);
    OrBytes(c);
  }

  lemma OrBytes(c: bv32)
    ensures Byte0(RevOr(c)) == Byte3(c) && Byte1(RevOr(c)) == Byte2(c) && Byte2(RevOr(c)) == Byte1(c)
    ensures Byte3(RevOr(c)) == Byte0(c)
  {
  }

  lemma RevShift(c: bv32)
    ensures Rev(Rev(c) >> 8) == c << 8
  {
    RevParts(c);
    RevParts(RevOr(c) >> 8);
    OrShift(c);
  }

  lemma OrShift(c: bv32)
    ensures RevOr(RevOr(c) >> 8) == c << 8
  {
  }

  lemma LowByteXor(x: bv32, b: bv8)
    ensures Byte0(Xor(x, b as bv32)) == Byte0(x) ^ b
  {
  }

  /** One byte of a reversed register. */
  method DoByteBig(t: array2<bv32>, c: bv32, b: bv8) returns (r: bv32)
    requires TablesOk(t)
    ensures Rev(r) == BitSteps(Rev(c), b, 8)
  {
    hide Times, At, Xor, Byte0, Byte3, Index, BitSteps, Rev;
    var i := Byte3(c) ^ b;
    ByteStep(Rev(c), b);
    LowByteXor(Rev(c), b);
    RevBytes(c);
    AtIndex(i);
    assert Column(t, Index(i));
    r := Xor(t[4, Index(i)], c << 8);
    RevShift(c);
    RevRev(Rev(c) >> 8);
    RevXor(t[4, Index(i)], c << 8);
    RevRev(t[0, Index(i)]);
  }

  /** Four bytes of a reversed register. */
  method DoWordBig(t: array2<bv32>, c0: bv32, b0: bv8, b1: bv8, b2: bv8, b3: bv8) returns (r: bv32)
    requires TablesOk(t)
    ensures Rev(r) == Register(Rev(c0), [b0, b1, b2, b3])
  {
    hide Times, At, Xor, Index, BitSteps, Rev, Word, Register, Byte0, Byte1, Byte2, Byte3;
    var w := Rev(Word(b0, b1, b2, b3));   // the four bytes as a big-endian word
    var c := Xor(c0, w);
    RevXor(c0, w);
    RevRev(Word(b0, b1, b2, b3));
    FourRegister(Rev(c0), b0, b1, b2, b3);
    FourBytes(Rev(c0), b0, b1, b2, b3);
    Lookups(Rev(c));
    RevBytes(c);
    var i0, i1, i2, i3 := Index(Byte0(c)), Index(Byte1(c)), Index(Byte2(c)), Index(Byte3(c));
    assert Column(t, i0) && Column(t, i1) && Column(t, i2) && Column(t, i3);
    r := Xor(Xor(t[4, i0], t[5, i1]), Xor(t[6, i2], t[7, i3]));
    FourRevs(t[0, i0], t[1, i1], t[2, i2], t[3, i3]);
  }

  lemma FourRevs(a: bv32, b: bv32, c: bv32, d: bv32)
    ensures Rev(Xor(Xor(Rev(a), Rev(b)), Xor(Rev(c), Rev(d)))) == Xor(Xor(d, c), Xor(b, a))
  {
    hide Xor, Rev;
    RevXor(Xor(Rev(a), Rev(b)), Xor(Rev(c), Rev(d)));
    RevXor(Rev(a), Rev(b));
    RevXor(Rev(c), Rev(d));
    RevRev(a);
    RevRev(b);
    RevRev(c);
    RevRev(d);
    XorLaws(Xor(a, b), Xor(c, d), 0);
    XorLaws(a, b, 0);
    XorLaws(c, d, 0);
  }

  /** crc32_big. */
  method CrcBig(t: array2<bv32>, crc: bv32, data: seq<bv8>, address: nat) returns (r: bv32)
    requires TablesOk(t)
    ensures r == Crc(crc, data)
  {
    hide TablesOk, BitSteps, Register, Xor, Rev;
    var c := Xor(Rev(crc), ONES);
    ghost var c0 := Xor(crc, ONES);
    RevXor(Rev(crc), ONES);
    RevRev(crc);
    NoBytes(c0, data);
    var n := 0;
    while n < |data| && (address + n) % 4 != 0
      invariant 0 <= n <= |data| && Rev(c) == Register(c0, data[..n])
    {
      NextByte(c0, data, n);
      c := DoByteBig(t, c, data[n]);
      n := n + 1;
    }
    while n + 32 <= |data|
      invariant 0 <= n <= |data| && Rev(c) == Register(c0, data[..n])
    {
      var m := n + 32;
      while n < m
        invariant n <= m <= |data| && (m - n) % 4 == 0 && Rev(c) == Register(c0, data[..n])
        decreases m - n
      {
        NextWord(c0, data, n);
        c := DoWordBig(t, c, data[n], data[n + 1], data[n + 2], data[n + 3]);
        n := n + 4;
      }
    }
    while n + 4 <= |data|
      invariant 0 <= n <= |data| && Rev(c) == Register(c0, data[..n])
    {
      NextWord(c0, data, n);
      c := DoWordBig(t, c, data[n], data[n + 1], data[n + 2], data[n + 3]);
      n := n + 4;
    }
    while n < |data|
      invariant 0 <= n <= |data| && Rev(c) == Register(c0, data[..n])
    {
      NextByte(c0, data, n);
      c := DoByteBig(t, c, data[n]);
      n := n + 1;
    }
    assert data[..n] == data;
    RevXor(c, ONES);
    RevRev(c);
    r := Rev(Xor(c, ONES));
  }
}
