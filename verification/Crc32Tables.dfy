/** make_crc_table, crc32, crc32_little and crc32_big. */
module Crc32Tables {
  import opened Crc32

  // ---------- bytes of a word ----------

  function Byte0(c: bv32): bv8 { (c & 0xff) as bv8 }
  function Byte1(c: bv32): bv8 { ((c >> 8) & 0xff) as bv8 }
  function Byte2(c: bv32): bv8 { ((c >> 16) & 0xff) as bv8 }
  function Byte3(c: bv32): bv8 { (c >> 24) as bv8 }

  /** Four bytes in memory as a little-endian word. */
  function Word(b0: bv8, b1: bv8, b2: bv8, b3: bv8): bv32 {
    Xor(Xor(b0 as bv32, b1 as bv32 << 8), Xor(b2 as bv32 << 16, b3 as bv32 << 24))
  }

  /** Byte reversal. */
  function Rev(w: bv32): bv32 {
    (w >> 24) + ((w >> 8) & 0xff00) + ((w & 0xff00) << 8) + ((w & 0xff) << 24)
  }

  lemma WordOfBytes(c: bv32)
    ensures Word(Byte0(c), Byte1(c), Byte2(c), Byte3(c)) == c
  {
  }

  function Index(b: bv8): (i: nat)
    ensures i < 256
  {
    b as nat
  }

  function At(i: nat): bv32
    requires i < 256
  {
    (i as bv8) as bv32
  }

  lemma AtIndex(b: bv8)
    ensures At(Index(b)) == b as bv32
  {
    IndexBack(b);
  }

  lemma IndexBack(b: bv8)
    ensures (b as int) as bv8 == b
  {
  }

  // ---------- one byte ----------

  /** The bits above the lowest byte. */
  function Upper(x: bv32): bv32 {
    x & 0xffffff00
  }

  lemma LowAndHigh(x: bv32)
    ensures x == Xor(Byte0(x) as bv32, Upper(x)) && Upper(x) & 0xff == 0
  {
  }

  /** Eight zero bits shift them down. */
  lemma UpperOut(x: bv32)
    ensures Times(Upper(x), 8) == Upper(x) >> 8
  {
    hide Times, Upper;
    LowAndHigh(x);
    ByteOut(Upper(x));
  }

  lemma HighOf(c: bv32, b: bv8)
    ensures Upper(Xor(c, b as bv32)) >> 8 == c >> 8
  {
  }

  /** The byte-wise step: a lookup for the byte shifted out. */
  lemma ByteStep(c: bv32, b: bv8)
    ensures BitSteps(c, b, 8) == Xor(Times(Byte0(Xor(c, b as bv32)) as bv32, 8), c >> 8)
  {
    hide Xor, Times, BitSteps, Byte0, Upper;
    var x := Xor(c, b as bv32);
    ByteIs(c, b);
    LowAndHigh(x);
    TimesXor(Byte0(x) as bv32, Upper(x), 8);
    UpperOut(x);
    HighOf(c, b);
  }

  /** Eight zero bits after a register. */
  lemma ZeroByteStep(c: bv32)
    ensures Times(c, 8) == Xor(Times(Byte0(c) as bv32, 8), c >> 8)
  {
    hide Xor, Times, Byte0, Upper;
    LowAndHigh(c);
    TimesXor(Byte0(c) as bv32, Upper(c), 8);
    UpperOut(c);
    HighOfSelf(c);
  }

  lemma HighOfSelf(c: bv32)
    ensures Upper(c) >> 8 == c >> 8
  {
  }

  // ---------- four bytes ----------

  lemma MoveOut(b: bv8)
    ensures (b as bv32 << 8) & 0xff == 0 && (b as bv32 << 8) >> 8 == b as bv32
    ensures (b as bv32 << 16) & 0xff == 0 && (b as bv32 << 16) >> 8 == b as bv32 << 8
    ensures (b as bv32 << 24) & 0xff == 0 && (b as bv32 << 24) >> 8 == b as bv32 << 16
  {
  }

  /** A byte that starts higher in the word is followed by fewer zeros. */
  lemma BytesMove(b: bv8)
    ensures Times(b as bv32 << 8, 32) == Times(b as bv32, 24)
    ensures Times(b as bv32 << 16, 32) == Times(b as bv32, 16)
    ensures Times(b as bv32 << 24, 32) == Times(b as bv32, 8)
  {
    hide Times;
    MoveOut(b);
    var x, y, z := b as bv32 << 8, b as bv32 << 16, b as bv32 << 24;
    ByteOut(x);
    ByteOut(y);
    ByteOut(z);
    TimesAdd(x, 8, 24);
    TimesAdd(y, 8, 24);
    TimesAdd(z, 8, 24);
    TimesAdd(x, 8, 16);
    TimesAdd(y, 8, 16);
    TimesAdd(x, 8, 8);
  }

  /** Four lookups are 32 zero bits. */
  lemma WordTimes(b0: bv8, b1: bv8, b2: bv8, b3: bv8)
    ensures Times(Word(b0, b1, b2, b3), 32)
         == Xor(Xor(Times(b0 as bv32, 32), Times(b1 as bv32, 24)), Xor(Times(b2 as bv32, 16), Times(b3 as bv32, 8)))
  {
    hide Xor, Times;
    var x0, x1, x2, x3 := b0 as bv32, b1 as bv32 << 8, b2 as bv32 << 16, b3 as bv32 << 24;
    TimesXor(Xor(x0, x1), Xor(x2, x3), 32);
    TimesXor(x0, x1, 32);
    TimesXor(x2, x3, 32);
    BytesMove(b1);
    BytesMove(b2);
    BytesMove(b3);
  }

  /** Four bytes one at a time are one word. */
  lemma FourBytes(c: bv32, b0: bv8, b1: bv8, b2: bv8, b3: bv8)
    ensures BitSteps(BitSteps(BitSteps(BitSteps(c, b0, 8), b1, 8), b2, 8), b3, 8)
            == Times(Xor(c, Word(b0, b1, b2, b3)), 32)
  {
    hide Xor, Times, BitSteps;
    var x0, x1, x2, x3 := b0 as bv32, b1 as bv32, b2 as bv32, b3 as bv32;
    var c1 := BitSteps(c, b0, 8);
    var c2 := BitSteps(c1, b1, 8);
    var c3 := BitSteps(c2, b2, 8);
    ByteIs(c, b0);
    ByteIs(c1, b1);
    ByteIs(c2, b2);
    ByteIs(c3, b3);
    PullBack(c, b0, b1, b2, b3, c1, c2, c3);
  }

  /** A byte added after zeros may be added before them, higher up. */
  lemma AddBefore(c: bv32, b: bv32, shifted: bv32, n: nat)
    requires Times(shifted, n) == b
    ensures Xor(Times(c, n), b) == Times(Xor(c, shifted), n)
  {
    TimesXor(c, shifted, n);
  }

  lemma PullBack(c: bv32, b0: bv8, b1: bv8, b2: bv8, b3: bv8, c1: bv32, c2: bv32, c3: bv32)
    requires c1 == Times(Xor(c, b0 as bv32), 8) && c2 == Times(Xor(c1, b1 as bv32), 8)
    requires c3 == Times(Xor(c2, b2 as bv32), 8)
    ensures Times(Xor(c3, b3 as bv32), 8) == Times(Xor(c, Word(b0, b1, b2, b3)), 32)
  {
    hide Xor, Times;
    var x0, y1, y2, y3 := b0 as bv32, b1 as bv32 << 8, b2 as bv32 << 16, b3 as bv32 << 24;
    var d0 := Xor(c, x0);
    OutBy(b1);
    OutBy(b2);
    OutBy(b3);
    AddBefore(d0, b1 as bv32, y1, 8);
    var d1 := Xor(d0, y1);
    TimesAdd(d1, 8, 8);
    AddBefore(d1, b2 as bv32, y2, 16);
    var d2 := Xor(d1, y2);
    TimesAdd(d2, 16, 8);
    AddBefore(d2, b3 as bv32, y3, 24);
    TimesAdd(Xor(d2, y3), 24, 8);
    XorLaws(c, x0, y1);
    XorLaws(c, Xor(x0, y1), y2);
    XorLaws(c, Xor(Xor(x0, y1), y2), y3);
    XorLaws(Xor(x0, y1), y2, y3);
  }

  lemma OutBy(b: bv8)
    ensures Times(b as bv32 << 8, 8) == b as bv32 && Times(b as bv32 << 16, 16) == b as bv32
    ensures Times(b as bv32 << 24, 24) == b as bv32
  {
    hide Times;
    MoveOut(b);
    var x, y, z := b as bv32 << 8, b as bv32 << 16, b as bv32 << 24;
    ByteOut(x);
    ByteOut(y);
    ByteOut(z);
    TimesAdd(y, 8, 8);
    TimesAdd(z, 8, 16);
  }

  // ---------- the tables ----------

  /** Tables 0 to 3: a byte followed by zero to three zero bytes; 4 to 7: the same, byte-reversed. */
  ghost predicate TablesOk(t: array2<bv32>)
    reads t
  {
    && t.Length0 == 8 && t.Length1 == 256
    && (forall i :: 0 <= i < 256 ==> t[0, i] == Times(At(i), 8))
    && (forall i :: 0 <= i < 256 ==> Column(t, i))
  }

  /** The exclusive-or pattern is the polynomial without x^32, lowest power in the highest bit. */
  lemma PolyTerms()
    ensures POLY == (1 << 31) | (1 << 30) | (1 << 29) | (1 << 27) | (1 << 26) | (1 << 24) | (1 << 23)
                    | (1 << 21) | (1 << 20) | (1 << 19)
                    | (1 << 15) | (1 << 9) | (1 << 8) | (1 << 5)
  {
  }

  /** The CRC of one byte value, bit by bit. */
  method EightBits(n: nat) returns (c: bv32)
    requires n < 256
    ensures c == Times(At(n), 8)
  {
    hide Bit1, At;
    c := At(n);
    var k := 0;
    while k < 8
      invariant 0 <= k <= 8 && Times(c, 8 - k) == Times(At(n), 8)
    {
      c := Bit1(c);   // c & 1 ? poly ^ (c >> 1) : c >> 1
      k := k + 1;
    }
  }

  method FirstTable(t: array2<bv32>)
    requires t.Length0 == 8 && t.Length1 == 256
    modifies t
    ensures forall i :: 0 <= i < 256 ==> t[0, i] == Times(At(i), 8)
  {
    hide Times, At;
    var n := 0;
    while n < 256
      invariant 0 <= n <= 256 && forall i :: 0 <= i < n ==> t[0, i] == Times(At(i), 8)
    {
      var c := EightBits(n);
      t[0, n] := c;
      n := n + 1;
    }
  }

  /** The entries of byte value n in the tables after the first. */
  ghost predicate Column(t: array2<bv32>, n: nat)
    requires t.Length0 == 8 && t.Length1 == 256 && n < 256
    reads t
  {
    && t[1, n] == Times(At(n), 16) && t[2, n] == Times(At(n), 24) && t[3, n] == Times(At(n), 32)
    && t[4, n] == Rev(t[0, n]) && t[5, n] == Rev(t[1, n]) && t[6, n] == Rev(t[2, n]) && t[7, n] == Rev(t[3, n])
  }

  method FillColumn(t: array2<bv32>, n: nat)
    requires t.Length0 == 8 && t.Length1 == 256 && n < 256 && forall i :: 0 <= i < 256 ==> t[0, i] == Times(At(i), 8)
    modifies t
    ensures Column(t, n) && forall k, i :: 0 <= k < 8 && 0 <= i < 256 && (k == 0 || i != n) ==> t[k, i] == old(t[k, i])
  {
    hide Times, At, Rev, Xor;
    var c := t[0, n];
    t[4, n] := Rev(c);
    c := NextZeros(t, c);
    TimesAdd(At(n), 8, 8);
    t[1, n] := c;
    t[5, n] := Rev(c);
    c := NextZeros(t, c);
    TimesAdd(At(n), 16, 8);
    t[2, n] := c;
    t[6, n] := Rev(c);
    c := NextZeros(t, c);
    TimesAdd(At(n), 24, 8);
    t[3, n] := c;
    t[7, n] := Rev(c);
  }

  /** make_crc_table. */
  method MakeCrcTable() returns (t: array2<bv32>)
    ensures fresh(t) && TablesOk(t)
  {
    hide Times, At, Rev, Xor;
    t := new bv32[8, 256];
    FirstTable(t);
    var n := 0;
    while n < 256
      invariant 0 <= n <= 256 && forall i :: 0 <= i < 256 ==> t[0, i] == Times(At(i), 8)
      invariant forall i :: 0 <= i < n ==> Column(t, i)
    {
      label L:
      FillColumn(t, n);
      forall i | 0 <= i < n ensures Column(t, i) {
        assert old@L(Column(t, i));
        assert t[0, i] == old@L(t[0, i]) && t[1, i] == old@L(t[1, i]) && t[2, i] == old@L(t[2, i]) && t[3,
            i] == old@L(t[3, i]);
        assert t[4, i] == old@L(t[4, i]) && t[5, i] == old@L(t[5, i]) && t[6, i] == old@L(t[6, i]) && t[7,
            i] == old@L(t[7, i]);
      }
      n := n + 1;
    }
  }

  /** c followed by a zero byte, by lookup. */
  method NextZeros(t: array2<bv32>, c: bv32) returns (r: bv32)
    requires t.Length0 == 8 && t.Length1 == 256 && forall i :: 0 <= i < 256 ==> t[0, i] == Times(At(i), 8)
    ensures r == Times(c, 8)
  {
    hide Times, At, Xor, Byte0, Index;
    ZeroByteStep(c);
    AtIndex(Byte0(c));
    r := Xor(t[0, Index(Byte0(c))], c >> 8);
  }

  /** DO1: one byte by lookup. */
  method DoByte(t: array2<bv32>, c: bv32, b: bv8) returns (r: bv32)
    requires TablesOk(t)
    ensures r == BitSteps(c, b, 8)
  {
    hide Times, At, Xor, Byte0, Index, BitSteps, Rev;
    ByteStep(c, b);
    AtIndex(Byte0(Xor(c, b as bv32)));
    r := Xor(t[0, Index(Byte0(Xor(c, b as bv32)))], c >> 8);
  }

  /** DOLIT4: four bytes by four lookups. */
  method DoWord(t: array2<bv32>, c0: bv32, b0: bv8, b1: bv8, b2: bv8, b3: bv8) returns (r: bv32)
    requires TablesOk(t)
    ensures r == Register(c0, [b0, b1, b2, b3])
  {
    hide Times, At, Xor, Index, BitSteps, Rev, Word, Register;
    var c := Xor(c0, Word(b0, b1, b2, b3));
    FourRegister(c0, b0, b1, b2, b3);
    FourBytes(c0, b0, b1, b2, b3);
    Lookups(c);
    assert Column(t, Index(Byte0(c))) && Column(t, Index(Byte1(c))) && Column(t, Index(Byte2(c)));
    r := Xor(Xor(t[3, Index(Byte0(c))], t[2, Index(Byte1(c))]), Xor(t[1, Index(Byte2(c))], t[0, Index(Byte3(c))]));
  }

  /** The four table entries of a word's bytes. */
  lemma Lookups(c: bv32)
    ensures Times(c, 32) == Xor(Xor(Times(At(Index(Byte0(c))), 32), Times(At(Index(Byte1(c))), 24)),
            Xor(Times(At(Index(Byte2(c))), 16), Times(At(Index(Byte3(c))), 8)))
  {
    hide Times, At, Xor, Index, Byte0, Byte1, Byte2, Byte3, Word;
    WordOfBytes(c);
    WordTimes(Byte0(c), Byte1(c), Byte2(c), Byte3(c));
    AtIndex(Byte0(c));
    AtIndex(Byte1(c));
    AtIndex(Byte2(c));
    AtIndex(Byte3(c));
  }

  lemma FourRegister(c: bv32, b0: bv8, b1: bv8, b2: bv8, b3: bv8)
    ensures Register(c, [b0, b1, b2, b3]) == BitSteps(BitSteps(BitSteps(BitSteps(c, b0, 8), b1, 8), b2, 8), b3, 8)
  {
    hide BitSteps;
    var d := [b0, b1, b2, b3];
    assert d[1..] == [b1, b2, b3] && [b1, b2, b3][1..] == [b2, b3] && [b2, b3][1..] == [b3] && [b3][1..] == [];
    var c1 := BitSteps(c, b0, 8);
    var c2 := BitSteps(c1, b1, 8);
    var c3 := BitSteps(c2, b2, 8);
    assert Register(c, d) == Register(c1, [b1, b2, b3]);
    assert Register(c1, [b1, b2, b3]) == Register(c2, [b2, b3]);
    assert Register(c2, [b2, b3]) == Register(c3, [b3]);
    assert Register(c3, [b3]) == Register(BitSteps(c3, b3, 8), []);
  }

  lemma {:induction false} RegisterAppend(c: bv32, a: seq<bv8>, b: seq<bv8>)
    ensures Register(c, a + b) == Register(Register(c, a), b)
    decreases |a|
  {
    hide BitSteps;
    if a == [] {
      assert a + b == b;
    } else {
      assert (a + b)[1..] == a[1..] + b;
      RegisterAppend(BitSteps(c, a[0], 8), a[1..], b);
    }
  }

  lemma RegisterOne(c: bv32, b: bv8)
    ensures Register(c, [b]) == BitSteps(c, b, 8)
  {
    hide BitSteps;
    assert [b][1..] == [];
    assert Register(BitSteps(c, b, 8), []) == BitSteps(c, b, 8);
  }

  /** The register advances over data[n..n + 1]. */
  lemma NextByte(c0: bv32, data: seq<bv8>, n: nat)
    requires n < |data|
    ensures Register(c0, data[..n + 1]) == BitSteps(Register(c0, data[..n]), data[n], 8)
  {
    hide BitSteps, Register;
    assert data[..n + 1] == data[..n] + [data[n]];
    RegisterAppend(c0, data[..n], [data[n]]);
    RegisterOne(Register(c0, data[..n]), data[n]);
  }

  lemma NextWord(c0: bv32, data: seq<bv8>, n: nat)
    requires n + 4 <= |data|
    ensures Register(c0, data[..n + 4])
            == Register(Register(c0, data[..n]), [data[n], data[n + 1], data[n + 2], data[n + 3]])
  {
    hide BitSteps, Register;
    assert data[..n + 4] == data[..n] + [data[n], data[n + 1], data[n + 2], data[n + 3]];
    RegisterAppend(c0, data[..n], [data[n], data[n + 1], data[n + 2], data[n + 3]]);
  }

  lemma NoBytes(c0: bv32, data: seq<bv8>)
    ensures Register(c0, data[..0]) == c0
  {
  }

  /** crc32 without word-wise tables. */
  method CrcBytes(t: array2<bv32>, crc: bv32, data: seq<bv8>) returns (r: bv32)
    requires TablesOk(t)
    ensures r == Crc(crc, data)
  {
    hide TablesOk, BitSteps, Register, Xor;
    var c := Xor(crc, ONES);
    ghost var c0 := c;
    NoBytes(c0, data);
    var n := 0;
    while n < |data|
      invariant 0 <= n <= |data| && c == Register(c0, data[..n])
    {
      NextByte(c0, data, n);
      c := DoByte(t, c, data[n]);
      n := n + 1;
    }
    assert data[..n] == data;
    r := Xor(c, ONES);
  }

  /** crc32_little: bytes up to an aligned address, then words, then the rest. */
  method CrcLittle(t: array2<bv32>, crc: bv32, data: seq<bv8>, address: nat) returns (r: bv32)
    requires TablesOk(t)
    ensures r == Crc(crc, data)
  {
    hide TablesOk, BitSteps, Register, Xor;
    var c := Xor(crc, ONES);
    ghost var c0 := c;
    NoBytes(c0, data);
    var n := 0;
    while n < |data| && (address + n) % 4 != 0
      invariant 0 <= n <= |data| && c == Register(c0, data[..n])
    {
      NextByte(c0, data, n);
      c := DoByte(t, c, data[n]);
      n := n + 1;
    }
    while n + 32 <= |data|
      invariant 0 <= n <= |data| && c == Register(c0, data[..n])
    {
      var m := n + 32;
      while n < m
        invariant n <= m <= |data| && (m - n) % 4 == 0 && c == Register(c0, data[..n])
        decreases m - n
      {
        NextWord(c0, data, n);
        c := DoWord(t, c, data[n], data[n + 1], data[n + 2], data[n + 3]);
        n := n + 4;
      }
    }
    while n + 4 <= |data|
      invariant 0 <= n <= |data| && c == Register(c0, data[..n])
    {
      NextWord(c0, data, n);
      c := DoWord(t, c, data[n], data[n + 1], data[n + 2], data[n + 3]);
      n := n + 4;
    }
    while n < |data|
      invariant 0 <= n <= |data| && c == Register(c0, data[..n])
    {
      NextByte(c0, data, n);
      c := DoByte(t, c, data[n]);
      n := n + 1;
    }
    assert data[..n] == data;
    r := Xor(c, ONES);
  }
}
