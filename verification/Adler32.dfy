/**
 Adler-32 with the modulo operations put off, and combining, against the sums of section 8.2
 of RFC 1950 taken a byte at a time.
 */
module Adler32 {
  import opened Bits

  const BASE := 65521
  const NMAX := 5552

  // ---------- the definition ----------

  /** The first sum after `data`. */
  function S1(a: nat, data: seq<byte>): nat {
    if data == [] then a else (S1(a, data[..|data| - 1]) + data[|data| - 1]) % BASE
  }

  /** The second sum: all the first sums added up. */
  function S2(a: nat, b: nat, data: seq<byte>): nat {
    if data == [] then b else (S2(a, b, data[..|data| - 1]) + S1(a, data)) % BASE
  }

  /** The two sums in a 32-bit word. */
  function Pack(a: nat, b: nat): nat {
    a + 0x10000 * b
  }

  // ---------- congruence ----------

  ghost predicate Cong(x: int, y: int) {
    x % BASE == y % BASE
  }

  lemma CongAdd(x: int, y: int, u: int, v: int)
    requires Cong(x, y) && Cong(u, v)
    ensures Cong(x + u, y + v) && Cong(x - u, y - v)
  {
    var p, q, r, s := x / BASE, y / BASE, u / BASE, v / BASE;
    assert x == p * BASE + x % BASE && y == q * BASE + y % BASE;
    assert u == r * BASE + u % BASE && v == s * BASE + v % BASE;
    MultipleCong(y + v, p + r - q - s);
    MultipleCong(y - v, p - r - q + s);
    assert x + u == y + v + (p + r - q - s) * BASE;
    assert x - u == y - v + (p - r - q + s) * BASE;
  }

  lemma MultipleCong(x: int, k: int)
    ensures Cong(x + k * BASE, x)
  {
  }

  lemma CongMod(x: int)
    ensures Cong(x % BASE, x) && 0 <= x % BASE < BASE
  {
  }

  lemma CongSmall(x: nat, y: nat)
    requires Cong(x, y) && x < BASE && y < BASE
    ensures x == y
  {
  }

  // ---------- reduction without division ----------

  lemma {:induction false} ModShl(a: nat, i: nat)
    requires a >= Shl(BASE, i)
    ensures (a - Shl(BASE, i)) % BASE == a % BASE
  {
    if i == 0 {
      MultipleCong(a - BASE, 1);
    } else {
      ModShl(a, i - 1);
      ModShl(a - Shl(BASE, i - 1), i - 1);
    }
  }

  /** The chain of MOD or MOD4: subtract BASE << i for falling i. */
  method Subtracts(x: nat, top: nat) returns (r: nat)
    requires x < Shl(BASE, top + 1)
    ensures r == x % BASE
  {
    hide Shl;
    r := x;
    var i: int := top;
    while i >= 0
      invariant -1 <= i <= top && r < Shl(BASE, i + 1) && r % BASE == x % BASE
      decreases i
    {
      ShlDouble(i);
      if r >= Shl(BASE, i) {
        ModShl(r, i);
        r := r - Shl(BASE, i);
      }
      i := i - 1;
    }
    ShlNone();
  }

  lemma ShlDouble(i: nat)
    ensures Shl(BASE, i + 1) == 2 * Shl(BASE, i)
  {
  }

  lemma ShlNone()
    ensures Shl(BASE, 0) == BASE
  {
  }

  /** MOD, with or without NO_DIVIDE. */
  method Mod(x: nat, noDivide: bool) returns (r: nat)
    requires x < 0x1_0000_0000
    ensures r == x % BASE
  {
    if noDivide {
      Big();
      r := Subtracts(x, 16);
    } else {
      r := x % BASE;
    }
  }

  lemma Big()
    ensures Shl(BASE, 17) >= 0x1_0000_0000 && Shl(BASE, 5) == 2096672
  {
    assert Shl(BASE, 5) == 32 * BASE;
    assert Shl(BASE, 9) == 512 * BASE;
    assert Shl(BASE, 13) == 8192 * BASE;
    assert Shl(BASE, 17) == 131072 * BASE;
  }

  // ---------- how large the sums get ----------

  function Triangle(n: nat): nat {
    if n == 0 then 0 else Triangle(n - 1) + n
  }

  lemma {:induction false} TriangleIs(n: nat)
    ensures 2 * Triangle(n) == n * (n + 1)
  {
    if n > 0 {
      TriangleIs(n - 1);
    }
  }

  lemma {:induction false} TriangleMono(m: nat, n: nat)
    requires m <= n
    ensures Triangle(m) <= Triangle(n)
  {
    if m < n {
      TriangleMono(m, n - 1);
    }
  }

  /** Up to NMAX bytes after any two 16-bit sums there is no overflow of 32 bits. */
  lemma NoOverflow(n: nat)
    requires n <= NMAX
    ensures 65535 + 255 * n < 0x1_0000_0000 && 65535 * (n + 1) + 255 * Triangle(n) < 0x1_0000_0000
  {
    hide Triangle;
    assert Triangle(NMAX) == 15415128 by { TriangleIs(NMAX); }
    TriangleMono(n, NMAX);
  }

  /** NMAX is the largest such number for two sums that have been reduced. */
  lemma LargestNmax(n: nat)
    ensures 255 * Triangle(n) + (n + 1) * 65520 < 0x1_0000_0000 <==> n <= NMAX
  {
    hide Triangle;
    assert Triangle(NMAX) == 15415128 by { TriangleIs(NMAX); }
    assert Triangle(NMAX + 1) == 15420681 by { TriangleIs(NMAX + 1); }
    if n <= NMAX {
      TriangleMono(n, NMAX);
    } else {
      TriangleMono(NMAX + 1, n);
    }
  }

  // ---------- adler32 ----------

  /** The sums so far stand for those of data[..n], from the halves a and b of the word given. */
  ghost predicate Sums(x: nat, y: nat, a: nat, b: nat, data: seq<byte>, n: nat)
    requires n <= |data|
  {
    Cong(x, S1(a, data[..n])) && Cong(y, S2(a, b, data[..n]))
  }

  lemma SumsStart(a: nat, b: nat, data: seq<byte>)
    ensures Sums(a, b, a, b, data, 0)
  {
  }

  lemma SumsNext(x: nat, y: nat, a: nat, b: nat, data: seq<byte>, n: nat)
    requires n < |data| && Sums(x, y, a, b, data, n)
    ensures Sums(x + data[n], y + (x + data[n]), a, b, data, n + 1)
  {
    hide Cong;
    var d := data[..n + 1];
    assert d[..|d| - 1] == data[..n];
    CongSame(data[n]);
    CongAdd(x, S1(a, data[..n]), data[n], data[n]);
    CongMod(S1(a, data[..n]) + data[n]);
    CongTrans(x + data[n], S1(a, data[..n]) + data[n], S1(a, d));
    CongAdd(y, S2(a, b, data[..n]), x + data[n], S1(a, d));
    CongMod(S2(a, b, data[..n]) + S1(a, d));
    CongTrans(y + (x + data[n]), S2(a, b, data[..n]) + S1(a, d), S2(a, b, d));
  }

  lemma CongSame(x: int)
    ensures Cong(x, x)
  {
  }

  lemma CongTrans(x: int, y: int, z: int)
    requires Cong(x, y) && Cong(z, y)
    ensures Cong(x, z) && Cong(z, x)
  {
  }

  lemma SumsMod(x: nat, y: nat, a: nat, b: nat, data: seq<byte>, n: nat)
    requires n <= |data| && Sums(x, y, a, b, data, n)
    ensures Sums(x % BASE, y % BASE, a, b, data, n)
  {
    hide S1, S2;
  }

  /** DO1 for m bytes: no modulo operation, and no overflow if there are at most NMAX. */
  method AddBytes(x0: nat, y0: nat, data: seq<byte>, from: nat, m: nat, ghost a: nat, ghost b: nat)
    returns (x: nat, y: nat)
    requires from + m <= |data| && m <= NMAX && x0 < 0x10000 && y0 < 0x10000 && Sums(x0, y0, a, b, data, from)
    ensures Sums(x, y, a, b, data, from + m) && x <= 65535 + 255 * m && y <= 65535 * (m + 1) + 255 * Triangle(m)
    ensures x < 0x1_0000_0000 && y < 0x1_0000_0000
  {
    hide Sums;
    x, y := x0, y0;
    var i := 0;
    while i < m
      invariant 0 <= i <= m && Sums(x, y, a, b, data, from + i) && x <= 65535 + 255 * i
      invariant y <= 65535 * (i + 1) + 255 * Triangle(i)
    {
      hide Sums;
      SumsNext(x, y, a, b, data, from + i);
      x := x + data[from + i];
      y := y + x;
      i := i + 1;
      NoOverflow(i);   // both sums fit 32 bits after every byte
      assert x < 0x1_0000_0000 && y < 0x1_0000_0000;
    }
    NoOverflow(m);
  }

  /** The reduced sums are the sums. */
  lemma SumsFinal(x: nat, y: nat, a: nat, b: nat, data: seq<byte>)
    requires Sums(x, y, a, b, data, |data|) && x < BASE && y < BASE && (data == [] ==> a < BASE && b < BASE)
    ensures x == S1(a, data) && y == S2(a, b, data)
  {
    hide Cong;
    assert data[..|data|] == data;
    CongSmall(x, S1(a, data));
    CongSmall(y, S2(a, b, data));
  }

  /** Blocks of NMAX bytes and the rest, each with one modulo operation. */
  method LongSums(a: nat, b: nat, data: seq<byte>, noDivide: bool) returns (x: nat, y: nat)
    requires a < 0x10000 && b < 0x10000 && data != []
    ensures x == S1(a, data) && y == S2(a, b, data) && x < BASE && y < BASE
  {
    hide Sums, Triangle;
    x, y := a, b;
    var n := 0;
    SumsStart(a, b, data);
    while |data| - n >= NMAX
      invariant 0 <= n <= |data| && x < 0x10000 && y < 0x10000 && Sums(x, y, a, b, data, n)
      invariant (n > 0 ==> x < BASE && y < BASE)
      decreases |data| - n
    {
      hide Sums, Triangle;
      x, y := AddBytes(x, y, data, n, NMAX, a, b);
      n := n + NMAX;
      SumsMod(x, y, a, b, data, n);
      x := Mod(x, noDivide);
      y := Mod(y, noDivide);
    }
    if n < |data| {
      ghost var m := |data| - n;
      x, y := AddBytes(x, y, data, n, |data| - n, a, b);
      SumsMod(x, y, a, b, data, |data|);
      x := Mod(x, noDivide);
      y := Mod(y, noDivide);
    }
    SumsFinal(x, y, a, b, data);
  }

  /** Fewer than sixteen bytes: one subtraction and a short chain are enough. */
  method ShortSums(a: nat, b: nat, data: seq<byte>, noDivide: bool) returns (x: nat, y: nat)
    requires a < 0x10000 && b < 0x10000 && |data| < 16
    ensures x < BASE && y < BASE && Cong(x, S1(a, data)) && Cong(y, S2(a, b, data))
    ensures data != [] || (a < BASE && b < BASE) ==> x == S1(a, data) && y == S2(a, b, data)
  {
    hide Sums;
    SumsStart(a, b, data);
    x, y := AddBytes(a, b, data, 0, |data|, a, b);
    assert Triangle(|data|) <= 120 by { TriangleMono(|data|, 15); TriangleIs(15); }
    SumsMod(x, y, a, b, data, |data|);
    if x >= BASE {
      x := x - BASE;
    }
    if noDivide {
      Big();
      y := Subtracts(y, 4);
    } else {
      y := y % BASE;
    }
    if data != [] || (a < BASE && b < BASE) {
      SumsFinal(x, y, a, b, data);
    }
    SumsAre(x, y, a, b, data);
  }

  lemma SumsAre(x: nat, y: nat, a: nat, b: nat, data: seq<byte>)
    requires Sums(x, y, a, b, data, |data|)
    ensures Cong(x, S1(a, data)) && Cong(y, S2(a, b, data))
  {
    assert data[..|data|] == data;
  }

  lemma OneByte(a: nat, b: nat, d: byte)
    ensures S1(a, [d]) == (a + d) % BASE && S2(a, b, [d]) == (b + (a + d) % BASE) % BASE
  {
    assert [d][..0] == [];
  }

  /**
   adler32 for any two 16-bit halves.  The two sums are always right up to a multiple of BASE,
   and they are fully reduced unless a single byte meets a second half that is not.
   */
  method Adler(adler: nat, data: seq<byte>, noDivide: bool) returns (r: nat)
    requires adler < 0x1_0000_0000
    ensures exists x: nat, y: nat :: x < 0x10000 && y < 0x10000 && r == Pack(x, y)
              && Cong(x, S1(adler % 0x10000, data)) && Cong(y, S2(adler % 0x10000, adler / 0x10000, data))
    ensures adler % 0x10000 < BASE && adler / 0x10000 < BASE ==>
              r == Pack(S1(adler % 0x10000, data), S2(adler % 0x10000, adler / 0x10000, data))
    ensures |data| == 1 ==> (r == Pack(S1(adler % 0x10000, data), S2(adler % 0x10000, adler / 0x10000, data))
                             <==> adler / 0x10000 + (adler % 0x10000 + data[0]) % BASE < 2 * BASE)
    ensures |data| > 1 ==> r == Pack(S1(adler % 0x10000, data), S2(adler % 0x10000, adler / 0x10000, data))
  {
    hide S1, S2, Cong;
    var b, a := adler / 0x10000, adler % 0x10000;
    var x, y;
    if |data| == 1 {
      x, y := ByteSums(a, b, data[0]);
      assert data == [data[0]];
    } else if |data| < 16 {
      x, y := ShortSums(a, b, data, noDivide);
    } else {
      x, y := LongSums(a, b, data, noDivide);
      CongSame(x);
      CongSame(y);
    }
    r := Pack(x, y);
  }

  /** A single byte: a subtraction for each sum. */
  method ByteSums(a: nat, b: nat, d: byte) returns (x: nat, y: nat)
    requires a < 0x10000 && b < 0x10000
    ensures x == S1(a, [d]) && x < BASE && y < 0x10000 && Cong(x, S1(a, [d])) && Cong(y, S2(a, b, [d]))
    ensures y == S2(a, b, [d]) <==> b + (a + d) % BASE < 2 * BASE
  {
    hide S1, S2;
    OneByte(a, b, d);
    x := a + d;
    if x >= BASE {
      x := x - BASE;
    }
    y := b + x;
    if y >= BASE {
      y := y - BASE;
    }
  }

  // ---------- adler32_combine ----------

  function Mul(n: nat, k: int): int {
    n * k
  }

  lemma MulNext(n: nat, k: int)
    ensures Mul(n + 1, k) == Mul(n, k) + k && Mul(0, k) == 0
  {
  }

  /** Sums from any start, in terms of the sums from 1 and 0. */
  lemma {:induction false} FromStart(a: nat, b: nat, data: seq<byte>)
    ensures Cong(S1(a, data), S1(1, data) + a - 1)
    ensures Cong(S2(a, b, data), S2(1, 0, data) + b + Mul(|data|, a - 1))
  {
    hide Cong, Mul, S1, S2;
    if data == [] {
      SumsOfNone(a, b);
      SumsOfNone(1, 0);
      MulNext(0, a - 1);
      CongSame(a);
      CongSame(b);
    } else {
      var n := |data| - 1;
      var d, e := data[..n], data[n];
      FromStart(a, b, d);
      LastByte(a, b, data);
      LastByte(1, 0, data);
      var x, u, y, v := S1(a, d), S1(1, d), S2(a, b, d), S2(1, 0, d);
      var x', u' := S1(a, data), S1(1, data);
      CongSame(e);
      CongAdd(x, u + a - 1, e, e);
      CongMod(x + e);
      CongMod(u + e);
      CongSame(a - 1);
      CongAdd(u', u + e, a - 1, a - 1);
      CongChain(x', x + e, u + e + a - 1, u' + a - 1);
      MulNext(n, a - 1);
      CongAdd(y, v + b + Mul(n, a - 1), x', u' + a - 1);
      CongMod(y + x');
      CongMod(v + u');
      CongSame(b + Mul(n + 1, a - 1));
      CongAdd(S2(1, 0, data), v + u', b + Mul(n + 1, a - 1), b + Mul(n + 1, a - 1));
      CongChain(S2(a, b, data), y + x', v + u' + b + Mul(n + 1, a - 1), S2(1, 0, data) + b + Mul(n + 1, a - 1));
    }
  }

  lemma SumsOfNone(a: nat, b: nat)
    ensures S1(a, []) == a && S2(a, b, []) == b
  {
  }

  lemma LastS1(a: nat, data: seq<byte>)
    requires data != []
    ensures S1(a, data) == (S1(a, data[..|data| - 1]) + data[|data| - 1]) % BASE
  {
  }

  lemma LastByte(a: nat, b: nat, data: seq<byte>)
    requires data != []
    ensures S1(a, data) == (S1(a, data[..|data| - 1]) + data[|data| - 1]) % BASE
    ensures S2(a, b, data) == (S2(a, b, data[..|data| - 1]) + S1(a, data)) % BASE
  {
    hide S1;
    LastS1(a, data);
  }

  lemma Unpack(x: nat, y: nat)
    requires x < 0x10000
    ensures Pack(x, y) % 0x10000 == x && Pack(x, y) / 0x10000 == y
  {
  }

  lemma CongChain(x: int, y: int, z: int, w: int)
    requires Cong(x, y) && Cong(y, z) && Cong(w, z)
    ensures Cong(x, w)
  {
  }

  lemma {:induction false} SumsAppend(a: nat, b: nat, p: seq<byte>, q: seq<byte>)
    ensures S1(a, p + q) == S1(S1(a, p), q) && S2(a, b, p + q) == S2(S1(a, p), S2(a, b, p), q)
    decreases |q|
  {
    if q == [] {
      assert p + q == p;
    } else {
      var n := |q| - 1;
      assert (p + q)[..|p + q| - 1] == p + q[..n];
      SumsAppend(a, b, p, q[..n]);
    }
  }

  lemma {:induction false} MulCong(n: nat, k: nat)
    ensures Cong(Mul(n % BASE, k), Mul(n, k))
  {
    MulComm(n, k);
    MulComm(n % BASE, k);
    MulCongBy(n, k);
  }

  lemma MulComm(n: nat, k: nat)
    ensures Mul(n, k) == Mul(k, n)
  {
  }

  lemma {:induction false} MulCongBy(n: nat, k: nat)
    ensures Cong(Mul(k, n % BASE), Mul(k, n))
  {
    hide Cong, Mul;
    if k == 0 {
      MulNext(0, n);
      MulNext(0, n % BASE);
      CongSame(0);
    } else {
      MulCongBy(n, k - 1);
      MulNext(k - 1, n);
      MulNext(k - 1, n % BASE);
      CongMod(n);
      CongAdd(Mul(k - 1, n % BASE), Mul(k - 1, n), n % BASE, n);
    }
  }

  /** 65521 stands for 0. */
  function Full(x: nat): nat {
    if x == 0 then BASE else x
  }

  lemma ReduceOnce(s: int, x: nat)
    requires 1 <= s <= BASE && Cong(s, x) && x < BASE
    ensures s == Full(x)
  {
  }

  /** Taking off BASE or twice BASE leaves the residue. */
  lemma TakeOff(s: int)
    ensures Cong(s - BASE, s) && Cong(s - 2 * BASE, s)
  {
    MultipleCong(s, -1);
    MultipleCong(s, -2);
  }

  /** The product fits 32 bits. */
  lemma ProductFits(rem: nat, x: nat)
    requires rem < BASE && x < 0x10000
    ensures Mul(rem, x) < 0x1_0000_0000 && Mul(rem, x) >= 0
  {
    hide Mul;
    MulComm(rem, x);
    MulLe(x, rem);
  }

  lemma {:induction false} MulLe(n: nat, k: nat)
    requires k < BASE
    ensures 0 <= Mul(n, k) <= 65520 * n
  {
    hide Mul;
    if n == 0 {
      MulNext(0, k);
    } else {
      MulLe(n - 1, k);
      MulNext(n - 1, k);
    }
  }

  lemma MulLess(n: nat, a: nat)
    ensures Mul(n, a - 1) == Mul(n, a) - n
  {
  }

  /** The sums of the concatenation, up to multiples of BASE. */
  lemma CombinedSums(p: seq<byte>, q: seq<byte>, rem: nat)
    requires rem == |q| % BASE
    ensures Cong(S1(1, p) + S1(1, q) + BASE - 1, S1(1, p + q))
    ensures Cong(Mul(rem, S1(1, p)) + S2(1, 0, p) + S2(1, 0, q) + BASE - rem, S2(1, 0, p + q))
  {
    hide Cong, Mul, S1, S2;
    var a, b := S1(1, p), S2(1, 0, p);
    var n := |q|;
    SumsAppend(1, 0, p, q);
    FromStart(a, b, q);
    MultipleCong(a + S1(1, q) - 1, 1);
    CongTrans(a + S1(1, q) + BASE - 1, a + S1(1, q) - 1, S1(a, q));
    MulCong(n, a);
    MulLess(n, a);
    CongMod(n);
    CongAdd(Mul(rem, a), Mul(n, a), rem, n);
    CongSame(b + S2(1, 0, q));
    CongAdd(Mul(rem, a) - rem, Mul(n, a) - n, b + S2(1, 0, q), b + S2(1, 0, q));
    MultipleCong(Mul(rem, a) - rem + (b + S2(1, 0, q)), 1);
    CongChain(Mul(rem, a) + b + S2(1, 0, q) + BASE - rem, Mul(rem, a) - rem + (b + S2(1, 0, q)),
        Mul(n, a) - n + (b + S2(1, 0, q)), S2(a, b, q));
  }

  lemma {:induction false} SumsBound(data: seq<byte>)
    ensures S1(1, data) < BASE && S2(1, 0, data) < BASE
  {
  }

  /** A half of a checksum, or of what an earlier adler32_combine has left for it. */
  predicate Stands(half: nat, x: nat) {
    half == x || half == Full(x)
  }

  lemma StandsCong(half: nat, x: nat)
    requires Stands(half, x) && x < BASE
    ensures half <= BASE && Cong(half, x) && half % BASE == x
  {
  }

  /** The combined sums do not depend on which of 0 and 65521 stands for 0. */
  lemma StandingSums(p: seq<byte>, q: seq<byte>, rem: nat, a1: nat, b1: nat, a2: nat, b2: nat)
    requires rem == |q| % BASE && Stands(a1, S1(1, p)) && Stands(b1, S2(1, 0, p))
    requires Stands(a2, S1(1, q)) && Stands(b2, S2(1, 0, q))
    ensures Cong(a1 + a2 + BASE - 1, S1(1, p + q))
    ensures Cong(Mul(rem, a1) + (b1 + b2 + BASE - rem), S2(1, 0, p + q))
  {
    hide Cong, Mul, S1, S2, Stands;
    SumsBound(p);
    SumsBound(q);
    StandsCong(a1, S1(1, p));
    StandsCong(b1, S2(1, 0, p));
    StandsCong(a2, S1(1, q));
    StandsCong(b2, S2(1, 0, q));
    CombinedSums(p, q, rem);
    CongSame(BASE - 1);
    CongSame(BASE - rem);
    CongAdd(a1, S1(1, p), a2, S1(1, q));
    CongAdd(a1 + a2, S1(1, p) + S1(1, q), BASE - 1, BASE - 1);
    CongTrans2(a1 + a2 + BASE - 1, S1(1, p) + S1(1, q) + BASE - 1, S1(1, p + q));
    MulCongBy(a1, rem);
    CongFlip(Mul(rem, S1(1, p)), Mul(rem, a1));
    CongAdd(b1, S2(1, 0, p), b2, S2(1, 0, q));
    CongAdd(b1 + b2, S2(1, 0, p) + S2(1, 0, q), BASE - rem, BASE - rem);
    CongAdd(Mul(rem, a1), Mul(rem, S1(1, p)), b1 + b2 + (BASE - rem), S2(1, 0, p) + S2(1, 0, q) + (BASE - rem));
    CongTrans2(Mul(rem, a1) + (b1 + b2 + BASE - rem),
        Mul(rem, S1(1, p)) + (S2(1, 0, p) + S2(1, 0, q) + BASE - rem), S2(1, 0, p + q));
  }

  lemma CongFlip(x: int, y: int)
    requires Cong(x, y)
    ensures Cong(y, x)
  {
  }

  /**
   adler32_combine: each half is the checksum of the concatenation, except that 65521 stands
   for 0; so it may in either argument, and results can be combined further.
   */
  method AdlerCombine(adler1: nat, adler2: nat, len2: nat, noDivide: bool, ghost p: seq<byte>, ghost q: seq<byte>)
      returns (r: nat)
    requires adler1 < 0x1_0000_0000 && adler2 < 0x1_0000_0000 && len2 == |q|
    requires Stands(adler1 % 0x10000, S1(1, p)) && Stands(adler1 / 0x10000, S2(1, 0, p))
    requires Stands(adler2 % 0x10000, S1(1, q)) && Stands(adler2 / 0x10000, S2(1, 0, q))
    ensures r == Pack(Full(S1(1, p + q)), Full(S2(1, 0, p + q)))
    ensures Stands(r % 0x10000, S1(1, p + q)) && Stands(r / 0x10000, S2(1, 0, p + q))
  {
    hide Cong, Mul, S1, S2, Pack, Full, Stands;
    SumsBound(p);
    SumsBound(q);
    SumsBound(p + q);
    var rem := len2 % BASE;
    var a1, b1, a2, b2 := adler1 % 0x10000, adler1 / 0x10000, adler2 % 0x10000, adler2 / 0x10000;
    StandsCong(a1, S1(1, p));
    StandsCong(b1, S2(1, 0, p));
    StandsCong(a2, S1(1, q));
    StandsCong(b2, S2(1, 0, q));
    StandingSums(p, q, rem, a1, b1, a2, b2);
    ProductFits(rem, a1);
    var m := Mod(Mul(rem, a1), noDivide);
    CongMod(Mul(rem, a1));
    CongSame(b1 + b2 + BASE - rem);
    CongAdd(m, Mul(rem, a1), b1 + b2 + BASE - rem, b1 + b2 + BASE - rem);
    var sum1, sum2 := a1 + a2 + BASE - 1, m + (b1 + b2 + BASE - rem);
    CongTrans2(sum2, Mul(rem, a1) + (b1 + b2 + BASE - rem), S2(1, 0, p + q));
    sum1 := Subtract1(sum1, S1(1, p + q));
    sum2 := Subtract2(sum2, S2(1, 0, p + q));
    r := Pack(sum1, sum2);
    FullStands(S1(1, p + q), S2(1, 0, p + q));
  }

  lemma FullStands(x: nat, y: nat)
    requires x < BASE && y < BASE
    ensures var r := Pack(Full(x), Full(y)); Stands(r % 0x10000, x) && Stands(r / 0x10000, y)
  {
    hide Pack;
    Unpack(Full(x), Full(y));
  }

  lemma CongTrans2(x: int, y: int, z: int)
    requires Cong(x, y) && Cong(y, z)
    ensures Cong(x, z)
  {
  }

  method Subtract1(s: nat, ghost x: nat) returns (r: nat)
    requires 1 <= s <= 3 * BASE && Cong(s, x) && x < BASE
    ensures r == Full(x)
  {
    hide Cong;
    r := s;
    TakeOff(r);
    if r > BASE {
      CongTrans(r - BASE, r, r - BASE);
      CongTrans2(r - BASE, r, x);
      r := r - BASE;
    }
    TakeOff(r);
    if r > BASE {
      CongTrans2(r - BASE, r, x);
      r := r - BASE;
    }
    ReduceOnce(r, x);
  }

  method Subtract2(s: nat, ghost x: nat) returns (r: nat)
    requires 1 <= s <= 4 * BASE && Cong(s, x) && x < BASE
    ensures r == Full(x)
  {
    hide Cong;
    r := s;
    TakeOff(r);
    if r > 2 * BASE {
      CongTrans2(r - 2 * BASE, r, x);
      r := r - 2 * BASE;
    }
    TakeOff(r);
    if r > BASE {
      CongTrans2(r - BASE, r, x);
      r := r - BASE;
    }
    ReduceOnce(r, x);
  }

  // ---------- where the results are not the checksum ----------

  /** A single byte after a second half of 65535, which no checksum has, is not fully reduced. */
  method ByteNotReduced() returns (r: nat)
    ensures r != Pack(S1(65520, [0]), S2(65520, 65535, [0]))
  {
    hide S1, S2;
    Unpack(65520, 65535);
    r := Adler(Pack(65520, 65535), [0], false);
  }

  /** Combining the checksums of two empty strings leaves 65521 for 0. */
  method CombineOfNothing() returns (r: nat)
    ensures r == Pack(1, BASE) && r != AdlerOf([])
  {
    hide S1, S2;
    SumsOfNone(1, 0);
    ghost var none: seq<byte> := [];
    assert none + none == none;
    assert Stands(1, 1) && Stands(0, 0);
    r := AdlerCombine(1, 1, 0, false, none, none);
  }

  /** adler32_combine gives the checksum exactly when neither combined sum is a multiple of 65521. */
  lemma CombineExact(p: seq<byte>, q: seq<byte>)
    ensures Pack(Full(S1(1, p + q)), Full(S2(1, 0, p + q))) == AdlerOf(p + q)
            <==> (S1(1, p) + S1(1, q) + BASE - 1) % BASE != 0 && (Mul(|q| % BASE, S1(1, p)) + S2(1, 0, p) + S2(1, 0,
                q) + BASE - |q| % BASE) % BASE != 0
  {
    hide S1, S2, Mul;
    CombinedSums(p, q, |q| % BASE);
    SumsBound(p + q);
  }

  // ---------- a running checksum ----------

  /** The checksum of `data`. */
  function AdlerOf(data: seq<byte>): (r: nat)
    ensures r < 0x1_0000_0000
  {
    SumsBound(data);
    Pack(S1(1, data), S2(1, 0, data))
  }

  /** adler32 called on one piece after another gives the checksum of all. */
  method AdlerMore(adler: nat, data: seq<byte>, ghost before: seq<byte>) returns (r: nat)
    requires adler == AdlerOf(before)
    ensures r == AdlerOf(before + data)
  {
    hide S1, S2;
    SumsBound(before);
    Unpack(S1(1, before), S2(1, 0, before));
    SumsAppend(1, 0, before, data);
    r := Adler(adler, data, false);
  }

  lemma AdlerOfNone()
    ensures AdlerOf([]) == 1
  {
    SumsOfNone(1, 0);
  }

  /** One byte more: both sums modulo 65521. */
  lemma AdlerNext(s: seq<byte>, x: byte)
    ensures var a, b := AdlerOf(s) % 0x10000, AdlerOf(s) / 0x10000;
            var c := (a + x as nat) % 65521;
            AdlerOf(s + [x]) == c + 0x10000 * ((b + c) % 65521)
  {
    hide S1, S2, AdlerOf;
    var t := s + [x];
    assert t[..|t| - 1] == s;
    LastSums(1, 0, t);
    SumHalves(s);
    SumHalves(t);
  }

  lemma SumHalves(s: seq<byte>)
    ensures AdlerOf(s) % 0x10000 == S1(1, s) && AdlerOf(s) / 0x10000 == S2(1, 0, s)
    ensures AdlerOf(s) == S1(1, s) + 0x10000 * S2(1, 0, s)
  {
    hide S1, S2;
    SumsBound(s);
  }

  lemma LastSums(a: nat, b: nat, t: seq<byte>)
    requires t != []
    ensures S1(a, t) == (S1(a, t[..|t| - 1]) + t[|t| - 1]) % BASE
    ensures S2(a, b, t) == (S2(a, b, t[..|t| - 1]) + S1(a, t)) % BASE
  {
  }
}
