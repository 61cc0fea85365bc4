/**
 Bit strings in stream order and the numbers they stand for.

 A deflate stream packs ordinary fields least significant bit first and
 Huffman codes most significant bit first.  `Val` and `BitsOf` read a bit
 string the first way, `MVal` and `MBits` the second.  Shifts are defined by
 doubling and halving, so that facts about them need only linear arithmetic.
 */
module Bits {

  type byte = x: int | 0 <= x < 256

  function Pow2(n: nat): (r: nat)
    ensures r >= 1
  {
    if n == 0 then 1 else 2 * Pow2(n - 1)
  }

  /** `v << n` on an unbounded unsigned value. */
  function Shl(v: nat, n: nat): nat {
    if n == 0 then v else 2 * Shl(v, n - 1)
  }

  /** `v >> n` on an unsigned value. */
  function Shr(v: nat, n: nat): nat {
    if n == 0 then v else Shr(v / 2, n - 1)
  }

  /** `v & ((1 << n) - 1)` on an unsigned value. */
  function Low(v: nat, n: nat): (r: nat)
    ensures r < Pow2(n)
  {
    if n == 0 then 0 else v % 2 + 2 * Low(v / 2, n - 1)
  }

  function Min(a: nat, b: nat): nat {
    if a <= b then a else b
  }

  function B(b: bool): nat {
    if b then 1 else 0
  }

  /** The number whose bits, least significant first, are `s`. */
  function Val(s: seq<bool>): nat {
    if s == [] then 0 else B(s[0]) + 2 * Val(s[1..])
  }

  /** The `n` low bits of `v`, least significant first. */
  function BitsOf(v: nat, n: nat): (s: seq<bool>)
    ensures |s| == n
  {
    if n == 0 then [] else [v % 2 == 1] + BitsOf(v / 2, n - 1)
  }

  /** The number whose bits, most significant first, are `s`. */
  function MVal(s: seq<bool>): nat {
    if s == [] then 0 else 2 * MVal(s[..|s| - 1]) + B(s[|s| - 1])
  }

  /** The `n` low bits of `v`, most significant first. */
  function MBits(v: nat, n: nat): (s: seq<bool>)
    ensures |s| == n
  {
    if n == 0 then [] else MBits(v / 2, n - 1) + [v % 2 == 1]
  }

  /** All the bits of a byte string, in stream order. */
  function BytesBits(bs: seq<byte>): (s: seq<bool>)
    ensures |s| == 8 * |bs|
  {
    if bs == [] then [] else BitsOf(bs[0], 8) + BytesBits(bs[1..])
  }

  // ---------- powers and shifts ----------

  lemma {:induction false} Pow2Mono(m: nat, n: nat)
    requires m <= n
    ensures Pow2(m) <= Pow2(n)
  {
    if m < n {
      Pow2Mono(m, n - 1);
    }
  }

  lemma {:induction false} ShlAdd(x: nat, y: nat, n: nat)
    ensures Shl(x + y, n) == Shl(x, n) + Shl(y, n)
  {
    if n > 0 {
      ShlAdd(x, y, n - 1);
    }
  }

  lemma {:induction false} ShlOne(n: nat)
    ensures Shl(1, n) == Pow2(n) && Shl(0, n) == 0
  {
    if n > 0 {
      ShlOne(n - 1);
    }
  }

  lemma ShlZero(n: nat)
    ensures Shl(0, n) == 0
  {
    ShlOne(n);
  }

  lemma ShlByZero(v: nat)
    ensures Shl(v, 0) == v
  {
  }

  lemma {:induction false} ShlTimes(v: nat, n: nat)
    ensures Shl(v, n) == v * Pow2(n)
  {
    if n > 0 {
      ShlTimes(v, n - 1);
    }
  }

  lemma Pow2Next(n: nat)
    ensures Pow2(n + 1) == 2 * Pow2(n)
  {
  }

  lemma ShlNext(x: nat, n: nat)
    ensures Shl(x + 1, n) == Shl(x, n) + Pow2(n)
  {
    ShlAdd(x, 1, n);
    ShlOne(n);
  }

  lemma ShlLt(x: nat, y: nat, n: nat)
    requires x < y
    ensures Shl(x, n) + Pow2(n) <= Shl(y, n)
  {
    ShlAdd(x + 1, y - x - 1, n);
    ShlNext(x, n);
  }

  lemma ShlLe(x: nat, y: nat, n: nat)
    requires x <= y
    ensures Shl(x, n) <= Shl(y, n)
  {
    ShlAdd(x, y - x, n);
  }

  lemma ShlInjective(x: nat, y: nat, n: nat)
    requires Shl(x, n) == Shl(y, n)
    ensures x == y
  {
    if x < y {
      ShlLt(x, y, n);
    } else if y < x {
      ShlLt(y, x, n);
    }
  }

  lemma {:induction false} ShlShl(x: nat, m: nat, n: nat)
    ensures Shl(Shl(x, m), n) == Shl(x, m + n)
  {
    if n > 0 {
      ShlShl(x, m, n - 1);
    }
  }

  lemma {:induction false} ShlPow2(m: nat, n: nat)
    ensures Shl(Pow2(m), n) == Pow2(m + n)
  {
    if n > 0 {
      ShlPow2(m, n - 1);
    }
  }

  lemma {:induction false} ShrLow(v: nat, n: nat)
    ensures v == Low(v, n) + Shl(Shr(v, n), n)
  {
    if n > 0 {
      ShrLow(v / 2, n - 1);
    }
  }

  lemma {:induction false} ShrLowUnique(v: nat, n: nat, q: nat, r: nat)
    requires v == r + Shl(q, n) && r < Pow2(n)
    ensures Shr(v, n) == q && Low(v, n) == r
  {
    if n > 0 {
      ShrLowUnique(v / 2, n - 1, q, r / 2);
    }
  }

  /** The quotient by a power of two, as an interval. */
  lemma ShrIsInterval(v: nat, n: nat, q: nat)
    ensures Shr(v, n) == q <==> Shl(q, n) <= v < Shl(q, n) + Pow2(n)
  {
    ShrLow(v, n);
    if Shl(q, n) <= v < Shl(q, n) + Pow2(n) {
      ShrLowUnique(v, n, q, v - Shl(q, n));
    }
  }

  lemma ShrBound(v: nat, n: nat, k: nat)
    requires v < Shl(k, n)
    ensures Shr(v, n) < k
  {
    ShrLow(v, n);
    if k <= Shr(v, n) {
      ShlLe(k, Shr(v, n), n);
    }
  }

  lemma {:induction false} LowSmall(v: nat, n: nat)
    requires v < Pow2(n)
    ensures Low(v, n) == v && Shr(v, n) == 0
  {
    if n > 0 {
      LowSmall(v / 2, n - 1);
    }
  }

  lemma {:induction false} ShrShr(v: nat, m: nat, n: nat)
    ensures Shr(Shr(v, m), n) == Shr(v, m + n)
  {
    if m > 0 {
      ShrShr(v / 2, m - 1, n);
    }
  }

  lemma {:induction false} LowLow(v: nat, m: nat, n: nat)
    requires n <= m
    ensures Low(Low(v, m), n) == Low(v, n)
  {
    if n > 0 {
      var r := Low(v / 2, m - 1);
      assert Low(v, m) == v % 2 + 2 * r;
      assert Low(v, m) / 2 == r && Low(v, m) % 2 == v % 2;
      LowLow(v / 2, m - 1, n - 1);
    }
  }

  /** A field in the middle of a word survives cutting the word above it. */
  lemma {:induction false} LowShrLow(v: nat, m: nat, b: nat, n: nat)
    requires b + n <= m
    ensures Low(Shr(Low(v, m), b), n) == Low(Shr(v, b), n)
  {
    if b == 0 {
      LowLow(v, m, n);
    } else {
      LowShrLow(v / 2, m - 1, b - 1, n);
      assert Low(v, m) / 2 == Low(v / 2, m - 1);
    }
  }

  lemma Pow2Values()
    ensures Pow2(0) == 1 && Pow2(1) == 2 && Pow2(2) == 4 && Pow2(3) == 8 && Pow2(4) == 16
    ensures Pow2(5) == 32 && Pow2(6) == 64 && Pow2(7) == 128 && Pow2(8) == 256
    ensures Pow2(9) == 512 && Pow2(13) == 8192 && Pow2(15) == 32768 && Pow2(16) == 65536
  {
    assert Pow2(4) == 16;
    assert Pow2(8) == 256;
    assert Pow2(12) == 4096;
    assert Pow2(16) == 65536;
  }

  // ---------- Val and BitsOf ----------

  lemma {:induction false} ValBound(s: seq<bool>)
    ensures Val(s) < Pow2(|s|)
  {
    if s != [] {
      ValBound(s[1..]);
    }
  }

  lemma {:induction false} ValAppend(s: seq<bool>, t: seq<bool>)
    ensures Val(s + t) == Val(s) + Shl(Val(t), |s|)
  {
    if s == [] {
      assert s + t == t;
    } else {
      ValAppend(s[1..], t);
      assert (s + t)[1..] == s[1..] + t;
    }
  }

  lemma {:induction false} BitsOfVal(s: seq<bool>)
    ensures BitsOf(Val(s), |s|) == s
  {
    if s != [] {
      BitsOfVal(s[1..]);
      assert [s[0]] + s[1..] == s;
    }
  }

  lemma {:induction false} ValBitsOf(v: nat, n: nat)
    ensures Val(BitsOf(v, n)) == Low(v, n)
  {
    if n > 0 {
      ValBitsOf(v / 2, n - 1);
      assert BitsOf(v, n)[1..] == BitsOf(v / 2, n - 1);
    }
  }

  lemma ValInjective(s: seq<bool>, t: seq<bool>)
    requires |s| == |t| && Val(s) == Val(t)
    ensures s == t
  {
    BitsOfVal(s);
    BitsOfVal(t);
  }

  /** Appending a field above the valid bits of an accumulator. */
  lemma {:induction false} BitsOfAppend(v: nat, n: nat, w: nat, m: nat)
    requires v < Pow2(n)
    ensures BitsOf(v + Shl(w, n), n + m) == BitsOf(v, n) + BitsOf(w, m)
  {
    if n == 0 {
      assert BitsOf(v, 0) + BitsOf(w, m) == BitsOf(w, m);
    } else {
      BitsOfAppend(v / 2, n - 1, w, m);
      var u := v + Shl(w, n);
      assert u / 2 == v / 2 + Shl(w, n - 1);
      assert BitsOf(v, n) + BitsOf(w, m) == [v % 2 == 1] + (BitsOf(v / 2, n - 1) + BitsOf(w, m));
    }
  }

  /** The low bits do not see what is above them. */
  lemma {:induction false} BitsOfLow(v: nat, n: nat, m: nat)
    requires n <= m
    ensures BitsOf(Low(v, m), n) == BitsOf(v, n)
  {
    if n > 0 {
      BitsOfLow(v / 2, n - 1, m - 1);
      assert Low(v, m) / 2 == Low(v / 2, m - 1);
    }
  }

  lemma BitsOfPrefix(v: nat, n: nat, m: nat)
    requires n <= m
    ensures BitsOf(v, n) == BitsOf(v, m)[..n]
  {
    BitsOfSplit(v, n, m - n);
    BitsOfLow(v, n, n);
  }

  /** Splitting an accumulator after its `n` low bits. */
  lemma BitsOfSplit(v: nat, n: nat, m: nat)
    ensures BitsOf(v, n + m) == BitsOf(v, n) + BitsOf(Shr(v, n), m)
  {
    ShrLow(v, n);
    BitsOfAppend(Low(v, n), n, Shr(v, n), m);
    BitsOfLow(v, n, n);
  }

  lemma {:induction false} BytesBitsAppend(a: seq<byte>, b: seq<byte>)
    ensures BytesBits(a + b) == BytesBits(a) + BytesBits(b)
  {
    if a == [] {
      assert a + b == b;
    } else {
      BytesBitsAppend(a[1..], b);
      assert (a + b)[1..] == a[1..] + b;
      assert BitsOf(a[0],
          8) + (BytesBits(a[1..]) + BytesBits(b)) == (BitsOf(a[0], 8) + BytesBits(a[1..])) + BytesBits(b);
    }
  }

  // ---------- MVal and MBits ----------

  lemma {:induction false} MValBound(s: seq<bool>)
    ensures MVal(s) < Pow2(|s|)
  {
    if s != [] {
      MValBound(s[..|s| - 1]);
    }
  }

  lemma MBitsSnoc(a: nat, b: bool, n: nat)
    ensures MBits(2 * a + B(b), n + 1) == MBits(a, n) + [b]
  {
    var v := 2 * a + B(b);
    assert v / 2 == a && v % 2 == B(b);
  }

  lemma {:induction false} MBitsMVal(s: seq<bool>)
    ensures MBits(MVal(s), |s|) == s
  {
    if s != [] {
      var n := |s| - 1;
      MBitsMVal(s[..n]);
      MBitsSnoc(MVal(s[..n]), s[n], n);
      assert s[..n] + [s[n]] == s;
    }
  }

  lemma {:induction false} MValMBits(v: nat, n: nat)
    requires v < Pow2(n)
    ensures MVal(MBits(v, n)) == v
  {
    if n > 0 {
      MValMBits(v / 2, n - 1);
      var s := MBits(v, n);
      assert s[..n - 1] == MBits(v / 2, n - 1);
      assert s[n - 1] == (v % 2 == 1);
    }
  }

  lemma MValInjective(s: seq<bool>, t: seq<bool>)
    requires |s| == |t| && MVal(s) == MVal(t)
    ensures s == t
  {
    MBitsMVal(s);
    MBitsMVal(t);
  }

  lemma {:induction false} MValAppend(s: seq<bool>, t: seq<bool>)
    ensures MVal(s + t) == Shl(MVal(s), |t|) + MVal(t)
  {
    if t == [] {
      assert s + t == s;
    } else {
      var t' := t[..|t| - 1];
      MValAppend(s, t');
      assert (s + t)[..|s + t| - 1] == s + t';
      assert (s + t)[|s + t| - 1] == t[|t| - 1];
    }
  }

  /** A prefix is the quotient of the whole, most significant bit first. */
  lemma MValPrefix(s: seq<bool>, n: nat)
    requires n <= |s|
    ensures MVal(s[..n]) == Shr(MVal(s), |s| - n)
  {
    var t := s[n..];
    assert s[..n] + t == s;
    MValAppend(s[..n], t);
    MValBound(t);
    ShrLowUnique(MVal(s), |s| - n, MVal(s[..n]), MVal(t));
  }
}
