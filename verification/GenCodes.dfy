/** gen_codes and bi_reverse: the canonical codes, bit-reversed for the LSB-first writer. */
module GenCodes {
  import opened Bits
  import opened CanonicalCode
  import opened InfTrees
  import opened BitLengths

  /** Reversing a number's bits: reading MSB first what was written LSB first. */
  lemma {:induction false} ReverseBits(c: nat, n: nat)
    ensures MVal(BitsOf(c, n)) == Val(MBits(c, n))
  {
    if n > 0 {
      ReverseBits(c / 2, n - 1);
      MValAppend([c % 2 == 1], BitsOf(c / 2, n - 1));
      ValAppend(MBits(c / 2, n - 1), [c % 2 == 1]);
      assert MVal([c % 2 == 1]) == c % 2 by { assert [c % 2 == 1][..0] == []; }
      assert Val([c % 2 == 1]) == c % 2;
    }
  }

  lemma MValSnoc(c: nat, i: nat)
    ensures MVal(BitsOf(c, i + 1)) == 2 * MVal(BitsOf(c, i)) + Shr(c, i) % 2
  {
    BitsOfSplit(c, i, 1);
    MValAppend(BitsOf(c, i), BitsOf(Shr(c, i), 1));
    var b := BitsOf(Shr(c, i), 1);
    assert b == [Shr(c, i) % 2 == 1] by { assert BitsOf(Shr(c, i) / 2, 0) == []; }
    assert MVal(b) == Shr(c, i) % 2 by { assert b[..0] == []; }
    assert Shl(MVal(BitsOf(c, i)), 1) == 2 * MVal(BitsOf(c, i));
  }

  lemma ShrStep(c: nat, i: nat)
    ensures Shr(c, i + 1) == Shr(c, i) / 2
  {
    ShrShr(c, i, 1);
  }

  /** bi_reverse: reverse the first `len` bits of `code`. */
  method BiReverse(code: nat, len: nat) returns (r: nat)
    requires 1 <= len <= MAX_BITS && code < Pow2(len)
    ensures r == Val(MBits(code, len))
  {
    var c, res, n := code, 0, len;
    ghost var i := 0;
    assert BitsOf(code, 0) == [];
    while n > 0
      invariant i + n == len && c == Shr(code, i) && res == 2 * MVal(BitsOf(code, i))
      decreases n
    {
      hide Shr, MVal;
      MValSnoc(code, i);
      ShrStep(code, i);
      res := (res + c % 2) * 2;   // res |= code & 1, res <<= 1: the low bit of res is 0
      c := c / 2;
      n := n - 1;
      i := i + 1;
    }
    ReverseBits(code, len);
    r := res / 2;
  }

  lemma NextCodeBound(lens: seq<nat>, l: nat)
    requires Fits(lens) && 1 <= l <= MAX_BITS
    ensures NextCode(lens, l) <= Pow2(l) <= 0x8000
  {
    hide LenSum, Kraft, NextCode, Shl, Pow2;
    Pow2Values();
    LenSumIsNextCode(lens, l);
    assert LenSum(lens, l) <= Pow2(MAX_BITS) by { LenSumMono(lens, l, MAX_BITS + 1); KraftIs(lens); }
    ShlPow2(l, MAX_BITS - l);
    if NextCode(lens, l) > Pow2(l) {
      ShlLt(Pow2(l), NextCode(lens, l), MAX_BITS - l);
    }
    Pow2Mono(l, MAX_BITS);
  }

  lemma KraftIs(lens: seq<nat>)
    ensures Kraft(lens) == LenSum(lens, MAX_BITS + 1)
  {
  }

  /** First pass: the starting code of each length, in 16-bit arithmetic. */
  method StartCodes(lens: seq<nat>, bl: array<nat>) returns (next: array<nat>)
    requires Fits(lens) && bl.Length == MAX_BITS + 1 && CountsOk(bl[..], lens)
    ensures fresh(next) && next.Length == MAX_BITS + 1
    ensures forall l :: 1 <= l <= MAX_BITS ==> next[l] == NextCode(lens, l)
  {
    hide Total, Kraft, Pow2;
    next := new nat[MAX_BITS + 1](_ => 0);
    var code := 0;
    var bits := 1;
    while bits <= MAX_BITS
      invariant 1 <= bits <= MAX_BITS + 1 && code == NextCode(lens, bits - 1)
      invariant forall l :: 1 <= l < bits ==> next[l] == NextCode(lens, l)
    {
      NextCodeBound(lens, bits);
      assert bl[..][bits - 1] == bl[bits - 1];
      code := (2 * (code + bl[bits - 1])) % 0x10000;
      next[bits] := code;
      bits := bits + 1;
    }
  }

  /**
   gen_codes: every symbol with a length gets its canonical code of section 3.2.2 of
   RFC 1951, stored so that sending its low bits first sends the code in order.
   */
  method GenerateCodes(fc: array<nat>, lens: seq<nat>, bl: array<nat>)
    requires Fits(lens) && bl.Length == MAX_BITS + 1 && CountsOk(bl[..], lens) && |lens| <= fc.Length && bl != fc
    modifies fc
    ensures forall s :: 0 <= s < |lens| && lens[s] > 0 ==> fc[s] == Huff(lens, s)
    ensures forall s :: 0 <= s < fc.Length && (s >= |lens| || lens[s] == 0) ==> fc[s] == old(fc[s])
  {
    hide NextCode, Kraft, Huff, Pow2;
    var next := StartCodes(lens, bl);
    var n: nat := 0;
    while n < |lens|
      invariant n <= |lens|
      invariant forall l :: 1 <= l <= MAX_BITS ==> next[l] == NextCode(lens, l) + Count(lens, n, l)
      invariant forall s :: 0 <= s < n && lens[s] > 0 ==> fc[s] == Huff(lens, s)
      invariant forall s :: 0 <= s < fc.Length && (s >= n || lens[s] == 0) ==> fc[s] == old(fc[s])
    {
      var len := lens[n];
      if len != 0 {
        CodeFits(lens, n);
        var c := BiReverse(next[len], len);
        HuffIs(lens, n);
        fc[n] := c;
        next[len] := next[len] + 1;
      }
      n := n + 1;
    }
  }

  lemma HuffIs(lens: seq<nat>, s: nat)
    requires s < |lens|
    ensures Huff(lens, s) == Val(MBits(Code(lens, s), lens[s]))
  {
  }
}
