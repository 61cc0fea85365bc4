/** The fixed code of section 3.2.6 of RFC 1951, which needs no header. */
module FixedCode {
  import opened Bits
  import opened CanonicalCode

  function FixedLens(): (r: seq<nat>)
    ensures |r| == 288
  {
    seq(288, i => if i < 144 then 8 else if i < 256 then 9 else if i < 280 then 7 else 8)
  }

  function FixedDists(): (r: seq<nat>)
    ensures |r| == 32
  {
    seq(32, _ => 5)
  }

  /** Counting over a run of equal lengths. */
  lemma {:induction false} CountEqual(lens: seq<nat>, a: nat, b: nat, v: nat, l: nat)
    requires a <= b <= |lens| && forall i :: a <= i < b ==> lens[i] == v
    ensures Count(lens, b, l) == Count(lens, a, l) + if l == v then b - a else 0
  {
    if a < b {
      CountEqual(lens, a, b - 1, v, l);
    }
  }

  lemma FixedTotal(l: nat)
    ensures Total(FixedLens(), l) == if l == 7 then 24 else if l == 8 then 152 else if l == 9 then 112 else 0
    ensures Total(FixedDists(), l) == if l == 5 then 32 else 0
  {
    hide Count;
    var f := FixedLens();
    assert Count(f, 0, l) == 0 && Count(FixedDists(), 0, l) == 0;
    CountEqual(f, 0, 144, 8, l);
    CountEqual(f, 144, 256, 9, l);
    CountEqual(f, 256, 280, 7, l);
    CountEqual(f, 280, 288, 8, l);
    CountEqual(FixedDists(), 0, 32, 5, l);
  }

  lemma {:induction false} LenSumFlat(lens: seq<nat>, a: nat, b: nat)
    requires 1 <= a <= b <= MAX_BITS + 1 && forall l :: a <= l < b ==> Total(lens, l) == 0
    ensures LenSum(lens, b) == LenSum(lens, a)
  {
    hide Total;
    if a < b {
      LenSumFlat(lens, a, b - 1);
      ShlZero(MAX_BITS - (b - 1));
    }
  }

  lemma LenSumNext(lens: seq<nat>, l: nat)
    requires 1 <= l <= MAX_BITS
    ensures LenSum(lens, l + 1) == LenSum(lens, l) + Shl(Total(lens, l), MAX_BITS - l) && LenSum(lens, 1) == 0
  {
  }

  /** The fixed codes are complete. */
  lemma FixedComplete()
    ensures Complete(FixedLens()) && Complete(FixedDists())
  {
    hide Total, LenSum, Shl, Pow2;
    var f, d := FixedLens(), FixedDists();
    forall l ensures Total(f, l) == (if l == 7 then 24 else if l == 8 then 152 else if l == 9 then 112 else 0)
                  && Total(d, l) == (if l == 5 then 32 else 0) {
      if l >= 0 {
        FixedTotal(l);
      }
    }
    LenSumFlat(f, 1, 7);
    LenSumNext(f, 7);
    LenSumNext(f, 8);
    LenSumNext(f, 9);
    LenSumFlat(f, 10, 16);
    LenSumFlat(d, 1, 5);
    LenSumNext(d, 5);
    LenSumFlat(d, 6, 16);
    ShiftValues();
    Pow2Values();
  }

  lemma ShiftValues()
    ensures Shl(24, 8) == 6144 && Shl(152, 7) == 19456 && Shl(112, 6) == 7168 && Shl(32, 10) == 32768
  {
    ShlTimes(24, 8);
    ShlTimes(152, 7);
    ShlTimes(112, 6);
    ShlPow2(5, 10);
    Pow2Values();
  }

  // ---------- the code words ----------

  /** The code of literal or length symbol `s` as the table of section 3.2.6 gives it, first bit first. */
  function FixedWord(s: nat): seq<bool>
    requires s < 288
  {
    if s < 144 then MBits(0x30 + s, 8)
    else if s < 256 then MBits(0x190 + (s - 144), 9)
    else if s < 280 then MBits(s - 256, 7)
    else MBits(0xC0 + (s - 280), 8)
  }

  lemma {:induction false} NoneBefore(lens: seq<nat>, l: nat)
    requires forall k: nat :: k < l ==> Total(lens, k) == 0
    ensures NextCode(lens, l) == 0
  {
    hide Total;
    if l > 0 {
      NoneBefore(lens, l - 1);
    }
  }

  lemma NextIs(lens: seq<nat>, l: nat)
    requires l >= 1
    ensures NextCode(lens, l + 1) == 2 * (NextCode(lens, l) + Total(lens, l))
  {
    hide Total;
  }

  /** Where the codes of each length start. */
  lemma FixedStarts()
    ensures NextCode(FixedLens(), 7) == 0 && NextCode(FixedLens(), 8) == 0x30 && NextCode(FixedLens(), 9) == 0x190
    ensures NextCode(FixedDists(), 5) == 0
  {
    hide Total, NextCode, FixedLens, FixedDists;
    var f, d := FixedLens(), FixedDists();
    forall l: nat ensures Total(f, l) == (if l == 7 then 24 else if l == 8 then 152 else if l == 9 then 112 else 0)
                          && Total(d, l) == (if l == 5 then 32 else 0) {
      FixedTotal(l);
    }
    NoneBefore(f, 7);
    NextIs(f, 7);
    NextIs(f, 8);
    NoneBefore(d, 5);
  }

  /** The canonical code of the fixed lengths has the words of the table. */
  lemma FixedWords(s: nat)
    requires s < 288
    ensures CodeBits(FixedLens(), s) == FixedWord(s)
  {
    hide NextCode, Count;
    var f := FixedLens();
    FixedStarts();
    NoneCounted(f);
    if s < 144 {
      CountEqual(f, 0, s, 8, 8);
    } else if s < 256 {
      CountEqual(f, 0, 144, 8, 9);
      CountEqual(f, 144, s, 9, 9);
    } else if s < 280 {
      CountEqual(f, 0, 144, 8, 7);
      CountEqual(f, 144, 256, 9, 7);
      CountEqual(f, 256, s, 7, 7);
    } else {
      CountEqual(f, 0, 144, 8, 8);
      CountEqual(f, 144, 256, 9, 8);
      CountEqual(f, 256, 280, 7, 8);
      CountEqual(f, 280, s, 8, 8);
    }
  }

  lemma NoneCounted(lens: seq<nat>)
    ensures forall l: nat :: Count(lens, 0, l) == 0
  {
  }

  /** Distance codes are their own five bits. */
  lemma FixedDistWords(d: nat)
    requires d < 32
    ensures CodeBits(FixedDists(), d) == MBits(d, 5)
  {
    hide NextCode, Count;
    FixedStarts();
    NoneCounted(FixedDists());
    CountEqual(FixedDists(), 0, d, 5, 5);
  }
}
