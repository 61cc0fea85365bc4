/**
 The canonical Huffman code of section 3.2.2 of RFC 1951: a list of code
 lengths determines the codes.  The encoder (gen_codes) and the decoder
 (inflate_table) are both proved against this one definition.
 */
module CanonicalCode {
  import opened Bits

  const MAX_BITS := 15

  /** Every length is 0 (symbol unused) or a code length in 1..15. */
  ghost predicate ValidLens(lens: seq<nat>) {
    forall i :: 0 <= i < |lens| ==> lens[i] <= MAX_BITS
  }

  /** How many of the first `k` symbols have length `l`. */
  function Count(lens: seq<nat>, k: nat, l: nat): (c: nat)
    requires k <= |lens|
    ensures c <= k
  {
    if k == 0 then 0 else Count(lens, k - 1, l) + (if lens[k - 1] == l then 1 else 0)
  }

  function Total(lens: seq<nat>, l: nat): nat {
    Count(lens, |lens|, l)
  }

  /** Code space, in units of 2^-15, taken by all codes shorter than `l`. */
  function LenSum(lens: seq<nat>, l: nat): nat
    requires l <= MAX_BITS + 1
  {
    if l <= 1 then 0 else LenSum(lens, l - 1) + Shl(Total(lens, l - 1), MAX_BITS - (l - 1))
  }

  /** The Kraft sum in units of 2^-15: 32768 for a complete code. */
  function Kraft(lens: seq<nat>): nat {
    LenSum(lens, MAX_BITS + 1)
  }

  ghost predicate Fits(lens: seq<nat>) {
    ValidLens(lens) && Kraft(lens) <= Pow2(MAX_BITS)
  }

  ghost predicate Complete(lens: seq<nat>) {
    ValidLens(lens) && Kraft(lens) == Pow2(MAX_BITS)
  }

  /** `next_code[l]` of RFC 1951 before any code of length `l` is given out. */
  function NextCode(lens: seq<nat>, l: nat): nat {
    if l == 0 then 0
    else 2 * (NextCode(lens, l - 1) + if l == 1 then 0 else Total(lens, l - 1))
  }

  ghost predicate IsSymbol(lens: seq<nat>, s: nat) {
    s < |lens| && 1 <= lens[s] <= MAX_BITS
  }

  /** The code of symbol `s`, as a number of `lens[s]` bits. */
  function Code(lens: seq<nat>, s: nat): nat
    requires s < |lens|
  {
    NextCode(lens, lens[s]) + Count(lens, s, lens[s])
  }

  /** The code of symbol `s` as it stands in the stream. */
  function CodeBits(lens: seq<nat>, s: nat): (b: seq<bool>)
    requires s < |lens|
    ensures |b| == lens[s]
  {
    MBits(Code(lens, s), lens[s])
  }

  /** Left end of the code's interval of 15-bit strings. */
  function Start(lens: seq<nat>, s: nat): nat
    requires IsSymbol(lens, s)
  {
    LenSum(lens, lens[s]) + Shl(Count(lens, s, lens[s]), MAX_BITS - lens[s])
  }

  function Weight(lens: seq<nat>, s: nat): nat
    requires IsSymbol(lens, s)
  {
    Pow2(MAX_BITS - lens[s])
  }

  /** Canonical order: by length, then by symbol. */
  ghost predicate Before(lens: seq<nat>, s: nat, t: nat)
    requires s < |lens| && t < |lens|
  {
    lens[s] < lens[t] || (lens[s] == lens[t] && s < t)
  }

  // ---------- counting ----------

  lemma {:induction false} CountMono(lens: seq<nat>, j: nat, k: nat, l: nat)
    requires j <= k <= |lens|
    ensures Count(lens, j, l) <= Count(lens, k, l)
  {
    if j < k {
      CountMono(lens, j, k - 1, l);
    }
  }

  /** Every rank below the count belongs to some symbol. */
  lemma {:induction false} CountFind(lens: seq<nat>, k: nat, l: nat, rank: nat) returns (s: nat)
    requires k <= |lens| && rank < Count(lens, k, l)
    ensures s < k && lens[s] == l && Count(lens, s, l) == rank
  {
    if lens[k - 1] == l && Count(lens, k - 1, l) == rank {
      s := k - 1;
    } else {
      s := CountFind(lens, k - 1, l, rank);
    }
  }

  lemma {:induction false} LenSumMono(lens: seq<nat>, a: nat, b: nat)
    requires a <= b <= MAX_BITS + 1
    ensures LenSum(lens, a) <= LenSum(lens, b)
  {
    if a < b {
      LenSumMono(lens, a, b - 1);
    }
  }

  lemma {:induction false} LenSumIsNextCode(lens: seq<nat>, l: nat)
    requires 1 <= l <= MAX_BITS
    ensures LenSum(lens, l) == Shl(NextCode(lens, l), MAX_BITS - l)
  {
    var n, t := NextCode(lens, l - 1), if l == 1 then 0 else Total(lens, l - 1);
    ShlShl(n + t, 1, MAX_BITS - l);
    assert Shl(n + t, 1) == NextCode(lens, l);
    if l == 1 {
      ShlOne(MAX_BITS - l);
    } else {
      LenSumIsNextCode(lens, l - 1);
      ShlAdd(n, t, MAX_BITS - (l - 1));
    }
  }

  lemma StartIsCode(lens: seq<nat>, s: nat)
    requires IsSymbol(lens, s)
    ensures Start(lens, s) == Shl(Code(lens, s), MAX_BITS - lens[s])
    ensures Start(lens, s) + Weight(lens, s) == Shl(Code(lens, s) + 1, MAX_BITS - lens[s])
  {
    LenSumIsNextCode(lens, lens[s]);
    ShlAdd(NextCode(lens, lens[s]), Count(lens, s, lens[s]), MAX_BITS - lens[s]);
    ShlNext(Code(lens, s), MAX_BITS - lens[s]);
  }

  /** The interval of a symbol ends inside the space of its length. */
  lemma StartEnd(lens: seq<nat>, s: nat)
    requires IsSymbol(lens, s)
    ensures LenSum(lens, lens[s]) <= Start(lens, s)
    ensures Start(lens, s) + Weight(lens, s) <= LenSum(lens, lens[s] + 1) <= Kraft(lens)
  {
    var l := lens[s];
    CountMono(lens, s + 1, |lens|, l);
    ShlLt(Count(lens, s, l), Total(lens, l), MAX_BITS - l);
    LenSumMono(lens, l + 1, MAX_BITS + 1);
  }

  /** Canonical order is the order of the intervals, which do not overlap. */
  lemma StartOrder(lens: seq<nat>, s: nat, t: nat)
    requires IsSymbol(lens, s) && IsSymbol(lens, t) && Before(lens, s, t)
    ensures Start(lens, s) + Weight(lens, s) <= Start(lens, t)
  {
    if lens[s] == lens[t] {
      CountMono(lens, s + 1, t, lens[s]);
      ShlLt(Count(lens, s, lens[s]), Count(lens, t, lens[s]), MAX_BITS - lens[s]);
    } else {
      StartEnd(lens, s);
      LenSumMono(lens, lens[s] + 1, lens[t]);
    }
  }

  // ---------- codes ----------

  /** Each code fits in its length. */
  lemma CodeFits(lens: seq<nat>, s: nat)
    requires Fits(lens) && IsSymbol(lens, s)
    ensures Code(lens, s) < Pow2(lens[s])
    ensures MVal(CodeBits(lens, s)) == Code(lens, s)
  {
    hide LenSum, Kraft, NextCode, Count, Start, Shl;
    StartIsCode(lens, s);
    StartEnd(lens, s);
    var l := lens[s];
    ShlPow2(l, MAX_BITS - l);
    if Pow2(l) <= Code(lens, s) {
      ShlLt(Pow2(l), Code(lens, s) + 1, MAX_BITS - l);
    }
    MValMBits(Code(lens, s), l);
  }

  /** Being a prefix of `b` is being the quotient of its value. */
  lemma PrefixIsQuotient(c: nat, l: nat, b: seq<bool>)
    requires c < Pow2(l) && l <= |b|
    ensures MBits(c, l) <= b <==> Shr(MVal(b), |b| - l) == c
  {
    MValPrefix(b, l);
    MValMBits(c, l);
    if MVal(b[..l]) == c {
      MValInjective(b[..l], MBits(c, l));
    }
  }

  /** A code is a prefix of a 15-bit string exactly when the string lies in its interval. */
  lemma PrefixIsInterval(lens: seq<nat>, s: nat, b: seq<bool>)
    requires Fits(lens) && IsSymbol(lens, s) && |b| == MAX_BITS
    ensures CodeBits(lens, s) <= b <==> Start(lens, s) <= MVal(b) < Start(lens, s) + Weight(lens, s)
  {
    hide LenSum, Kraft, NextCode, Count, Shl, Start, Pow2, Code;
    CodeFits(lens, s);
    StartIsCode(lens, s);
    PrefixIsQuotient(Code(lens, s), lens[s], b);
    ShrIsInterval(MVal(b), MAX_BITS - lens[s], Code(lens, s));
  }

  /** At most one code starts any bit string. */
  lemma DecodeUnique(lens: seq<nat>, s: nat, t: nat, b: seq<bool>)
    requires Fits(lens) && IsSymbol(lens, s) && IsSymbol(lens, t)
    requires CodeBits(lens, s) <= b && CodeBits(lens, t) <= b
    ensures s == t
  {
    var x := (b + MBits(0, MAX_BITS))[..MAX_BITS];
    assert CodeBits(lens, s) <= x && CodeBits(lens, t) <= x;
    PrefixIsInterval(lens, s, x);
    PrefixIsInterval(lens, t, x);
    if s != t {
      if Before(lens, s, t) {
        StartOrder(lens, s, t);
      } else {
        StartOrder(lens, t, s);
      }
    }
  }

  /** No code is a prefix of another. */
  lemma PrefixFree(lens: seq<nat>, s: nat, t: nat)
    requires Fits(lens) && IsSymbol(lens, s) && IsSymbol(lens, t) && s != t
    ensures !(CodeBits(lens, s) <= CodeBits(lens, t))
  {
    if CodeBits(lens, s) <= CodeBits(lens, t) {
      DecodeUnique(lens, s, t, CodeBits(lens, t));
    }
  }

  lemma {:induction false} FindLength(lens: seq<nat>, x: nat, top: nat) returns (l: nat)
    requires 1 <= top <= MAX_BITS + 1 && x < LenSum(lens, top)
    ensures 1 <= l < top && LenSum(lens, l) <= x < LenSum(lens, l + 1)
  {
    if LenSum(lens, top - 1) <= x {
      l := top - 1;
    } else {
      l := FindLength(lens, x, top - 1);
    }
  }

  lemma IntervalAtLength(lens: seq<nat>, x: nat, l: nat) returns (s: nat)
    requires 1 <= l <= MAX_BITS && LenSum(lens, l) <= x < LenSum(lens, l + 1)
    ensures IsSymbol(lens, s) && Start(lens, s) <= x < Start(lens, s) + Weight(lens, s)
  {
    var d := x - LenSum(lens, l);
    ShrBound(d, MAX_BITS - l, Total(lens, l));
    var rank := Shr(d, MAX_BITS - l);
    ShrIsInterval(d, MAX_BITS - l, rank);
    s := CountFind(lens, |lens|, l, rank);
  }

  /** A complete code has a symbol for every bit string of 15 or more bits. */
  lemma DecodeTotal(lens: seq<nat>, b: seq<bool>) returns (s: nat)
    requires Complete(lens) && |b| >= MAX_BITS
    ensures IsSymbol(lens, s) && CodeBits(lens, s) <= b
  {
    var b15 := b[..MAX_BITS];
    var x := MVal(b15);
    MValBound(b15);
    var l := FindLength(lens, x, MAX_BITS + 1);
    s := IntervalAtLength(lens, x, l);
    PrefixIsInterval(lens, s, b15);
  }
}
