/**
 Arithmetic behind inflate_table: the backwards increment of a bit-reversed
 code, the root-table cell a code falls in, and the look-ahead that sizes a
 sub-table.
 */
module TableCells {
  import opened Bits
  import opened CanonicalCode
  import opened SortedSymbols
  import opened InfTrees

  // ---------- backwards increment ----------

  predicate Bit(v: nat, k: nat) {
    Shr(v, k) % 2 == 1
  }

  /** Clear the ones at the top of a `len`-bit value and set the next bit down. */
  function BackInc(huff: nat, len: nat): nat {
    if len == 0 then 0
    else if Bit(huff, len - 1) then BackInc(huff, len - 1)
    else Low(huff, len - 1) + Pow2(len - 1)
  }

  method BackIncrement(huff: nat, len: nat) returns (r: nat)
    ensures r == BackInc(huff, len)
  {
    // k is one more than the bit number of the source's incr; k == 0 stands for incr == 0
    var k := len;
    while k > 0 && Bit(huff, k - 1)
      invariant 0 <= k <= len && BackInc(huff, len) == BackInc(huff, k)
    {
      k := k - 1;
    }
    if k != 0 {
      r := Low(huff, k - 1) + Pow2(k - 1);
    } else {
      r := 0;
    }
  }

  lemma BitLow(v: nat, m: nat, k: nat)
    requires k < m
    ensures Bit(Low(v, m), k) == Bit(v, k)
  {
    LowShrLow(v, m, k, 1);
  }

  lemma {:induction false} BackIncLow(huff: nat, m: nat, len: nat)
    requires len <= m
    ensures BackInc(Low(huff, m), len) == BackInc(huff, len)
  {
    if len > 0 {
      BitLow(huff, m, len - 1);
      LowLow(huff, m, len - 1);
      BackIncLow(huff, m, len - 1);
    }
  }

  /** Value of a code with one more bit behind it. */
  lemma ValSnoc(c: nat, len: nat)
    ensures Val(MBits(c, len + 1)) == Val(MBits(c / 2, len)) + if c % 2 == 1 then Pow2(len) else 0
    ensures Val(MBits(c / 2, len)) < Pow2(len)
  {
    ValAppend(MBits(c / 2, len), [c % 2 == 1]);
    ValBound(MBits(c / 2, len));
    ShlOne(len);
    assert Val([c % 2 == 1]) == c % 2;
  }

  lemma BackIncTop(h: nat, odd: bool, n: nat)
    requires h < Pow2(n)
    ensures BackInc(h + (if odd then Pow2(n) else 0), n + 1) == if odd then BackInc(h, n) else h + Pow2(n)
  {
    var v := h + if odd then Pow2(n) else 0;
    ShlOne(n);
    ShrLowUnique(v, n, B(odd), h);
    BackIncLow(v, n, n);
  }

  /** On reversed codes the backwards increment is the ordinary increment. */
  lemma {:induction false} BackIncCode(c: nat, len: nat)
    requires c < Pow2(len)
    ensures BackInc(Val(MBits(c, len)), len) == if c + 1 < Pow2(len) then Val(MBits(c + 1, len)) else 0
  {
    hide MBits, Low;
    if len > 0 {
      var n, d := len - 1, c / 2;
      BackIncCode(d, n);
      ValSnoc(c, n);
      BackIncTop(Val(MBits(d, n)), c % 2 == 1, n);
      if c % 2 == 1 {
        assert c + 1 == 2 * (d + 1);
        ValSnoc(2 * (d + 1), n);
        assert Val(MBits(c + 1, len)) == Val(MBits(d + 1, n));
      } else {
        ValSnoc(c + 1, n);
        assert (c + 1) / 2 == d;
        assert Val(MBits(c + 1, len)) == Val(MBits(d, n)) + Pow2(n);
      }
    }
  }

  lemma {:induction false} TrailingZeros(c: nat, l: nat, d: nat)
    ensures Val(MBits(Shl(c, d), l + d)) == Val(MBits(c, l))
  {
    if d > 0 {
      TrailingZeros(c, l, d - 1);
      ValSnoc(Shl(c, d), l + d - 1);
    }
  }

  /** The loop's step from one sorted symbol's code to the next. */
  lemma NextHuff(lens: seq<nat>, work: seq<nat>, i: nat)
    requires Fits(lens) && Sorted(lens, work) && i + 1 < |work|
    ensures BackInc(Huff(lens, work[i]), lens[work[i]]) == Huff(lens, work[i + 1])
  {
    hide BackInc, Kraft, Rank, Offs, Shl;
    var s, t := work[i], work[i + 1];
    NextCodeValue(lens, work, i);
    BackIncCode(Code(lens, s), lens[s]);
    TrailingZeros(Code(lens, s) + 1, lens[s], lens[t] - lens[s]);
  }

  /** After the last symbol of a complete code the increment wraps to zero. */
  lemma LastHuff(lens: seq<nat>, work: seq<nat>)
    requires Complete(lens) && Sorted(lens, work) && |work| > 0
    ensures BackInc(Huff(lens, work[|work| - 1]), lens[work[|work| - 1]]) == 0
  {
    hide LenSum, Kraft, Shl, Start, Rank, Offs, BackInc;
    var s := work[|work| - 1];
    var l := lens[s];
    LastStart(lens, work);
    StartIsCode(lens, s);
    CodeFits(lens, s);
    ShlPow2(l, MAX_BITS - l);
    ShlInjective(Code(lens, s) + 1, Pow2(l), MAX_BITS - l);
    BackIncCode(Code(lens, s), l);
  }

  // ---------- root cells ----------

  /** The first `root` bits of a code, as a number in code order. */
  function Cell(lens: seq<nat>, root: nat, s: nat): nat
    requires s < |lens| && root <= lens[s]
  {
    MVal(CodeBits(lens, s)[..root])
  }

  lemma CellInterval(lens: seq<nat>, root: nat, s: nat)
    requires Fits(lens) && IsSymbol(lens, s) && root <= lens[s]
    ensures Shl(Cell(lens, root, s), MAX_BITS - root) <= Start(lens, s)
    ensures Start(lens, s) + Weight(lens, s) <= Shl(Cell(lens, root, s) + 1, MAX_BITS - root)
    ensures Cell(lens, root, s) < Pow2(root)
  {
    hide Start, LenSum, Shl, Shr, Pow2, Cell, Code, Weight, Kraft;
    CellIsShr(lens, root, s);
    StartIsCode(lens, s);
    CellArith(Code(lens, s), lens[s], root);
  }

  lemma CellIsShr(lens: seq<nat>, root: nat, s: nat)
    requires Fits(lens) && IsSymbol(lens, s) && root <= lens[s]
    ensures Cell(lens, root, s) == Shr(Code(lens, s), lens[s] - root)
    ensures Cell(lens, root, s) < Pow2(root)
  {
    CodeFits(lens, s);
    MValPrefix(CodeBits(lens, s), root);
    MValBound(CodeBits(lens, s)[..root]);
  }

  lemma CellArith(c: nat, l: nat, root: nat)
    requires root <= l <= MAX_BITS
    ensures Shl(Shr(c, l - root), MAX_BITS - root) <= Shl(c, MAX_BITS - l)
    ensures Shl(c + 1, MAX_BITS - l) <= Shl(Shr(c, l - root) + 1, MAX_BITS - root)
  {
    var k := Shr(c, l - root);
    ShrIsInterval(c, l - root, k);
    ShlNext(k, l - root);
    ShlLe(Shl(k, l - root), c, MAX_BITS - l);
    ShlLe(c + 1, Shl(k + 1, l - root), MAX_BITS - l);
    ShlShl(k, l - root, MAX_BITS - l);
    ShlShl(k + 1, l - root, MAX_BITS - l);
  }

  /** A root index is its cell with the bits reversed. */
  lemma RootIndexIsCell(lens: seq<nat>, root: nat, s: nat, t: nat)
    requires s < |lens| && t < |lens| && root <= lens[s] && root <= lens[t]
    ensures RootIndex(lens, root, s) == RootIndex(lens, root, t) <==> Cell(lens, root, s) == Cell(lens, root, t)
  {
    RootIndexVal(lens, root, s);
    RootIndexVal(lens, root, t);
    var a, b := CodeBits(lens, s)[..root], CodeBits(lens, t)[..root];
    if Val(a) == Val(b) {
      ValInjective(a, b);
    }
    if MVal(a) == MVal(b) {
      MValInjective(a, b);
    }
  }

  lemma RootIndexVal(lens: seq<nat>, root: nat, s: nat)
    requires s < |lens| && root <= lens[s]
    ensures RootIndex(lens, root, s) == Val(CodeBits(lens, s)[..root])
  {
    var b := CodeBits(lens, s);
    assert b == b[..root] + b[root..];
    ValAppend(b[..root], b[root..]);
    ValBound(b[..root]);
    ShrLowUnique(Val(b), root, Val(b[root..]), Val(b[..root]));
  }

  /** Cells never go down in sorted order. */
  lemma CellOrder(lens: seq<nat>, root: nat, s: nat, t: nat)
    requires Fits(lens) && IsSymbol(lens, s) && IsSymbol(lens, t) && root <= lens[s] && root <= lens[t]
    requires Before(lens, s, t)
    ensures Cell(lens, root, s) <= Cell(lens, root, t)
  {
    hide Cell, Start, LenSum, Kraft, Shl;
    StartOrder(lens, s, t);
    CellInterval(lens, root, s);
    CellInterval(lens, root, t);
    if Cell(lens, root, t) < Cell(lens, root, s) {
      ShlLe(Cell(lens, root, t) + 1, Cell(lens, root, s), MAX_BITS - root);
    }
  }

  lemma CellSpace(root: nat, cell: nat)
    requires root <= MAX_BITS && cell < Pow2(root)
    ensures Shl(cell + 1, MAX_BITS - root) <= Pow2(MAX_BITS)
  {
    ShlLe(cell + 1, Pow2(root), MAX_BITS - root);
    ShlPow2(root, MAX_BITS - root);
  }

  // ---------- sub-table size ----------

  /** Symbols of length `l` at sorted positions `i` and up: the decremented count[l]. */
  function Rem(lens: seq<nat>, i: nat, l: nat): nat {
    if i <= Offs(lens, l) then Total(lens, l)
    else if Offs(lens, l + 1) <= i then 0
    else Offs(lens, l + 1) - i
  }

  lemma RemStep(lens: seq<nat>, work: seq<nat>, i: nat, l: nat)
    requires Sorted(lens, work) && i < |work| && 1 <= l <= MAX_BITS
    ensures Rem(lens, i + 1, l) == Rem(lens, i, l) - if lens[work[i]] == l then 1 else 0
  {
    LengthAt(lens, work, i, l);
    OffsMono(lens, l, l + 1);
  }

  /** Where the codes of length `l` still to be entered begin. */
  function Frontier(lens: seq<nat>, s: nat, l: nat): nat
    requires IsSymbol(lens, s) && lens[s] <= l <= MAX_BITS
  {
    if l == lens[s] then Start(lens, s) else LenSum(lens, l)
  }

  lemma FrontierStep(lens: seq<nat>, work: seq<nat>, i: nat, l: nat)
    requires Sorted(lens, work) && i < |work| && lens[work[i]] <= l <= MAX_BITS
    ensures Frontier(lens, work[i], l) + Shl(Rem(lens, i, l), MAX_BITS - l) == LenSum(lens, l + 1)
  {
    var s := work[i];
    RankInLength(lens, s);
    if l == lens[s] {
      ShlAdd(Count(lens, s, l), Rem(lens, i, l), MAX_BITS - l);
    } else {
      OffsMono(lens, lens[s] + 1, l);
    }
  }

  /** Every code that shares the cell of `s` has at most root + curr bits. */
  ghost predicate CellBound(lens: seq<nat>, root: nat, max: nat, curr: nat, s: nat)
    requires s < |lens| && root <= lens[s] && root + curr <= max <= MAX_BITS
  {
    root + curr == max || Shl(Cell(lens, root, s) + 1, MAX_BITS - root) <= LenSum(lens, root + curr + 1)
  }

  lemma CellBoundUse(lens: seq<nat>, root: nat, max: nat, curr: nat, s: nat, t: nat)
    requires Fits(lens) && IsSymbol(lens, s) && IsSymbol(lens, t) && root < lens[s] && root < lens[t] <= max <= MAX_BITS
    requires root + curr <= max && CellBound(lens, root, max, curr, s)
    requires Cell(lens, root, t) == Cell(lens, root, s)
    ensures lens[t] <= root + curr
  {
    hide Cell, Start, Shl, Pow2;
    if root + curr < lens[t] {
      CellInterval(lens, root, t);
      StartEnd(lens, t);
      LenSumMono(lens, root + curr + 1, lens[t]);
    }
  }

  lemma CellBoundHolds(lens: seq<nat>, root: nat, max: nat, curr: nat, s: nat)
    requires Fits(lens) && IsSymbol(lens, s) && root <= lens[s] && root + curr <= max <= MAX_BITS
    requires Start(lens, s) + Pow2(MAX_BITS - root) <= LenSum(lens, root + curr + 1)
    ensures CellBound(lens, root, max, curr, s)
  {
    hide Cell, Start, Kraft, Shl, LenSum;
    CellInterval(lens, root, s);
    ShlNext(Cell(lens, root, s), MAX_BITS - root);
  }

  /** One round of the look-ahead. */
  lemma LookAhead(lens: seq<nat>, work: seq<nat>, i: nat, root: nat, c: nat, left: nat)
    requires Sorted(lens, work) && i < |work| && root < lens[work[i]] <= c < MAX_BITS
    requires Shl(left, MAX_BITS - c) + Frontier(lens, work[i], c) == Start(lens, work[i]) + Pow2(MAX_BITS - root)
    ensures left <= Rem(lens, i, c) ==> Start(lens, work[i]) + Pow2(MAX_BITS - root) <= LenSum(lens, c + 1)
    ensures left > Rem(lens, i, c) ==>
              Shl(2 * (left - Rem(lens, i, c)), MAX_BITS - (c + 1)) + Frontier(lens, work[i], c + 1)
              == Start(lens, work[i]) + Pow2(MAX_BITS - root)
  {
    var r := Rem(lens, i, c);
    FrontierStep(lens, work, i, c);
    if left <= r {
      ShlLe(left, r, MAX_BITS - c);
    } else {
      ShlAdd(r, left - r, MAX_BITS - c);
      ShlShl(left - r, 1, MAX_BITS - (c + 1));
      assert Shl(left - r, 1) == 2 * (left - r);
    }
  }

  /** Number of index bits for a new sub-table whose first code is work[i]. */
  method SubTableBits(lens: seq<nat>, ghost work: seq<nat>, ghost i: nat, count: array<nat>, len: nat, root: nat,
      max: nat)
    returns (curr: nat)
    requires Fits(lens) && Sorted(lens, work) && i < |work| && len == lens[work[i]]
    requires 1 <= root < len <= max <= MAX_BITS && count.Length == MAX_BITS + 1
    requires forall l :: 1 <= l <= MAX_BITS ==> count[l] == Rem(lens, i, l)
    ensures len <= root + curr <= max
    ensures CellBound(lens, root, max, curr, work[i])
    ensures root + curr > len ==> LenSum(lens, root + curr) < Start(lens, work[i]) + Pow2(MAX_BITS - root)
  {
    hide Offs, Rank, Rem, Start, LenSum, Kraft, Cell, Shl, Pow2, Weight;
    curr := len - root;
    var left: nat := Pow2(curr);
    ShlPow2(curr, MAX_BITS - len);
    while curr + root < max
      invariant len <= root + curr <= max && left >= 1
      invariant Shl(left, MAX_BITS - (curr + root)) + Frontier(lens, work[i], curr + root)
             == Start(lens, work[i]) + Pow2(MAX_BITS - root)
    {
      hide Offs, Rank, Rem, Start, LenSum, Kraft, Cell, Shl, Pow2, Frontier;
      LookAhead(lens, work, i, root, curr + root, left);
      FrontierLeft(lens, work[i], root, curr, left);
      if left <= count[curr + root] {
        CellBoundHolds(lens, root, max, curr, work[i]);
        return;
      }
      left := 2 * (left - count[curr + root]);
      curr := curr + 1;
    }
    FrontierLeft(lens, work[i], root, curr, left);
  }

  /** While the sub-table is not full, the codes shorter than it are all before its end. */
  lemma FrontierLeft(lens: seq<nat>, s: nat, root: nat, curr: nat, left: nat)
    requires IsSymbol(lens, s) && lens[s] <= root + curr <= MAX_BITS && root <= MAX_BITS && left >= 1
    requires Shl(left, MAX_BITS - (curr + root)) + Frontier(lens, s, curr + root)
             == Start(lens, s) + Pow2(MAX_BITS - root)
    ensures root + curr > lens[s] ==> LenSum(lens, root + curr) < Start(lens, s) + Pow2(MAX_BITS - root)
  {
    hide Start, LenSum, Shl, Pow2;
    ShlLt(0, left, MAX_BITS - (curr + root));
  }
}
