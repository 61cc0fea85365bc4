/**
 How much space the sub-tables of inflate_table take.  A sub-table whose codes all have the same
 length is no larger than their number.  One that had to grow swallows every shorter code left, so
 that the next one starts with codes enough for it.  All but the last are paid for by codes.
 */
module TableSpace {
  import opened Bits
  import opened CanonicalCode
  import opened SortedSymbols
  import opened InfTrees
  import opened TableCells

  /** Sorted codes follow one another, none heavier than the first. */
  lemma {:induction false} StartSpan(lens: seq<nat>, work: seq<nat>, i: nat, j: nat)
    requires Sorted(lens, work) && i <= j < |work|
    ensures Start(lens, work[j]) <= Start(lens, work[i]) + Shl(j - i, MAX_BITS - lens[work[i]])
    decreases j
  {
    hide Start, Rank, Offs, Pow2, Shl;
    var n := MAX_BITS - lens[work[i]];
    if i < j {
      StartSpan(lens, work, i, j - 1);
      NextStart(lens, work, j - 1);
      if i < j - 1 {
        SortedOrder(lens, work, i, j - 1);
      }
      Pow2Mono(MAX_BITS - lens[work[j - 1]], n);
      ShlNext(j - 1 - i, n);
    } else {
      ShlZero(n);
    }
  }

  /** The first symbol of a cell begins where the cell does. */
  lemma CellBegins(lens: seq<nat>, work: seq<nat>, root: nat, i: nat)
    requires Fits(lens) && Sorted(lens, work) && i + 1 < |work| && root < lens[work[i + 1]]
    requires lens[work[i]] <= root || Cell(lens, root, work[i]) != Cell(lens, root, work[i + 1])
    ensures Start(lens, work[i + 1]) == Shl(Cell(lens, root, work[i + 1]), MAX_BITS - root)
  {
    hide Start, Rank, Offs, Pow2, Shl, Cell, Code, Kraft, Weight;
    var s, t, n := work[i], work[i + 1], MAX_BITS - root;
    NextStart(lens, work, i);
    CellInterval(lens, root, t);
    var c := Cell(lens, root, t);
    var q: nat;
    if lens[s] <= root {
      StartIsCode(lens, s);
      q := Shl(Code(lens, s) + 1, root - lens[s]);
      ShlShl(Code(lens, s) + 1, root - lens[s], n);
      WeightPositive(lens, t);
      if q < c {
        ShlLt(q, c, n);
      } else if q > c {
        ShlLe(c + 1, q, n);
      }
    } else {
      CellInterval(lens, root, s);
      SortedOrder(lens, work, i, i + 1);
      CellOrder(lens, root, s, t);
      ShlLe(Cell(lens, root, s) + 1, c, n);
    }
  }

  lemma WeightPositive(lens: seq<nat>, s: nat)
    requires IsSymbol(lens, s)
    ensures Weight(lens, s) > 0
  {
  }

  /** What is known of the sub-table opened for work[i] with `curr` bits; `used` includes it. */
  ghost predicate Opened(lens: seq<nat>, work: seq<nat>, root: nat, i: nat, curr: nat, used: nat) {
    && i < |work| && work[i] < |lens| && IsSymbol(lens, work[i]) && root < lens[work[i]] <= root + curr <= MAX_BITS
    && Start(lens, work[i]) == Shl(Cell(lens, root, work[i]), MAX_BITS - root)
    && (root + curr > lens[work[i]] ==> LenSum(lens, root + curr) < Start(lens, work[i]) + Pow2(MAX_BITS - root))
    && used <= Pow2(root) + i + Pow2(lens[work[i]] - root) + Pow2(curr)
  }

  /** Before the next sub-table is opened, for work[j]: the space used is that of the codes so far, and a little. */
  lemma BeforeNext(lens: seq<nat>, work: seq<nat>, root: nat, i: nat, curr: nat, used: nat, j: nat)
    requires Fits(lens) && Sorted(lens, work) && Opened(lens, work, root, i, curr, used)
    requires i < j < |work| && root < lens[work[j]] && Cell(lens, root, work[i]) != Cell(lens, root, work[j])
    ensures used <= Pow2(root) + j + Pow2(lens[work[j]] - root)
  {
    hide Start, Rank, Offs, Pow2, Shl, Cell, Kraft, LenSum, Weight;
    var s, t, n := work[i], work[j], MAX_BITS - root;
    var l := lens[s];
    SortedOrder(lens, work, i, j);
    CellOrder(lens, root, s, t);
    CellInterval(lens, root, t);
    ShlLe(Cell(lens, root, s) + 1, Cell(lens, root, t), n);
    ShlNext(Cell(lens, root, s), n);
    StartSpan(lens, work, i, j);
    Apart(j - i, l, root);
    if root + curr > l {
      LongerAfter(lens, root + curr, t);
      Pow2Mono(curr, lens[t] - root);
    } else {
      Pow2Mono(l - root, lens[t] - root);
    }
  }

  /** A whole cell of codes of at least `l` bits has this many. */
  lemma Apart(k: nat, l: nat, root: nat)
    requires root <= l <= MAX_BITS && Shl(k, MAX_BITS - l) >= Pow2(MAX_BITS - root)
    ensures k >= Pow2(l - root)
  {
    hide Shl, Pow2;
    ShlPow2(l - root, MAX_BITS - l);
    if k < Pow2(l - root) {
      ShlLt(k, Pow2(l - root), MAX_BITS - l);
    }
  }

  /** A code that starts after all codes shorter than `l` is at least that long. */
  lemma LongerAfter(lens: seq<nat>, l: nat, t: nat)
    requires IsSymbol(lens, t) && l <= MAX_BITS && LenSum(lens, l) < Start(lens, t)
    ensures lens[t] >= l
  {
    hide Start, LenSum, Kraft;
    StartEnd(lens, t);
    if lens[t] < l {
      LenSumMono(lens, lens[t] + 1, l);
    }
  }

  /** A cell of a complete code has all its codes among those from its first on. */
  lemma CodesFromHere(lens: seq<nat>, work: seq<nat>, root: nat, j: nat)
    requires Complete(lens) && Sorted(lens, work) && j < |work| && root <= lens[work[j]]
    requires Start(lens, work[j]) == Shl(Cell(lens, root, work[j]), MAX_BITS - root)
    ensures j + Pow2(lens[work[j]] - root) <= |work|
  {
    hide Start, Rank, Offs, Pow2, Shl, Cell, Kraft, Weight;
    var n, l := |work|, lens[work[j]];
    StartSpan(lens, work, j, n - 1);
    LastStart(lens, work);
    if j < n - 1 {
      SortedOrder(lens, work, j, n - 1);
    }
    WeightLe(lens, work[n - 1], l);
    ShlNext(n - 1 - j, MAX_BITS - l);
    CellInterval(lens, root, work[j]);
    CellSpace(root, Cell(lens, root, work[j]));
    ShlNext(Cell(lens, root, work[j]), MAX_BITS - root);
    Apart(n - j, l, root);
  }

  /** The space for a code of `n` symbols with `root` bits, sub-tables included. */
  function Space(root: nat, n: nat): nat
    requires root <= MAX_BITS
  {
    Pow2(root) + n + Pow2(MAX_BITS - root)
  }

  /** Opening a sub-table for work[j] stays within that space. */
  lemma SpaceLeft(lens: seq<nat>, work: seq<nat>, root: nat, curr: nat, j: nat, used: nat)
    requires Complete(lens) && Sorted(lens, work) && j < |work| && root < lens[work[j]] <= root + curr <= MAX_BITS
    requires Start(lens, work[j]) == Shl(Cell(lens, root, work[j]), MAX_BITS - root)
    requires used <= Pow2(root) + j + Pow2(lens[work[j]] - root)
    ensures used + Pow2(curr) <= Space(root, |work|)
  {
    hide Pow2, Shl, Start, Cell, Kraft;
    CodesFromHere(lens, work, root, j);
    Pow2Mono(curr, MAX_BITS - root);
  }

  /** For literals and lengths that is far below the limit. */
  lemma LensSpace(n: nat)
    requires n <= 288
    ensures Pow2(9) <= Space(9, n) <= 864 < ENOUGH - MAXD
  {
    Pow2Values();
    assert Pow2(6) == 64;
  }

  /** Entries for the codes of one set of lengths, when `bits` root bits are asked for. */
  ghost function TableSize(bits: nat, lens: seq<nat>): nat
    requires bits <= MAX_BITS
  {
    if AllUpTo(lens, bits) then Pow2(bits) else Pow2(bits) + 2 * |lens| + Pow2(MAX_BITS - bits)
  }

  /** The array codes in two parts: what literals and lengths may take, and what distances may. */
  const LENS_PART := 1408
  const DISTS_PART := 640

  /** Both tables of a dynamic block together fit in ENOUGH. */
  lemma BothFit(ll: seq<nat>, dd: seq<nat>)
    requires |ll| <= 288 && |dd| <= 32
    ensures TableSize(9, ll) <= LENS_PART < ENOUGH - MAXD && TableSize(6, dd) <= DISTS_PART
    ensures LENS_PART + DISTS_PART == ENOUGH
  {
    hide AllUpTo;
    Pow2Values();
  }

  /** The table of the code-length code is smaller. */
  lemma LenLensFit(ls: seq<nat>)
    requires |ls| <= 19
    ensures 1 <= 7 <= MAX_BITS && TableSize(7, ls) <= LENS_PART
  {
    hide AllUpTo;
    Pow2Values();
  }

  /** A complete code has so many symbols that its shortest code is short. */
  lemma ShortestShort(lens: seq<nat>, work: seq<nat>)
    requires Complete(lens) && Sorted(lens, work) && |work| > 0
    ensures Pow2(lens[work[0]]) <= |work|
  {
    hide Start, Rank, Offs, Pow2, Shl, Kraft, Weight;
    var n := |work|;
    var m := MAX_BITS - lens[work[0]];
    StartSpan(lens, work, 0, n - 1);
    LastStart(lens, work);
    FirstStart(lens, work);
    if n > 1 {
      SortedOrder(lens, work, 0, n - 1);
    }
    WeightLe(lens, work[n - 1], lens[work[0]]);
    ShlNext(n - 1, m);
    Apart(n, lens[work[0]], 0);
  }

  lemma WeightLe(lens: seq<nat>, s: nat, l: nat)
    requires IsSymbol(lens, s) && l <= lens[s]
    ensures Weight(lens, s) <= Pow2(MAX_BITS - l)
  {
    Pow2Mono(MAX_BITS - lens[s], MAX_BITS - l);
  }

  lemma FirstStart(lens: seq<nat>, work: seq<nat>)
    requires Sorted(lens, work) && |work| > 0
    ensures Start(lens, work[0]) == 0
  {
    hide Rank;
    var s := work[0];
    RankParts(lens, s);
    EmptyLengths(lens, 1, lens[s]);
    ShlZero(MAX_BITS - lens[s]);
  }

  lemma RankParts(lens: seq<nat>, s: nat)
    requires s < |lens|
    ensures Rank(lens, s) == Offs(lens, lens[s]) + Count(lens, s, lens[s])
  {
  }
}
