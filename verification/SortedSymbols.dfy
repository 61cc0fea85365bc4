/**
 The counting sort at the head of inflate_table and the facts about canonical
 codes taken in sorted order: each code starts where the previous one ends.
 */
module SortedSymbols {
  import opened Bits
  import opened CanonicalCode

  /** Number of symbols whose length is in 1..l-1: the value of offs[l]. */
  function Offs(lens: seq<nat>, l: nat): nat {
    if l <= 1 then 0 else Offs(lens, l - 1) + Total(lens, l - 1)
  }

  /** Sorted position of a symbol. */
  function Rank(lens: seq<nat>, s: nat): nat
    requires s < |lens|
  {
    Offs(lens, lens[s]) + Count(lens, s, lens[s])
  }

  /** `work` lists the used symbols by length and, within a length, by number. */
  ghost predicate Sorted(lens: seq<nat>, work: seq<nat>) {
    && |work| == Offs(lens, MAX_BITS + 1)
    && forall i :: 0 <= i < |work| ==> IsSymbol(lens, work[i]) && Rank(lens, work[i]) == i
  }

  lemma {:induction false} OffsMono(lens: seq<nat>, a: nat, b: nat)
    requires a <= b
    ensures Offs(lens, a) <= Offs(lens, b)
  {
    if a < b {
      OffsMono(lens, a, b - 1);
    }
  }

  lemma RankInLength(lens: seq<nat>, s: nat)
    requires IsSymbol(lens, s)
    ensures Offs(lens, lens[s]) <= Rank(lens, s) < Offs(lens, lens[s] + 1) <= Offs(lens, MAX_BITS + 1)
  {
    CountMono(lens, s + 1, |lens|, lens[s]);
    OffsMono(lens, lens[s] + 1, MAX_BITS + 1);
  }

  lemma RankUnique(lens: seq<nat>, s: nat, t: nat)
    requires IsSymbol(lens, s) && IsSymbol(lens, t) && s < t
    ensures Rank(lens, s) != Rank(lens, t)
  {
    RankInLength(lens, s);
    RankInLength(lens, t);
    if lens[s] < lens[t] {
      OffsMono(lens, lens[s] + 1, lens[t]);
    } else if lens[t] < lens[s] {
      OffsMono(lens, lens[t] + 1, lens[s]);
    } else {
      CountMono(lens, s + 1, t, lens[s]);
    }
  }

  lemma {:induction false} FindOffs(lens: seq<nat>, i: nat, top: nat) returns (l: nat)
    requires 1 <= top <= MAX_BITS + 1 && i < Offs(lens, top)
    ensures 1 <= l < top && Offs(lens, l) <= i < Offs(lens, l + 1)
  {
    if Offs(lens, top - 1) <= i {
      l := top - 1;
    } else {
      l := FindOffs(lens, i, top - 1);
    }
  }

  /** Every position below the number of used symbols is some symbol's position. */
  lemma RankOnto(lens: seq<nat>, i: nat) returns (s: nat)
    requires i < Offs(lens, MAX_BITS + 1)
    ensures IsSymbol(lens, s) && Rank(lens, s) == i
  {
    var l := FindOffs(lens, i, MAX_BITS + 1);
    s := CountFind(lens, |lens|, l, i - Offs(lens, l));
  }

  lemma SortedPlace(lens: seq<nat>, work: seq<nat>, s: nat)
    requires Sorted(lens, work) && IsSymbol(lens, s)
    ensures Rank(lens, s) < |work| && work[Rank(lens, s)] == s
  {
    RankInLength(lens, s);
    var t := work[Rank(lens, s)];
    if s < t {
      RankUnique(lens, s, t);
    } else if t < s {
      RankUnique(lens, t, s);
    }
  }

  /** The length of the i-th sorted symbol is the one whose range holds i. */
  lemma LengthAt(lens: seq<nat>, work: seq<nat>, i: nat, l: nat)
    requires Sorted(lens, work) && i < |work| && 1 <= l <= MAX_BITS
    ensures lens[work[i]] == l <==> Offs(lens, l) <= i < Offs(lens, l + 1)
  {
    var s := work[i];
    RankInLength(lens, s);
    if lens[s] < l {
      OffsMono(lens, lens[s] + 1, l);
    } else if l < lens[s] {
      OffsMono(lens, l + 1, lens[s]);
    }
  }

  lemma SortedOrder(lens: seq<nat>, work: seq<nat>, i: nat, j: nat)
    requires Sorted(lens, work) && i < j < |work|
    ensures Before(lens, work[i], work[j])
  {
    var s, t := work[i], work[j];
    if lens[t] < lens[s] {
      RankInLength(lens, s);
      RankInLength(lens, t);
      OffsMono(lens, lens[t] + 1, lens[s]);
    } else if lens[s] == lens[t] && t < s {
      CountMono(lens, t, s, lens[s]);
    }
  }

  /** No symbols of the lengths between two neighbours: their spaces touch. */
  lemma {:induction false} EmptyLengths(lens: seq<nat>, a: nat, b: nat)
    requires a <= b <= MAX_BITS + 1 && Offs(lens, a) == Offs(lens, b)
    ensures LenSum(lens, a) == LenSum(lens, b)
  {
    if a < b {
      OffsMono(lens, a, b - 1);
      OffsMono(lens, b - 1, b);
      EmptyLengths(lens, a, b - 1);
      if b - 1 >= 1 {
        ShlOne(MAX_BITS - (b - 1));
      }
    }
  }

  /** The end of a symbol's interval. */
  lemma EndOf(lens: seq<nat>, s: nat)
    requires IsSymbol(lens, s)
    ensures Start(lens, s) + Weight(lens, s)
         == LenSum(lens, lens[s]) + Shl(Count(lens, s, lens[s]) + 1, MAX_BITS - lens[s])
  {
    ShlNext(Count(lens, s, lens[s]), MAX_BITS - lens[s]);
  }

  /** The last symbol of a length ends at the start of the next used length. */
  lemma EndOfLength(lens: seq<nat>, s: nat, l': nat)
    requires IsSymbol(lens, s) && lens[s] < l' <= MAX_BITS + 1
    requires Rank(lens, s) + 1 == Offs(lens, l')
    ensures Start(lens, s) + Weight(lens, s) == LenSum(lens, l')
  {
    EndOf(lens, s);
    RankInLength(lens, s);
    OffsMono(lens, lens[s] + 1, l');
    EmptyLengths(lens, lens[s] + 1, l');
    assert Total(lens, lens[s]) == Count(lens, s, lens[s]) + 1;
  }

  /** In sorted order each code's interval starts where the last one ended. */
  lemma NextStart(lens: seq<nat>, work: seq<nat>, i: nat)
    requires Sorted(lens, work) && i + 1 < |work|
    ensures Start(lens, work[i + 1]) == Start(lens, work[i]) + Weight(lens, work[i])
  {
    var s, t := work[i], work[i + 1];
    SortedOrder(lens, work, i, i + 1);
    RankInLength(lens, s);
    RankInLength(lens, t);
    if lens[s] == lens[t] {
      EndOf(lens, s);
    } else {
      OffsMono(lens, lens[s] + 1, lens[t]);
      EndOfLength(lens, s, lens[t]);
      ShlOne(MAX_BITS - lens[t]);
    }
  }

  /** Code values that start at the same point differ only in trailing zeros. */
  lemma ScaleCode(c: nat, c': nat, l: nat, l': nat)
    requires l <= l' <= MAX_BITS && Shl(c', MAX_BITS - l') == Shl(c, MAX_BITS - l)
    ensures c' == Shl(c, l' - l)
    ensures c' < Pow2(l') ==> c < Pow2(l)
  {
    ShlShl(c, l' - l, MAX_BITS - l');
    ShlInjective(c', Shl(c, l' - l), MAX_BITS - l');
    ShlPow2(l, l' - l);
    if Pow2(l) <= c {
      ShlLe(Pow2(l), c, l' - l);
    }
  }

  lemma NextCodeFrom(lens: seq<nat>, s: nat, t: nat)
    requires Fits(lens) && IsSymbol(lens, s) && IsSymbol(lens, t) && lens[s] <= lens[t]
    requires Start(lens, t) == Start(lens, s) + Weight(lens, s)
    ensures Code(lens, t) == Shl(Code(lens, s) + 1, lens[t] - lens[s])
    ensures Code(lens, s) + 1 < Pow2(lens[s])
  {
    hide Start, LenSum, Kraft, Code, Shl, Weight;
    StartIsCode(lens, s);
    StartIsCode(lens, t);
    CodeFits(lens, t);
    ScaleCode(Code(lens, s) + 1, Code(lens, t), lens[s], lens[t]);
  }

  /** The code of the next symbol: one more, with zeros for extra length. */
  lemma NextCodeValue(lens: seq<nat>, work: seq<nat>, i: nat)
    requires Fits(lens) && Sorted(lens, work) && i + 1 < |work|
    ensures lens[work[i]] <= lens[work[i + 1]]
    ensures Code(lens, work[i + 1]) == Shl(Code(lens, work[i]) + 1, lens[work[i + 1]] - lens[work[i]])
    ensures Code(lens, work[i]) + 1 < Pow2(lens[work[i]])
  {
    SortedOrder(lens, work, i, i + 1);
    NextStart(lens, work, i);
    NextCodeFrom(lens, work[i], work[i + 1]);
  }

  /** The sorted symbols' intervals cover the Kraft sum exactly. */
  lemma LastStart(lens: seq<nat>, work: seq<nat>)
    requires Sorted(lens, work) && |work| > 0
    ensures Start(lens, work[|work| - 1]) + Weight(lens, work[|work| - 1]) == Kraft(lens)
  {
    EndOfLength(lens, work[|work| - 1], MAX_BITS + 1);
  }

  // ---------- the sort ----------

  /** Counts the symbols of each length (inflate_table's count[]). */
  method CountLengths(lens: seq<nat>) returns (count: array<nat>)
    requires ValidLens(lens)
    ensures fresh(count) && count.Length == MAX_BITS + 1
    ensures forall l :: 0 <= l <= MAX_BITS ==> count[l] == Total(lens, l)
  {
    count := new nat[MAX_BITS + 1](_ => 0);
    var sym: nat := 0;
    while sym < |lens|
      invariant sym <= |lens|
      invariant forall l :: 0 <= l <= MAX_BITS ==> count[l] == Count(lens, sym, l)
    {
      count[lens[sym]] := count[lens[sym]] + 1;
      sym := sym + 1;
    }
  }

  /** Starting positions of each length in the sorted list (inflate_table's offs[]). */
  method Offsets(lens: seq<nat>, count: array<nat>) returns (offs: array<nat>)
    requires count.Length == MAX_BITS + 1
    requires forall l :: 0 <= l <= MAX_BITS ==> count[l] == Total(lens, l)
    ensures fresh(offs) && offs.Length == MAX_BITS + 1
    ensures forall l :: 1 <= l <= MAX_BITS ==> offs[l] == Offs(lens, l)
  {
    offs := new nat[MAX_BITS + 1](_ => 0);
    var len := 1;
    while len < MAX_BITS
      invariant 1 <= len <= MAX_BITS
      invariant forall l :: 1 <= l <= len ==> offs[l] == Offs(lens, l)
    {
      assert Offs(lens, len + 1) == Offs(lens, len) + Total(lens, len);
      offs[len + 1] := offs[len] + count[len];
      len := len + 1;
    }
  }

  /** Sum of the counts of lengths 1..l-1 among the first `k` symbols. */
  function CountBelow(lens: seq<nat>, k: nat, l: nat): nat
    requires k <= |lens|
  {
    if l <= 1 then 0 else CountBelow(lens, k, l - 1) + Count(lens, k, l - 1)
  }

  lemma {:induction false} CountBelowStep(lens: seq<nat>, k: nat, l: nat)
    requires k < |lens|
    ensures CountBelow(lens, k + 1, l) == CountBelow(lens, k, l) + if 1 <= lens[k] < l then 1 else 0
  {
    if l > 1 {
      CountBelowStep(lens, k, l - 1);
    }
  }

  lemma {:induction false} CountBelowBound(lens: seq<nat>, k: nat, l: nat)
    requires k <= |lens|
    ensures CountBelow(lens, k, l) <= k
  {
    if k == 0 {
      if l > 1 {
        CountBelowBound(lens, 0, l - 1);
      }
    } else {
      CountBelowStep(lens, k - 1, l);
      CountBelowBound(lens, k - 1, l);
    }
  }

  lemma {:induction false} OffsIsCountBelow(lens: seq<nat>, l: nat)
    ensures Offs(lens, l) == CountBelow(lens, |lens|, l)
  {
    if l > 1 {
      OffsIsCountBelow(lens, l - 1);
    }
  }

  lemma OffsBound(lens: seq<nat>, l: nat)
    ensures Offs(lens, l) <= |lens|
  {
    OffsIsCountBelow(lens, l);
    CountBelowBound(lens, |lens|, l);
  }

  ghost predicate SortedSoFar(lens: seq<nat>, work: seq<nat>, sym: nat)
    requires sym <= |lens|
  {
    forall t :: 0 <= t < sym && IsSymbol(lens, t) ==> Rank(lens, t) < |work| && work[Rank(lens, t)] == t
  }

  lemma SortedStep(lens: seq<nat>, work: seq<nat>, sym: nat)
    requires sym < |lens| && IsSymbol(lens, sym) && SortedSoFar(lens, work, sym)
    requires Rank(lens, sym) < |work|
    ensures SortedSoFar(lens, work[Rank(lens, sym) := sym], sym + 1)
  {
    forall t | 0 <= t < sym && IsSymbol(lens, t) ensures Rank(lens, t) != Rank(lens, sym) {
      RankUnique(lens, t, sym);
    }
  }

  lemma SortedNone(lens: seq<nat>, work: seq<nat>)
    ensures SortedSoFar(lens, work, 0)
  {
  }

  lemma OffsLast(lens: seq<nat>)
    ensures Offs(lens, MAX_BITS + 1) == Offs(lens, MAX_BITS) + Total(lens, MAX_BITS)
  {
  }

  lemma SortedSkip(lens: seq<nat>, work: seq<nat>, sym: nat)
    requires sym < |lens| && lens[sym] == 0 && SortedSoFar(lens, work, sym)
    ensures SortedSoFar(lens, work, sym + 1)
  {
  }

  lemma SortedEnd(lens: seq<nat>, work: seq<nat>, n: nat)
    requires SortedSoFar(lens, work, |lens|) && n == Offs(lens, MAX_BITS + 1) <= |work|
    ensures Sorted(lens, work[..n])
  {
    forall i | 0 <= i < n ensures IsSymbol(lens, work[i]) && Rank(lens, work[i]) == i {
      var s := RankOnto(lens, i);
    }
  }

  /** The counting sort: the used symbols end up stably sorted by length. */
  method SortSymbols(lens: seq<nat>, offs: array<nat>, work: array<nat>)
    requires ValidLens(lens)
    requires offs.Length == MAX_BITS + 1 && work.Length >= |lens| && work != offs
    requires forall l :: 1 <= l <= MAX_BITS ==> offs[l] == Offs(lens, l)
    modifies offs, work
    ensures offs[MAX_BITS] == Offs(lens, MAX_BITS + 1) <= work.Length
    ensures Sorted(lens, work[..offs[MAX_BITS]])
  {
    hide Sorted, SortedSoFar, Offs;
    OffsBound(lens, MAX_BITS + 1);
    SortedNone(lens, work[..]);
    var sym: nat := 0;
    while sym < |lens|
      invariant sym <= |lens|
      invariant forall l :: 1 <= l <= MAX_BITS ==> offs[l] == Offs(lens, l) + Count(lens, sym, l)
      invariant SortedSoFar(lens, work[..], sym)
    {
      if lens[sym] != 0 {
        RankInLength(lens, sym);
        SortedStep(lens, work[..], sym);
        var at := offs[lens[sym]];
        ghost var w := work[..];
        work[at] := sym;
        assert work[..] == w[at := sym];
        offs[lens[sym]] := at + 1;
      } else {
        SortedSkip(lens, work[..], sym);
      }
      sym := sym + 1;
    }
    OffsLast(lens);
    SortedEnd(lens, work[..], Offs(lens, MAX_BITS + 1));
    assert work[..][..Offs(lens, MAX_BITS + 1)] == work[..Offs(lens, MAX_BITS + 1)];
  }
}
