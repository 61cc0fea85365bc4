/** The cost of a list of symbols from their frequencies, and codes padded with unused symbols. */
module Costs {
  import opened Bits
  import opened CanonicalCode
  import opened Sums
  import opened Optimality
  import opened HuffmanForest
  import opened GenBitLen
  import opened HuffmanTree
  import opened InfTrees

  /** How often `s` occurs in the list. */
  function Hist(syms: seq<nat>, s: nat): nat {
    if syms == [] then 0 else (if syms[0] == s then 1 else 0) + Hist(syms[1..], s)
  }

  lemma {:induction false} HistAppend(a: seq<nat>, b: seq<nat>, s: nat)
    ensures Hist(a + b, s) == Hist(a, s) + Hist(b, s)
  {
    if a == [] {
      assert a + b == b;
    } else {
      assert (a + b)[1..] == a[1..] + b;
      HistAppend(a[1..], b, s);
    }
  }

  lemma HistOne(x: nat, s: nat)
    ensures Hist([x], s) == if x == s then 1 else 0
  {
    assert [x][1..] == [];
  }

  lemma {:induction false} HistMember(syms: seq<nat>, i: nat)
    requires i < |syms|
    ensures Hist(syms, syms[i]) > 0
  {
    if i > 0 {
      HistMember(syms[1..], i - 1);
    }
  }

  /** Bits for the whole list: code length and extra bits of each symbol. */
  function SymCost(syms: seq<nat>, len: seq<nat>, xb: seq<nat>): nat
    requires forall i :: 0 <= i < |syms| ==> syms[i] < |len| && syms[i] < |xb|
  {
    if syms == [] then 0 else len[syms[0]] + xb[syms[0]] + SymCost(syms[1..], len, xb)
  }

  lemma {:induction false} SymCostAppend(a: seq<nat>, b: seq<nat>, len: seq<nat>, xb: seq<nat>)
    requires forall i :: 0 <= i < |a| ==> a[i] < |len| && a[i] < |xb|
    requires forall i :: 0 <= i < |b| ==> b[i] < |len| && b[i] < |xb|
    ensures forall i :: 0 <= i < |a + b| ==> (a + b)[i] < |len| && (a + b)[i] < |xb|
    ensures SymCost(a + b, len, xb) == SymCost(a, len, xb) + SymCost(b, len, xb)
  {
    if a == [] {
      assert a + b == b;
    } else {
      assert (a + b)[1..] == a[1..] + b;
      SymCostAppend(a[1..], b, len, xb);
    }
  }

  /** The frequencies of a list. */
  ghost function Freqs(syms: seq<nat>, n: nat): (f: seq<nat>)
    ensures |f| == n && forall s :: 0 <= s < n ==> f[s] == Hist(syms, s)
  {
    seq(n, s requires 0 <= s => Hist(syms, s))
  }

  lemma UsedOneMore(syms: seq<nat>, len: seq<nat>, xb: seq<nat>, n: nat, x: nat)
    requires syms != [] && n == |len| == |xb| && x < n
    ensures Used(Freqs(syms, n), len, xb)[x]
            == Used(Freqs(syms[1..], n), len, xb)[x] + if x == syms[0] then len[x] + xb[x] else 0
  {
    hide Used, Freqs;
    SpendNext(Hist(syms[1..], x), len[x] + xb[x]);
  }

  lemma SpendNext(w: nat, l: nat)
    ensures Spend(w + 1, l) == Spend(w, l) + l
  {
  }

  /** Lengths with extra bits added. */
  ghost function Plus(len: seq<nat>, xb: seq<nat>): (r: seq<nat>)
    requires |len| == |xb|
    ensures |r| == |len| && forall i :: 0 <= i < |r| ==> r[i] == len[i] + xb[i]
  {
    seq(|len|, i requires 0 <= i < |len| => len[i] + xb[i])
  }

  /** Frequencies times lengths is what the list costs. */
  lemma {:induction false} HistCost(syms: seq<nat>, len: seq<nat>, xb: seq<nat>, n: nat, m: nat)
    requires n == |len| == |xb| && m <= n && forall i :: 0 <= i < |syms| ==> syms[i] < m
    ensures Sum(Range(0, m), Used(Freqs(syms, n), len, xb)) == SymCost(syms, len, xb)
    decreases |syms|
  {
    hide Sum, Used, Freqs, Range, Hist;
    var g := Used(Freqs(syms, n), len, xb);
    if syms == [] {
      assert forall x :: 0 <= x < n ==> g[x] == 0 by { AllZero(len, xb, n); }
      var none: seq<nat> := [];
      SumSupport(none, g, m);
      assert Sum(none, g) == 0 by { SumOfNone(g); }
    } else {
      var g0 := Used(Freqs(syms[1..], n), len, xb);
      var r := OnlyOn([syms[0]], Plus(len, xb));
      forall x | 0 <= x < n ensures g[x] == g0[x] + r[x] {
        UsedOneMore(syms, len, xb, n, x);
      }
      SumPlus(Range(0, m), g0, r, g);
      SumSupport([syms[0]], r, m);
      SumOne(syms[0], r);
      HistCost(syms[1..], len, xb, n, m);
    }
  }

  lemma AllZero(len: seq<nat>, xb: seq<nat>, n: nat)
    requires n == |len| == |xb|
    ensures forall x :: 0 <= x < n ==> Used(Freqs([], n), len, xb)[x] == 0
  {
    assert forall x: nat :: Hist([], x) == 0;
    assert forall l: nat :: Spend(0, l) == 0;
  }

  lemma SumOfNone(g: seq<int>)
    ensures Sum([], g) == 0
  {
  }

  lemma {:induction false} CostOnes(syms: seq<nat>, len: seq<nat>, xb: seq<nat>)
    requires forall i :: 0 <= i < |syms| ==> syms[i] < |len| && syms[i] < |xb|
    requires (forall i :: 0 <= i < |len| ==> len[i] == 1) && forall i :: 0 <= i < |xb| ==> xb[i] == 0
    ensures SymCost(syms, len, xb) == |syms|
  {
    if syms != [] {
      CostOnes(syms[1..], len, xb);
    }
  }

  /** The total frequency is the number of symbols. */
  lemma HistTotal(syms: seq<nat>, n: nat, m: nat)
    requires m <= n && forall i :: 0 <= i < |syms| ==> syms[i] < m
    ensures Sum(Range(0, m), Freqs(syms, n)) == |syms|
  {
    hide Sum, Range, Used, Freqs, SymCost, Hist;
    var one: seq<nat>, zero: seq<nat> := seq(n, _ => 1), seq(n, _ => 0);
    HistCost(syms, one, zero, n, m);
    CostOnes(syms, one, zero);
    forall x | 0 <= x < n ensures Used(Freqs(syms, n), one, zero)[x] == Freqs(syms, n)[x] {
      SpendByOne(Freqs(syms, n)[x]);
    }
    SumAgree(Range(0, m), Used(Freqs(syms, n), one, zero), Freqs(syms, n));
  }

  lemma SpendByOne(w: nat)
    ensures Spend(w, 1) == w
  {
  }

  // ---------- unused symbols at the end ----------

  /** `b` is `a` with unused symbols added. */
  ghost predicate ZeroExtended(a: seq<nat>, b: seq<nat>) {
    a <= b && forall i :: |a| <= i < |b| ==> b[i] == 0
  }

  lemma {:induction false} ExtendCount(a: seq<nat>, b: seq<nat>, k: nat, l: nat)
    requires ZeroExtended(a, b) && l > 0 && k <= |b|
    ensures Count(b, k, l) == Count(a, if k <= |a| then k else |a|, l)
  {
    if k > 0 {
      ExtendCount(a, b, k - 1, l);
    }
  }

  lemma {:induction false} ExtendSums(a: seq<nat>, b: seq<nat>, l: nat)
    requires ZeroExtended(a, b)
    ensures NextCode(b, l) == NextCode(a, l) && (l <= MAX_BITS + 1 ==> LenSum(b, l) == LenSum(a, l))
  {
    hide Count, Shl, ZeroExtended;
    if l > 0 {
      ExtendSums(a, b, l - 1);
      if l > 1 {
        ExtendCount(a, b, |b|, l - 1);
        ExtendLonger(a, b);
      }
    }
  }

  lemma ExtendLonger(a: seq<nat>, b: seq<nat>)
    requires ZeroExtended(a, b)
    ensures |a| <= |b|
  {
  }

  /** Unused symbols change neither completeness nor any code. */
  lemma ExtendCode(a: seq<nat>, b: seq<nat>)
    requires ZeroExtended(a, b)
    ensures Complete(a) <==> Complete(b)
    ensures forall s :: 0 <= s < |a| && a[s] > 0 ==> Code(b, s) == Code(a, s)
  {
    hide Count, LenSum, NextCode, Pow2;
    ExtendSums(a, b, MAX_BITS + 1);
    forall s | 0 <= s < |a| && a[s] > 0 ensures Code(b, s) == Code(a, s) {
      ExtendSums(a, b, a[s]);
      ExtendCount(a, b, s, a[s]);
    }
    assert ValidLens(a) <==> ValidLens(b) by {
      assert forall i :: 0 <= i < |a| ==> a[i] == b[i];
    }
  }
}
