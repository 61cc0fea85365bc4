/**
 How deep a Huffman tree can be: nodes come out of the heap by increasing frequency, so that along
 any path the frequencies grow at least like the numbers of Fibonacci.
 */
module TreeDepth {
  import opened Bits
  import opened Sums
  import opened Optimality
  import opened HuffmanForest
  import opened CodeLengths
  import opened HandDown
  import opened LengthFacts
  import opened BitLengths

  function Fib(n: nat): nat {
    if n < 2 then n else Fib(n - 1) + Fib(n - 2)
  }

  lemma {:induction false} FibMono(m: nat, n: nat)
    requires m <= n
    ensures Fib(m) <= Fib(n)
  {
    if m < n {
      FibMono(m, n - 1);
    }
  }

  // ---------- the way up from a father at the limit ----------

  /** Fathers are as frequent as their sons together. */
  lemma SonsOf(f: seq<nat>, dl: seq<nat>, order: seq<nat>, leaves: seq<nat>, elems: nat, k: nat, q: nat)
      returns (brother: nat)
    requires Tree(f, dl, order, leaves, elems, k) && 1 <= q < |order|
    ensures 1 <= brother < |order| && brother <= q + 1 && q <= brother + 1 && brother != q
    ensures order[q] < |f| && order[brother] < |f| && dl[order[brother]] == dl[order[q]] < |f|
    ensures f[dl[order[q]]] == f[order[q]] + f[order[brother]]
  {
    hide Later, Distinct, Descending;
    var s := k - (q - 1) / 2;
    assert PairOk(f, dl, order, elems, s);
    var i := |order| - 2 * s;
    assert q == i || q == i + 1;
    brother := if q == i then i + 1 else i;
  }

  /** A node's brother was taken out no earlier than its sons, so that it is no rarer. */
  lemma GrandFather(f: seq<nat>, dl: seq<nat>, order: seq<nat>, leaves: seq<nat>, elems: nat, k: nat, p: nat, q: nat)
      returns (g: nat)
    requires Tree(f, dl, order, leaves, elems, k) && 1 <= p < q < |order|
    requires order[q] < |dl| && dl[order[q]] == order[p]
    ensures g < p && order[p] < |dl| && order[g] == dl[order[p]]
    ensures order[q] < |f| && order[p] < |f| && order[g] < |f| && f[order[g]] >= f[order[p]] + f[order[q]]
  {
    hide Tree;
    TreeFacts(f, dl, order, leaves, elems, k);
    g := DadBefore(f, dl, order, leaves, elems, k, p);
    var brother := SonsOf(f, dl, order, leaves, elems, k, p);
    if brother == q {
      assert false;
    }
    NoRarer(f, dl, order, leaves, elems, k, brother, q);
  }

  lemma NoRarer(f: seq<nat>, dl: seq<nat>, order: seq<nat>, leaves: seq<nat>, elems: nat, k: nat, p: nat, q: nat)
    requires Tree(f, dl, order, leaves, elems, k) && p <= q < |order|
    ensures order[p] < |f| && order[q] < |f| && f[order[p]] >= f[order[q]]
  {
    hide Later, Distinct, Pairs;
    DescendingTrans(f, order, p, q);
  }

  /** From a father and a son on up, each generation is at least as frequent as the two below it. */
  lemma {:induction false} WayUp(f: seq<nat>, dl: seq<nat>, order: seq<nat>, leaves: seq<nat>, elems: nat, k: nat,
      len: seq<nat>, max: nat, p: nat, q: nat, j: nat)
    requires Tree(f, dl, order, leaves, elems, k) && LensOk(len, dl, order, max) && p < q < |order|
    requires order[q] < |dl| && dl[order[q]] == order[p] && order[p] < |f| && order[q] < |f|
    requires f[order[q]] >= Fib(j) && f[order[p]] >= Fib(j + 1) && j >= 1
    ensures order[0] < |f| && order[p] < |len| && f[order[0]] >= Fib(j + 1 + len[order[p]])
    decreases p
  {
    hide Tree, Fib;
    TreeBounds(f, dl, order, leaves, elems, k, len, max);
    if p > 0 {
      var g := GrandFather(f, dl, order, leaves, elems, k, p, q);
      NextFib(j);
      WayUp(f, dl, order, leaves, elems, k, len, max, g, p, j + 1);
      FibMono(j + 1 + len[order[p]], j + 2 + len[order[g]]);
    }
  }

  lemma NextFib(j: nat)
    ensures Fib(j + 2) == Fib(j + 1) + Fib(j)
  {
  }

  /** A father at the limit makes the root as frequent as that. */
  lemma DeepIsHeavy(f: seq<nat>, dl: seq<nat>, order: seq<nat>, leaves: seq<nat>, elems: nat, k: nat, len: seq<nat>,
      max: nat, s: nat)
    requires Tree(f, dl, order, leaves, elems, k) && LensOk(len, dl, order, max) && 1 <= s <= k && elems + s <= |len|
    requires (forall i :: 0 <= i < |leaves| ==> leaves[i] < |f| && f[leaves[i]] >= 1) && len[elems + s - 1] == max
    ensures order[0] < |f| && f[order[0]] >= Fib(max + 3)
  {
    hide Tree, LensOk;
    TreeBounds(f, dl, order, leaves, elems, k, len, max);
    DadsOf(f, dl, order, leaves, elems, k, s);
    var q := |order| - 2 * s;
    var p := DadBefore(f, dl, order, leaves, elems, k, q);
    var brother := SonsOf(f, dl, order, leaves, elems, k, q);
    PositiveNode(f, dl, order, leaves, elems, k, q);
    PositiveNode(f, dl, order, leaves, elems, k, brother);
    WayUp(f, dl, order, leaves, elems, k, len, max, p, q, 2);
  }

  /** Used symbols are in use, and so are the fathers. */
  lemma {:induction false} PositiveNode(f: seq<nat>, dl: seq<nat>, order: seq<nat>, leaves: seq<nat>, elems: nat,
      k: nat, q: nat)
    requires Tree(f, dl, order, leaves, elems, k) && q < |order|
    requires forall i :: 0 <= i < |leaves| ==> leaves[i] < |f| && f[leaves[i]] >= 1
    ensures order[q] < |f| && f[order[q]] >= 1
  {
    hide Later, Distinct, Pairs;
    var all := leaves + Range(elems, elems + k);
    var i := |order| - 1;
    NoRarer(f, dl, order, leaves, elems, k, q, i);
    LastIsLeaf(f, dl, order, leaves, elems, k);
  }

  /** The first node taken out is a leaf. */
  lemma LastIsLeaf(f: seq<nat>, dl: seq<nat>, order: seq<nat>, leaves: seq<nat>, elems: nat, k: nat)
    requires Tree(f, dl, order, leaves, elems, k)
    ensures order != [] && order[|order| - 1] in leaves
  {
    hide Distinct, Pairs, Descending;
    var x := order[|order| - 1];
    OrderLeaves(f, dl, order, leaves, elems, k);
  }

  // ---------- the frequency of the root ----------

  lemma {:induction false} FreqOfPairs(f: seq<nat>, dl: seq<nat>, order: seq<nat>, leaves: seq<nat>, elems: nat,
      k: nat, s: nat)
    requires Tree(f, dl, order, leaves, elems, k) && s <= k
    ensures elems + s <= |f| && 2 * s <= |order| && Sum(order[|order| - 2 * s..], f) == Sum(Range(elems, elems + s), f)
  {
    hide Tree, Sum, Range;
    TreeFacts(f, dl, order, leaves, elems, k);
    FathersIn(f, dl, order, leaves, elems, k);
    if s == 0 {
      SumNone(order, elems, f);
    } else {
      FreqOfPairs(f, dl, order, leaves, elems, k, s - 1);
      SuffixSum(order, s, f);
      RangeSum(elems, s, f);
      DadsOf(f, dl, order, leaves, elems, k, s);
      var b := SonsOf(f, dl, order, leaves, elems, k, |order| - 2 * s);
      PairSum(f, dl, order, leaves, elems, k, s);
    }
  }

  lemma FathersIn(f: seq<nat>, dl: seq<nat>, order: seq<nat>, leaves: seq<nat>, elems: nat, k: nat)
    requires Tree(f, dl, order, leaves, elems, k)
    ensures elems + k <= |f| && order[0] < |f|
  {
  }

  lemma PairSum(f: seq<nat>, dl: seq<nat>, order: seq<nat>, leaves: seq<nat>, elems: nat, k: nat, s: nat)
    requires Tree(f, dl, order, leaves, elems, k) && 1 <= s <= k
    ensures |order| == 2 * k + 1 && order[|order| - 2 * s] < |f| && order[|order| - 2 * s + 1] < |f|
    ensures elems + s - 1 < |f|
    ensures f[elems + s - 1] == f[order[|order| - 2 * s]] + f[order[|order| - 2 * s + 1]]
  {
    assert PairOk(f, dl, order, elems, s);
  }

  /** The root is as frequent as all symbols together. */
  lemma RootTotal(f: seq<nat>, dl: seq<nat>, order: seq<nat>, leaves: seq<nat>, elems: nat, k: nat)
    requires Tree(f, dl, order, leaves, elems, k)
    ensures order[0] < |f| && f[order[0]] == Sum(leaves, f)
  {
    hide Tree, Sum, Range;
    FathersIn(f, dl, order, leaves, elems, k);
    FreqOfPairs(f, dl, order, leaves, elems, k, k);
    SplitSum(f, dl, order, leaves, elems, k, f);
  }

  // ---------- both together ----------

  /** With fewer symbols than a number of Fibonacci no length exceeds the limit. */
  lemma FewSymbols(f: seq<nat>, dl: seq<nat>, order: seq<nat>, leaves: seq<nat>, elems: nat, k: nat, len: seq<nat>,
      max: nat)
    requires Tree(f, dl, order, leaves, elems, k) && LensOk(len, dl, order, max)
    requires forall i :: 0 <= i < |leaves| ==> leaves[i] < |f| && f[leaves[i]] >= 1
    requires Sum(leaves, f) < Fib(max + 3)
    ensures elems + k <= |len| && AtLimit(len, elems, k, max) == 0
  {
    hide Tree, LensOk, AtLimit, Sum, Fib;
    TreeBounds(f, dl, order, leaves, elems, k, len, max);
    if AtLimit(len, elems, k, max) > 0 {
      var s := SomeAtLimit(len, elems, k, max);
      DeepIsHeavy(f, dl, order, leaves, elems, k, len, max, s);
      RootTotal(f, dl, order, leaves, elems, k);
    }
  }
}
