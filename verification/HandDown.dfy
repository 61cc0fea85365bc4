/**
 The first pass of gen_bitlen as a function: lengths are handed down the tree in
 the same array that holds the father links, each link being overwritten only
 after its last use.
 */
module HandDown {
  import opened Bits
  import opened Sums
  import opened HuffmanForest
  import opened CodeLengths
  import opened Optimality

  /** The links/lengths array after the first `i` nodes of `order` have their lengths. */
  ghost function Down(dl: seq<nat>, order: seq<nat>, max: nat, i: nat): (r: seq<nat>)
    requires 1 <= i <= |order| && forall q :: 0 <= q < |order| ==> order[q] < |dl|
    ensures |r| == |dl|
  {
    if i == 1 then dl[order[0] := 0]
    else
      var r := Down(dl, order, max, i - 1);
      var dad := r[order[i - 1]];
      r[order[i - 1] := if dad < |r| then Min(r[dad] + 1, max) else max]
  }

  lemma TreeFacts(f: seq<nat>, dl: seq<nat>, order: seq<nat>, leaves: seq<nat>, elems: nat, k: nat)
    requires Tree(f, dl, order, leaves, elems, k)
    ensures |order| == 2 * k + 1 && k >= 1 && |dl| == |f| && forall q :: 0 <= q < |order| ==> order[q] < |dl|
    ensures Distinct(order)
  {
    hide Pairs, Later, Descending;
    assert order == [] + order;
    AllDistinct([], order, leaves, elems, k);
  }

  /** Writing one node leaves the others alone. */
  lemma {:induction false} DownKeeps(dl: seq<nat>, order: seq<nat>, max: nat, i: nat, j: nat, q: nat)
    requires 1 <= i <= j <= |order| && q < |order| && (forall q :: 0 <= q < |order| ==> order[q] < |dl|)
    requires Distinct(order)
    requires q < i || j <= q
    ensures Down(dl, order, max, j)[order[q]] == Down(dl, order, max, i)[order[q]]
  {
    if i < j {
      DownKeeps(dl, order, max, i, j - 1, q);
    }
  }

  lemma {:induction false} DownBefore(dl: seq<nat>, order: seq<nat>, max: nat, i: nat, q: nat)
    requires 1 <= i <= q < |order| && (forall q :: 0 <= q < |order| ==> order[q] < |dl|) && Distinct(order)
    ensures Down(dl, order, max, i)[order[q]] == dl[order[q]]
  {
    if i > 1 {
      DownBefore(dl, order, max, i - 1, q);
    }
  }

  /** Nodes outside the tree keep their entry. */
  lemma {:induction false} DownOutside(dl: seq<nat>, order: seq<nat>, max: nat, i: nat, x: nat)
    requires 1 <= i <= |order| && (forall q :: 0 <= q < |order| ==> order[q] < |dl|) && x < |dl| && x !in order
    ensures Down(dl, order, max, i)[x] == dl[x]
  {
    if i > 1 {
      DownOutside(dl, order, max, i - 1, x);
    }
  }

  /** Fathers come before their sons. */
  lemma DadBefore(f: seq<nat>, dl: seq<nat>, order: seq<nat>, leaves: seq<nat>, elems: nat, k: nat, q: nat)
      returns (p: nat)
    requires Tree(f, dl, order, leaves, elems, k) && 1 <= q < |order|
    ensures p < q && order[p] == dl[order[q]]
  {
    var s := k - (q - 1) / 2;
    assert PairOk(f, dl, order, elems, s);
    var d := elems + s - 1;
    assert dl[order[q]] == d by {
      assert q == |order| - 2 * s || q == |order| - 2 * s + 1;
    }
    p := FindNode(f, dl, order, leaves, elems, k, d);
    assert |order| - 1 - p >= 2 * (d - elems + 1);
  }

  /** The lengths after the pass are one more than the father's, up to the limit. */
  lemma DownLens(f: seq<nat>, dl: seq<nat>, order: seq<nat>, leaves: seq<nat>, elems: nat, k: nat, max: nat)
    requires Tree(f, dl, order, leaves, elems, k)
    ensures |order| >= 1 && forall q :: 0 <= q < |order| ==> order[q] < |dl|
    ensures LensOk(Down(dl, order, max, |order|), dl, order, max)
  {
    hide Tree, Distinct;
    TreeFacts(f, dl, order, leaves, elems, k);
    var r := Down(dl, order, max, |order|);
    DownKeeps(dl, order, max, 1, |order|, 0);
    forall q | 1 <= q < |order| ensures dl[order[q]] < |r| && r[order[q]] == Min(r[dl[order[q]]] + 1, max) {
      DownStep(f, dl, order, leaves, elems, k, max, q);
    }
  }

  /** What the loop reads and writes at node q, in terms of the final lengths. */
  lemma DownStep(f: seq<nat>, dl: seq<nat>, order: seq<nat>, leaves: seq<nat>, elems: nat, k: nat, max: nat, q: nat)
    requires Tree(f, dl, order, leaves, elems, k) && 1 <= q < |order|
    requires forall q :: 0 <= q < |order| ==> order[q] < |dl|
    ensures var now, end := Down(dl, order, max, q), Down(dl, order, max, |order|);
            && now[order[q]] == dl[order[q]] < |dl|
            && now[dl[order[q]]] == end[dl[order[q]]]
            && end[order[q]] == Min(end[dl[order[q]]] + 1, max)
  {
    hide Tree, Distinct;
    TreeFacts(f, dl, order, leaves, elems, k);
    var p := DadBefore(f, dl, order, leaves, elems, k, q);
    DownBefore(dl, order, max, q, q);
    DownKeeps(dl, order, max, q, |order|, p);
    DownKeeps(dl, order, max, q + 1, |order|, q);
  }

  // ---------- what the loop counts ----------

  /** Nodes among the first i (but not the root) whose father is at the limit. */
  ghost function Overflow(len: seq<nat>, dl: seq<nat>, order: seq<nat>, max: nat, i: nat): nat
    requires 1 <= i <= |order| && |len| == |dl| && forall q :: 0 <= q < |order| ==> order[q] < |dl|
  {
    if i == 1 then 0
    else Overflow(len, dl, order, max,
        i - 1) + if dl[order[i - 1]] < |len| && len[dl[order[i - 1]]] == max then 1 else 0
  }

  /** Counting by nodes and counting by fathers agree. */
  lemma {:induction false} OverflowIsAtLimit(f: seq<nat>, dl: seq<nat>, order: seq<nat>, leaves: seq<nat>, elems: nat,
      k: nat, len: seq<nat>, max: nat, s: nat)
    requires Tree(f, dl, order, leaves, elems, k) && LensOk(len, dl, order, max) && s <= k
    requires forall q :: 0 <= q < |order| ==> order[q] < |dl|
    ensures elems + k <= |len| && |order| == 2 * k + 1
    ensures Overflow(len, dl, order, max, |order| - 2 * s) + 2 * AtLimit(len, elems, s, max)
            == 2 * AtLimit(len, elems, k, max)
    decreases k - s
  {
    hide Tree, LensOk;
    TreeBounds(f, dl, order, leaves, elems, k, len, max);
    if s < k {
      OverflowIsAtLimit(f, dl, order, leaves, elems, k, len, max, s + 1);
      DadsOf(f, dl, order, leaves, elems, k, s + 1);
    }
  }

  lemma DadsOf(f: seq<nat>, dl: seq<nat>, order: seq<nat>, leaves: seq<nat>, elems: nat, k: nat, s: nat)
    requires Tree(f, dl, order, leaves, elems, k) && 1 <= s <= k
    ensures |order| == 2 * k + 1 && order[|order| - 2 * s] < |dl| && order[|order| - 2 * s + 1] < |dl|
    ensures dl[order[|order| - 2 * s]] == elems + s - 1 && dl[order[|order| - 2 * s + 1]] == elems + s - 1
  {
    assert PairOk(f, dl, order, elems, s);
  }

  // ---------- fathers at the limit ----------

  lemma {:induction false} SomeAtLimit(len: seq<nat>, elems: nat, k: nat, max: nat) returns (s: nat)
    requires elems + k <= |len| && AtLimit(len, elems, k, max) > 0
    ensures 1 <= s <= k && len[elems + s - 1] == max
  {
    if len[elems + k - 1] == max {
      s := k;
    } else {
      s := SomeAtLimit(len, elems, k - 1, max);
    }
  }

  lemma {:induction false} AtLimitHas(len: seq<nat>, elems: nat, k: nat, max: nat, s: nat)
    requires elems + k <= |len| && 1 <= s <= k && len[elems + s - 1] == max
    ensures AtLimit(len, elems, k, max) > 0
  {
    if s < k {
      AtLimitHas(len, elems, k - 1, max, s);
    }
  }

  /** The first node at the limit on the way down has a father one shorter. */
  lemma {:induction false} FirstAtLimit(f: seq<nat>, dl: seq<nat>, order: seq<nat>, leaves: seq<nat>, elems: nat,
      k: nat, len: seq<nat>, max: nat, p: nat) returns (s: nat)
    requires Tree(f, dl, order, leaves, elems, k) && LensOk(len, dl, order, max) && 1 <= max && p < |order|
    requires order[p] < |len| && len[order[p]] == max
    ensures 1 <= s <= k && elems + s <= |len| && len[elems + s - 1] == max - 1
    decreases p
  {
    hide Tree;
    TreeBounds(f, dl, order, leaves, elems, k, len, max);
    var g := DadBefore(f, dl, order, leaves, elems, k, p);
    LensBound(len, dl, order, max, g);
    if len[order[g]] == max {
      s := FirstAtLimit(f, dl, order, leaves, elems, k, len, max, g);
    } else {
      s := k - (p - 1) / 2;
      DadsOf(f, dl, order, leaves, elems, k, s);
      assert p == |order| - 2 * s || p == |order| - 2 * s + 1;
    }
  }

  /** Where there is a father at the limit there is one just short of it. */
  lemma OneShorter(f: seq<nat>, dl: seq<nat>, order: seq<nat>, leaves: seq<nat>, elems: nat, k: nat, len: seq<nat>,
      max: nat)
    requires Tree(f, dl, order, leaves, elems, k) && LensOk(len, dl, order, max) && 1 <= max && elems + k <= |len|
    ensures AtLimit(len, elems, k, max) > 0 ==> AtLimit(len, elems, k, max - 1) > 0
  {
    hide Tree, LensOk, AtLimit;
    if AtLimit(len, elems, k, max) > 0 {
      var s := SomeAtLimit(len, elems, k, max);
      var p := FindNode(f, dl, order, leaves, elems, k, elems + s - 1);
      var t := FirstAtLimit(f, dl, order, leaves, elems, k, len, max, p);
      AtLimitHas(len, elems, k, max - 1, t);
    }
  }

  /** Attributes of leaves only. */
  ghost function OnLeaves(g: seq<int>, elems: nat): (r: seq<int>)
    ensures |r| == |g| && forall x :: 0 <= x < |g| ==> r[x] == if x < elems then g[x] else 0
  {
    seq(|g|, x requires 0 <= x < |g| => if x < elems then g[x] else 0)
  }

  /** Summing a leaf attribute along `order` is summing it over the leaves. */
  lemma LeafSum(f: seq<nat>, dl: seq<nat>, order: seq<nat>, leaves: seq<nat>, elems: nat, k: nat, g: seq<int>)
    requires Tree(f, dl, order, leaves, elems, k)
    ensures |order| >= 1 && Sum(order[1..], OnLeaves(g, elems)) == Sum(leaves, g)
  {
    hide Tree, OnLeaves, Sum, Range;
    var r := OnLeaves(g, elems);
    SplitSum(f, dl, order, leaves, elems, k, r);
    LeafSumParts(f, dl, order, leaves, elems, k, g);
    assert order[|order| - 2 * k..] == order[1..] by { TreeFacts(f, dl, order, leaves, elems, k); }
  }

  lemma LeafSumParts(f: seq<nat>, dl: seq<nat>, order: seq<nat>, leaves: seq<nat>, elems: nat, k: nat, g: seq<int>)
    requires Tree(f, dl, order, leaves, elems, k)
    ensures At(OnLeaves(g, elems), order[0]) == 0
    ensures Sum(Range(elems, elems + k), OnLeaves(g, elems)) == 0
    ensures Sum(leaves, OnLeaves(g, elems)) == Sum(leaves, g)
  {
    hide Pairs, Later, Descending, Distinct;
    SumAgree(leaves, OnLeaves(g, elems), g);
    SumZero(Range(elems, elems + k), OnLeaves(g, elems));
  }

  lemma {:induction false} SumZero(s: seq<nat>, g: seq<int>)
    requires forall i :: 0 <= i < |s| ==> At(g, s[i]) == 0
    ensures Sum(s, g) == 0
  {
    if s != [] {
      SumZero(s[1..], g);
    }
  }
}
