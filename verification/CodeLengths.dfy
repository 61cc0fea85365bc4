/**
 What the lengths handed down a finished Huffman tree add up to.  All sums are
 taken pair by pair: the two sons of a father use exactly the father's share of
 code space, unless the father is already at the length limit.
 */
module CodeLengths {
  import opened Bits
  import opened CanonicalCode
  import opened Sums
  import opened HuffmanForest
  import opened Optimality

  /** The finished tree: every node once in `order`, the root first. */
  ghost predicate Tree(f: seq<nat>, dl: seq<nat>, order: seq<nat>, leaves: seq<nat>, elems: nat, k: nat) {
    && |leaves| == k + 1 && k >= 1 && elems + k <= |f| && |order| == 2 * k + 1
    && Nodes(f, dl, order) && order[0] == elems + k - 1
    && (forall i :: 0 <= i < |leaves| ==> leaves[i] < elems) && Distinct(leaves)
    && multiset(order) == multiset(leaves + Range(elems, elems + k))
    && Pairs(f, dl, order, elems, k) && Later(order, elems) && Descending(f, order, [])
  }

  /** The last node left in the heap is the last father made. */
  lemma FinishForest(f: seq<nat>, dl: seq<nat>, root: nat, order: seq<nat>, leaves: seq<nat>, elems: nat, k: nat)
    requires Forest(f, dl, [root], order, leaves, elems, k) && Distinct(leaves) && k >= 1 && k + 1 == |leaves|
    ensures Tree(f, dl, [root] + order, leaves, elems, k)
  {
    hide Descending, Distinct;
    var last: nat := elems + k - 1;
    var all := leaves + Range(elems, elems + k);
    assert all[|leaves| + k - 1] == last;
    assert last in multiset(all);
    assert last in multiset([root] + order);
    assert forall i :: 0 <= i < |order| ==> order[i] != last;
    assert root == last;
    FinishPairs(f, dl, root, order, elems, k);
    FinishLater(root, order, elems, k);
    FinishDescending(f, root, order);
  }

  lemma FinishPairs(f: seq<nat>, dl: seq<nat>, root: nat, order: seq<nat>, elems: nat, k: nat)
    requires Nodes(f, dl, order) && elems + k <= |f| && |order| == 2 * k && root < |f| && Pairs(f, dl, order, elems, k)
    ensures Nodes(f, dl, [root] + order) && Pairs(f, dl, [root] + order, elems, k)
  {
    var order' := [root] + order;
    assert forall i :: 1 <= i < |order'| ==> order'[i] == order[i - 1];
    forall s | 1 <= s <= k ensures PairOk(f, dl, order', elems, s) {
      assert PairOk(f, dl, order, elems, s);
    }
  }

  lemma FinishLater(root: nat, order: seq<nat>, elems: nat, k: nat)
    requires Later(order, elems) && |order| == 2 * k && root == elems + k - 1
    ensures Later([root] + order, elems)
  {
    var order' := [root] + order;
    assert forall i :: 1 <= i < |order'| ==> order'[i] == order[i - 1];
  }

  lemma FinishDescending(f: seq<nat>, root: nat, order: seq<nat>)
    requires (forall i :: 0 <= i < |order| ==> order[i] < |f|) && root < |f| && Descending(f, order, [root])
    ensures (forall i :: 0 <= i < |[root] + order| ==> ([root] + order)[i] < |f|) && Descending(f, [root] + order, [])
  {
    var order' := [root] + order;
    assert forall i :: 1 <= i < |order'| ==> order'[i] == order[i - 1];
    assert order != [] ==> f[[root][0]] >= f[order[0]];
  }

  // ---------- lengths handed down ----------

  /** The root has length 0 and every other node one more than its father, up to `max`. */
  ghost predicate LensOk(len: seq<nat>, dl: seq<nat>, order: seq<nat>, max: nat) {
    && |len| == |dl| && order != [] && order[0] < |len| && len[order[0]] == 0
    && forall q :: 1 <= q < |order| ==>
         order[q] < |dl| && dl[order[q]] < |len| && len[order[q]] == Min(len[dl[order[q]]] + 1, max)
  }

  /** The two nodes of step s. */
  lemma PairLens(f: seq<nat>, dl: seq<nat>, order: seq<nat>, leaves: seq<nat>, elems: nat, k: nat, len: seq<nat>,
      max: nat, s: nat)
    requires Tree(f, dl, order, leaves, elems, k) && LensOk(len, dl, order, max) && 1 <= s <= k
    ensures var d, x, y := elems + s - 1, order[|order| - 2 * s], order[|order| - 2 * s + 1];
            && x < |len| && y < |len| && d < |len| && len[x] == Min(len[d] + 1, max) == len[y] && f[d] == f[x] + f[y]
  {
    assert PairOk(f, dl, order, elems, s);
  }

  lemma {:induction false} LensBound(len: seq<nat>, dl: seq<nat>, order: seq<nat>, max: nat, q: nat)
    requires LensOk(len, dl, order, max) && q < |order|
    ensures len[order[q]] <= max
  {
  }

  /** Code space of each node in units of 2^-15. */
  ghost function Space(len: seq<nat>): (g: seq<int>)
    ensures |g| == |len|
    ensures forall x :: 0 <= x < |len| ==> g[x] == if len[x] <= MAX_BITS then Pow2(MAX_BITS - len[x]) else 0
  {
    seq(|len|, x requires 0 <= x < |len| => if len[x] <= MAX_BITS then Pow2(MAX_BITS - len[x]) else 0)
  }

  /** 1 for nodes of length b. */
  ghost function HasLen(len: seq<nat>, b: nat): (g: seq<int>)
    ensures |g| == |len| && forall x :: 0 <= x < |len| ==> g[x] == if len[x] == b then 1 else 0
  {
    seq(|len|, x requires 0 <= x < |len| => if len[x] == b then 1 else 0)
  }

  ghost function Spent(f: seq<nat>, len: seq<nat>): (g: seq<int>)
    requires |f| == |len|
    ensures |g| == |len| && forall x :: 0 <= x < |len| ==> g[x] == Spend(f[x], len[x])
  {
    seq(|len|, x requires 0 <= x < |len| => Spend(f[x], len[x]))
  }

  /** Fathers at the limit among the first s made. */
  ghost function AtLimit(len: seq<nat>, elems: nat, s: nat, max: nat): nat
    requires elems + s <= |len|
  {
    if s == 0 then 0 else AtLimit(len, elems, s - 1, max) + if len[elems + s - 1] == max then 1 else 0
  }

  lemma RangeSum(elems: nat, s: nat, g: seq<int>)
    requires s >= 1
    ensures Sum(Range(elems, elems + s), g) == Sum(Range(elems, elems + s - 1), g) + At(g, elems + s - 1)
  {
    assert Range(elems, elems + s) == Range(elems, elems + s - 1) + [elems + s - 1];
    SumAppend(Range(elems, elems + s - 1), [elems + s - 1], g);
    SumOne(elems + s - 1, g);
  }

  /** The last 2s entries are the pair of step s and the last 2(s-1) entries. */
  lemma SuffixSum(order: seq<nat>, s: nat, g: seq<int>)
    requires 1 <= s && 2 * s <= |order|
    ensures Sum(order[|order| - 2 * s..], g)
         == At(g, order[|order| - 2 * s]) + At(g, order[|order| - 2 * s + 1]) + Sum(order[|order| - 2 * (s - 1)..], g)
  {
    var i := |order| - 2 * s;
    var x, y := order[i], order[i + 1];
    assert order[i..] == [x] + ([y] + order[i + 2..]);
    SumAppend([x], [y] + order[i + 2..], g);
    SumAppend([y], order[i + 2..], g);
    SumOne(x, g);
    SumOne(y, g);
  }

  lemma {:induction false} SpaceOfPairs(f: seq<nat>, dl: seq<nat>, order: seq<nat>, leaves: seq<nat>, elems: nat,
      k: nat, len: seq<nat>, max: nat, s: nat)
    requires Tree(f, dl, order, leaves, elems, k) && LensOk(len, dl, order, max) && s <= k && max <= MAX_BITS
    requires FathersUpTo(len, elems, k, max)
    ensures elems + s <= |len|
    ensures Sum(order[|order| - 2 * s..], Space(len))
         == Sum(Range(elems, elems + s), Space(len)) + Shl(AtLimit(len, elems, s, max), MAX_BITS - max)
  {
    hide Tree, LensOk, Sum, Space, FathersUpTo, Pow2, Shl, Range;
    TreeBounds(f, dl, order, leaves, elems, k, len, max);
    var g := Space(len);
    if s == 0 {
      SumNone(order, elems, g);
      ShlOne(MAX_BITS - max);
    } else {
      SpaceOfPairs(f, dl, order, leaves, elems, k, len, max, s - 1);
      SuffixSum(order, s, g);
      RangeSum(elems, s, g);
      PairLens(f, dl, order, leaves, elems, k, len, max, s);
      FatherBound(len, elems, k, max, elems + s - 1);
      ShlNext(AtLimit(len, elems, s - 1, max), MAX_BITS - max);
      assert len[order[|order| - 2 * s]] <= MAX_BITS;
      PairSpace(len[elems + s - 1], max);
    }
  }

  /** No father is longer than the limit. */
  ghost predicate FathersUpTo(len: seq<nat>, elems: nat, k: nat, max: nat) {
    elems + k <= |len| && forall x :: elems <= x < elems + k ==> len[x] <= max
  }

  lemma FatherBound(len: seq<nat>, elems: nat, k: nat, max: nat, x: nat)
    requires FathersUpTo(len, elems, k, max) && elems <= x < elems + k
    ensures len[x] <= max
  {
  }

  lemma PairSpace(l: nat, max: nat)
    requires l <= max <= MAX_BITS
    ensures 2 * Pow2(MAX_BITS - Min(l + 1, max)) == Pow2(MAX_BITS - l) + if l == max then Pow2(MAX_BITS - max) else 0
  {
  }

  lemma SumNone(order: seq<nat>, elems: nat, g: seq<int>)
    ensures Sum(order[|order|..], g) == 0 && Sum(Range(elems, elems), g) == 0
  {
  }

  lemma TreeBounds(f: seq<nat>, dl: seq<nat>, order: seq<nat>, leaves: seq<nat>, elems: nat, k: nat, len: seq<nat>,
      max: nat)
    requires Tree(f, dl, order, leaves, elems, k) && LensOk(len, dl, order, max)
    ensures |len| == |dl| == |f| && elems + k <= |len| && |order| == 2 * k + 1 && |leaves| == k + 1 && k >= 1
    ensures order[0] < |len| && len[order[0]] == 0
  {
  }

  /** Nodes of the limiting length: the sons of the fathers of that length, and of those one shorter. */
  lemma {:induction false} LimitOfPairs(f: seq<nat>, dl: seq<nat>, order: seq<nat>, leaves: seq<nat>, elems: nat,
      k: nat, len: seq<nat>, max: nat, s: nat)
    requires Tree(f, dl, order, leaves, elems, k) && LensOk(len, dl, order, max) && s <= k && max >= 1
    requires FathersUpTo(len, elems, k, max)
    ensures elems + s <= |len|
    ensures Sum(Range(elems, elems + s), HasLen(len, max)) == AtLimit(len, elems, s, max)
    ensures Sum(order[|order| - 2 * s..], HasLen(len, max))
            == 2 * AtLimit(len, elems, s, max) + 2 * AtLimit(len, elems, s, max - 1)
  {
    hide Tree, LensOk, Sum, HasLen, Range, FathersUpTo;
    TreeBounds(f, dl, order, leaves, elems, k, len, max);
    var g := HasLen(len, max);
    if s == 0 {
      SumNone(order, elems, g);
    } else {
      LimitOfPairs(f, dl, order, leaves, elems, k, len, max, s - 1);
      SuffixSum(order, s, g);
      RangeSum(elems, s, g);
      PairLens(f, dl, order, leaves, elems, k, len, max, s);
      FatherBound(len, elems, k, max, elems + s - 1);
    }
  }

  lemma SpendPair(fx: nat, fy: nat, l: nat)
    ensures Spend(fx, l + 1) + Spend(fy, l + 1) == Spend(fx + fy, l) + fx + fy
  {
  }

  /** With no father at the limit, each pair spends its father's bits and one more per use. */
  lemma {:induction false} SpendOfPairs(f: seq<nat>, dl: seq<nat>, order: seq<nat>, leaves: seq<nat>, elems: nat,
      k: nat, len: seq<nat>, max: nat, s: nat)
    requires Tree(f, dl, order, leaves, elems, k) && LensOk(len, dl, order, max) && s <= k
    requires FathersUpTo(len, elems, k, max) && AtLimit(len, elems, s, max) == 0
    ensures elems + s <= |len| == |f|
    ensures Sum(order[|order| - 2 * s..], Spent(f, len))
            == Sum(Range(elems, elems + s), Spent(f, len)) + Joined(f, elems, s)
  {
    hide Tree, LensOk, Sum, Spent, Range, Spend, FathersUpTo;
    TreeBounds(f, dl, order, leaves, elems, k, len, max);
    var g := Spent(f, len);
    if s == 0 {
      SumNone(order, elems, g);
    } else {
      SpendOfPairs(f, dl, order, leaves, elems, k, len, max, s - 1);
      SuffixSum(order, s, g);
      RangeSum(elems, s, g);
      PairLens(f, dl, order, leaves, elems, k, len, max, s);
      FatherBound(len, elems, k, max, elems + s - 1);
      var x, y := order[|order| - 2 * s], order[|order| - 2 * s + 1];
      SpendPair(f[x], f[y], len[elems + s - 1]);
    }
  }

  /** A sum over all nodes is the sum over the leaves plus the sum over the fathers. */
  lemma SplitSum(f: seq<nat>, dl: seq<nat>, order: seq<nat>, leaves: seq<nat>, elems: nat, k: nat, g: seq<int>)
    requires Tree(f, dl, order, leaves, elems, k)
    ensures Sum(leaves, g) + Sum(Range(elems, elems + k), g) == At(g, order[0]) + Sum(order[|order| - 2 * k..], g)
  {
    hide Pairs, Later, Descending, Range, Distinct;
    SumPermutation(order, leaves + Range(elems, elems + k), g);
    SumAppend(leaves, Range(elems, elems + k), g);
    assert order == [order[0]] + order[1..];
    SumAppend([order[0]], order[1..], g);
    SumOne(order[0], g);
  }

  lemma FindNode(f: seq<nat>, dl: seq<nat>, order: seq<nat>, leaves: seq<nat>, elems: nat, k: nat, x: nat)
      returns (p: nat)
    requires Tree(f, dl, order, leaves, elems, k) && (elems <= x < elems + k || x in leaves)
    ensures p < |order| && order[p] == x
  {
    hide Pairs, Later, Descending, Distinct;
    var all := leaves + Range(elems, elems + k);
    if elems <= x {
      assert x !in leaves ==> all[|leaves| + (x - elems)] == x;
    }
    assert x in all;
    assert x in multiset(order);
    p :| 0 <= p < |order| && order[p] == x;
  }

  lemma TreeUpTo(f: seq<nat>, dl: seq<nat>, order: seq<nat>, leaves: seq<nat>, elems: nat, k: nat, len: seq<nat>,
      max: nat)
    requires Tree(f, dl, order, leaves, elems, k) && LensOk(len, dl, order, max) && 1 <= max
    ensures FathersUpTo(len, elems, k, max)
    ensures forall i :: 0 <= i < |leaves| ==> leaves[i] < |len| && 1 <= len[leaves[i]] <= max
  {
    hide Tree;
    TreeBounds(f, dl, order, leaves, elems, k, len, max);
    forall x | elems <= x < elems + k ensures len[x] <= max {
      var p := FindNode(f, dl, order, leaves, elems, k, x);
      LensBound(len, dl, order, max, p);
    }
    forall i | 0 <= i < |leaves| ensures leaves[i] < |len| && 1 <= len[leaves[i]] <= max {
      assert leaves[i] in leaves;
      var p := FindNode(f, dl, order, leaves, elems, k, leaves[i]);
      LensBound(len, dl, order, max, p);
      LeafNotRoot(f, dl, order, leaves, elems, k, i);
    }
  }

  lemma LeafNotRoot(f: seq<nat>, dl: seq<nat>, order: seq<nat>, leaves: seq<nat>, elems: nat, k: nat, i: nat)
    requires Tree(f, dl, order, leaves, elems, k) && i < |leaves|
    ensures leaves[i] != order[0]
  {
  }

  // ---------- what the whole tree adds up to ----------

  /** The leaves fill the code space, plus one unit of the limiting length for every
      father at the limit; that many leaves have the limiting length, and two more for every father
      one shorter. */
  lemma TreeSpace(f: seq<nat>, dl: seq<nat>, order: seq<nat>, leaves: seq<nat>, elems: nat, k: nat, len: seq<nat>,
      max: nat)
    requires Tree(f, dl, order, leaves, elems, k) && LensOk(len, dl, order, max) && 1 <= max <= MAX_BITS
    ensures elems + k <= |len| == |f|
    ensures Sum(leaves, Space(len)) == Pow2(MAX_BITS) + Shl(AtLimit(len, elems, k, max), MAX_BITS - max)
    ensures Sum(leaves, HasLen(len, max)) == AtLimit(len, elems, k, max) + 2 * AtLimit(len, elems, k, max - 1)
  {
    hide Tree, LensOk, Sum, Space, HasLen, Range, Pow2, Shl, FathersUpTo;
    TreeBounds(f, dl, order, leaves, elems, k, len, max);
    TreeUpTo(f, dl, order, leaves, elems, k, len, max);
    SpaceOfPairs(f, dl, order, leaves, elems, k, len, max, k);
    LimitOfPairs(f, dl, order, leaves, elems, k, len, max, k);
    SplitSum(f, dl, order, leaves, elems, k, Space(len));
    SplitSum(f, dl, order, leaves, elems, k, HasLen(len, max));
  }

  /** With no father at the limit the leaves spend exactly what the merges joined. */
  lemma TreeSpend(f: seq<nat>, dl: seq<nat>, order: seq<nat>, leaves: seq<nat>, elems: nat, k: nat, len: seq<nat>,
      max: nat)
    requires Tree(f, dl, order, leaves, elems, k) && LensOk(len, dl, order, max)
    requires 1 <= max && elems + k <= |len| && AtLimit(len, elems, k, max) == 0
    ensures |len| == |f| && Sum(leaves, Spent(f, len)) == Joined(f, elems, k)
  {
    hide Tree, LensOk, Sum, Spent, Range, FathersUpTo;
    TreeBounds(f, dl, order, leaves, elems, k, len, max);
    TreeUpTo(f, dl, order, leaves, elems, k, len, max);
    SpendOfPairs(f, dl, order, leaves, elems, k, len, max, k);
    SplitSum(f, dl, order, leaves, elems, k, Spent(f, len));
  }
}
