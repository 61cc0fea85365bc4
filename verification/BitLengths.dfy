/** gen_bitlen as a whole: complete lengths within the limit, exact counts and costs. */
module BitLengths {
  import opened Bits
  import opened CanonicalCode
  import opened Sums
  import opened Optimality
  import opened HuffmanForest
  import opened CodeLengths
  import opened HandDown
  import opened LimitRepair
  import opened GenBitLen
  import opened Reassign
  import opened LengthFacts

  /** Exactly the listed symbols have a length, none over the limit, and the code is complete. */
  ghost predicate GoodLens(len: seq<nat>, leaves: seq<nat>, elems: nat, max: nat) {
    && elems <= |len| && max <= MAX_BITS && Lists(leaves, len[..elems]) && LensIn(leaves, len, 1, max)
    && Complete(len[..elems])
  }

  /** bl_count holds the number of codes of each length. */
  ghost predicate CountsOk(bl: seq<nat>, lens: seq<nat>) {
    |bl| == MAX_BITS + 1 && bl[0] == 0 && forall b :: 1 <= b <= MAX_BITS ==> bl[b] == Total(lens, b)
  }

  /** Rarer symbols never get shorter codes. */
  ghost predicate ByFrequency(f: seq<nat>, len: seq<nat>, leaves: seq<nat>)
    requires forall i :: 0 <= i < |leaves| ==> leaves[i] < |f| && leaves[i] < |len|
  {
    forall i,
        j :: 0 <= i < |leaves| && 0 <= j < |leaves| && f[leaves[i]] < f[leaves[j]] ==> len[leaves[j]] <= len[leaves[i]]
  }

  /** Symbols outside the tree have no length. */
  ghost predicate RestZero(len: seq<nat>, leaves: seq<nat>, elems: nat) {
    elems <= |len| && forall s :: 0 <= s < elems && s !in leaves ==> len[s] == 0
  }

  /** Lengths of the leaves and their counts make a good code if the counts fill the space. */
  lemma LensGood(len: seq<nat>, leaves: seq<nat>, elems: nat, max: nat, bl: seq<nat>)
    requires Distinct(leaves) && (forall i :: 0 <= i < |leaves| ==> leaves[i] < elems) && RestZero(len, leaves, elems)
    requires LensIn(leaves, len, 1, max) && max <= MAX_BITS && |bl| == MAX_BITS + 1 && bl[0] == 0
    requires forall b :: 1 <= b <= MAX_BITS ==> bl[b] == Sum(leaves, HasLen(len, b))
    requires BlSpace(bl, MAX_BITS) == Pow2(MAX_BITS)
    ensures GoodLens(len, leaves, elems, max) && CountsOk(bl, len[..elems])
  {
    hide Sum, HasLen, BlSpace, Pow2, LenSum, Distinct;
    var lens := len[..elems];
    forall s | 0 <= s < elems ensures lens[s] > 0 <==> s in leaves {
      if s in leaves {
        var i :| 0 <= i < |leaves| && leaves[i] == s;
      }
    }
    forall s | 0 <= s < elems ensures lens[s] <= MAX_BITS {
      if s in leaves {
        var i :| 0 <= i < |leaves| && leaves[i] == s;
      }
    }
    forall b | 1 <= b <= MAX_BITS ensures bl[b] == Total(lens, b) {
      CountIsSum(leaves, lens, elems, b);
      SumAgree(leaves, HasLen(len, b), HasLen(lens, b));
    }
    KraftIsSpace(lens, bl, MAX_BITS);
  }

  /** The state after the first pass. */
  lemma AfterFirstPass(f: seq<nat>, dl0: seq<nat>, order: seq<nat>, leaves: seq<nat>, elems: nat, k: nat, max: nat,
      len: seq<nat>, bl: seq<nat>)
    requires Tree(f, dl0, order, leaves, elems, k) && 1 <= max <= MAX_BITS && LensOk(len, dl0, order, max)
    requires |order| >= 1 && Counted(bl, order, len, elems, |order|)
    ensures elems + k <= |len| && LensIn(leaves, len, 1, max)
    ensures |bl| == MAX_BITS + 1 && forall b :: 0 <= b <= MAX_BITS ==> bl[b] == Sum(leaves, HasLen(len, b))
    ensures Excess(bl, max, AtLimit(len, elems, k, max)) && BlTotal(bl, MAX_BITS) == |leaves|
  {
    hide Tree, LensOk, Sum, HasLen, Space, OnLeaves, Shl, Pow2, BlSpace, BlTotal, AtLimit;
    TreeBounds(f, dl0, order, leaves, elems, k, len, max);
    TreeUpTo(f, dl0, order, leaves, elems, k, len, max);
    assert order[1..|order|] == order[1..];
    forall b | 0 <= b <= MAX_BITS ensures bl[b] == Sum(leaves, HasLen(len, b)) {
      LeafSum(f, dl0, order, leaves, elems, k, HasLen(len, b));
    }
    forall b | 0 <= b <= MAX_BITS ensures CountsOf(leaves, len)[b] == bl[b] {
      CountsAreSums(leaves, len, b);
    }
    assert CountsOf(leaves, len) == bl;
    CountsSpace(leaves, len);
    TreeSpace(f, dl0, order, leaves, elems, k, len, max);
    NoneOfLength(leaves, len, 1, max, 0);
    forall b | max < b <= MAX_BITS ensures bl[b] == 0 {
      NoneOfLength(leaves, len, 1, max, b);
    }
  }

  /** More leaves than fathers are at the limit. */
  lemma MoreAtLimit(f: seq<nat>, dl0: seq<nat>, order: seq<nat>, leaves: seq<nat>, elems: nat, k: nat, max: nat,
      len: seq<nat>)
    requires Tree(f, dl0, order, leaves, elems, k) && 1 <= max <= MAX_BITS && LensOk(len, dl0, order, max)
    ensures elems + k <= |len|
    ensures AtLimit(len, elems, k, max) > 0 ==> Sum(leaves, HasLen(len, max)) > AtLimit(len, elems, k, max)
  {
    hide *;
    TreeSpace(f, dl0, order, leaves, elems, k, len, max);
    OneShorter(f, dl0, order, leaves, elems, k, len, max);
  }

  lemma RecomputeStart(f: seq<nat>, dl0: seq<nat>, order: seq<nat>, leaves: seq<nat>, elems: nat, k: nat, max: nat,
      len: seq<nat>, bl: seq<nat>)
    requires Tree(f, dl0, order, leaves, elems, k) && |len| == |f|
    requires Excess(bl, max, 0) && BlTotal(bl, MAX_BITS) == |leaves|
    ensures State(order, len, bl, elems, max, |order|, max, bl[max])
  {
    hide Tree, BlSpace, Shl, Pow2, LeavesBelow;
    TreeFacts(f, dl0, order, leaves, elems, k);
    AllLeaves(f, dl0, order, leaves, elems, k);
    EmptyAbove(bl, max, MAX_BITS);
  }

  lemma RecomputeEnd(f: seq<nat>, dl0: seq<nat>, order: seq<nat>, leaves: seq<nat>, elems: nat, k: nat, max: nat,
      len: seq<nat>, bl: seq<nat>, h: nat)
    requires Tree(f, dl0, order, leaves, elems, k) && 1 <= max && |len| == |f|
    requires State(order, len, bl, elems, max, h, 0, 0) && bl[0] == 0
    ensures forall b :: 1 <= b <= MAX_BITS ==> bl[b] == Sum(leaves, HasLen(len, b))
    ensures LensIn(leaves, len, 1, max)
    ensures (forall i :: 0 <= i < |leaves| ==> leaves[i] < |f| && leaves[i] < |len|) && ByFrequency(f, len, leaves)
  {
    hide Tree, Sum, HasLen, LeavesFrom, BlTotal, LeavesBelow;
    TreeFacts(f, dl0, order, leaves, elems, k);
    LeavesInBounds(f, dl0, order, leaves, elems, k);
    LeafLens(f, dl0, order, leaves, elems, k, max, len, bl, h);
    forall b | 1 <= b <= MAX_BITS ensures bl[b] == Sum(leaves, HasLen(len, b)) {
      assert LeavesFrom(order, len, elems, h, b) == bl[b];
      LeavesCount(f, dl0, order, leaves, elems, k, len, h, b);
    }
    forall i, j | 0 <= i < |leaves| && 0 <= j < |leaves| && f[leaves[i]] < f[leaves[j]]
      ensures len[leaves[j]] <= len[leaves[i]]
    {
      LeafOrder(f, dl0, order, leaves, elems, k, max, len, bl, h, i, j);
    }
  }

  lemma LeavesCount(f: seq<nat>, dl0: seq<nat>, order: seq<nat>, leaves: seq<nat>, elems: nat, k: nat, len: seq<nat>,
      h: nat, b: nat)
    requires Tree(f, dl0, order, leaves, elems, k) && |len| == |f| && h <= |order| && LeavesBelow(order, elems, h) == 0
    requires forall q :: 0 <= q < |order| ==> order[q] < |len|
    ensures LeavesFrom(order, len, elems, h, b) == Sum(leaves, HasLen(len, b))
  {
    hide Tree, Sum, HasLen, OnLeaves, LeavesFrom;
    TreeFacts(f, dl0, order, leaves, elems, k);
    NoLeavesBelow(order, len, elems, h, b);
    LeavesFromIsSum(order, len, elems, 0, b);
    assert order[0..] == [order[0]] + order[1..];
    SumAppend([order[0]], order[1..], OnLeaves(HasLen(len, b), elems));
    SumOne(order[0], OnLeaves(HasLen(len, b), elems));
    LeafSumParts(f, dl0, order, leaves, elems, k, HasLen(len, b));
    LeafSum(f, dl0, order, leaves, elems, k, HasLen(len, b));
  }

  lemma LeafAt(f: seq<nat>, dl0: seq<nat>, order: seq<nat>, leaves: seq<nat>, elems: nat, k: nat, max: nat,
      len: seq<nat>, bl: seq<nat>, h: nat, i: nat) returns (p: nat)
    requires Tree(f, dl0, order, leaves, elems, k) && |len| == |f| && State(order, len, bl, elems, max, h, 0, 0)
    requires i < |leaves|
    ensures h <= p < |order| && order[p] == leaves[i] < elems
  {
    hide Tree, LeavesFrom;
    LeavesInBounds(f, dl0, order, leaves, elems, k);
    assert leaves[i] in leaves;
    p := FindNode(f, dl0, order, leaves, elems, k, leaves[i]);
    NoLeavesBelow(order, len, elems, h, 0);
  }

  lemma LeafLens(f: seq<nat>, dl0: seq<nat>, order: seq<nat>, leaves: seq<nat>, elems: nat, k: nat, max: nat,
      len: seq<nat>, bl: seq<nat>, h: nat)
    requires Tree(f, dl0, order, leaves, elems, k) && 1 <= max && |len| == |f|
    requires State(order, len, bl, elems, max, h, 0, 0) && bl[0] == 0
    ensures LensIn(leaves, len, 1, max)
  {
    hide Tree, LeavesFrom;
    LeavesInBounds(f, dl0, order, leaves, elems, k);
    forall i | 0 <= i < |leaves| ensures leaves[i] < |len| && 1 <= len[leaves[i]] <= max {
      var p := LeafAt(f, dl0, order, leaves, elems, k, max, len, bl, h, i);
      NotZero(order, len, elems, h, p);
    }
  }

  lemma {:induction false} NotZero(order: seq<nat>, len: seq<nat>, elems: nat, h: nat, p: nat)
    requires h <= p < |order| && (forall q :: 0 <= q < |order| ==> order[q] < |len|) && order[p] < elems
    requires LeavesFrom(order, len, elems, h, 0) == 0
    ensures len[order[p]] != 0
    decreases p - h
  {
    if h < p {
      NotZero(order, len, elems, h + 1, p);
    }
  }

  lemma LeafOrder(f: seq<nat>, dl0: seq<nat>, order: seq<nat>, leaves: seq<nat>, elems: nat, k: nat, max: nat,
      len: seq<nat>, bl: seq<nat>, h: nat, i: nat, j: nat)
    requires Tree(f, dl0, order, leaves, elems, k) && |len| == |f| && State(order, len, bl, elems, max, h, 0, 0)
    requires i < |leaves| && j < |leaves| && leaves[i] < |f| && leaves[j] < |f| && f[leaves[i]] < f[leaves[j]]
    ensures len[leaves[j]] <= len[leaves[i]]
  {
    hide LeavesFrom, Pairs, Later, Distinct;
    var p := LeafAt(f, dl0, order, leaves, elems, k, max, len, bl, h, i);
    var q := LeafAt(f, dl0, order, leaves, elems, k, max, len, bl, h, j);
    if p <= q {
      DescendingTrans(f, order, p, q);
    }
  }

  lemma FirstOrder(f: seq<nat>, dl0: seq<nat>, order: seq<nat>, leaves: seq<nat>, elems: nat, k: nat, max: nat,
      len: seq<nat>)
    requires Tree(f, dl0, order, leaves, elems, k) && LensOk(len, dl0, order, max) && |len| == |f|
    ensures (forall i :: 0 <= i < |leaves| ==> leaves[i] < |f| && leaves[i] < |len|) && ByFrequency(f, len, leaves)
  {
    hide Tree, LensOk;
    LeavesInBounds(f, dl0, order, leaves, elems, k);
    forall i, j | 0 <= i < |leaves| && 0 <= j < |leaves| && f[leaves[i]] < f[leaves[j]]
      ensures len[leaves[j]] <= len[leaves[i]]
    {
      assert leaves[i] in leaves && leaves[j] in leaves;
      var p := FindNode(f, dl0, order, leaves, elems, k, leaves[i]);
      var q := FindNode(f, dl0, order, leaves, elems, k, leaves[j]);
      RarerIsDeeper(f, dl0, order, leaves, elems, k, len, max, q, p);
    }
  }

  lemma OrderLeaves(f: seq<nat>, dl0: seq<nat>, order: seq<nat>, leaves: seq<nat>, elems: nat, k: nat)
    requires Tree(f, dl0, order, leaves, elems, k)
    ensures forall q :: 0 <= q < |order| && order[q] < elems ==> order[q] in leaves
  {
    hide Pairs, Later, Descending, Distinct;
    forall q | 0 <= q < |order| && order[q] < elems ensures order[q] in leaves {
      var all := leaves + Range(elems, elems + k);
      assert order[q] in multiset(order);
      assert order[q] in multiset(all);
      var i :| 0 <= i < |all| && all[i] == order[q];
    }
  }

  lemma DownRest(f: seq<nat>, dl0: seq<nat>, order: seq<nat>, leaves: seq<nat>, elems: nat, k: nat, max: nat)
    requires Tree(f, dl0, order, leaves, elems, k) && RestZero(dl0, leaves, elems)
    ensures |order| >= 1 && (forall q :: 0 <= q < |order| ==> order[q] < |dl0|)
    ensures RestZero(Down(dl0, order, max, |order|), leaves, elems)
  {
    hide Tree;
    TreeFacts(f, dl0, order, leaves, elems, k);
    OrderLeaves(f, dl0, order, leaves, elems, k);
    forall s | 0 <= s < elems && s !in leaves ensures Down(dl0, order, max, |order|)[s] == 0 {
      DownOutside(dl0, order, max, |order|, s);
    }
  }

  lemma {:induction false} SomeOfLength(leaves: seq<nat>, len: seq<nat>, b: nat)
    requires Sum(leaves, HasLen(len, b)) > 0
    ensures exists i :: 0 <= i < |leaves| && leaves[i] < |len| && len[leaves[i]] == b
  {
    if forall i :: 0 <= i < |leaves| && leaves[i] < |len| ==> len[leaves[i]] != b {
      SumZero(leaves, HasLen(len, b));
    }
  }

  /**
   gen_bitlen.  `overflow` nodes were over the limit: twice as many as fathers at it, and some symbol
   is left with the greatest length.  When there are none the lengths are those of the tree, and the
   leaves spend exactly what the merges joined.
   */
  method GenerateLengths(dl: array<nat>, f: seq<nat>, order: seq<nat>, ghost leaves: seq<nat>, elems: nat, ghost k: nat,
      ghost top: nat, max: nat,
                         xb: seq<nat>, sl: seq<nat>, bl: array<nat>)
    returns (overflow: nat, opt: int, static_: nat)
    requires Tree(f, dl[..], order, leaves, elems, k) && 1 <= max <= MAX_BITS && |leaves| <= Pow2(max)
    requires |xb| == |f| && |sl| == |f| && RestZero(dl[..], leaves, elems)
    requires top <= elems && forall i :: 0 <= i < |leaves| ==> leaves[i] < top
    requires bl.Length == MAX_BITS + 1 && bl != dl && forall b :: 0 <= b <= MAX_BITS ==> bl[b] == 0
    modifies dl, bl
    ensures dl.Length == |f| && top <= |f| && GoodLens(dl[..], leaves, top, max) && CountsOk(bl[..], dl[..top])
    ensures opt == Sum(leaves, Used(f, dl[..], xb)) && static_ == Sum(leaves, Used(f, sl, xb))
    ensures |order| >= 1 && (forall q :: 0 <= q < |order| ==> order[q] < |f|) && elems + k <= |f|
    ensures overflow == 2 * AtLimit(Down(old(dl[..]), order, max, |order|), elems, k, max)
    ensures overflow == 0 ==> Sum(leaves, Spent(f, dl[..])) == Joined(f, elems, k)
    ensures overflow > 0 ==> exists i :: 0 <= i < |leaves| && leaves[i] < |f| && dl[leaves[i]] == max
    ensures (forall i :: 0 <= i < |leaves| ==> leaves[i] < |f|) && ByFrequency(f, dl[..], leaves)
    ensures RestZero(dl[..], leaves, elems)
  {
    hide Tree, LensOk, Sum, Used, HasLen, OnLeaves, Pow2, Shl, BlSpace, BlTotal, AtLimit, Down, GoodLens, CountsOk,
         ByFrequency,
         Counted, State, Spent, LensIn, RestZero;
    ghost var dl0 := dl[..];
    DownLens(f, dl0, order, leaves, elems, k, max);
    DownRest(f, dl0, order, leaves, elems, k, max);
    LeavesInBounds(f, dl0, order, leaves, elems, k);
    overflow, opt, static_ := FirstPass(dl, f, order, leaves, elems, k, max, xb, sl, bl);
    ghost var len := dl[..];
    LeafSum(f, dl0, order, leaves, elems, k, Used(f, len, xb));
    LeafSum(f, dl0, order, leaves, elems, k, Used(f, sl, xb));
    TreeBounds(f, dl0, order, leaves, elems, k, len, max);
    AfterFirstPass(f, dl0, order, leaves, elems, k, max, len, bl[..]);
    MoreAtLimit(f, dl0, order, leaves, elems, k, max, len);
    assert overflow == 2 * AtLimit(len, elems, k, max) by { OverflowTotal(f, dl0, order, leaves, elems, k, len, max); }
    if overflow == 0 {
      TreeSpend(f, dl0, order, leaves, elems, k, len, max);
      FirstOrder(f, dl0, order, leaves, elems, k, max, len);
      RestShorter(len, leaves, elems, top);
      Finish(len, leaves, top, max, bl[..]);
      return;
    }
    Repair(bl, max, overflow, AtLimit(len, elems, k, max));
    RecomputeStart(f, dl0, order, leaves, elems, k, max, len, bl[..]);
    TreeFacts(f, dl0, order, leaves, elems, k);
    OrderLeaves(f, dl0, order, leaves, elems, k);
    opt := Recompute(dl, f, order, leaves, elems, max, xb, bl, opt);
    ghost var h: nat :| State(order, dl[..], bl[..], elems, max, h, 0, 0);
    RecomputeEnd(f, dl0, order, leaves, elems, k, max, dl[..], bl[..], h);
    RestAfter(len, dl[..], order, leaves, elems, f, dl0, k);
    RestShorter(dl[..], leaves, elems, top);
    SomeOfLength(leaves, dl[..], max);
    Finish(dl[..], leaves, top, max, bl[..]);
  }

  lemma RestShorter(len: seq<nat>, leaves: seq<nat>, elems: nat, top: nat)
    requires RestZero(len, leaves, elems) && top <= elems
    ensures RestZero(len, leaves, top)
  {
  }

  lemma OverflowTotal(f: seq<nat>, dl: seq<nat>, order: seq<nat>, leaves: seq<nat>, elems: nat, k: nat, len: seq<nat>,
      max: nat)
    requires Tree(f, dl, order, leaves, elems, k) && LensOk(len, dl, order, max)
    ensures elems + k <= |len| && |order| >= 1 && forall q :: 0 <= q < |order| ==> order[q] < |dl|
    ensures Overflow(len, dl, order, max, |order|) == 2 * AtLimit(len, elems, k, max)
  {
    hide Tree, LensOk, Overflow;
    TreeFacts(f, dl, order, leaves, elems, k);
    TreeBounds(f, dl, order, leaves, elems, k, len, max);
    OverflowIsAtLimit(f, dl, order, leaves, elems, k, len, max, 0);
  }

  lemma RestAfter(len: seq<nat>, len': seq<nat>, order: seq<nat>, leaves: seq<nat>, elems: nat, f: seq<nat>,
      dl0: seq<nat>, k: nat)
    requires SameFathers(len, len', elems, order) && RestZero(len, leaves, elems)
    requires Tree(f, dl0, order, leaves, elems, k)
    ensures RestZero(len', leaves, elems)
  {
    hide Tree;
    OrderLeaves(f, dl0, order, leaves, elems, k);
  }

  lemma Finish(len: seq<nat>, leaves: seq<nat>, elems: nat, max: nat, bl: seq<nat>)
    requires Distinct(leaves) && (forall i :: 0 <= i < |leaves| ==> leaves[i] < elems) && RestZero(len, leaves, elems)
    requires LensIn(leaves, len, 1, max) && Excess(bl, max, 0)
    requires forall b :: 1 <= b <= MAX_BITS ==> bl[b] == Sum(leaves, HasLen(len, b))
    ensures GoodLens(len, leaves, elems, max) && CountsOk(bl, len[..elems])
  {
    hide BlSpace, Pow2, Sum, HasLen, GoodLens, CountsOk, LensIn, RestZero, Distinct;
    ShlOne(MAX_BITS - max);
    LensGood(len, leaves, elems, max, bl);
  }
}
