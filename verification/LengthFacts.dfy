/**
 From the counts kept by gen_bitlen to the canonical-code view of the same
 lengths: completeness, exact counts and the order by frequency.
 */
module LengthFacts {
  import opened Bits
  import opened CanonicalCode
  import opened Sums
  import opened Optimality
  import opened HuffmanForest
  import opened CodeLengths
  import opened HandDown
  import opened LimitRepair
  import opened GenBitLen
  import opened Reassign

  // ---------- counts of a list of nodes ----------

  ghost function CountsOf(s: seq<nat>, len: seq<nat>): (c: seq<nat>)
    ensures |c| == MAX_BITS + 1
  {
    if s == [] then seq(MAX_BITS + 1, _ => 0)
    else
      var c := CountsOf(s[1..], len);
      if s[0] < |len| && len[s[0]] <= MAX_BITS then c[len[s[0]] := c[len[s[0]]] + 1] else c
  }

  ghost predicate LensIn(s: seq<nat>, len: seq<nat>, lo: nat, hi: nat) {
    forall i :: 0 <= i < |s| ==> s[i] < |len| && lo <= len[s[i]] <= hi
  }

  lemma {:induction false} CountsAreSums(s: seq<nat>, len: seq<nat>, b: nat)
    requires LensIn(s, len, 0, MAX_BITS) && b <= MAX_BITS
    ensures CountsOf(s, len)[b] == Sum(s, HasLen(len, b))
  {
    hide HasLen;
    if s != [] {
      CountsAreSums(s[1..], len, b);
    }
  }

  lemma {:induction false} CountsSpace(s: seq<nat>, len: seq<nat>)
    requires LensIn(s, len, 1, MAX_BITS)
    ensures BlSpace(CountsOf(s, len), MAX_BITS) == Sum(s, Space(len))
    ensures BlTotal(CountsOf(s, len), MAX_BITS) == |s|
  {
    hide Space, BlSpace, BlTotal, Pow2, Shl;
    if s == [] {
      EmptyBelow(CountsOf(s, len), MAX_BITS);
    } else {
      CountsSpace(s[1..], len);
      SpaceAdd(CountsOf(s[1..], len), len[s[0]], 1, MAX_BITS);
      ShlOne(MAX_BITS - len[s[0]]);
    }
  }

  /** Lengths nobody has. */
  lemma NoneOfLength(s: seq<nat>, len: seq<nat>, lo: nat, hi: nat, b: nat)
    requires LensIn(s, len, lo, hi) && (b < lo || hi < b)
    ensures Sum(s, HasLen(len, b)) == 0
  {
    SumZero(s, HasLen(len, b));
  }

  // ---------- by symbol ----------

  /** `leaves` lists, without repetition, the symbols that have a length. */
  ghost predicate Lists(leaves: seq<nat>, lens: seq<nat>) {
    && Distinct(leaves)
    && (forall i :: 0 <= i < |leaves| ==> leaves[i] < |lens|)
    && forall s :: 0 <= s < |lens| ==> (lens[s] > 0 <==> s in leaves)
  }

  lemma {:induction false} CountIsSum(leaves: seq<nat>, lens: seq<nat>, n: nat, b: nat)
    requires n <= |lens| && b > 0 && Distinct(leaves) && (forall i :: 0 <= i < |leaves| ==> leaves[i] < n)
    requires forall s :: 0 <= s < n ==> (lens[s] > 0 <==> s in leaves)
    ensures Count(lens, n, b) == Sum(leaves, HasLen(lens, b))
  {
    hide HasLen, Sum;
    if n == 0 {
      assert leaves == [];
      SumNil(HasLen(lens, b));
    } else if n - 1 in leaves {
      var i :| 0 <= i < |leaves| && leaves[i] == n - 1;
      var rest := leaves[..i] + leaves[i + 1..];
      RemoveDistinct(leaves, i, rest);
      SumRemove(leaves, i, HasLen(lens, b));
      forall s | 0 <= s < n - 1 ensures lens[s] > 0 <==> s in rest {
        RemoveMember(leaves, i, s);
      }
      CountIsSum(rest, lens, n - 1, b);
    } else {
      CountIsSum(leaves, lens, n - 1, b);
    }
  }

  lemma SumNil(g: seq<int>)
    ensures Sum([], g) == 0
  {
  }

  lemma RemoveDistinct(s: seq<nat>, i: nat, r: seq<nat>)
    requires Distinct(s) && i < |s| && r == s[..i] + s[i + 1..]
    ensures Distinct(r)
    ensures forall j :: 0 <= j < |r| ==> r[j] != s[i] && r[j] in s
  {
    assert forall j :: 0 <= j < |r| ==> r[j] == if j < i then s[j] else s[j + 1];
  }

  lemma RemoveMember(s: seq<nat>, i: nat, x: nat)
    requires i < |s| && x != s[i]
    ensures x in s <==> x in s[..i] + s[i + 1..]
  {
    assert s == s[..i] + [s[i]] + s[i + 1..];
  }

  /** The counts per length make the Kraft sum. */
  lemma {:induction false} KraftIsSpace(lens: seq<nat>, bl: seq<nat>, l: nat)
    requires |bl| == MAX_BITS + 1 && l <= MAX_BITS && forall b :: 1 <= b <= MAX_BITS ==> bl[b] == Total(lens, b)
    ensures LenSum(lens, l + 1) == BlSpace(bl, l)
  {
    hide Total, Shl;
    if l > 0 {
      KraftIsSpace(lens, bl, l - 1);
    }
  }

  // ---------- counting leaves along the order ----------

  ghost function Ones(n: nat): (g: seq<int>)
    ensures |g| == n && forall x :: 0 <= x < n ==> g[x] == 1
  {
    seq(n, _ => 1)
  }

  lemma {:induction false} SumOnes(s: seq<nat>, n: nat)
    requires forall i :: 0 <= i < |s| ==> s[i] < n
    ensures Sum(s, Ones(n)) == |s|
  {
    if s != [] {
      SumOnes(s[1..], n);
    }
  }

  lemma {:induction false} LeavesBelowIsSum(order: seq<nat>, elems: nat, n: nat, h: nat)
    requires h <= |order| && forall q :: 0 <= q < |order| ==> order[q] < n
    ensures LeavesBelow(order, elems, h) == Sum(order[..h], OnLeaves(Ones(n), elems))
  {
    hide OnLeaves, Ones;
    if h > 0 {
      LeavesBelowIsSum(order, elems, n, h - 1);
      assert order[..h] == order[..h - 1] + [order[h - 1]];
      SumAppend(order[..h - 1], [order[h - 1]], OnLeaves(Ones(n), elems));
      SumOne(order[h - 1], OnLeaves(Ones(n), elems));
    }
  }

  lemma {:induction false} LeavesFromIsSum(order: seq<nat>, dl: seq<nat>, elems: nat, h: nat, b: nat)
    requires h <= |order| && forall q :: 0 <= q < |order| ==> order[q] < |dl|
    ensures LeavesFrom(order, dl, elems, h, b) == Sum(order[h..], OnLeaves(HasLen(dl, b), elems))
    decreases |order| - h
  {
    hide OnLeaves, HasLen;
    if h < |order| {
      LeavesFromIsSum(order, dl, elems, h + 1, b);
      assert order[h..] == [order[h]] + order[h + 1..];
      SumAppend([order[h]], order[h + 1..], OnLeaves(HasLen(dl, b), elems));
      SumOne(order[h], OnLeaves(HasLen(dl, b), elems));
    }
  }

  /** There are as many leaves along the order as leaves. */
  lemma AllLeaves(f: seq<nat>, dl: seq<nat>, order: seq<nat>, leaves: seq<nat>, elems: nat, k: nat)
    requires Tree(f, dl, order, leaves, elems, k)
    ensures LeavesBelow(order, elems, |order|) == |leaves|
  {
    hide Tree, LeavesBelow, OnLeaves, Ones, Sum;
    TreeFacts(f, dl, order, leaves, elems, k);
    var g := OnLeaves(Ones(|f|), elems);
    LeavesBelowIsSum(order, elems, |f|, |order|);
    assert order[..|order|] == [order[0]] + order[1..];
    SumAppend([order[0]], order[1..], g);
    SumOne(order[0], g);
    LeafSumParts(f, dl, order, leaves, elems, k, Ones(|f|));
    LeafSum(f, dl, order, leaves, elems, k, Ones(|f|));
    SumOnes(leaves, |f|) by { LeavesInBounds(f, dl, order, leaves, elems, k); }
  }

  lemma LeavesInBounds(f: seq<nat>, dl: seq<nat>, order: seq<nat>, leaves: seq<nat>, elems: nat, k: nat)
    requires Tree(f, dl, order, leaves, elems, k)
    ensures forall i :: 0 <= i < |leaves| ==> leaves[i] < elems <= |f|
    ensures Distinct(leaves)
  {
  }

  /** After the last pass every leaf has been given its length. */
  lemma {:induction false} NoLeavesBelow(order: seq<nat>, dl: seq<nat>, elems: nat, h: nat, b: nat)
    requires h <= |order| && (forall q :: 0 <= q < |order| ==> order[q] < |dl|) && LeavesBelow(order, elems, h) == 0
    ensures LeavesFrom(order, dl, elems, 0, b) == LeavesFrom(order, dl, elems, h, b)
    ensures forall q :: 0 <= q < h ==> order[q] >= elems
  {
    if h > 0 {
      NoLeavesBelow(order, dl, elems, h - 1, b);
    }
  }

  // ---------- order by frequency ----------

  lemma {:induction false} DescendingTrans(f: seq<nat>, order: seq<nat>, p: nat, q: nat)
    requires (forall i :: 0 <= i < |order| ==> order[i] < |f|) && Descending(f, order, []) && p <= q < |order|
    ensures f[order[p]] >= f[order[q]]
  {
    if p < q {
      DescendingTrans(f, order, p, q - 1);
    }
  }

  /** In the tree itself a rarer node is never higher up than a commoner one. */
  lemma {:induction false} RarerIsDeeper(f: seq<nat>, dl: seq<nat>, order: seq<nat>, leaves: seq<nat>, elems: nat,
      k: nat, len: seq<nat>, max: nat, p: nat, q: nat)
    requires Tree(f, dl, order, leaves, elems, k) && LensOk(len, dl, order, max)
    requires p < |order| && q < |order| && order[p] < |f| && order[q] < |f| && f[order[p]] > f[order[q]]
    ensures order[p] < |len| && order[q] < |len| && len[order[p]] <= len[order[q]]
    decreases p
  {
    hide Tree;
    TreeBounds(f, dl, order, leaves, elems, k, len, max);
    if p > 0 {
      var p' := DadBefore(f, dl, order, leaves, elems, k, p);
      assert q > 0 by { RootIsCommonest(f, dl, order, leaves, elems, k, p); }
      var q' := DadBefore(f, dl, order, leaves, elems, k, q);
      if order[p'] != order[q'] {
        DadsCompare(f, dl, order, leaves, elems, k, p, q);
        RarerIsDeeper(f, dl, order, leaves, elems, k, len, max, p', q');
      }
    }
  }

  lemma RootIsCommonest(f: seq<nat>, dl: seq<nat>, order: seq<nat>, leaves: seq<nat>, elems: nat, k: nat, p: nat)
    requires Tree(f, dl, order, leaves, elems, k) && p < |order|
    ensures order[0] < |f| && order[p] < |f| && f[order[0]] >= f[order[p]]
  {
    DescendingTrans(f, order, 0, p);
  }

  /** Fathers of a commoner and a rarer node compare the same way. */
  lemma DadsCompare(f: seq<nat>, dl: seq<nat>, order: seq<nat>, leaves: seq<nat>, elems: nat, k: nat, p: nat, q: nat)
    requires Tree(f, dl, order, leaves, elems, k) && 1 <= p < |order| && 1 <= q < |order|
    requires order[p] < |f| && order[q] < |f| && order[p] < |dl| && order[q] < |dl|
    requires dl[order[p]] != dl[order[q]] && f[order[p]] > f[order[q]]
    ensures dl[order[p]] < |f| && dl[order[q]] < |f| && f[dl[order[p]]] > f[dl[order[q]]]
  {
    hide Later, Distinct;
    var s, t := k - (p - 1) / 2, k - (q - 1) / 2;
    assert PairOk(f, dl, order, elems, s) && PairOk(f, dl, order, elems, t);
    var i, j := |order| - 2 * s, |order| - 2 * t;
    assert p == i || p == i + 1;
    assert q == j || q == j + 1;
    if q <= p {
      DescendingTrans(f, order, q, p);
    } else {
      assert i + 1 < j;
      DescendingTrans(f, order, i, i + 1);
      DescendingTrans(f, order, i + 1, j);
      DescendingTrans(f, order, j, j + 1);
    }
  }
}
