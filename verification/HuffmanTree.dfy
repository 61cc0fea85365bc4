/**
 build_tree as a whole: complete lengths within the limit, canonical codes, exact
 costs and, when no length had to be limited, an optimal code.
 */
module HuffmanTree {
  import opened Bits
  import opened CanonicalCode
  import opened Sums
  import opened Optimality
  import opened PrefixCodes
  import opened HuffmanHeap
  import opened HuffmanForest
  import opened CodeLengths
  import opened LimitRepair
  import opened GenBitLen
  import opened LengthFacts
  import opened HandDown
  import opened BitLengths
  import opened TreeDepth
  import opened MergeLoop
  import opened InfTrees
  import opened GenCodes
  import opened TreeMerge

  // ---------- sums over all symbols ----------

  /** Symbols outside the list contribute nothing, so the list may as well be all symbols. */
  lemma {:induction false} SumSupport(leaves: seq<nat>, g: seq<int>, n: nat)
    requires Distinct(leaves) && (forall i :: 0 <= i < |leaves| ==> leaves[i] < n)
    requires forall s :: 0 <= s < n && s !in leaves ==> At(g, s) == 0
    ensures Sum(leaves, g) == Sum(Range(0, n), g)
  {
    hide Sum;
    if n == 0 {
      assert leaves == [] && Range(0, 0) == [];
    } else {
      assert Range(0, n) == Range(0, n - 1) + [n - 1];
      SumAppend(Range(0, n - 1), [n - 1], g);
      SumOne(n - 1, g);
      if n - 1 in leaves {
        var i :| 0 <= i < |leaves| && leaves[i] == n - 1;
        var rest := leaves[..i] + leaves[i + 1..];
        RemoveDistinct(leaves, i, rest);
        SumRemove(leaves, i, g);
        forall s | 0 <= s < n - 1 && s !in rest ensures At(g, s) == 0 {
          RemoveMember(leaves, i, s);
        }
        SumSupport(rest, g, n - 1);
      } else {
        SumSupport(leaves, g, n - 1);
      }
    }
  }

  lemma {:induction false} SumPlus(s: seq<nat>, g: seq<int>, h: seq<int>, r: seq<int>)
    requires forall i :: 0 <= i < |s| ==> At(r, s[i]) == At(g, s[i]) + At(h, s[i])
    ensures Sum(s, r) == Sum(s, g) + Sum(s, h)
  {
    if s != [] {
      SumPlus(s[1..], g, h, r);
    }
  }

  /** The attribute restricted to a list of nodes. */
  ghost function OnlyOn(forced: seq<nat>, g: seq<int>): (r: seq<int>)
    ensures |r| == |g| && forall x :: 0 <= x < |r| ==> r[x] == if x in forced then g[x] else 0
  {
    seq(|g|, x requires 0 <= x < |g| => if x in forced then g[x] else 0)
  }

  /** Two attributes that differ by `l` on the forced symbols only. */
  lemma SumForced(leaves: seq<nat>, forced: seq<nat>, g0: seq<int>, g: seq<int>, l: seq<int>, n: nat)
    requires Distinct(leaves) && Distinct(forced) && n <= |g0| && |g| == |g0| == |l|
    requires (forall i :: 0 <= i < |leaves| ==> leaves[i] < n) && forall i :: 0 <= i < |forced| ==> forced[i] in leaves
    requires forall x :: 0 <= x < n ==> g[x] == g0[x] + if x in forced then l[x] else 0
    ensures Sum(leaves, g) == Sum(leaves, g0) + Sum(forced, l)
  {
    hide Sum, Distinct, Range;
    var r := OnlyOn(forced, l);
    SumPlus(leaves, g0, r, g);
    SumSupport(leaves, r, n);
    SumSupport(forced, r, n);
    SumAgree(forced, r, l);
  }

  lemma {:induction false} DistinctBound(s: seq<nat>, n: nat)
    requires Distinct(s) && forall i :: 0 <= i < |s| ==> s[i] < n
    ensures |s| <= n
  {
    if s == [] {
    } else if n - 1 in s {
      assert s[0] < n;
      var i :| 0 <= i < |s| && s[i] == n - 1;
      RemoveDistinct(s, i, s[..i] + s[i + 1..]);
      DistinctBound(s[..i] + s[i + 1..], n - 1);
    } else {
      DistinctBound(s, n - 1);
    }
  }

  // ---------- the two forced codes ----------

  /** A complete code for two symbols is one bit each. */
  lemma TwoLeaves(len: seq<nat>, leaves: seq<nat>, top: nat, max: nat)
    requires GoodLens(len, leaves, top, max) && |leaves| == 2
    ensures len[leaves[0]] == 1 && len[leaves[1]] == 1
  {
    hide Sum, HasLen, Space, BlSpace, BlTotal, Pow2, LenSum, Count, Distinct;
    var lens := len[..top];
    var bl := CountsOf(leaves, len);
    forall b | 1 <= b <= MAX_BITS ensures bl[b] == Total(lens, b) {
      CountIsSum(leaves, lens, top, b);
      SumAgree(leaves, HasLen(len, b), HasLen(lens, b));
      CountsAreSums(leaves, len, b);
    }
    KraftIsSpace(lens, bl, MAX_BITS);
    CountsSpace(leaves, len);
    var a, b := leaves[0], leaves[1];
    assert leaves == [a] + [b];
    SumAppend([a], [b], Space(len));
    SumOne(a, Space(len));
    SumOne(b, Space(len));
    Halves(len[a], len[b]);
  }

  lemma Halves(a: nat, b: nat)
    requires 1 <= a <= MAX_BITS && 1 <= b <= MAX_BITS && Pow2(MAX_BITS - a) + Pow2(MAX_BITS - b) == Pow2(MAX_BITS)
    ensures a == 1 && b == 1
  {
    hide Pow2;
    Pow2Next(MAX_BITS - 1);
    Pow2Next(MAX_BITS - 2);
    Pow2Mono(MAX_BITS - a, MAX_BITS - 1);
    Pow2Mono(MAX_BITS - b, MAX_BITS - 1);
    if a > 1 {
      Pow2Mono(MAX_BITS - a, MAX_BITS - 2);
    }
    if b > 1 {
      Pow2Mono(MAX_BITS - b, MAX_BITS - 2);
    }
  }

  /** `f` is `f0` with frequency 1 given to forced symbols, if any; then there are just two codes. */
  ghost predicate ForcedTo(f0: seq<nat>, f: seq<nat>, leaves: seq<nat>, elems: nat) {
    && elems <= |f0| && |f| == |f0|
    && (forall s :: 0 <= s < elems && f[s] != f0[s] ==>
          s in leaves && s < 3 && f0[s] == 0 && f[s] == 1 && |leaves| == 2)
    && (forall s :: 0 <= s < elems ==> (f[s] > 0 <==> s in leaves))
  }

  /** No prefix code for the same frequencies has a smaller weighted total. */
  ghost predicate Optimal(f: seq<nat>, leaves: seq<nat>, len: seq<nat>) {
    |f| == |len| && InBounds(leaves, f) &&
    forall ws: seq<Word> :: |ws| == |leaves| && PrefixFreeWords(ws) ==>
      Sum(leaves, Spent(f, len)) <= Cost(Items(FreqsOf(leaves, f), ws))
  }

  /** What build_tree leaves behind: lengths, the largest code, and which symbols have codes. */
  ghost predicate Built(f0: seq<nat>, f: seq<nat>, leaves: seq<nat>, len: seq<nat>, elems: nat, max: nat,
      maxCode: nat) {
    && maxCode < elems <= |len| == |f| && |leaves| >= 2 && maxCode in leaves
    && GoodLens(len, leaves, maxCode + 1, max) && RestZero(len, leaves, elems)
    && ForcedTo(f0, f, leaves, elems) && InBounds(leaves, f) && ByFrequency(f, len, leaves)
  }

  /** The forced symbols had frequency 0 and have 1; the others are as they were. */
  ghost predicate ForcedAt(f0: seq<nat>, f: seq<nat>, forced: seq<nat>, elems: nat) {
    && elems <= |f0| && elems <= |f|
    && forall s :: 0 <= s < elems ==> if s in forced then s < 3 && f0[s] == 0 && f[s] == 1 else f[s] == f0[s]
  }

  lemma UsedForced(f0: seq<nat>, f: seq<nat>, forced: seq<nat>, elems: nat, len: seq<nat>, xb: seq<nat>, x: nat)
    requires |f| == |f0| == |len| == |xb| && elems <= |f| && 3 <= |xb| && xb[0] == xb[1] == xb[2] == 0
    requires ForcedAt(f0, f, forced, elems) && x < elems
    ensures Used(f, len, xb)[x] == Used(f0, len, xb)[x] + if x in forced then len[x] else 0
    ensures f[x] == 0 ==> Used(f0, len, xb)[x] == 0
  {
    SpendOne(len[x]);
  }

  lemma ForcedCost(f0: seq<nat>, f: seq<nat>, leaves: seq<nat>, forced: seq<nat>, elems: nat, len: seq<nat>,
      xb: seq<nat>)
    requires |f| == |f0| == |len| == |xb| && elems <= |f| && 3 <= |xb| && xb[0] == xb[1] == xb[2] == 0
    requires Distinct(leaves) && Distinct(forced) && forall i :: 0 <= i < |leaves| ==> leaves[i] < elems
    requires (forall i :: 0 <= i < |forced| ==> forced[i] in leaves) && ForcedAt(f0, f, forced, elems)
    requires forall s :: 0 <= s < elems && f[s] > 0 ==> s in leaves
    ensures Sum(leaves, Used(f, len, xb)) == Sum(Range(0, elems), Used(f0, len, xb)) + Sum(forced, len)
  {
    hide Sum, Distinct, Used, ForcedAt;
    forall x | 0 <= x < elems
      ensures Used(f, len, xb)[x] == Used(f0, len, xb)[x] + if x in forced then len[x] else 0
      ensures f[x] == 0 ==> Used(f0, len, xb)[x] == 0
    {
      UsedForced(f0, f, forced, elems, len, xb, x);
    }
    SumForced(leaves, forced, Used(f0, len, xb), Used(f, len, xb), len, elems);
    SumSupport(leaves, Used(f0, len, xb), elems);
  }

  lemma SpendOne(l: nat)
    ensures Spend(1, l) == l && Spend(0, l) == 0
  {
  }

  // ---------- build_tree ----------

  /** The leaves of the tree: the used symbols, with the forced ones among them. */
  ghost predicate LeavesOk(f0: seq<nat>, f: seq<nat>, leaves: seq<nat>, forced: seq<nat>, elems: nat, maxCode: nat) {
    && Distinct(leaves) && |leaves| >= 2 && maxCode < elems && maxCode in leaves
    && (forall i :: 0 <= i < |leaves| ==> leaves[i] <= maxCode)
    && Distinct(forced) && (forall i :: 0 <= i < |forced| ==> forced[i] in leaves) && (forced != [] ==> |leaves| == 2)
    && ForcedAt(f0, f, forced, elems)
    && forall s :: 0 <= s < elems ==> (f[s] > 0 <==> s in leaves)
  }

  lemma LeavesFrom(f0: seq<nat>, f: seq<nat>, h: seq<nat>, heapLen: nat, dl: seq<nat>, forced: seq<nat>, elems: nat,
      maxCode: nat)
    requires heapLen >= 2 && HeapLists(h, heapLen, f, dl, elems) && maxCode < elems && elems <= |f0|
    requires (forall j :: 1 <= j <= heapLen ==> h[j] <= maxCode) && exists j :: 1 <= j <= heapLen && h[j] == maxCode
    requires ForcedFrom(f0, f, forced) && (forced != [] ==> heapLen == 2)
    requires forall i :: 0 <= i < |forced| ==> forced[i] in h[1..heapLen + 1]
    ensures LeavesOk(f0, f, h[1..heapLen + 1], forced, elems, maxCode) && RestZero(dl, h[1..heapLen + 1], elems)
  {
    hide Distinct;
    var leaves := h[1..heapLen + 1];
    var j :| 1 <= j <= heapLen && h[j] == maxCode;
    assert leaves[j - 1] == maxCode;
    forall s | 0 <= s < elems && s in forced ensures s < 3 && f0[s] == 0 && f[s] == 1 {
      var i :| 0 <= i < |forced| && forced[i] == s;
    }
  }

  lemma LeavesOkAgree(f0: seq<nat>, f: seq<nat>, f': seq<nat>, leaves: seq<nat>, forced: seq<nat>, elems: nat,
      maxCode: nat)
    requires LeavesOk(f0, f, leaves, forced, elems, maxCode) && elems <= |f'|
    requires forall s :: 0 <= s < elems ==> f'[s] == f[s]
    ensures LeavesOk(f0, f', leaves, forced, elems, maxCode)
  {
  }

  lemma TotalFits(f0: seq<nat>, f: seq<nat>, leaves: seq<nat>, forced: seq<nat>, elems: nat, maxCode: nat)
    requires LeavesOk(f0, f, leaves, forced, elems, maxCode) && |f| == |f0| && Sum(Range(0, elems), f0) < 0xFFFE
    ensures Sum(leaves, f) < 0x10000
  {
    hide Sum, Distinct, Range;
    SumForced(leaves, forced, f0, f, Ones(|f|), elems);
    SumOnes(forced, |f|);
    SumSupport(leaves, f0, elems);
    SubListBound(forced, leaves);
  }

  lemma {:induction false} SubListBound(s: seq<nat>, t: seq<nat>)
    requires Distinct(s) && forall i :: 0 <= i < |s| ==> s[i] in t
    ensures |s| <= |t|
  {
    if s != [] {
      assert s[0] in t;
      var i :| 0 <= i < |t| && t[i] == s[0];
      var rest := t[..i] + t[i + 1..];
      forall j | 0 <= j < |s[1..]| ensures s[1..][j] in rest {
        RemoveMember(t, i, s[j + 1]);
      }
      SubListBound(s[1..], rest);
    }
  }

  /** Everything up to the finished tree: sort the symbols into a heap and merge. */
  method GrowTree(fc: array<nat>, dl: array<nat>, elems: nat, sl: seq<nat>)
    returns (order: seq<nat>, maxCode: nat, optDown: nat, staticDown: nat, ghost leaves: seq<nat>,
        ghost forced: seq<nat>)
    requires fc != dl && fc.Length == dl.Length == |sl| && 3 <= elems && 2 * elems <= fc.Length
    requires Sum(Range(0, elems), fc[..]) < 0xFFFE
    modifies fc, dl
    ensures LeavesOk(old(fc[..]), fc[..], leaves, forced, elems, maxCode) && RestZero(dl[..], leaves, elems)
    ensures optDown == |forced| && staticDown == Sum(forced, sl)
    ensures Tree(fc[..], dl[..], order, leaves, elems, |leaves| - 1)
    ensures elems + |leaves| <= fc.Length && InBounds(leaves, fc[..])
    ensures LowerBound(multiset(FreqsOf(leaves, fc[..])), Joined(fc[..], elems, |leaves| - 1))
  {
    hide Entered, HeapLists, LeavesOk, RestZero, Tree, LowerBound, Merging, HeapFrom, Sum, Distinct, ForcedFrom;
    var heap := new nat[2 * elems + 1];
    var depth := new nat[fc.Length];
    ghost var f0: seq<nat> := fc[..];
    var heapLen, max := EnterSymbols(fc, dl, heap, depth, elems);
    EnteredFacts(heap[..], heapLen, fc[..], dl[..], depth[..], elems);
    heapLen, maxCode, optDown, staticDown, forced := ForceTwo(fc, dl, heap, depth, elems, heapLen, max, sl);
    leaves := heap[1..heapLen + 1];
    LeavesFrom(f0, fc[..], heap[..], heapLen, dl[..], forced, elems, maxCode);
    TotalFits(f0, fc[..], leaves, forced, elems, maxCode);
    LeavesBound(f0, fc[..], leaves, forced, elems, maxCode);
    assert Slots(heap[..], heapLen, fc[..],
        depth[..]) by { LeavesSlots(heap[..], heapLen, fc[..], depth[..], elems, maxCode); }
    Heapify(heap, heapLen, fc[..], depth[..]);
    StartMerging(heap[..], heapLen, fc[..], dl[..], depth[..], leaves, elems);
    ghost var f1 := fc[..];
    var heapMax := MergeNodes(heap, heapLen, fc, dl, depth, leaves, elems);
    LeavesOkAgree(f0, f1, fc[..], leaves, forced, elems, maxCode);
    order := heap[heapMax..];
  }

  lemma EnteredFacts(h: seq<nat>, heapLen: nat, f: seq<nat>, dl: seq<nat>, d: seq<nat>, elems: nat)
    requires Entered(h, heapLen, f, dl, d, elems)
    ensures HeapLists(h, heapLen, f, dl, elems) && heapLen <= elems && heapLen < |h|
    ensures heapLen > 0 ==> forall j :: 1 <= j <= heapLen ==> h[j] <= h[heapLen]
  {
    EnteredLists(h, heapLen, f, dl, d, elems);
  }

  lemma LeavesSlots(h: seq<nat>, heapLen: nat, f: seq<nat>, d: seq<nat>, elems: nat, maxCode: nat)
    requires heapLen < |h| && elems <= |f| && elems <= |d| && maxCode < elems
    requires forall j :: 1 <= j <= heapLen ==> h[j] <= maxCode
    ensures Slots(h, heapLen, f, d)
  {
  }

  lemma LeavesBound(f0: seq<nat>, f: seq<nat>, leaves: seq<nat>, forced: seq<nat>, elems: nat, maxCode: nat)
    requires LeavesOk(f0, f, leaves, forced, elems, maxCode)
    ensures Distinct(leaves) && |leaves| <= elems && |leaves| >= 2 && maxCode < elems
    ensures (forall i :: 0 <= i < |leaves| ==> leaves[i] < elems)
    ensures forall i :: 0 <= i < |leaves| ==> leaves[i] < maxCode + 1
  {
    DistinctBound(leaves, elems);
  }

  /**
   build_tree.  On the way the frequencies `fc` are overwritten by the codes, and the fathers
   `dl` by the lengths, as the unions of ct_data are.  `opt` and `stat` are what the call adds
   to opt_len and static_len.  `order` and `dads` are the tree before that, and `overflow` of its nodes
   have a father at the limit.  The lengths are optimal if there are none, which is so if no length is
   the greatest allowed, or if there are few enough symbols.
   */
  method BuildTree(fc: array<nat>, dl: array<nat>, elems: nat, max: nat, xb: seq<nat>, sl: seq<nat>)
    returns (maxCode: nat, opt: int, stat: int, ghost overflow: nat, ghost leaves: seq<nat>, ghost f: seq<nat>,
        ghost order: seq<nat>, ghost dads: seq<nat>)
    requires fc != dl && fc.Length == dl.Length == |sl| == |xb| && 3 <= elems && 2 * elems <= fc.Length
    requires 1 <= max <= MAX_BITS && elems <= Pow2(max) && xb[0] == xb[1] == xb[2] == 0
    requires Sum(Range(0, elems), fc[..]) < 0xFFFE
    modifies fc, dl
    ensures Built(old(fc[..]), f, leaves, dl[..], elems, max, maxCode)
    ensures forall s :: 0 <= s <= maxCode && dl[s] > 0 ==> fc[s] == Huff(dl[..maxCode + 1], s)
    ensures opt == Sum(Range(0, elems), Used(old(fc[..]), dl[..], xb))
    ensures stat == Sum(Range(0, elems), Used(old(fc[..]), sl, xb))
    ensures Tree(f, dads, order, leaves, elems, |leaves| - 1)
    ensures overflow == Overflow(Down(dads, order, max, |order|), dads, order, max, |order|)
    ensures overflow == 0 ==> Optimal(f, leaves, dl[..])
    ensures (forall i :: 0 <= i < |leaves| ==> leaves[i] < dl.Length && dl[leaves[i]] < max) ==>
              overflow == 0 && Optimal(f, leaves, dl[..])
    ensures Sum(Range(0, elems), old(fc[..])) < Fib(max + 3) ==> overflow == 0 && Optimal(f, leaves, dl[..])
  {
    hide LeavesOk, RestZero, Tree, LowerBound, Sum, Used, GoodLens, Built, Optimal, CountsOk, ByFrequency, Huff, Joined,
         Spent, Pow2, Down, Overflow, AtLimit, Fib, LensOk;
    ghost var f0: seq<nat> := fc[..];
    var nodes, mc, optDown, staticDown;
    ghost var forced;
    nodes, mc, optDown, staticDown, leaves, forced := GrowTree(fc, dl, elems, sl);
    maxCode := mc;
    order, f, dads := nodes, fc[..], dl[..];
    LeavesBound(f0, f, leaves, forced, elems, maxCode);
    FewEnough(f0, f, dads, order, leaves, forced, elems, maxCode, max);
    var bl := new nat[MAX_BITS + 1](_ => 0);
    var over, o, st := GenerateLengths(dl, fc[..], nodes, leaves, elems, |leaves| - 1, maxCode + 1, max, xb, sl, bl);
    overflow := over;
    LengthsFit(dl[..], leaves, maxCode + 1, max);
    GenerateCodes(fc, dl[..maxCode + 1], bl);
    CostsExact(f0, f, leaves, forced, elems, maxCode, dl[..], xb, sl, max);
    opt := o - optDown;
    stat := (st as int) - (staticDown as int);
    BuiltAll(f0, f, leaves, forced, dl[..], elems, max, maxCode);
    OptimalAll(f, leaves, dl[..], elems, overflow);
  }

  /** The nodes over the limit, and when there are none. */
  lemma FewEnough(f0: seq<nat>, f: seq<nat>, dads: seq<nat>, order: seq<nat>, leaves: seq<nat>, forced: seq<nat>,
      elems: nat, maxCode: nat, max: nat)
    requires LeavesOk(f0, f, leaves, forced, elems, maxCode) && |f| == |f0| && max >= 1
    requires Tree(f, dads, order, leaves, elems, |leaves| - 1)
    ensures |order| >= 1 && (forall q :: 0 <= q < |order| ==> order[q] < |dads|) && elems + |leaves| - 1 <= |dads|
    ensures var len := Down(dads, order, max, |order|);
            && Overflow(len, dads, order, max, |order|) == 2 * AtLimit(len, elems, |leaves| - 1, max)
            && (Sum(Range(0, elems), f0) < Fib(max + 3) ==> AtLimit(len, elems, |leaves| - 1, max) == 0)
  {
    hide *;
    LeavesBound(f0, f, leaves, forced, elems, maxCode);
    TreeFacts(f, dads, order, leaves, elems, |leaves| - 1);
    DownLens(f, dads, order, leaves, elems, |leaves| - 1, max);
    var len := Down(dads, order, max, |order|);
    TreeBounds(f, dads, order, leaves, elems, |leaves| - 1, len, max);
    OverflowTotal(f, dads, order, leaves, elems, |leaves| - 1, len, max);
    LeavesUsed(f0, f, leaves, forced, elems, maxCode);
    if |leaves| == 2 {
      OneFather(f, dads, order, leaves, elems, len, max);
    } else if Sum(Range(0, elems), f0) < Fib(max + 3) {
      FewSymbols(f, dads, order, leaves, elems, |leaves| - 1, len, max);
    }
  }

  /** With two leaves the root is the only father. */
  lemma OneFather(f: seq<nat>, dads: seq<nat>, order: seq<nat>, leaves: seq<nat>, elems: nat, len: seq<nat>, max: nat)
    requires Tree(f, dads, order, leaves, elems, 1) && LensOk(len, dads, order, max) && max >= 1 && elems + 1 <= |len|
    ensures AtLimit(len, elems, 1, max) == 0
  {
    assert order[0] == elems;
    assert AtLimit(len, elems, 0, max) == 0;
  }

  lemma LeavesUsed(f0: seq<nat>, f: seq<nat>, leaves: seq<nat>, forced: seq<nat>, elems: nat, maxCode: nat)
    requires LeavesOk(f0, f, leaves, forced, elems, maxCode) && |f| == |f0|
    ensures forall i :: 0 <= i < |leaves| ==> leaves[i] < |f| && f[leaves[i]] >= 1
    ensures |leaves| != 2 ==> Sum(leaves, f) == Sum(Range(0, elems), f0)
  {
    hide Sum, Distinct, Range;
    forall i | 0 <= i < |leaves| ensures leaves[i] < |f| && f[leaves[i]] >= 1 {
      assert leaves[i] in leaves;
    }
    if |leaves| != 2 {
      SumForced(leaves, forced, f0, f, Ones(|f|), elems);
      SumNil(Ones(|f|));
      SumSupport(leaves, f0, elems);
    }
  }

  lemma LengthsFit(len: seq<nat>, leaves: seq<nat>, top: nat, max: nat)
    requires GoodLens(len, leaves, top, max)
    ensures top <= |len| && Fits(len[..top])
  {
  }

  lemma BuiltAll(f0: seq<nat>, f: seq<nat>, leaves: seq<nat>, forced: seq<nat>, len: seq<nat>, elems: nat, max: nat,
      maxCode: nat)
    requires LeavesOk(f0, f, leaves, forced, elems, maxCode) && |f| == |f0| == |len| && elems <= |f|
    requires GoodLens(len, leaves, maxCode + 1, max) && RestZero(len, leaves, elems) && InBounds(leaves, f)
    requires ByFrequency(f, len, leaves)
    ensures Built(f0, f, leaves, len, elems, max, maxCode)
  {
    hide GoodLens, RestZero, ByFrequency, Distinct;
    forall s | 0 <= s < elems && f[s] != f0[s] ensures s in leaves && |leaves| == 2 {
      assert s in forced;
      var i :| 0 <= i < |forced| && forced[i] == s;
    }
  }

  lemma CostsExact(f0: seq<nat>, f: seq<nat>, leaves: seq<nat>, forced: seq<nat>, elems: nat, maxCode: nat,
      len: seq<nat>, xb: seq<nat>, sl: seq<nat>, max: nat)
    requires LeavesOk(f0, f, leaves, forced, elems, maxCode) && |f| == |f0| == |len| == |xb| == |sl| && elems <= |f|
    requires 3 <= |xb| && xb[0] == xb[1] == xb[2] == 0 && GoodLens(len, leaves, maxCode + 1, max)
    ensures Sum(leaves, Used(f, len, xb)) - |forced| == Sum(Range(0, elems), Used(f0, len, xb))
    ensures Sum(leaves, Used(f, sl, xb)) - Sum(forced, sl) == Sum(Range(0, elems), Used(f0, sl, xb))
  {
    hide Sum, Used, Distinct, Range, GoodLens, ForcedAt;
    ForcedCost(f0, f, leaves, forced, elems, len, xb);
    ForcedCost(f0, f, leaves, forced, elems, sl, xb);
    if forced != [] {
      TwoLeaves(len, leaves, maxCode + 1, max);
      forall i | 0 <= i < |forced| ensures At(len, forced[i]) == At(Ones(|len|), forced[i]) {
        assert forced[i] in leaves;
      }
      SumAgree(forced, len, Ones(|len|));
      SumOnes(forced, |len|);
    }
    assert forced == [] ==> Sum(forced, len) == 0 by { SumNil(len); }
  }

  lemma OptimalAll(f: seq<nat>, leaves: seq<nat>, len: seq<nat>, elems: nat, overflow: nat)
    requires |leaves| >= 1 && elems + |leaves| <= |f| == |len| && InBounds(leaves, f)
    requires LowerBound(multiset(FreqsOf(leaves, f)), Joined(f, elems, |leaves| - 1))
    requires overflow == 0 ==> Sum(leaves, Spent(f, len)) == Joined(f, elems, |leaves| - 1)
    ensures overflow == 0 ==> Optimal(f, leaves, len)
  {
    hide LowerBound, Sum, Spent, Joined, PrefixFreeWords, Cost;
    forall ws: seq<Word> | overflow == 0 && |ws| == |leaves| && PrefixFreeWords(ws)
      ensures Sum(leaves, Spent(f, len)) <= Cost(Items(FreqsOf(leaves, f), ws))
    {
      NoBetterCode(FreqsOf(leaves, f), Joined(f, elems, |leaves| - 1), ws);
    }
  }
}
