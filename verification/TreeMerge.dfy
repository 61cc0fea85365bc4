/** build_tree: from frequencies to a complete, optimal, length-limited code. */
module TreeMerge {
  import opened Bits
  import opened CanonicalCode
  import opened Sums
  import opened Optimality
  import opened HuffmanHeap
  import opened HuffmanForest
  import opened CodeLengths
  import opened HandDown
  import opened LimitRepair
  import opened GenBitLen
  import opened Reassign
  import opened LengthFacts
  import opened BitLengths
  import opened MergeLoop
  import opened InfTrees
  import opened GenCodes

  // ---------- the heap of used symbols ----------

  /** The first `n` symbols have been entered: used ones in the heap, others given length 0. */
  ghost predicate Entered(h: seq<nat>, heapLen: nat, f: seq<nat>, dl: seq<nat>, d: seq<nat>, n: nat) {
    && heapLen <= n <= |f| && heapLen < |h| && n <= |dl| && n <= |d|
    && (forall j :: 1 <= j <= heapLen ==> h[j] < n && f[h[j]] > 0)
    && (forall i, j :: 1 <= i < j <= heapLen ==> h[i] < h[j])
    && (forall s :: 0 <= s < n && f[s] > 0 ==> s in h[1..heapLen + 1])
    && (forall s :: 0 <= s < n && f[s] == 0 ==> dl[s] == 0)
  }

  lemma EnterUsed(h: seq<nat>, heapLen: nat, f: seq<nat>, dl: seq<nat>, d: seq<nat>, n: nat)
    requires Entered(h, heapLen, f, dl, d, n) && n < |f| && n < |d| && n < |dl| && f[n] > 0 && heapLen + 1 < |h|
    ensures Entered(h[heapLen + 1 := n], heapLen + 1, f, dl, d[n := 0], n + 1)
  {
    var h' := h[heapLen + 1 := n];
    assert h'[1..heapLen + 2] == h[1..heapLen + 1] + [n];
  }

  lemma EnterUnused(h: seq<nat>, heapLen: nat, f: seq<nat>, dl: seq<nat>, d: seq<nat>, n: nat)
    requires Entered(h, heapLen, f, dl, d, n) && n < |f| && n < |d| && n < |dl| && f[n] == 0
    ensures Entered(h, heapLen, f, dl[n := 0], d, n + 1)
  {
  }

  method EnterSymbols(fc: array<nat>, dl: array<nat>, heap: array<nat>, depth: array<nat>, elems: nat)
      returns (heapLen: nat, maxCode: int)
    requires elems <= fc.Length && elems <= dl.Length && elems <= depth.Length && elems < heap.Length
    requires dl != fc && heap != fc && depth != fc && dl != heap && dl != depth && heap != depth
    modifies dl, heap, depth
    ensures Entered(heap[..], heapLen, fc[..], dl[..], depth[..], elems)
    ensures -1 <= maxCode < elems && (maxCode == -1 <==> heapLen == 0)
    ensures heapLen > 0 ==> maxCode == heap[heapLen]
  {
    hide Entered;
    heapLen, maxCode := 0, -1;
    assert Entered(heap[..], 0, fc[..], dl[..], depth[..], 0) by { EnteredNone(heap[..], fc[..], dl[..], depth[..]); }
    var n: nat := 0;
    while n < elems
      invariant n <= elems && heapLen <= n && -1 <= maxCode < n
      invariant Entered(heap[..], heapLen, fc[..], dl[..], depth[..], n)
      invariant (maxCode == -1 <==> heapLen == 0) && (heapLen > 0 ==> maxCode == heap[heapLen])
    {
      if fc[n] != 0 {
        EnterUsed(heap[..], heapLen, fc[..], dl[..], depth[..], n);
        ghost var h, d := heap[..], depth[..];
        heapLen := heapLen + 1;
        heap[heapLen] := n;
        maxCode := n;
        depth[n] := 0;
        assert heap[..] == h[heapLen := n] && depth[..] == d[n := 0];
      } else {
        EnterUnused(heap[..], heapLen, fc[..], dl[..], depth[..], n);
        ghost var l := dl[..];
        dl[n] := 0;
        assert dl[..] == l[n := 0];
      }
      n := n + 1;
    }
  }

  lemma EnteredNone(h: seq<nat>, f: seq<nat>, dl: seq<nat>, d: seq<nat>)
    requires |h| > 0
    ensures Entered(h, 0, f, dl, d, 0)
  {
  }

  // ---------- at least two codes ----------

  /** The heap lists the used symbols, without order, after any forced ones. */
  ghost predicate HeapLists(h: seq<nat>, heapLen: nat, f: seq<nat>, dl: seq<nat>, elems: nat) {
    && heapLen < |h| && elems <= |f| && elems <= |dl|
    && (forall j :: 1 <= j <= heapLen ==> h[j] < elems)
    && Distinct(h[1..heapLen + 1])
    && (forall s :: 0 <= s < elems ==> (f[s] > 0 <==> s in h[1..heapLen + 1]))
    && (forall s :: 0 <= s < elems && f[s] == 0 ==> dl[s] == 0)
  }

  lemma EnteredLists(h: seq<nat>, heapLen: nat, f: seq<nat>, dl: seq<nat>, d: seq<nat>, elems: nat)
    requires Entered(h, heapLen, f, dl, d, elems)
    ensures HeapLists(h, heapLen, f, dl, elems)
  {
    var s := h[1..heapLen + 1];
    forall i, j | 0 <= i < j < |s| ensures s[i] != s[j] {
      assert s[i] == h[i + 1] && s[j] == h[j + 1];
    }
    forall x | 0 <= x < elems && x in s ensures f[x] > 0 {
      var i :| 0 <= i < |s| && s[i] == x;
      assert s[i] == h[i + 1];
    }
  }

  lemma ForceOne(h: seq<nat>, heapLen: nat, f: seq<nat>, dl: seq<nat>, elems: nat, node: nat)
    requires HeapLists(h, heapLen, f, dl, elems) && node < elems && f[node] == 0 && heapLen + 1 < |h|
    ensures HeapLists(h[heapLen + 1 := node], heapLen + 1, f[node := 1], dl, elems)
  {
    var h' := h[heapLen + 1 := node];
    var s := h[1..heapLen + 1];
    assert h'[1..heapLen + 2] == s + [node];
    assert node !in s;
  }

  /** Frequencies with the forced symbols taken out again. */
  ghost predicate ForcedFrom(f0: seq<nat>, f: seq<nat>, forced: seq<nat>) {
    && |f| == |f0| && Distinct(forced)
    && (forall i :: 0 <= i < |forced| ==> forced[i] < |f0| && forced[i] < 3 && f0[forced[i]] == 0 && f[forced[i]] == 1)
    && forall s :: 0 <= s < |f0| && s !in forced ==> f[s] == f0[s]
  }

  /** The loop that forces two codes; forced symbols are among 0..2 and are never sent. */
  method ForceTwo(fc: array<nat>, dl: array<nat>, heap: array<nat>, depth: array<nat>, elems: nat, heapLen0: nat,
      maxCode0: int, sl: seq<nat>)
    returns (heapLen: nat, maxCode: nat, optDown: nat, staticDown: nat, ghost forced: seq<nat>)
    requires 3 <= elems <= fc.Length && elems <= dl.Length && elems <= depth.Length && elems < heap.Length
    requires |sl| == fc.Length
    requires dl != fc && heap != fc && depth != fc && dl != heap && dl != depth && heap != depth
    requires HeapLists(heap[..], heapLen0, fc[..], dl[..], elems)
    requires heapLen0 <= elems && -1 <= maxCode0 < elems && (maxCode0 == -1 <==> heapLen0 == 0)
    requires heapLen0 > 0 ==> forall j :: 1 <= j <= heapLen0 ==> heap[j] <= maxCode0
    requires heapLen0 > 0 ==> maxCode0 == heap[heapLen0]
    modifies fc, heap, depth
    ensures 2 <= heapLen < heap.Length && HeapLists(heap[..], heapLen, fc[..], dl[..], elems)
    ensures maxCode < elems && (forall j :: 1 <= j <= heapLen ==> heap[j] <= maxCode)
    ensures exists j :: 1 <= j <= heapLen && heap[j] == maxCode
    ensures ForcedFrom(old(fc[..]), fc[..], forced) && optDown == |forced| && staticDown == Sum(forced, sl)
    ensures forced != [] ==> heapLen == 2
    ensures forall i :: 0 <= i < |forced| ==> forced[i] in heap[1..heapLen + 1]
  {
    hide HeapLists, Distinct, Sum, ForcedFrom;
    heapLen, optDown, staticDown, forced := heapLen0, 0, 0, [];
    var max := maxCode0;
    ghost var at := heapLen0;
    assert Sum([], sl) == 0 by { SumNil(sl); }
    ForcedNone(fc[..]);
    while heapLen < 2
      invariant heapLen0 <= heapLen && (heapLen0 >= 2 ==> heapLen == heapLen0) && (heapLen0 < 2 ==> heapLen <= 2)
      invariant HeapLists(heap[..], heapLen, fc[..], dl[..], elems)
      invariant -1 <= max < elems && (max == -1 <==> heapLen == 0)
      invariant heapLen < heap.Length && forall j :: 1 <= j <= heapLen ==> heap[j] <= max
      invariant heapLen > 0 ==> 1 <= at <= heapLen && heap[at] == max
      invariant ForcedFrom(old(fc[..]), fc[..], forced) && optDown == |forced| && staticDown == Sum(forced, sl)
      invariant heapLen == heapLen0 + |forced|
      invariant forall i :: 0 <= i < |forced| ==> forced[i] in heap[1..heapLen + 1]
      decreases 2 - heapLen
    {
      var node: nat;
      if max < 2 {
        max := max + 1;
        node := max;
        at := heapLen + 1;
      } else {
        node := 0;
      }
      NotUsed(heap[..], heapLen, fc[..], dl[..], elems, node);
      ForceOne(heap[..], heapLen, fc[..], dl[..], elems, node);
      ForceMore(old(fc[..]), fc[..], forced, node);
      ghost var h, f := heap[..], fc[..];
      heapLen := heapLen + 1;
      heap[heapLen] := node;
      fc[node] := 1;
      depth[node] := 0;
      assert heap[..] == h[heapLen := node] && fc[..] == f[node := 1];
      assert heap[1..heapLen + 1] == h[1..heapLen] + [node];
      optDown := optDown + 1;
      staticDown := staticDown + sl[node];
      SumAppend(forced, [node], sl);
      SumOne(node, sl);
      forced := forced + [node];
    }
    maxCode := max;
  }

  lemma ForcedNone(f: seq<nat>)
    ensures ForcedFrom(f, f, [])
  {
  }

  lemma NotUsed(h: seq<nat>, heapLen: nat, f: seq<nat>, dl: seq<nat>, elems: nat, node: nat)
    requires HeapLists(h, heapLen, f, dl, elems) && node < elems && forall j :: 1 <= j <= heapLen ==> h[j] != node
    ensures f[node] == 0
  {
    var s := h[1..heapLen + 1];
    assert forall i :: 0 <= i < |s| ==> s[i] == h[i + 1];
  }

  lemma ForceMore(f0: seq<nat>, f: seq<nat>, forced: seq<nat>, node: nat)
    requires ForcedFrom(f0, f, forced) && node < |f0| && node < 3 && f[node] == 0
    ensures ForcedFrom(f0, f[node := 1], forced + [node])
  {
    assert forall i :: 0 <= i < |forced| ==> forced[i] != node;
    assert node !in forced;
  }

  // ---------- heap order and merging ----------

  /** Establish the heap over the entered symbols. */
  method Heapify(heap: array<nat>, heapLen: nat, f: seq<nat>, d: seq<nat>)
    requires heapLen >= 2 && Slots(heap[..], heapLen, f, d)
    modifies heap
    ensures Slots(heap[..], heapLen, f, d) && HeapFrom(heap[..], heapLen, f, d, 1)
    ensures multiset(Live(heap[..], heapLen)) == multiset(Live(old(heap[..]), heapLen))
  {
    hide Smaller;
    var n := heapLen / 2;
    while n >= 1
      invariant 0 <= n <= heapLen / 2
      invariant Slots(heap[..], heapLen, f, d) && HeapFrom(heap[..], heapLen, f, d, n + 1)
      invariant multiset(Live(heap[..], heapLen)) == multiset(Live(old(heap[..]), heapLen))
    {
      PqDownHeap(heap, heapLen, f, d, n);
      n := n - 1;
    }
  }

  lemma MergingFacts(h: seq<nat>, heapLen: nat, heapMax: nat, f: seq<nat>, dl: seq<nat>, d: seq<nat>, leaves: seq<nat>,
      elems: nat, k: nat)
    requires Merging(h, heapLen, heapMax, f, dl, d, leaves, elems, k)
    ensures heapLen < heapMax <= |h| && |d| == |f| == |dl| && Slots(h, heapLen, f, d) && HeapFrom(h, heapLen, f, d, 1)
    ensures elems + |leaves| <= |f| && k < |leaves| && heapLen + k == |leaves| && heapMax + 2 * k == |h|
    ensures 2 * |leaves| < |h|
    ensures InBounds(Live(h, heapLen), f) && forall j :: 1 <= j <= heapLen ==> h[j] < elems + k
    ensures Sum(Live(h, heapLen), f) < 0x10000
    ensures forall j :: 1 <= j <= heapLen && h[j] < elems ==> h[j] in leaves
  {
    hide Pairs, Later, Descending, GreedySoFar, HeapFrom, Sum;
    var live := Live(h, heapLen);
    ForestFacts(f, dl, live, h[heapMax..], leaves, elems, k);
    forall j | 1 <= j <= heapLen ensures h[j] < elems + k && (h[j] < elems ==> h[j] in leaves) {
      assert live[j - 1] == h[j];
      LiveLeaf(live, h[heapMax..], leaves, elems, k, h[j]);
    }
  }

  lemma LiveLeaf(live: seq<nat>, order: seq<nat>, leaves: seq<nat>, elems: nat, k: nat, x: nat)
    requires multiset(live + order) == multiset(leaves + Range(elems, elems + k)) && x in live
    ensures x < elems ==> x in leaves
  {
    var s, t := live + order, leaves + Range(elems, elems + k);
    assert x in s;
    assert x in multiset(s);
    assert x in multiset(t);
    var i :| 0 <= i < |t| && t[i] == x;
    assert i >= |leaves| ==> t[i] == Range(elems, elems + k)[i - |leaves|];
  }

  /** Take the two rarest nodes; the second stays on top of the heap for now. */
  method TakeTwo(heap: array<nat>, heapLen: nat, heapMax: nat, f: seq<nat>, d: seq<nat>) returns (n: nat, m: nat)
    requires 2 <= heapLen && heapLen + 1 < heapMax <= heap.Length && Slots(heap[..], heapLen, f, d)
    requires HeapFrom(heap[..], heapLen, f, d, 1)
    modifies heap
    ensures TwoTaken(old(heap[..]), heap[..], heapLen, heapMax, f, d, n, m)
  {
    hide HeapFrom, Rarest, Live, Smaller;
    ghost var h := heap[..];
    n := PqRemove(heap, heapLen, f, d);
    ghost var h1 := heap[..];
    assert heap[heapMax..] == h[heapMax..];
    m := heap[1];
    heap[heapMax - 1] := n;
    heap[heapMax - 2] := m;
    SameLive(h1, heap[..], heapLen - 1, f, d);
    assert heap[heapMax - 2..] == [m, n] + h1[heapMax..];
  }

  /** Fill in the father's frequency and depth and the sons' links. */
  method MakeFather(fc: array<nat>, dl: array<nat>, depth: array<nat>, n: nat, m: nat, node: nat)
    requires fc != dl && fc != depth && dl != depth && fc.Length == dl.Length == depth.Length
    requires n < node < fc.Length && m < node && fc[n] + fc[m] < 0x10000
    modifies fc, dl, depth
    ensures fc[..] == old(fc[..])[node := old(fc[n]) + old(fc[m])]
    ensures dl[..] == old(dl[..])[n := node][m := node]
    ensures forall x :: 0 <= x < depth.Length && x != node ==> depth[x] == old(depth[x])
    ensures depth[node] == ((if old(depth[n]) >= old(depth[m]) then old(depth[n]) else old(depth[m])) + 1) % 256
  {
    // 16-bit frequencies and 8-bit depths, as in ct_data and depth[]
    fc[node] := (fc[n] + fc[m]) % 0x10000;
    depth[node] := ((if depth[n] >= depth[m] then depth[n] else depth[m]) + 1) % 256;
    dl[n] := node;
    dl[m] := node;
  }

  /** One round of the do-while: join the two rarest nodes. */
  method MergeOnce(heap: array<nat>, heapLen: nat, heapMax: nat, fc: array<nat>, dl: array<nat>, depth: array<nat>,
                   ghost leaves: seq<nat>, elems: nat, node: nat)
    requires fc != dl && fc != heap && fc != depth && dl != heap && dl != depth && heap != depth
    requires elems <= node
    requires Merging(heap[..], heapLen, heapMax, fc[..], dl[..], depth[..], leaves, elems, node - elems) && heapLen >= 2
    requires RestZero(dl[..], leaves, elems)
    modifies heap, fc, dl, depth
    ensures heapMax >= 2
    ensures Merging(heap[..], heapLen - 1, heapMax - 2, fc[..], dl[..], depth[..], leaves, elems, node + 1 - elems)
    ensures RestZero(dl[..], leaves, elems)
    ensures forall s :: 0 <= s < elems && s < fc.Length ==> fc[s] == old(fc[s])
  {
    hide Merging, HeapFrom, Rarest, Sum, RestZero, Live, TwoTaken, FatherPut;
    ghost var h: seq<nat>, f: seq<nat>, l: seq<nat>, d: seq<nat> := heap[..], fc[..], dl[..], depth[..];
    MergingFacts(h, heapLen, heapMax, f, l, d, leaves, elems, node - elems);
    var n, m := TakeTwo(heap, heapLen, heapMax, fc[..], depth[..]);
    ghost var h1 := heap[..];
    TakenFacts(h, h1, heapLen, heapMax, f, d, n, m, node, leaves, elems);
    MakeFather(fc, dl, depth, n, m, node);
    ReplaceByFather(heap, heapLen, heapMax, f, d, fc[..], depth[..], n, m, node, h);
    MergeAll(h, h1, heap[..], heapLen, heapMax, f, l, d, depth[..], leaves, elems, node - elems, n, m, node);
    RestStill(l, leaves, elems, n, m, node);
  }

  /** Put the father in the place of the second node taken. */
  method ReplaceByFather(heap: array<nat>, heapLen: nat, ghost heapMax: nat, ghost f: seq<nat>, ghost d: seq<nat>,
      f': seq<nat>, d': seq<nat>,
                         ghost n: nat, ghost m: nat, node: nat, ghost h: seq<nat>)
    requires TwoTaken(h, heap[..], heapLen, heapMax, f, d, n, m)
    requires node < |f| == |f'| && node < |d| == |d'|
    requires forall j :: 1 <= j <= heapLen - 1 && j < heap.Length ==> heap[j] != node
    requires forall x :: 0 <= x < |f| && x != node ==> f'[x] == f[x]
    requires forall x :: 0 <= x < |d| && x != node ==> d'[x] == d[x]
    modifies heap
    ensures FatherPut(old(heap[..]), heap[..], heapLen, heapMax, f', d', m, node)
  {
    hide HeapFrom, Rarest, Live, Smaller;
    ghost var h1 := heap[..];
    PutFather(heap, heapLen - 1, f, d, f', d', node);
    assert heap[heapMax - 2..] == h1[heapMax - 2..];
  }

  lemma TakenFacts(h: seq<nat>, h1: seq<nat>, heapLen: nat, heapMax: nat, f: seq<nat>, d: seq<nat>, n: nat, m: nat,
      node: nat, leaves: seq<nat>, elems: nat)
    requires TwoTaken(h, h1, heapLen, heapMax, f, d, n, m)
    requires Sum(Live(h, heapLen), f) < 0x10000
    requires forall j :: 1 <= j <= heapLen ==> h[j] < node && (h[j] < elems ==> h[j] in leaves)
    ensures n < node && m < node && (n < elems ==> n in leaves) && (m < elems ==> m in leaves)
    ensures f[n] + f[m] < 0x10000
    ensures forall j :: 1 <= j <= heapLen - 1 ==> h1[j] != node
  {
    hide HeapFrom, Rarest, Live, Smaller, Sum;
    RarestIn(h, heapLen, f, n);
    MidSlots(h, h1, heapLen, n, node, leaves, elems);
    FitsIn16(h, h1, heapLen, f, n, m);
  }

  lemma RarestIn(h: seq<nat>, heapLen: nat, f: seq<nat>, n: nat)
    requires heapLen < |h| && InBounds(Live(h, heapLen), f) && Rarest(f, Live(h, heapLen), n)
    ensures exists j :: 1 <= j <= heapLen && h[j] == n
  {
    var s := Live(h, heapLen);
    var i :| 0 <= i < |s| && s[i] == n;
    assert h[i + 1] == n;
  }

  lemma MidSlots(h: seq<nat>, h1: seq<nat>, heapLen: nat, n: nat, node: nat, leaves: seq<nat>, elems: nat)
    requires 2 <= heapLen < |h| == |h1| && multiset(Live(h, heapLen)) == multiset(Live(h1, heapLen - 1)) + multiset{n}
    requires forall j :: 1 <= j <= heapLen ==> h[j] < node && (h[j] < elems ==> h[j] in leaves)
    ensures forall j :: 1 <= j <= heapLen - 1 ==> h1[j] < node && (h1[j] < elems ==> h1[j] in leaves)
  {
    var live, mid := Live(h, heapLen), Live(h1, heapLen - 1);
    MidInLive(live, mid, n);
    forall j | 1 <= j <= heapLen - 1 ensures h1[j] < node && (h1[j] < elems ==> h1[j] in leaves) {
      assert mid[j - 1] == h1[j];
      assert h1[j] in live;
      var i :| 0 <= i < |live| && live[i] == h1[j];
      assert live[i] == h[i + 1];
    }
  }

  lemma SameLive(h: seq<nat>, h': seq<nat>, n: nat, f: seq<nat>, d: seq<nat>)
    requires |h| == |h'| && n < |h| && (forall j :: 1 <= j <= n ==> h'[j] == h[j]) && Slots(h, n, f, d)
    requires HeapFrom(h, n, f, d, 1)
    ensures Slots(h', n, f, d) && HeapFrom(h', n, f, d, 1) && Live(h', n) == Live(h, n)
  {
    forall j | 2 <= j <= n && 1 <= j / 2 ensures Smaller(f, d, h'[j / 2], h'[j]) {
      assert Smaller(f, d, h[j / 2], h[j]);
    }
  }

  lemma FitsIn16(h: seq<nat>, h1: seq<nat>, heapLen: nat, f: seq<nat>, n: nat, m: nat)
    requires 2 <= heapLen < |h| == |h1| && Sum(Live(h, heapLen), f) < 0x10000 && n < |f| && m < |f| && m == h1[1]
    requires multiset(Live(h, heapLen)) == multiset(Live(h1, heapLen - 1)) + multiset{n}
    ensures f[n] + f[m] < 0x10000
  {
    hide Sum;
    SumSplitOff(Live(h, heapLen), Live(h1, heapLen - 1), n, f);
    ReplaceTop(h1, heapLen - 1, m);
    SumSplitOff(Live(h1, heapLen - 1), h1[2..heapLen], m, f);
    SumNonNeg(h1[2..heapLen], f);
  }

  lemma RestStill(l: seq<nat>, leaves: seq<nat>, elems: nat, n: nat, m: nat, node: nat)
    requires RestZero(l, leaves, elems) && n < |l| && m < |l| && (n < elems ==> n in leaves)
    requires (m < elems ==> m in leaves)
    ensures RestZero(l[n := node][m := node], leaves, elems)
  {
  }

  // ---------- the whole of build_tree ----------

  lemma StartMerging(h: seq<nat>, heapLen: nat, f: seq<nat>, dl: seq<nat>, d: seq<nat>, leaves: seq<nat>, elems: nat)
    requires 2 <= heapLen < |h| && |d| == |f| == |dl| && Slots(h, heapLen, f, d) && HeapFrom(h, heapLen, f, d, 1)
    requires |leaves| == heapLen && 2 * heapLen < |h| && elems + heapLen <= |f| && Distinct(leaves)
    requires multiset(Live(h, heapLen)) == multiset(leaves) && forall i :: 0 <= i < |leaves| ==> leaves[i] < elems
    requires Sum(leaves, f) < 0x10000
    ensures Merging(h, heapLen, |h|, f, dl, d, leaves, elems, 0)
  {
    hide HeapFrom, Sum;
    var live := Live(h, heapLen);
    SlotsLive(h, heapLen, f, d);
    SumPermutation(live, leaves, f);
    assert h[|h|..] == [] && live + [] == live && leaves + Range(elems, elems) == leaves;
    FreqsPermutation(live, leaves, f);
  }

  /** Merge until one node is left; it becomes the root at the head of the order. */
  method MergeNodes(heap: array<nat>, heapLen0: nat, fc: array<nat>, dl: array<nat>, depth: array<nat>,
      ghost leaves: seq<nat>, elems: nat)
    returns (heapMax: nat)
    requires fc != dl && fc != heap && fc != depth && dl != heap && dl != depth && heap != depth
    requires Merging(heap[..], heapLen0, heap.Length, fc[..], dl[..], depth[..], leaves, elems, 0) && heapLen0 >= 2
    requires RestZero(dl[..], leaves, elems)
    modifies heap, fc, dl, depth
    ensures heapMax < heap.Length && Tree(fc[..], dl[..], heap[heapMax..], leaves, elems, |leaves| - 1)
    ensures elems + |leaves| <= fc.Length && InBounds(leaves, fc[..])
    ensures LowerBound(multiset(FreqsOf(leaves, fc[..])), Joined(fc[..], elems, |leaves| - 1))
    ensures RestZero(dl[..], leaves, elems)
    ensures forall s :: 0 <= s < elems && s < fc.Length ==> fc[s] == old(fc[s])
  {
    hide Merging, RestZero, Tree, LowerBound;
    MergingFacts(heap[..], heapLen0, heap.Length, fc[..], dl[..], depth[..], leaves, elems, 0);
    var heapLen, node := heapLen0, elems;
    heapMax := heap.Length;
    while heapLen >= 2
      invariant heapLen >= 1 && elems <= node
      invariant Merging(heap[..], heapLen, heapMax, fc[..], dl[..], depth[..], leaves, elems, node - elems)
      invariant RestZero(dl[..], leaves, elems)
      invariant forall s :: 0 <= s < elems && s < fc.Length ==> fc[s] == old(fc[s])
    {
      MergeOnce(heap, heapLen, heapMax, fc, dl, depth, leaves, elems, node);
      heapLen, heapMax, node := heapLen - 1, heapMax - 2, node + 1;
    }
    MergingDone(heap[..], heapLen, heapMax, fc[..], dl[..], depth[..], leaves, elems, node - elems, heapLen0);
    ghost var h: seq<nat> := heap[..];
    heapMax := heapMax - 1;
    heap[heapMax] := heap[1];
    assert heap[heapMax..] == [h[1]] + h[heapMax + 1..];
  }

  lemma MergingDone(h: seq<nat>, heapLen: nat, heapMax: nat, f: seq<nat>, dl: seq<nat>, d: seq<nat>, leaves: seq<nat>,
      elems: nat, k: nat, n: nat)
    requires Merging(h, heapLen, heapMax, f, dl, d, leaves, elems, k) && heapLen == 1 && |leaves| >= 2
    ensures 2 <= heapMax <= |h| && k == |leaves| - 1 && Tree(f, dl, [h[1]] + h[heapMax..], leaves, elems, k)
    ensures elems + |leaves| <= |f| && InBounds(leaves, f)
    ensures LowerBound(multiset(FreqsOf(leaves, f)), Joined(f, elems, k))
  {
    hide HeapFrom, Sum, Tree, Forest;
    MergingFacts(h, heapLen, heapMax, f, dl, d, leaves, elems, k);
    assert Live(h, 1) == [h[1]];
    FinishForest(f, dl, h[1], h[heapMax..], leaves, elems, k);
    OneNodeBound(multiset(FreqsOf([h[1]], f)));
    ForestFacts(f, dl, [h[1]], h[heapMax..], leaves, elems, k);
  }

  lemma OneNodeBound(ws: multiset<nat>)
    ensures LowerBound(ws, 0)
  {
  }
}
