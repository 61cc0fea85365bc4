/** The merging loop of build_tree on its arrays. */
module MergeLoop {
  import opened Sums
  import opened HuffmanHeap
  import opened HuffmanForest
  import opened Optimality
  import opened CodeLengths

  /** The nodes in heap slots 1..n. */
  function Live(h: seq<nat>, n: nat): seq<nat>
    requires n < |h|
  {
    h[1..n + 1]
  }

  lemma SlotsLive(h: seq<nat>, n: nat, f: seq<nat>, d: seq<nat>)
    requires Slots(h, n, f, d)
    ensures InBounds(Live(h, n), f) && |Live(h, n)| == n
  {
  }

  lemma TopIsRarest(h: seq<nat>, n: nat, f: seq<nat>, d: seq<nat>)
    requires Slots(h, n, f, d) && HeapFrom(h, n, f, d, 1) && n >= 1
    ensures InBounds(Live(h, n), f) && Rarest(f, Live(h, n), h[1])
  {
    var s := Live(h, n);
    assert s[0] == h[1];
    forall i | 0 <= i < |s| ensures f[h[1]] <= f[s[i]] {
      TopIsLeast(h, n, f, d, i + 1);
    }
  }

  /** Heap order looks only at the nodes in the heap. */
  lemma HeapAgree(h: seq<nat>, n: nat, f: seq<nat>, d: seq<nat>, f': seq<nat>, d': seq<nat>, k: nat)
    requires Slots(h, n, f, d) && HeapFrom(h, n, f, d, k) && |f'| == |f| && |d'| == |d|
    requires forall j :: k <= j <= n && 1 <= j ==> f'[h[j]] == f[h[j]] && d'[h[j]] == d[h[j]]
    ensures Slots(h, n, f', d') && HeapFrom(h, n, f', d', k)
  {
    forall j | 2 <= j <= n && k <= j / 2 ensures Smaller(f', d', h[j / 2], h[j]) {
      assert Smaller(f, d, h[j / 2], h[j]);
    }
  }

  /** Replacing the top leaves the rest of the heap in order. */
  lemma HeapBelowTop(h: seq<nat>, n: nat, n': nat, f: seq<nat>, d: seq<nat>, x: nat)
    requires Slots(h, n, f, d) && HeapFrom(h, n, f, d, 1) && 1 <= n' <= n && x < |f| && x < |d|
    ensures Slots(h[1 := x], n', f, d) && HeapFrom(h[1 := x], n', f, d, 2)
  {
    var h' := h[1 := x];
    forall j | 2 <= j <= n' && 2 <= j / 2 ensures Smaller(f, d, h'[j / 2], h'[j]) {
      assert Smaller(f, d, h[j / 2], h[j]);
    }
  }

  /** pqremove: take the rarest node out of the heap. */
  method PqRemove(heap: array<nat>, heapLen: nat, f: seq<nat>, d: seq<nat>) returns (top: nat)
    requires heapLen >= 2 && Slots(heap[..], heapLen, f, d) && HeapFrom(heap[..], heapLen, f, d, 1)
    modifies heap
    ensures top < |f| && InBounds(Live(old(heap[..]), heapLen), f) && Rarest(f, Live(old(heap[..]), heapLen), top)
    ensures Slots(heap[..], heapLen - 1, f, d) && HeapFrom(heap[..], heapLen - 1, f, d, 1)
    ensures multiset(Live(old(heap[..]), heapLen)) == multiset(Live(heap[..], heapLen - 1)) + multiset{top}
    ensures forall i :: heapLen < i < heap.Length ==> heap[i] == old(heap[i])
  {
    hide HeapFrom, Smaller;
    ghost var h := heap[..];
    TopIsRarest(h, heapLen, f, d);
    top := heap[1];
    HeapBelowTop(h, heapLen, heapLen - 1, f, d, heap[heapLen]);
    heap[1] := heap[heapLen];
    assert heap[..] == h[1 := h[heapLen]];
    RemoveTop(h, heapLen);
    PqDownHeap(heap, heapLen - 1, f, d, 1);
  }

  lemma RemoveTop(h: seq<nat>, n: nat)
    requires 2 <= n < |h|
    ensures multiset(Live(h, n)) == multiset(Live(h[1 := h[n]], n - 1)) + multiset{h[1]}
  {
    assert Live(h, n) == [h[1]] + h[2..n] + [h[n]];
    assert Live(h[1 := h[n]], n - 1) == [h[n]] + h[2..n];
  }

  lemma ReplaceTop(h: seq<nat>, n: nat, x: nat)
    requires 1 <= n < |h|
    ensures multiset(Live(h[1 := x], n)) + multiset{h[1]} == multiset(Live(h, n)) + multiset{x}
    ensures multiset(Live(h, n)) == multiset(h[2..n + 1]) + multiset{h[1]}
    ensures multiset(Live(h[1 := x], n)) == multiset(h[2..n + 1]) + multiset{x}
  {
    assert Live(h, n) == [h[1]] + h[2..n + 1];
    assert Live(h[1 := x], n) == [x] + h[2..n + 1];
  }

  /** Replace the rarest node by the father just made and restore the heap. */
  method PutFather(heap: array<nat>, heapLen: nat, ghost f: seq<nat>, ghost d: seq<nat>, f': seq<nat>, d': seq<nat>,
      node: nat)
    requires heapLen >= 1 && Slots(heap[..], heapLen, f, d) && HeapFrom(heap[..], heapLen, f, d, 1)
    requires node < |f| == |f'| && node < |d| == |d'|
    requires forall j :: 1 <= j <= heapLen ==> heap[j] != node
    requires forall x :: 0 <= x < |f| && x != node ==> f'[x] == f[x]
    requires forall x :: 0 <= x < |d| && x != node ==> d'[x] == d[x]
    modifies heap
    ensures Slots(heap[..], heapLen, f', d') && HeapFrom(heap[..], heapLen, f', d', 1)
    ensures multiset(Live(heap[..], heapLen)) == multiset(old(heap[..])[2..heapLen + 1]) + multiset{node}
    ensures multiset(Live(heap[..], heapLen)) + multiset{old(heap[1])}
            == multiset(Live(old(heap[..]), heapLen)) + multiset{node}
    ensures forall i :: heapLen < i < heap.Length ==> heap[i] == old(heap[i])
  {
    hide HeapFrom, Smaller;
    ghost var h := heap[..];
    assert forall j :: 1 <= j <= heapLen ==> h[j] == heap[j];
    HeapAgree(h, heapLen, f, d, f', d', 1);
    HeapBelowTop(h, heapLen, heapLen, f', d', node);
    ReplaceTop(h, heapLen, node);
    heap[1] := node;
    assert heap[..] == h[1 := node];
    PqDownHeap(heap, heapLen, f', d', 1);
  }

  /** What holds at the head of the merging loop after k merges. */
  ghost predicate Merging(h: seq<nat>, heapLen: nat, heapMax: nat, f: seq<nat>, dl: seq<nat>, d: seq<nat>,
      leaves: seq<nat>, elems: nat, k: nat) {
    && heapLen < heapMax <= |h| && |d| == |f| && Slots(h, heapLen, f, d) && HeapFrom(h, heapLen, f, d, 1)
    && heapLen + k == |leaves| && heapMax + 2 * k == |h| && 2 * |leaves| < |h| && Distinct(leaves)
    && Forest(f, dl, Live(h, heapLen), h[heapMax..], leaves, elems, k)
    && GreedySoFar(f, Live(h, heapLen), multiset(FreqsOf2(leaves, f)), elems, k)
    && Sum(Live(h, heapLen), f) < 0x10000
  }

  /** Frequencies of the leaves, which merging never changes. */
  ghost function FreqsOf2(s: seq<nat>, f: seq<nat>): seq<nat> {
    if InBounds(s, f) then FreqsOf(s, f) else []
  }

  lemma {:induction false} SumNonNeg(s: seq<nat>, f: seq<nat>)
    ensures Sum(s, f) >= 0
  {
    if s != [] {
      SumNonNeg(s[1..], f);
    }
  }

  lemma SumSplitOff(live: seq<nat>, mid: seq<nat>, n: nat, f: seq<nat>)
    requires multiset(live) == multiset(mid) + multiset{n} && n < |f|
    ensures Sum(live, f) == f[n] + Sum(mid, f)
  {
    hide Sum;
    assert multiset([n] + mid) == multiset(live);
    SumPermutation([n] + mid, live, f);
    SumAppend([n], mid, f);
    SumOne(n, f);
  }

  /** The joint frequency fits in 16 bits, and the total stays the same. */
  lemma SumMerge(live: seq<nat>, mid: seq<nat>, rest: seq<nat>, live': seq<nat>, f: seq<nat>, n: nat, m: nat, node: nat)
    requires multiset(live) == multiset(mid) + multiset{n} && multiset(mid) == multiset(rest) + multiset{m}
    requires multiset(live') == multiset(rest) + multiset{node} && n < |f| && m < |f| && node < |f|
    requires forall i :: 0 <= i < |rest| ==> rest[i] != node
    ensures Sum(live', f[node := f[n] + f[m]]) == Sum(live, f) >= f[n] + f[m]
  {
    hide Sum;
    var f' := f[node := f[n] + f[m]];
    SumSplitOff(live, mid, n, f);
    SumSplitOff(mid, rest, m, f);
    SumSplitOff(live', rest, node, f');
    SumAgree(rest, f, f');
    SumNonNeg(rest, f);
  }

  /** Between the removals: n is out, m on top, both recorded. */
  ghost predicate TwoTaken(h: seq<nat>, h1: seq<nat>, heapLen: nat, heapMax: nat, f: seq<nat>, d: seq<nat>, n: nat,
      m: nat) {
    && 2 <= heapLen && heapLen + 1 < heapMax <= |h| == |h1| && n < |f| && m == h1[1] < |f|
    && InBounds(Live(h, heapLen), f) && Rarest(f, Live(h, heapLen), n)
    && Slots(h1, heapLen - 1, f, d) && HeapFrom(h1, heapLen - 1, f, d, 1)
    && multiset(Live(h, heapLen)) == multiset(Live(h1, heapLen - 1)) + multiset{n}
    && h1[heapMax - 2..] == [m, n] + h[heapMax..]
  }

  /** The father has replaced m. */
  ghost predicate FatherPut(h1: seq<nat>, h2: seq<nat>, heapLen: nat, heapMax: nat, f': seq<nat>, d': seq<nat>, m: nat,
      node: nat) {
    && 2 <= heapLen && heapLen + 1 < heapMax <= |h1| == |h2| && m == h1[1]
    && Slots(h2, heapLen - 1, f', d') && HeapFrom(h2, heapLen - 1, f', d', 1)
    && multiset(Live(h2, heapLen - 1)) == multiset(h1[2..heapLen]) + multiset{node}
    && multiset(Live(h2, heapLen - 1)) + multiset{m} == multiset(Live(h1, heapLen - 1)) + multiset{node}
    && h2[heapMax - 2..] == h1[heapMax - 2..]
  }

  /** All that one merge changes, in one place. */
  lemma MergeAll(h: seq<nat>, h1: seq<nat>, h2: seq<nat>, heapLen: nat, heapMax: nat, f: seq<nat>, dl: seq<nat>,
      d: seq<nat>, d': seq<nat>,
                 leaves: seq<nat>, elems: nat, k: nat, n: nat, m: nat, node: nat)
    requires node == elems + k < |f| && n < |f| && m < |f| && |d'| == |d| && 2 <= heapLen && 2 <= heapMax
    requires TwoTaken(h, h1, heapLen, heapMax, f, d, n, m)
    requires FatherPut(h1, h2, heapLen, heapMax, f[node := f[n] + f[m]], d', m, node)
    requires Merging(h, heapLen, heapMax, f, dl, d, leaves, elems, k)
    ensures n != m && |dl| == |f|
    ensures Merging(h2, heapLen - 1, heapMax - 2, f[node := f[n] + f[m]], dl[n := node][m := node], d', leaves, elems,
            k + 1)
  {
    hide HeapFrom, Rarest, Forest, GreedySoFar, Sum, FreqsOf2, Live;
    var live, mid, live' := Live(h, heapLen), Live(h1, heapLen - 1), Live(h2, heapLen - 1);
    var rest := h1[2..heapLen];
    ForestFacts(f, dl, live, h[heapMax..], leaves, elems, k);
    SlotsLive(h1, heapLen - 1, f, d);
    TopIsRarest(h1, heapLen - 1, f, d);
    assert multiset(mid) == multiset(rest) + multiset{m} by { ReplaceTop(h1, heapLen - 1, node); }
    assert |live| == heapLen && |live'| == heapLen - 1 by { LiveLength(h, heapLen); LiveLength(h2, heapLen - 1); }
    MergeStep(f, dl, live, mid, live', h[heapMax..], leaves, elems, k, n, m, node);
    RestBelow(live, mid, rest, n, m, node);
    GreedyMerge(f, live, mid, rest, live', multiset(FreqsOf2(leaves, f)), elems, k, n, m, node);
    assert FreqsOf2(leaves, f[node := f[n] + f[m]]) == FreqsOf2(leaves,
        f) by { LeafFreqs(f, leaves, elems, node, f[n] + f[m]); }
    SumMerge(live, mid, rest, live', f, n, m, node);
  }

  lemma LiveLength(h: seq<nat>, n: nat)
    requires n < |h|
    ensures |Live(h, n)| == n
  {
  }

  lemma LeafFreqs(f: seq<nat>, leaves: seq<nat>, elems: nat, node: nat, v: nat)
    requires elems <= node < |f| && forall i :: 0 <= i < |leaves| ==> leaves[i] < elems
    ensures FreqsOf2(leaves, f[node := v]) == FreqsOf2(leaves, f)
  {
  }

  lemma ForestFacts(f: seq<nat>, dl: seq<nat>, live: seq<nat>, order: seq<nat>, leaves: seq<nat>, elems: nat, k: nat)
    requires Forest(f, dl, live, order, leaves, elems, k) && Distinct(leaves)
    ensures elems + |leaves| <= |f| && k < |leaves| && |live| == |leaves| - k && |dl| == |f| && InBounds(live, f)
    ensures forall i :: 0 <= i < |leaves| ==> leaves[i] < elems
    ensures forall i :: 0 <= i < |live| ==> live[i] < elems + k
  {
    ForestNodes(f, dl, live, order, leaves, elems, k);
  }

  lemma RestBelow(live: seq<nat>, mid: seq<nat>, rest: seq<nat>, n: nat, m: nat, node: nat)
    requires multiset(live) == multiset(mid) + multiset{n} && multiset(mid) == multiset(rest) + multiset{m}
    requires forall i :: 0 <= i < |live| ==> live[i] < node
    ensures n < node && m < node && (forall i :: 0 <= i < |rest| ==> rest[i] < node)
    ensures forall i :: 0 <= i < |mid| ==> mid[i] < node
  {
    MidInLive(live, mid, n);
    MidInLive(mid, rest, m);
  }
}
