/** The heap of trees.c: pqdownheap keeps the heap order and permutes its contents. */
module HuffmanHeap {

  /** The comparison macro: by frequency, then by depth. */
  predicate Smaller(f: seq<nat>, d: seq<nat>, n: nat, m: nat)
    requires n < |f| && m < |f| && n < |d| && m < |d|
  {
    f[n] < f[m] || (f[n] == f[m] && d[n] <= d[m])
  }

  /** Heap slots 1..n hold node numbers. */
  ghost predicate Slots(h: seq<nat>, n: nat, f: seq<nat>, d: seq<nat>) {
    n < |h| && forall j :: 1 <= j <= n ==> h[j] < |f| && h[j] < |d|
  }

  /** Every father at slot k or later is smaller than its sons. */
  ghost predicate HeapFrom(h: seq<nat>, n: nat, f: seq<nat>, d: seq<nat>, k: nat)
    requires Slots(h, n, f, d)
  {
    forall j :: 2 <= j <= n && k <= j / 2 ==> Smaller(f, d, h[j / 2], h[j])
  }

  /** As HeapFrom, but the node at slot `hole` may be too large for its sons. */
  ghost predicate HoleInv(h: seq<nat>, n: nat, f: seq<nat>, d: seq<nat>, k: nat, hole: nat)
    requires Slots(h, n, f, d)
  {
    && 1 <= k <= hole <= n
    && (forall j :: 2 <= j <= n && k <= j / 2 && j / 2 != hole ==> Smaller(f, d, h[j / 2], h[j]))
    && (k <= hole / 2 ==> forall j :: 2 <= j <= n && j / 2 == hole ==> Smaller(f, d, h[hole / 2], h[j]))
  }

  function Swap(h: seq<nat>, i: nat, j: nat): (r: seq<nat>)
    requires i < |h| && j < |h|
    ensures |r| == |h|
  {
    h[i := h[j]][j := h[i]]
  }

  lemma SwapMultiset(h: seq<nat>, n: nat, i: nat, j: nat)
    requires 1 <= i < j <= n < |h|
    ensures multiset(Swap(h, i, j)[1..n + 1]) == multiset(h[1..n + 1])
  {
    var s := h[1..n + 1];
    var a, b, c := s[..i - 1], s[i..j - 1], s[j..];
    assert s == a + [h[i]] + b + [h[j]] + c;
    assert Swap(h, i, j)[1..n + 1] == a + [h[j]] + b + [h[i]] + c;
  }

  /** The son that the loop descends to: no larger than its brother. */
  ghost predicate IsLeastSon(h: seq<nat>, n: nat, f: seq<nat>, d: seq<nat>, hole: nat, j: nat)
    requires Slots(h, n, f, d)
  {
    && 2 <= j <= n && j / 2 == hole
    && forall c :: 2 <= c <= n && c / 2 == hole ==> Smaller(f, d, h[j], h[c])
  }

  lemma HoleStep(h: seq<nat>, n: nat, f: seq<nat>, d: seq<nat>, k: nat, hole: nat, j: nat)
    requires Slots(h, n, f, d) && HoleInv(h, n, f, d, k, hole)
    requires IsLeastSon(h, n, f, d, hole, j) && !Smaller(f, d, h[hole], h[j])
    ensures Slots(Swap(h, hole, j), n, f, d) && HoleInv(Swap(h, hole, j), n, f, d, k, j)
  {
    var h' := Swap(h, hole, j);
    assert h'[hole] == h[j] && h'[j] == h[hole];
    forall c | 2 <= c <= n && k <= c / 2 && c / 2 != j ensures Smaller(f, d, h'[c / 2], h'[c]) {
      if c / 2 == hole {
        assert c != hole;
      } else if c == hole {
        assert c / 2 != hole;
      }
    }
    forall c | 2 <= c <= n && c / 2 == j ensures Smaller(f, d, h'[j / 2], h'[c]) {
      assert c != j && c != hole;
    }
  }

  lemma HoleEnd(h: seq<nat>, n: nat, f: seq<nat>, d: seq<nat>, k: nat, hole: nat)
    requires Slots(h, n, f, d) && HoleInv(h, n, f, d, k, hole)
    requires forall j :: 2 <= j <= n && j / 2 == hole ==> Smaller(f, d, h[hole], h[j])
    ensures HeapFrom(h, n, f, d, k)
  {
  }

  /** `h` rearranges slots k..n of `g` and is a heap but for the hole. */
  ghost predicate Sifting(g: seq<nat>, h: seq<nat>, n: nat, f: seq<nat>, d: seq<nat>, k: nat, hole: nat) {
    && |h| == |g| && Slots(h, n, f, d) && HoleInv(h, n, f, d, k, hole)
    && multiset(h[1..n + 1]) == multiset(g[1..n + 1])
    && forall i :: 0 <= i < |g| && (i < k || n < i) ==> h[i] == g[i]
  }

  lemma SiftStep(g: seq<nat>, h: seq<nat>, n: nat, f: seq<nat>, d: seq<nat>, k: nat, hole: nat, j: nat)
    requires Sifting(g, h, n, f, d, k, hole)
    requires IsLeastSon(h, n, f, d, hole, j) && !Smaller(f, d, h[hole], h[j])
    ensures Sifting(g, Swap(h, hole, j), n, f, d, k, j)
  {
    hide HoleInv, Smaller;
    assert hole < j && k <= hole by { HoleBounds(h, n, f, d, k, hole); }
    HoleStep(h, n, f, d, k, hole, j);
    SwapMultiset(h, n, hole, j);
  }

  lemma HoleBounds(h: seq<nat>, n: nat, f: seq<nat>, d: seq<nat>, k: nat, hole: nat)
    requires Slots(h, n, f, d) && HoleInv(h, n, f, d, k, hole)
    ensures 1 <= k <= hole <= n
  {
  }

  lemma SiftEnd(g: seq<nat>, h: seq<nat>, n: nat, f: seq<nat>, d: seq<nat>, k: nat, hole: nat)
    requires Sifting(g, h, n, f, d, k, hole)
    requires 2 * hole > n || exists j: nat :: IsLeastSon(h, n, f, d, hole, j) && Smaller(f, d, h[hole], h[j])
    ensures HeapFrom(h, n, f, d, k)
  {
    HoleEnd(h, n, f, d, k, hole);
  }

  lemma SiftSlots(g: seq<nat>, h: seq<nat>, n: nat, f: seq<nat>, d: seq<nat>, k: nat, hole: nat)
    requires Sifting(g, h, n, f, d, k, hole)
    ensures |h| == |g| && Slots(h, n, f, d) && 1 <= k <= hole <= n
  {
  }

  /** Restore the heap by moving the node at slot k down. */
  method PqDownHeap(heap: array<nat>, heapLen: nat, f: seq<nat>, d: seq<nat>, k: nat)
    requires 1 <= k <= heapLen && Slots(heap[..], heapLen, f, d)
    requires HeapFrom(heap[..], heapLen, f, d, k + 1)
    modifies heap
    ensures Slots(heap[..], heapLen, f, d) && HeapFrom(heap[..], heapLen, f, d, k)
    ensures multiset(heap[..][1..heapLen + 1]) == multiset(old(heap[..])[1..heapLen + 1])
    ensures forall i :: 0 <= i < heap.Length && (i < k || heapLen < i) ==> heap[i] == old(heap[i])
  {
    hide Smaller, HeapFrom, Swap, IsLeastSon;
    ghost var g := heap[..];
    ghost var h := g;
    var v := heap[k];
    var kk := k;
    var j := 2 * k;
    HoleStart(h, heapLen, f, d, k);
    while j <= heapLen
      invariant kk <= heapLen && j == 2 * kk
      invariant Sifting(g, h, heapLen, f, d, k, kk)
      invariant h == heap[..][kk := v]
      decreases heapLen - kk
    {
      hide Sifting;
      SiftSlots(g, h, heapLen, f, d, k, kk);
      assert h[j] == heap[j] && (j < heapLen ==> h[j + 1] == heap[j + 1]) && h[kk] == v;
      var right := j < heapLen && Smaller(f, d, heap[j + 1], heap[j]);
      LeastSon(h, heapLen, f, d, kk, right);
      if right {
        j := j + 1;
      }
      if Smaller(f, d, v, heap[j]) {
        break;
      }
      SiftStep(g, h, heapLen, f, d, k, kk, j);
      ghost var h0 := heap[..];
      SwapHole(h0, kk, j, v);
      h := Swap(h, kk, j);
      heap[kk] := heap[j];
      assert heap[..] == h0[kk := h0[j]];
      kk := j;
      j := 2 * j;
    }
    heap[kk] := v;
    assert heap[..] == h;
    SiftEnd(g, h, heapLen, f, d, k, kk);
  }

  lemma SwapHole(h0: seq<nat>, kk: nat, j: nat, v: nat)
    requires kk < |h0| && j < |h0| && kk != j
    ensures Swap(h0[kk := v], kk, j) == h0[kk := h0[j]][j := v]
  {
  }

  lemma HoleStart(h: seq<nat>, n: nat, f: seq<nat>, d: seq<nat>, k: nat)
    requires 1 <= k <= n && Slots(h, n, f, d) && HeapFrom(h, n, f, d, k + 1)
    ensures HoleInv(h, n, f, d, k, k)
  {
  }

  lemma LeastSon(h: seq<nat>, n: nat, f: seq<nat>, d: seq<nat>, hole: nat, right: bool)
    requires Slots(h, n, f, d) && 1 <= hole && 2 * hole <= n
    requires right <==> 2 * hole < n && Smaller(f, d, h[2 * hole + 1], h[2 * hole])
    ensures IsLeastSon(h, n, f, d, hole, if right then 2 * hole + 1 else 2 * hole)
  {
    forall c | 2 <= c <= n && c / 2 == hole ensures c == 2 * hole || c == 2 * hole + 1 {
    }
  }

  /** The top of a heap has the least frequency, and among those the least depth. */
  lemma {:induction false} TopIsLeast(h: seq<nat>, n: nat, f: seq<nat>, d: seq<nat>, j: nat)
    requires Slots(h, n, f, d) && HeapFrom(h, n, f, d, 1) && 1 <= j <= n
    ensures f[h[1]] <= f[h[j]] && (f[h[1]] == f[h[j]] ==> d[h[1]] <= d[h[j]])
  {
    if j > 1 {
      TopIsLeast(h, n, f, d, j / 2);
      assert Smaller(f, d, h[j / 2], h[j]);
    }
  }
}
