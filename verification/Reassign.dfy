/**
 The last pass of gen_bitlen: give out the repaired counts of lengths again,
 longest first, to the leaves by increasing frequency.
 */
module Reassign {
  import opened Bits
  import opened CanonicalCode
  import opened Sums
  import opened Optimality
  import opened HuffmanForest
  import opened CodeLengths
  import opened HandDown
  import opened LimitRepair
  import opened GenBitLen

  /** Leaves among the first h nodes. */
  ghost function LeavesBelow(order: seq<nat>, elems: nat, h: nat): nat
    requires h <= |order|
  {
    if h == 0 then 0 else LeavesBelow(order, elems, h - 1) + if order[h - 1] < elems then 1 else 0
  }

  /** Leaves of length b from position h on. */
  ghost function LeavesFrom(order: seq<nat>, dl: seq<nat>, elems: nat, h: nat, b: nat): nat
    requires h <= |order| && forall q :: 0 <= q < |order| ==> order[q] < |dl|
    decreases |order| - h
  {
    if h == |order| then 0
    else LeavesFrom(order, dl, elems, h + 1, b) + if order[h] < elems && dl[order[h]] == b then 1 else 0
  }

  lemma {:induction false} LeavesFromKeeps(order: seq<nat>, dl: seq<nat>, elems: nat, h: nat, b: nat, x: nat, v: nat)
    requires h <= |order| && (forall q :: 0 <= q < |order| ==> order[q] < |dl|) && x < |dl|
    requires forall q :: h <= q < |order| ==> order[q] != x
    ensures LeavesFrom(order, dl[x := v], elems, h, b) == LeavesFrom(order, dl, elems, h, b)
    decreases |order| - h
  {
    if h < |order| {
      LeavesFromKeeps(order, dl, elems, h + 1, b, x, v);
    }
  }

  /** Lengths grow along `order` from position h on, and lie between lo and max. */
  ghost predicate Growing(order: seq<nat>, dl: seq<nat>, elems: nat, h: nat, lo: nat, max: nat)
    requires h <= |order| && forall q :: 0 <= q < |order| ==> order[q] < |dl|
  {
    && (forall q :: h <= q < |order| && order[q] < elems ==> lo <= dl[order[q]] <= max)
    && (forall p, q :: h <= p < q < |order| && order[p] < elems && order[q] < elems ==> dl[order[p]] <= dl[order[q]])
  }

  /** Where the pass is: n codes of length `bits` still to give out. */
  ghost predicate State(order: seq<nat>, dl: seq<nat>, bl: seq<nat>, elems: nat, max: nat, h: nat, bits: nat, n: nat) {
    && h <= |order| && (forall q :: 0 <= q < |order| ==> order[q] < |dl|)
    && |bl| == MAX_BITS + 1 && bits <= max <= MAX_BITS && n <= bl[bits]
    && (forall b :: 0 <= b <= MAX_BITS ==>
          LeavesFrom(order, dl, elems, h, b) == if b > bits then bl[b] else if b == bits then bl[b] - n else 0)
    && LeavesBelow(order, elems, h) == (if bits == 0 then 0 else BlTotal(bl, bits - 1)) + n
    && Growing(order, dl, elems, h, bits, max)
  }

  lemma SkipFather(order: seq<nat>, dl: seq<nat>, bl: seq<nat>, elems: nat, max: nat, h: nat, bits: nat, n: nat)
    requires State(order, dl, bl, elems, max, h, bits, n) && h > 0 && order[h - 1] >= elems
    ensures State(order, dl, bl, elems, max, h - 1, bits, n)
  {
    hide BlTotal;
  }

  lemma GiveOut(order: seq<nat>, dl: seq<nat>, bl: seq<nat>, elems: nat, max: nat, h: nat, bits: nat, n: nat)
    requires State(order, dl, bl, elems, max, h, bits, n) && h > 0 && order[h - 1] < elems && n > 0 && Distinct(order)
    ensures State(order, dl[order[h - 1] := bits], bl, elems, max, h - 1, bits, n - 1)
  {
    hide BlTotal;
    var x, dl' := order[h - 1], dl[order[h - 1] := bits];
    var h' := h - 1;
    forall b | 0 <= b <= MAX_BITS
      ensures LeavesFrom(order, dl', elems, h', b)
              == if b > bits then bl[b] else if b == bits then bl[b] - (n - 1) else 0
    {
      LeavesFromKeeps(order, dl, elems, h, b, x, bits);
    }
    GrowingStep(order, dl, elems, h, bits, max);
  }

  lemma GrowingStep(order: seq<nat>, dl: seq<nat>, elems: nat, h: nat, bits: nat, max: nat)
    requires 0 < h <= |order| && (forall q :: 0 <= q < |order| ==> order[q] < |dl|) && Distinct(order)
    requires Growing(order, dl, elems, h, bits, max) && bits <= max
    ensures Growing(order, dl[order[h - 1] := bits], elems, h - 1, bits, max)
  {
    assert forall q :: h <= q < |order| ==> order[q] != order[h - 1];
  }

  lemma NextLength(order: seq<nat>, dl: seq<nat>, bl: seq<nat>, elems: nat, max: nat, h: nat, bits: nat)
    requires State(order, dl, bl, elems, max, h, bits, 0) && bits >= 1
    requires bits == 1 ==> bl[0] == 0
    ensures State(order, dl, bl, elems, max, h, bits - 1, bl[bits - 1])
  {
  }

  lemma SumChange(s: seq<nat>, g: seq<int>, g': seq<int>, i: nat)
    requires i < |s| && Distinct(s) && forall j :: 0 <= j < |s| && j != i ==> At(g', s[j]) == At(g, s[j])
    ensures Sum(s, g') == Sum(s, g) + At(g', s[i]) - At(g, s[i])
  {
    hide Sum;
    SumRemove(s, i, g);
    SumRemove(s, i, g');
    SumAgree(s[..i] + s[i + 1..], g, g');
  }

  /** opt_len follows a change of one leaf's length. */
  lemma UsedChange(leaves: seq<nat>, f: seq<nat>, dl: seq<nat>, xb: seq<nat>, x: nat, v: nat)
    requires Distinct(leaves) && x in leaves && x < |dl| <= |f| && |dl| <= |xb|
    ensures Sum(leaves, Used(f, dl[x := v], xb)) == Sum(leaves, Used(f, dl, xb)) + (v - dl[x]) * f[x]
  {
    hide Sum, Used;
    var i :| 0 <= i < |leaves| && leaves[i] == x;
    var g, g' := Used(f, dl, xb), Used(f, dl[x := v], xb);
    assert forall j :: 0 <= j < |leaves| && j != i ==> leaves[j] != x;
    SumChange(leaves, g, g', i);
    assert g'[x] - g[x] == (v - dl[x]) * f[x] by { SpendChange(f[x], v, dl[x], xb[x]); }
  }

  lemma SpendChange(w: nat, v: nat, l: nat, e: nat)
    ensures Spend(w, v + e) - Spend(w, l + e) == (v - l) * w
  {
  }

  ghost predicate SameFathers(a: seq<nat>, b: seq<nat>, elems: nat, order: seq<nat>) {
    |a| == |b| && forall x :: 0 <= x < |a| && (x >= elems || x !in order) ==> a[x] == b[x]
  }

  /** Recompute all lengths, scanning in increasing frequency. */
  method Recompute(dl: array<nat>, f: seq<nat>, order: seq<nat>, ghost leaves: seq<nat>, elems: nat, max: nat,
      xb: seq<nat>, bl: array<nat>, opt0: int)
    returns (opt: int)
    requires dl != bl && bl.Length == MAX_BITS + 1 && 1 <= max <= MAX_BITS && dl.Length <= |f| && dl.Length <= |xb|
    requires (forall q :: 0 <= q < |order| ==> order[q] < dl.Length) && Distinct(order) && Distinct(leaves)
    requires forall q :: 0 <= q < |order| && order[q] < elems ==> order[q] in leaves
    requires State(order, dl[..], bl[..], elems, max, |order|, max, bl[max]) && bl[0] == 0
    modifies dl
    ensures exists h :: State(order, dl[..], bl[..], elems, max, h, 0, 0)
    ensures opt == opt0 + Sum(leaves, Used(f, dl[..], xb)) - Sum(leaves, Used(f, old(dl[..]), xb))
    ensures SameFathers(old(dl[..]), dl[..], elems, order)
  {
    hide Sum, Used, State, Distinct;
    ghost var u0 := Sum(leaves, Used(f, dl[..], xb));
    ghost var d0 := dl[..];
    opt := opt0;
    var h: nat := |order|;
    var bits: nat := max;
    while bits != 0
      invariant bits <= max && h <= |order|
      invariant State(order, dl[..], bl[..], elems, max, h, bits, bl[bits])
      invariant opt == opt0 + Sum(leaves, Used(f, dl[..], xb)) - u0
      invariant SameFathers(d0, dl[..], elems, order)
    {
      var n := bl[bits];
      while n != 0
        invariant h <= |order|
        invariant State(order, dl[..], bl[..], elems, max, h, bits, n)
        invariant opt == opt0 + Sum(leaves, Used(f, dl[..], xb)) - u0
        invariant SameFathers(d0, dl[..], elems, order)
        decreases h
      {
        StateLeaf(order, dl[..], bl[..], elems, max, h, bits, n);
        h := h - 1;
        var m := order[h];
        if m >= elems {
          SkipFather(order, dl[..], bl[..], elems, max, h + 1, bits, n);
        } else {
          GiveOut(order, dl[..], bl[..], elems, max, h + 1, bits, n);
          UsedChange(leaves, f, dl[..], xb, m, bits);
          ghost var d := dl[..];
          if dl[m] != bits {
            opt := opt + (bits - dl[m]) * f[m];
            dl[m] := bits;
          }
          SameAfter(d0, d, elems, order, m, bits);
          assert dl[..] == d[m := bits];
          n := n - 1;
        }
      }
      NextLength(order, dl[..], bl[..], elems, max, h, bits);
      bits := bits - 1;
    }
  }

  lemma SameAfter(d0: seq<nat>, d: seq<nat>, elems: nat, order: seq<nat>, m: nat, v: nat)
    requires SameFathers(d0, d, elems, order) && m < elems && m in order && m < |d|
    ensures SameFathers(d0, d[m := v], elems, order)
  {
  }

  lemma StateLeaf(order: seq<nat>, dl: seq<nat>, bl: seq<nat>, elems: nat, max: nat, h: nat, bits: nat, n: nat)
    requires State(order, dl, bl, elems, max, h, bits, n) && n > 0
    ensures h > 0 && h <= |order|
  {
  }
}
