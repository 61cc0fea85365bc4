/**
 gen_bitlen: hand lengths down the tree, repair lengths over the limit, and keep
 opt_len and static_len exact.
 */
module GenBitLen {
  import opened Bits
  import opened CanonicalCode
  import opened Sums
  import opened Optimality
  import opened HuffmanForest
  import opened CodeLengths
  import opened HandDown
  import opened LimitRepair

  /** Bits used by each symbol: its frequency times code length plus extra bits. */
  ghost function Used(f: seq<nat>, len: seq<nat>, xb: seq<nat>): (g: seq<int>)
    requires |len| <= |f| && |len| <= |xb|
    ensures |g| == |len| && forall x :: 0 <= x < |len| ==> g[x] == Spend(f[x], len[x] + xb[x])
  {
    seq(|len|, x requires 0 <= x < |len| => Spend(f[x], len[x] + xb[x]))
  }

  lemma SumSnoc(order: seq<nat>, i: nat, g: seq<int>)
    requires 1 <= i < |order|
    ensures Sum(order[1..i + 1], g) == Sum(order[1..i], g) + At(g, order[i])
  {
    assert order[1..i + 1] == order[1..i] + [order[i]];
    SumAppend(order[1..i], [order[i]], g);
    SumOne(order[i], g);
  }

  ghost predicate Counted(bl: seq<nat>, order: seq<nat>, len: seq<nat>, elems: nat, i: nat)
    requires 1 <= i <= |order|
  {
    |bl| == MAX_BITS + 1 && forall b :: 0 <= b <= MAX_BITS ==> bl[b] == Sum(order[1..i],
        OnLeaves(HasLen(len, b), elems))
  }

  lemma CountedStart(bl: seq<nat>, order: seq<nat>, len: seq<nat>, elems: nat)
    requires |bl| == MAX_BITS + 1 && (forall b :: 0 <= b <= MAX_BITS ==> bl[b] == 0) && order != []
    ensures Counted(bl, order, len, elems, 1)
  {
    assert order[1..1] == [];
  }

  lemma CountedStep(bl: seq<nat>, order: seq<nat>, len: seq<nat>, elems: nat, i: nat)
    requires 1 <= i < |order| && order[i] < |len| && len[order[i]] <= MAX_BITS && Counted(bl, order, len, elems, i)
    ensures Counted(if order[i] < elems then bl[len[order[i]] := bl[len[order[i]]] + 1] else bl, order, len, elems,
            i + 1)
  {
    hide Sum, OnLeaves, HasLen;
    forall b | 0 <= b <= MAX_BITS
      ensures Sum(order[1..i + 1], OnLeaves(HasLen(len, b), elems))
           == Sum(order[1..i],
               OnLeaves(HasLen(len, b), elems)) + if order[i] < elems && len[order[i]] == b then 1 else 0
    {
      SumSnoc(order, i, OnLeaves(HasLen(len, b), elems));
    }
  }

  /** The first pass: the whole tree gets its lengths; what is counted on the way. */
  method FirstPass(dl: array<nat>, f: seq<nat>, order: seq<nat>, ghost leaves: seq<nat>, elems: nat, ghost k: nat,
      max: nat,
                   xb: seq<nat>, sl: seq<nat>, bl: array<nat>)
    returns (overflow: nat, opt: nat, static_: nat)
    requires Tree(f, dl[..], order, leaves, elems, k) && 1 <= max <= MAX_BITS
    requires |xb| == |f| && |sl| == |f|
    requires bl.Length == MAX_BITS + 1 && bl != dl && forall b :: 0 <= b <= MAX_BITS ==> bl[b] == 0
    modifies dl, bl
    ensures (forall q :: 0 <= q < |order| ==> order[q] < dl.Length) && |order| >= 1 && dl.Length == |f|
    ensures dl[..] == Down(old(dl[..]), order, max, |order|)
    ensures overflow == Overflow(dl[..], old(dl[..]), order, max, |order|)
    ensures Counted(bl[..], order, dl[..], elems, |order|)
    ensures opt == Sum(order[1..], OnLeaves(Used(f, dl[..], xb), elems))
    ensures static_ == Sum(order[1..], OnLeaves(Used(f, sl, xb), elems))
  {
    hide Tree, LensOk, Sum, OnLeaves, HasLen, Used, Spend, Min, Counted, Distinct, Passing;
    ghost var dl0 := dl[..];
    TreeFacts(f, dl0, order, leaves, elems, k);
    overflow, opt, static_ := 0, 0, 0;
    dl[order[0]] := 0;
    PassingStart(f, dl0, order, bl[..], elems, max, xb, sl);
    var h := 1;
    while h < |order|
      invariant 1 <= h <= |order| && dl.Length == |dl0|
      invariant Passing(dl[..], bl[..], f, dl0, order, elems, max, xb, sl, h, overflow, opt, static_)
    {
      hide Tree, LensOk, Sum, OnLeaves, HasLen, Used, Spend, Min, Counted, Distinct, Passing, Down, Overflow;
      PassingNext(dl[..], bl[..], f, dl0, order, leaves, elems, k, max, xb, sl, h, overflow, opt, static_);
      ghost var c: seq<nat>, now: seq<nat> := bl[..], dl[..];
      var n := order[h];
      var bits: nat := dl[dl[n]] + 1;
      if bits > max {
        bits := max;
        overflow := overflow + 1;
      }
      dl[n] := bits;
      assert dl[..] == now[n := bits];
      if n < elems {
        bl[bits] := bl[bits] + 1;
        assert bl[..] == c[bits := c[bits] + 1];
        opt := opt + Spend(f[n], bits + xb[n]);
        static_ := static_ + Spend(f[n], sl[n] + xb[n]);
      }
      h := h + 1;
    }
    PassingEnd(dl[..], bl[..], f, dl0, order, elems, max, xb, sl, overflow, opt, static_);
  }

  /** What the first pass has computed after the first `h` nodes. */
  ghost predicate Passing(now: seq<nat>, bl: seq<nat>, f: seq<nat>, dl0: seq<nat>, order: seq<nat>, elems: nat,
      max: nat, xb: seq<nat>, sl: seq<nat>,
                          h: nat, overflow: nat, opt: nat, static_: nat)
    requires 1 <= h <= |order| && (forall q :: 0 <= q < |order| ==> order[q] < |dl0|) && |xb| == |sl| == |f| == |dl0|
  {
    var end := Down(dl0, order, max, |order|);
    && now == Down(dl0, order, max, h) && overflow == Overflow(end, dl0, order, max, h)
    && Counted(bl, order, end, elems, h)
    && opt == Sum(order[1..h], OnLeaves(Used(f, end, xb), elems))
    && static_ == Sum(order[1..h], OnLeaves(Used(f, sl, xb), elems))
  }

  lemma PassingStart(f: seq<nat>, dl0: seq<nat>, order: seq<nat>, bl: seq<nat>, elems: nat, max: nat, xb: seq<nat>,
      sl: seq<nat>)
    requires |order| >= 1 && (forall q :: 0 <= q < |order| ==> order[q] < |dl0|) && |xb| == |sl| == |f| == |dl0|
    requires |bl| == MAX_BITS + 1 && forall b :: 0 <= b <= MAX_BITS ==> bl[b] == 0
    ensures Passing(dl0[order[0] := 0], bl, f, dl0, order, elems, max, xb, sl, 1, 0, 0, 0)
  {
    hide Sum, OnLeaves, HasLen, Used, Counted;
    ghost var end := Down(dl0, order, max, |order|);
    CountedStart(bl, order, end, elems);
    SumEmpty(order, OnLeaves(Used(f, end, xb), elems));
    SumEmpty(order, OnLeaves(Used(f, sl, xb), elems));
  }

  /** One node more. */
  lemma PassingNext(now: seq<nat>, bl: seq<nat>, f: seq<nat>, dl0: seq<nat>, order: seq<nat>, leaves: seq<nat>,
      elems: nat, k: nat, max: nat,
                    xb: seq<nat>, sl: seq<nat>, h: nat, overflow: nat, opt: nat, static_: nat)
    requires Tree(f, dl0, order, leaves, elems, k) && 1 <= max <= MAX_BITS && 1 <= h < |order|
    requires (forall q :: 0 <= q < |order| ==> order[q] < |dl0|) && |xb| == |sl| == |f| == |dl0|
    requires Passing(now, bl, f, dl0, order, elems, max, xb, sl, h, overflow, opt, static_)
    ensures |bl| == MAX_BITS + 1 && |now| == |dl0| && now[order[h]] < |now|
    ensures var n := order[h];
            var bits: nat := now[now[n]] + 1;
            var b: nat := if bits > max then max else bits;
            Passing(now[n := b], if n < elems then bl[b := bl[b] + 1] else bl, f, dl0, order, elems, max, xb, sl, h + 1,
                    if bits > max then overflow + 1 else overflow,
                    if n < elems then opt + Spend(f[n], b + xb[n]) else opt,
                    if n < elems then static_ + Spend(f[n], sl[n] + xb[n]) else static_)
  {
    hide Tree, LensOk, Sum, OnLeaves, HasLen, Used, Spend, Counted, Distinct, Down, Overflow;
    var end := Down(dl0, order, max, |order|);
    DownLens(f, dl0, order, leaves, elems, k, max);
    DownStep(f, dl0, order, leaves, elems, k, max, h);
    DownNext(f, dl0, order, leaves, elems, k, max, h);
    DownBits(now, order[h], now[now[order[h]]] + 1, max, end);
    DadUpTo(f, dl0, order, leaves, elems, k, end, max, h);
    LensBound(end, dl0, order, max, h);
    CountedStep(bl, order, end, elems, h);
    CountedLength(bl, order, end, elems, h);
    NodeSum(order, h, f, end, xb, elems);
    NodeSum(order, h, f, sl, xb, elems);
  }

  /** What a node adds to a total. */
  lemma NodeSum(order: seq<nat>, h: nat, f: seq<nat>, len: seq<nat>, xb: seq<nat>, elems: nat)
    requires 1 <= h < |order| && order[h] < |f| == |len| == |xb| && forall q :: 0 <= q < |order| ==> order[q] < |f|
    ensures var n := order[h];
            Sum(order[1..h + 1], OnLeaves(Used(f, len, xb), elems))
            == Sum(order[1..h], OnLeaves(Used(f, len, xb), elems)) + if n < elems then Spend(f[n],
                len[n] + xb[n]) else 0
  {
    hide Sum, Spend;
    SumSnoc(order, h, OnLeaves(Used(f, len, xb), elems));
  }

  lemma PassingEnd(now: seq<nat>, bl: seq<nat>, f: seq<nat>, dl0: seq<nat>, order: seq<nat>, elems: nat, max: nat,
      xb: seq<nat>, sl: seq<nat>,
                   overflow: nat, opt: nat, static_: nat)
    requires |order| >= 1 && (forall q :: 0 <= q < |order| ==> order[q] < |dl0|) && |xb| == |sl| == |f| == |dl0|
    requires Passing(now, bl, f, dl0, order, elems, max, xb, sl, |order|, overflow, opt, static_)
    ensures now == Down(dl0, order, max, |order|) && overflow == Overflow(now, dl0, order, max, |order|)
    ensures Counted(bl, order, now, elems, |order|)
    ensures opt == Sum(order[1..], OnLeaves(Used(f, now, xb), elems))
    ensures static_ == Sum(order[1..], OnLeaves(Used(f, sl, xb), elems))
  {
    hide Sum, OnLeaves, Used, Counted, Down, Overflow;
    assert order[1..|order|] == order[1..];
  }

  lemma CountedLength(bl: seq<nat>, order: seq<nat>, len: seq<nat>, elems: nat, i: nat)
    requires 1 <= i <= |order| && Counted(bl, order, len, elems, i)
    ensures |bl| == MAX_BITS + 1
  {
  }

  lemma SumEmpty(order: seq<nat>, g: seq<int>)
    requires order != []
    ensures Sum(order[1..1], g) == 0
  {
  }

  lemma DadUpTo(f: seq<nat>, dl: seq<nat>, order: seq<nat>, leaves: seq<nat>, elems: nat, k: nat, len: seq<nat>,
      max: nat, q: nat)
    requires Tree(f, dl, order, leaves, elems, k) && LensOk(len, dl, order, max) && 1 <= q < |order|
    ensures order[q] < |dl| && dl[order[q]] < |len| && len[dl[order[q]]] <= max
  {
    hide Tree;
    var p := DadBefore(f, dl, order, leaves, elems, k, q);
    LensBound(len, dl, order, max, p);
  }

  lemma DownNext(f: seq<nat>, dl: seq<nat>, order: seq<nat>, leaves: seq<nat>, elems: nat, k: nat, max: nat, h: nat)
    requires Tree(f, dl, order, leaves, elems, k) && 1 <= h < |order|
    requires forall q :: 0 <= q < |order| ==> order[q] < |dl|
    ensures var now, end := Down(dl, order, max, h), Down(dl, order, max, |order|);
            && Down(dl, order, max, h + 1) == now[order[h] := end[order[h]]]
            && Overflow(end, dl, order, max, h + 1)
               == Overflow(end, dl, order, max, h) + if dl[order[h]] < |end| && end[dl[order[h]]] == max then 1 else 0
  {
    hide Tree;
    DownStep(f, dl, order, leaves, elems, k, max, h);
  }

  lemma DownBits(now: seq<nat>, n: nat, bits: nat, max: nat, end: seq<nat>)
    requires n < |now| == |end| && now[n] < |now| && bits == now[now[n]] + 1
    requires now[now[n]] == end[now[n]] && end[n] == Min(end[now[n]] + 1, max)
    ensures end[n] == if bits > max then max else bits
    ensures end[now[n]] <= max ==> (bits > max <==> end[now[n]] == max)
  {
  }
}
