/**
 Why joining the two least frequent nodes is optimal.  `LowerBound(W, c)` says
 that no assignment of code lengths to the weights `W` that leaves room for a
 prefix code has weighted total below `c`; the greedy step of build_tree turns
 a bound for the joined weights into a bound for the original ones.
 */
module Optimality {
  import opened Bits

  /** A weight (symbol frequency) and the code length given to it. */
  datatype Item = Item(w: nat, l: nat)

  ghost predicate Upto(ps: seq<Item>, n: nat) {
    forall i :: 0 <= i < |ps| ==> ps[i].l <= n
  }

  /** Kraft sum in units of 2^-n. */
  ghost function KraftAt(ps: seq<Item>, n: nat): nat
    requires Upto(ps, n)
  {
    if ps == [] then 0 else Pow2(n - ps[0].l) + KraftAt(ps[1..], n)
  }

  /** Bits spent on one item. */
  function Spend(w: nat, l: nat): nat {
    w * l
  }

  ghost function Cost(ps: seq<Item>): nat {
    if ps == [] then 0 else Spend(ps[0].w, ps[0].l) + Cost(ps[1..])
  }

  ghost function Weights(ps: seq<Item>): seq<nat> {
    seq(|ps|, i requires 0 <= i < |ps| => ps[i].w)
  }

  ghost predicate Room(ps: seq<Item>, n: nat) {
    Upto(ps, n) && KraftAt(ps, n) <= Pow2(n)
  }

  ghost predicate LowerBound(ws: multiset<nat>, c: nat) {
    forall ps: seq<Item>, n: nat :: multiset(Weights(ps)) == ws && Room(ps, n) ==> c <= Cost(ps)
  }

  // ---------- sums over lists ----------

  lemma {:induction false} KraftAppend(ps: seq<Item>, qs: seq<Item>, n: nat)
    requires Upto(ps, n) && Upto(qs, n)
    ensures Upto(ps + qs, n) && KraftAt(ps + qs, n) == KraftAt(ps, n) + KraftAt(qs, n)
  {
    if ps == [] {
      assert ps + qs == qs;
    } else {
      assert (ps + qs)[1..] == ps[1..] + qs;
      KraftAppend(ps[1..], qs, n);
    }
  }

  lemma {:induction false} CostAppend(ps: seq<Item>, qs: seq<Item>)
    ensures Cost(ps + qs) == Cost(ps) + Cost(qs)
  {
    if ps == [] {
      assert ps + qs == qs;
    } else {
      assert (ps + qs)[1..] == ps[1..] + qs;
      CostAppend(ps[1..], qs);
    }
  }

  lemma WeightsAppend(ps: seq<Item>, qs: seq<Item>)
    ensures Weights(ps + qs) == Weights(ps) + Weights(qs)
  {
  }

  lemma ConsFacts(p: Item, ps: seq<Item>, n: nat)
    requires p.l <= n && Upto(ps, n)
    ensures Upto([p] + ps, n) && KraftAt([p] + ps, n) == Pow2(n - p.l) + KraftAt(ps, n)
    ensures Cost([p] + ps) == Spend(p.w, p.l) + Cost(ps)
    ensures Weights([p] + ps) == [p.w] + Weights(ps)
  {
    assert ([p] + ps)[1..] == ps;
  }

  /** The same list with element `i` in front. */
  ghost function Front(ps: seq<Item>, i: nat): seq<Item>
    requires i < |ps|
  {
    [ps[i]] + (ps[..i] + ps[i + 1..])
  }

  lemma FrontFacts(ps: seq<Item>, i: nat, n: nat)
    requires i < |ps| && Upto(ps, n)
    ensures Upto(Front(ps, i), n)
    ensures KraftAt(Front(ps, i), n) == KraftAt(ps, n)
    ensures Cost(Front(ps, i)) == Cost(ps)
    ensures multiset(Weights(Front(ps, i))) == multiset(Weights(ps))
  {
    hide KraftAt, Cost, Weights;
    var a, b, p := ps[..i], ps[i + 1..], ps[i];
    assert ps == a + ([p] + b);
    ConsFacts(p, a + b, n);
    ConsFacts(p, b, n);
    KraftAppend(a, b, n);
    KraftAppend(a, [p] + b, n);
    CostAppend(a, b);
    CostAppend(a, [p] + b);
    WeightsAppend(a, b);
    WeightsAppend(a, [p] + b);
  }

  // ---------- the lightest item can carry the longest code ----------

  lemma SwapCost(a: nat, w: nat, la: nat, lm: nat)
    requires a <= w && la <= lm
    ensures Spend(a, lm) + Spend(w, la) <= Spend(a, la) + Spend(w, lm)
  {
    assert (w - a) * (lm - la) >= 0;
  }

  lemma UptoTail(p: Item, ps: seq<Item>, n: nat)
    requires Upto([p] + ps, n)
    ensures p.l <= n && Upto(ps, n)
  {
    assert ([p] + ps)[0] == p;
    assert forall i :: 0 <= i < |ps| ==> ([p] + ps)[i + 1] == ps[i];
  }

  /** Exchange the lengths of `p` and of item `m` of `ps`. */
  lemma SwapFacts(p: Item, ps: seq<Item>, m: nat, n: nat)
    requires m < |ps| && p.w <= ps[m].w && p.l <= ps[m].l && Upto([p] + ps, n)
    ensures var p', ps' := Item(p.w, ps[m].l), ps[m := Item(ps[m].w, p.l)];
            && Upto([p'] + ps', n)
            && KraftAt([p'] + ps', n) == KraftAt([p] + ps, n)
            && Cost([p'] + ps') <= Cost([p] + ps)
            && Weights(ps') == Weights(ps)
  {
    hide KraftAt, Cost, Spend, Pow2;
    var p', ps' := Item(p.w, ps[m].l), ps[m := Item(ps[m].w, p.l)];
    UptoTail(p, ps, n);
    var a, b := ps[..m], ps[m + 1..];
    assert ps == a + ([ps[m]] + b) && ps' == a + ([ps'[m]] + b);
    ConsFacts(p, ps, n);
    ConsFacts(p', ps', n);
    ConsFacts(ps[m], b, n);
    ConsFacts(ps'[m], b, n);
    KraftAppend(a, [ps[m]] + b, n);
    KraftAppend(a, [ps'[m]] + b, n);
    CostAppend(a, [ps[m]] + b);
    CostAppend(a, [ps'[m]] + b);
    SwapCost(p.w, ps[m].w, p.l, ps[m].l);
  }

  lemma {:induction false} Longest(ps: seq<Item>) returns (m: nat)
    requires ps != []
    ensures m < |ps| && Upto(ps, ps[m].l)
  {
    m := 0;
    if |ps| > 1 {
      var k := Longest(ps[1..]);
      if ps[1..][k].l > ps[0].l {
        m := k + 1;
      }
      forall i | 0 <= i < |ps| ensures ps[i].l <= ps[m].l {
        if i > 0 {
          assert ps[1..][i - 1] == ps[i];
        }
      }
    }
  }

  /** With `p` no heavier than anything in `ps`, its code may as well be the longest. */
  lemma LightestLongest(p: Item, ps: seq<Item>, n: nat, m: nat) returns (p': Item, ps': seq<Item>)
    requires Room([p] + ps, n) && Upto([p] + ps, m) && forall i :: 0 <= i < |ps| ==> p.w <= ps[i].w
    ensures p'.w == p.w && Weights(ps') == Weights(ps) && Upto(ps', p'.l)
    ensures Upto([p'] + ps', n) && KraftAt([p'] + ps', n) == KraftAt([p] + ps, n)
    ensures Upto([p'] + ps', m) && Cost([p'] + ps') <= Cost([p] + ps)
  {
    hide KraftAt, Cost;
    p', ps' := p, ps;
    if ps != [] {
      var k := Longest(ps);
      if p.l < ps[k].l {
        SwapFacts(p, ps, k, n);
        SwapFacts(p, ps, k, m);
        p', ps' := Item(p.w, ps[k].l), ps[k := Item(ps[k].w, p.l)];
      }
    }
  }

  // ---------- shortening the odd one out ----------

  lemma {:induction false} KraftScale(ps: seq<Item>, m: nat, n: nat)
    requires Upto(ps, m) && m <= n
    ensures Upto(ps, n) && KraftAt(ps, n) == Shl(KraftAt(ps, m), n - m)
  {
    if ps == [] {
      ShlOne(n - m);
    } else {
      KraftScale(ps[1..], m, n);
      ShlAdd(Pow2(m - ps[0].l), KraftAt(ps[1..], m), n - m);
      ShlPow2(m - ps[0].l, n - m);
    }
  }

  /** An item longer than all others can be cut to the longest of the others. */
  lemma Shorten(p: Item, ps: seq<Item>, l: nat, n: nat)
    requires Room([p] + ps, n) && Upto(ps, l) && l <= p.l
    ensures Room([Item(p.w, l)] + ps, n)
    ensures Cost([Item(p.w, l)] + ps) <= Cost([p] + ps)
  {
    hide KraftAt, Cost, Spend;
    UptoTail(p, ps, n);
    var k := KraftAt(ps, l);
    KraftScale(ps, l, n);
    ConsFacts(p, ps, n);
    ConsFacts(Item(p.w, l), ps, n);
    ShlPow2(l, n - l);
    if Pow2(l) <= k {
      ShlLe(Pow2(l), k, n - l);
    }
    ShlNext(k, n - l);
    ShlLe(k + 1, Pow2(l), n - l);
    SpendMono(p.w, l, p.l);
  }

  lemma SpendMono(w: nat, l: nat, l': nat)
    requires l <= l'
    ensures Spend(w, l) <= Spend(w, l')
  {
    assert w * (l' - l) >= 0;
  }

  lemma SpendJoin(a: nat, b: nat, l: nat)
    requires l >= 1
    ensures Spend(a, l) + Spend(b, l) == Spend(a + b, l - 1) + a + b
  {
  }

  // ---------- joining ----------

  /** Two items of equal length act as one of their joint weight, one bit shorter. */
  lemma Join(a: nat, b: nat, l: nat, ps: seq<Item>, n: nat)
    requires Room([Item(a, l)] + ([Item(b, l)] + ps), n)
    ensures l >= 1
    ensures Room([Item(a + b, l - 1)] + ps, n)
    ensures Cost([Item(a, l)] + ([Item(b, l)] + ps)) == Cost([Item(a + b, l - 1)] + ps) + a + b
  {
    hide KraftAt, Cost, Spend;
    var qs := [Item(b, l)] + ps;
    UptoTail(Item(a, l), qs, n);
    UptoTail(Item(b, l), ps, n);
    ConsFacts(Item(b, l), ps, n);
    ConsFacts(Item(a, l), qs, n);
    if l > 0 {
      ConsFacts(Item(a + b, l - 1), ps, n);
      assert Pow2(n - (l - 1)) == 2 * Pow2(n - l);
      SpendJoin(a, b, l);
    }
  }

  ghost predicate LeastOf(a: nat, ws: multiset<nat>) {
    a in ws && forall x :: x in ws ==> a <= x
  }

  lemma WeightsIn(ps: seq<Item>, i: nat)
    requires i < |ps|
    ensures ps[i].w in multiset(Weights(ps))
  {
    assert Weights(ps)[i] == ps[i].w;
  }

  lemma FindWeight(ps: seq<Item>, a: nat) returns (i: nat)
    requires a in multiset(Weights(ps))
    ensures i < |ps| && ps[i].w == a
  {
    i :| 0 <= i < |Weights(ps)| && Weights(ps)[i] == a;
  }

  /** Pull the lightest item to the front and give it the longest code. */
  lemma PullLightest(ps: seq<Item>, n: nat, m: nat, a: nat) returns (p: Item, rest: seq<Item>)
    requires Room(ps, n) && Upto(ps, m) && LeastOf(a, multiset(Weights(ps)))
    ensures p.w == a && multiset(Weights(ps)) == multiset(Weights(rest)) + multiset{a}
    ensures Upto(rest, p.l) && Cost([p] + rest) <= Cost(ps)
    ensures Upto([p] + rest, n) && KraftAt([p] + rest, n) == KraftAt(ps, n)
    ensures Upto([p] + rest, m)
  {
    hide KraftAt, Cost, Weights;
    var i := FindWeight(ps, a);
    FrontFacts(ps, i, n);
    FrontFacts(ps, i, m);
    var r := ps[..i] + ps[i + 1..];
    assert Front(ps, i) == [ps[i]] + r;
    assert Upto(r, n) by { assert forall k :: 0 <= k < |r| ==> Front(ps, i)[k + 1] == r[k]; }
    ConsFacts(ps[i], r, n);
    assert multiset(Weights(ps)) == multiset(Weights(r)) + multiset{a};
    forall k | 0 <= k < |r| ensures a <= r[k].w {
      WeightsIn(r, k);
      assert r[k].w in multiset(Weights(ps));
    }
    p, rest := LightestLongest(ps[i], r, n, m);
  }

  /** One greedy step: join the two lightest weights. */
  lemma GreedyStep(ws: multiset<nat>, wm: multiset<nat>, wr: multiset<nat>, a: nat, b: nat, ab: nat, c: nat)
    requires ws == wm + multiset{a} && wm == wr + multiset{b} && ab == a + b
    requires LeastOf(a, ws) && LeastOf(b, wm) && LowerBound(wr + multiset{ab}, c)
    ensures LowerBound(ws, c + a + b)
  {
    hide KraftAt, Cost, Weights, Room, LeastOf;
    forall ps: seq<Item>, n: nat | multiset(Weights(ps)) == ws && Room(ps, n) ensures c + a + b <= Cost(ps) {
      GreedyStepOn(wm, wr, a, b, ab, c, ps, n);
    }
  }

  lemma MultisetCancel(u: multiset<nat>, v: multiset<nat>, a: nat)
    requires u + multiset{a} == v + multiset{a}
    ensures u == v
  {
    forall x: nat ensures u[x] == v[x] {
      assert (u + multiset{a})[x] == (v + multiset{a})[x];
    }
  }

  lemma RoomTail(p: Item, ps: seq<Item>, n: nat)
    requires Room([p] + ps, n)
    ensures Room(ps, n) && p.l <= n && Upto(ps, n)
    ensures KraftAt([p] + ps, n) == Pow2(n - p.l) + KraftAt(ps, n) && Cost([p] + ps) == Spend(p.w, p.l) + Cost(ps)
  {
    assert ([p] + ps)[0] == p && ([p] + ps)[1..] == ps;
    assert forall k :: 0 <= k < |ps| ==> ([p] + ps)[k + 1] == ps[k];
  }

  /** The two lightest items side by side, with equal lengths. */
  lemma TwoLightest(ps: seq<Item>, wm: multiset<nat>, wr: multiset<nat>, n: nat, a: nat, b: nat)
    returns (l: nat, tail: seq<Item>)
    requires multiset(Weights(ps)) == wm + multiset{a} && wm == wr + multiset{b}
    requires Room(ps, n) && LeastOf(a, multiset(Weights(ps))) && LeastOf(b, wm)
    ensures Room([Item(a, l)] + ([Item(b, l)] + tail), n)
    ensures multiset(Weights(tail)) == wr
    ensures Cost([Item(a, l)] + ([Item(b, l)] + tail)) <= Cost(ps)
  {
    hide KraftAt, Cost, Weights, LeastOf, Pow2, Spend;
    var p, rest := PullLightest(ps, n, n, a);
    RoomTail(p, rest, n);
    MultisetCancel(multiset(Weights(rest)), wm, a);
    var q, tail' := PullLightest(rest, n, p.l, b);
    MultisetCancel(multiset(Weights(tail')), wr, b);
    tail, l := tail', q.l;
    var qs := [q] + tail;
    UptoTail(q, tail, p.l);
    UptoCons(q, tail, q.l);
    ConsFacts(p, qs, n);
    Shorten(p, qs, q.l, n);
    assert q == Item(b, l);
  }

  lemma UptoCons(q: Item, ps: seq<Item>, n: nat)
    requires q.l <= n && Upto(ps, n)
    ensures Upto([q] + ps, n)
  {
  }

  lemma GreedyStepOn(wm: multiset<nat>, wr: multiset<nat>, a: nat, b: nat, ab: nat, c: nat, ps: seq<Item>, n: nat)
    requires multiset(Weights(ps)) == wm + multiset{a} && wm == wr + multiset{b} && ab == a + b
    requires LeastOf(a, multiset(Weights(ps))) && LeastOf(b, wm)
    requires LowerBound(wr + multiset{ab}, c) && Room(ps, n)
    ensures c + a + b <= Cost(ps)
  {
    hide *;
    var l, tail := TwoLightest(ps, wm, wr, n, a, b);
    Join(a, b, l, tail, n);
    WeightsCons(Item(ab, l - 1), tail);
    BoundUse(wr + multiset{ab}, c, [Item(ab, l - 1)] + tail, n);
  }

  lemma WeightsCons(p: Item, ps: seq<Item>)
    ensures multiset(Weights([p] + ps)) == multiset(Weights(ps)) + multiset{p.w}
  {
    assert Weights([p] + ps) == [p.w] + Weights(ps);
  }

  lemma BoundUse(ws: multiset<nat>, c: nat, ps: seq<Item>, n: nat)
    requires LowerBound(ws, c) && multiset(Weights(ps)) == ws && Room(ps, n)
    ensures c <= Cost(ps)
  {
  }
}
