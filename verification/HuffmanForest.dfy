/**
 The state of build_tree's merging loop as values.  `live` are the nodes still
 in the heap, `order` the nodes already taken out, most recent first (the part
 of heap[] from heap_max up), `leaves` the used symbols.  Father number
 elems + s - 1 is made in step s and joins the two nodes taken out in that step.
 */
module HuffmanForest {
  import opened Sums
  import opened Optimality

  /** Each step's two nodes lie side by side, name their father and add up to it. */
  ghost predicate Pairs(f: seq<nat>, dl: seq<nat>, order: seq<nat>, elems: nat, k: nat)
    requires Nodes(f, dl, order) && elems + k <= |f| && 2 * k <= |order|
  {
    forall s :: 1 <= s <= k ==> PairOk(f, dl, order, elems, s)
  }

  ghost predicate PairOk(f: seq<nat>, dl: seq<nat>, order: seq<nat>, elems: nat, s: nat)
    requires Nodes(f, dl, order) && 1 <= s && elems + s <= |f| && 2 * s <= |order|
  {
    var i := |order| - 2 * s;
    && dl[order[i]] == elems + s - 1 && dl[order[i + 1]] == elems + s - 1
    && f[elems + s - 1] == f[order[i]] + f[order[i + 1]]
  }

  ghost predicate Nodes(f: seq<nat>, dl: seq<nat>, order: seq<nat>) {
    |dl| == |f| && forall i :: 0 <= i < |order| ==> order[i] < |f|
  }

  /** A father is taken out only after the step that made it. */
  ghost predicate Later(order: seq<nat>, elems: nat) {
    forall i :: 0 <= i < |order| && order[i] >= elems ==> |order| - 1 - i >= 2 * (order[i] - elems + 1)
  }

  /** Nodes come out by increasing frequency. */
  ghost predicate Descending(f: seq<nat>, order: seq<nat>, live: seq<nat>)
    requires forall i :: 0 <= i < |order| ==> order[i] < |f|
    requires forall i :: 0 <= i < |live| ==> live[i] < |f|
  {
    && (forall i :: 0 <= i < |order| - 1 ==> f[order[i]] >= f[order[i + 1]])
    && (order != [] ==> forall i :: 0 <= i < |live| ==> f[live[i]] >= f[order[0]])
  }

  ghost predicate Forest(f: seq<nat>, dl: seq<nat>, live: seq<nat>, order: seq<nat>, leaves: seq<nat>, elems: nat,
      k: nat) {
    && elems + |leaves| <= |f| && k < |leaves|
    && |live| == |leaves| - k && |order| == 2 * k
    && Nodes(f, dl, order) && Nodes(f, dl, live)
    && (forall i :: 0 <= i < |leaves| ==> leaves[i] < elems)
    && multiset(live + order) == multiset(leaves + Range(elems, elems + k))
    && Pairs(f, dl, order, elems, k) && Later(order, elems) && Descending(f, order, live)
  }

  /** All nodes are different. */
  ghost predicate Distinct(s: seq<nat>) {
    forall i, j :: 0 <= i < j < |s| ==> s[i] != s[j]
  }

  lemma {:induction false} DistinctMultiset(s: seq<nat>)
    requires Distinct(s)
    ensures forall x :: multiset(s)[x] <= 1
  {
    if s != [] {
      DistinctMultiset(s[1..]);
      assert s == [s[0]] + s[1..];
      assert forall j :: 1 <= j < |s| ==> s[j] != s[0];
      assert s[0] !in s[1..];
    }
  }

  lemma MultisetDistinct(s: seq<nat>)
    requires forall x :: multiset(s)[x] <= 1
    ensures Distinct(s)
  {
    forall i, j | 0 <= i < j < |s| ensures s[i] != s[j] {
      assert multiset(s)[s[i]] <= 1;
      assert s == s[..i] + [s[i]] + s[i + 1..j] + [s[j]] + s[j + 1..];
    }
  }

  lemma AllDistinct(live: seq<nat>, order: seq<nat>, leaves: seq<nat>, elems: nat, k: nat)
    requires Distinct(leaves) && forall i :: 0 <= i < |leaves| ==> leaves[i] < elems
    requires multiset(live + order) == multiset(leaves + Range(elems, elems + k))
    ensures Distinct(live + order)
  {
    var r := Range(elems, elems + k);
    assert Distinct(leaves + r) by {
      forall i, j | 0 <= i < j < |leaves + r| ensures (leaves + r)[i] != (leaves + r)[j] {
        if i < |leaves| <= j {
          assert (leaves + r)[j] == r[j - |leaves|];
        }
      }
    }
    DistinctMultiset(leaves + r);
    MultisetDistinct(live + order);
  }

  /** Every node is a leaf or one of the fathers made so far. */
  lemma NodeRange(live: seq<nat>, order: seq<nat>, leaves: seq<nat>, elems: nat, k: nat, x: nat)
    requires forall i :: 0 <= i < |leaves| ==> leaves[i] < elems
    requires multiset(live + order) == multiset(leaves + Range(elems, elems + k))
    requires x in live || x in order
    ensures x < elems + k
  {
    var s, t := live + order, leaves + Range(elems, elems + k);
    assert x in s;
    assert x in multiset(s);
    assert x in multiset(t);
    var i :| 0 <= i < |t| && t[i] == x;
    if i >= |leaves| {
      assert t[i] == Range(elems, elems + k)[i - |leaves|];
    }
  }

  lemma MultisetSwapOne(a: multiset<nat>, b: multiset<nat>, o: multiset<nat>, t: multiset<nat>, n: nat, m: nat,
      node: nat)
    requires a + multiset{n} + o == t && b + multiset{m} == a + multiset{node}
    ensures b + multiset{m} + multiset{n} + o == t + multiset{node}
  {
  }

  /** `mid` are the live nodes between the two removals of a step. */
  lemma MergeMultiset(live: seq<nat>, mid: seq<nat>, live': seq<nat>, order: seq<nat>, leaves: seq<nat>, elems: nat,
      node: nat, n: nat, m: nat)
    requires elems <= node && multiset(live + order) == multiset(leaves + Range(elems, node))
    requires multiset(live) == multiset(mid) + multiset{n}
    requires multiset(live') + multiset{m} == multiset(mid) + multiset{node}
    ensures multiset(live' + ([m, n] + order)) == multiset(leaves + Range(elems, node + 1))
  {
    assert leaves + Range(elems, node + 1) == (leaves + Range(elems, node)) + [node];
    MultisetSwapOne(multiset(mid), multiset(live'), multiset(order), multiset(leaves + Range(elems, node)), n, m, node);
    assert live' + ([m, n] + order) == live' + [m] + [n] + order;
  }

  lemma MergePairs(f: seq<nat>, dl: seq<nat>, f': seq<nat>, dl': seq<nat>, order: seq<nat>, elems: nat, k: nat, n: nat,
      m: nat, node: nat)
    requires Nodes(f, dl, order) && elems + k == node < |f| && |order| == 2 * k && n < |f| && m < |f| && n != m
    requires Pairs(f, dl, order, elems, k)
    requires n !in order && m !in order && n < node && m < node
    requires forall i :: 0 <= i < |order| ==> order[i] < node
    requires f' == f[node := f[n] + f[m]] && dl' == dl[n := node][m := node]
    ensures Nodes(f', dl', [m, n] + order) && Pairs(f', dl', [m, n] + order, elems, k + 1)
  {
    var order' := [m, n] + order;
    forall i | 0 <= i < |order'| ensures order'[i] < |f'| {
      if i >= 2 {
        assert order'[i] == order[i - 2];
      }
    }
    forall s | 1 <= s <= k + 1 ensures PairOk(f', dl', order', elems, s) {
      var i := |order'| - 2 * s;
      if s <= k {
        assert PairOk(f, dl, order, elems, s);
        assert order'[i] == order[i - 2] && order'[i + 1] == order[i - 1];
        assert order[i - 2] in order && order[i - 1] in order;
      }
    }
  }

  lemma MergeLater(order: seq<nat>, elems: nat, k: nat, n: nat, m: nat)
    requires Later(order, elems) && |order| == 2 * k && n < elems + k && m < elems + k
    ensures Later([m, n] + order, elems)
  {
    var order' := [m, n] + order;
    forall i | 0 <= i < |order'| && order'[i] >= elems ensures |order'| - 1 - i >= 2 * (order'[i] - elems + 1) {
      if i >= 2 {
        assert order'[i] == order[i - 2];
      }
    }
  }

  lemma MergeDescending(f: seq<nat>, f': seq<nat>, live: seq<nat>, live': seq<nat>, order: seq<nat>, n: nat, m: nat,
      node: nat)
    requires node < |f| && forall i :: 0 <= i < |order| ==> order[i] < node
    requires n < node && m < node && forall i :: 0 <= i < |live| ==> live[i] < node
    requires forall i :: 0 <= i < |live'| ==> live'[i] < |f|
    requires Descending(f, order, live) && f' == f[node := f[n] + f[m]] && n in live && m in live
    requires f[n] <= f[m]
    requires forall i :: 0 <= i < |live'| && live'[i] != node ==> live'[i] in live && f[m] <= f[live'[i]]
    ensures forall i :: 0 <= i < |[m, n] + order| ==> ([m, n] + order)[i] < |f'|
    ensures Descending(f', [m, n] + order, live')
  {
    var order' := [m, n] + order;
    assert forall i :: 2 <= i < |order'| ==> order'[i] == order[i - 2];
  }

  /** `n` is one of the nodes and none of them is rarer. */
  ghost predicate Rarest(f: seq<nat>, s: seq<nat>, n: nat)
    requires forall i :: 0 <= i < |s| ==> s[i] < |f|
  {
    n in s && forall i :: 0 <= i < |s| ==> f[n] <= f[s[i]]
  }

  ghost predicate SubList(mid: seq<nat>, live: seq<nat>) {
    forall i :: 0 <= i < |mid| ==> mid[i] in live
  }

  lemma MidInLive(live: seq<nat>, mid: seq<nat>, n: nat)
    requires multiset(live) == multiset(mid) + multiset{n}
    ensures SubList(mid, live) && n in live
    ensures Distinct(live) ==> n !in mid
  {
    forall i | 0 <= i < |mid| ensures mid[i] in live {
      assert mid[i] in multiset(mid);
      assert mid[i] in multiset(live);
    }
    assert n in multiset(live);
    if Distinct(live) {
      DistinctMultiset(live);
      assert multiset(live)[n] <= 1;
      assert n !in multiset(mid);
    }
  }

  lemma AfterInMid(mid: seq<nat>, live': seq<nat>, m: nat, node: nat)
    requires multiset(live') + multiset{m} == multiset(mid) + multiset{node}
    ensures forall i :: 0 <= i < |live'| && live'[i] != node ==> live'[i] in mid
  {
    forall i | 0 <= i < |live'| && live'[i] != node ensures live'[i] in mid {
      assert live'[i] in multiset(live');
      assert live'[i] in multiset(mid) + multiset{node};
      assert live'[i] in multiset(mid);
    }
  }

  lemma ForestNodes(f: seq<nat>, dl: seq<nat>, live: seq<nat>, order: seq<nat>, leaves: seq<nat>, elems: nat, k: nat)
    requires Forest(f, dl, live, order, leaves, elems, k) && Distinct(leaves)
    ensures forall i :: 0 <= i < |live| ==> live[i] < elems + k
    ensures forall i :: 0 <= i < |order| ==> order[i] < elems + k
    ensures Distinct(live) && forall i :: 0 <= i < |live| ==> live[i] !in order
  {
    hide Pairs, Later, Descending;
    forall i | 0 <= i < |live| ensures live[i] < elems + k {
      NodeRange(live, order, leaves, elems, k, live[i]);
    }
    forall i | 0 <= i < |order| ensures order[i] < elems + k {
      NodeRange(live, order, leaves, elems, k, order[i]);
    }
    AllDistinct(live, order, leaves, elems, k);
    var s := live + order;
    assert forall i :: 0 <= i < |live| ==> s[i] == live[i];
    forall i, j | 0 <= i < |live| && 0 <= j < |order| ensures live[i] != order[j] {
      assert s[|live| + j] == order[j];
    }
  }

  /** One step of the merging loop keeps everything. */
  lemma MergeStep(f: seq<nat>, dl: seq<nat>, live: seq<nat>, mid: seq<nat>, live': seq<nat>, order: seq<nat>,
      leaves: seq<nat>, elems: nat, k: nat, n: nat, m: nat, node: nat)
    requires Forest(f, dl, live, order, leaves, elems, k) && Distinct(leaves) && k + 1 < |leaves| && node == elems + k
    requires Rarest(f, live, n) && multiset(live) == multiset(mid) + multiset{n}
    requires (forall i :: 0 <= i < |mid| ==> mid[i] < |f|) && Rarest(f, mid, m)
    requires multiset(live') + multiset{m} == multiset(mid) + multiset{node} && |live'| == |live| - 1
    ensures n < |f| && m < |f| && n != m
    ensures Forest(f[node := f[n] + f[m]], dl[n := node][m := node], live', [m, n] + order, leaves, elems, k + 1)
  {
    hide Pairs, Later, Descending, Distinct;
    ForestNodes(f, dl, live, order, leaves, elems, k);
    MidInLive(live, mid, n);
    assert m in live && n != m;
    AfterInMid(mid, live', m, node);
    var f', dl' := f[node := f[n] + f[m]], dl[n := node][m := node];
    MergeMultiset(live, mid, live', order, leaves, elems, node, n, m);
    MergePairs(f, dl, f', dl', order, elems, k, n, m, node);
    MergeLater(order, elems, k, n, m);
    forall i | 0 <= i < |live'| ensures live'[i] < |f| {
      if live'[i] != node {
        assert live'[i] in mid;
      }
    }
    forall i | 0 <= i < |live'| && live'[i] != node ensures live'[i] in live && f[m] <= f[live'[i]] {
      assert live'[i] in mid;
    }
    MergeDescending(f, f', live, live', order, n, m, node);
  }

  // ---------- optimality along the loop ----------

  /** The frequencies of the listed nodes. */
  ghost function FreqsOf(s: seq<nat>, f: seq<nat>): (r: seq<nat>)
    requires forall i :: 0 <= i < |s| ==> s[i] < |f|
    ensures |r| == |s| && forall i :: 0 <= i < |s| ==> r[i] == f[s[i]]
  {
    seq(|s|, i requires 0 <= i < |s| => f[s[i]])
  }

  ghost predicate InBounds(s: seq<nat>, f: seq<nat>) {
    forall i :: 0 <= i < |s| ==> s[i] < |f|
  }

  lemma FreqsRemove(t: seq<nat>, i: nat, f: seq<nat>)
    requires i < |t| && InBounds(t, f)
    ensures InBounds(t[..i] + t[i + 1..], f)
    ensures multiset(FreqsOf(t, f)) == multiset(FreqsOf(t[..i] + t[i + 1..], f)) + multiset{f[t[i]]}
  {
    var r := FreqsOf(t, f);
    assert r == r[..i] + [r[i]] + r[i + 1..];
    assert FreqsOf(t[..i] + t[i + 1..], f) == r[..i] + r[i + 1..];
  }

  lemma PermutationBounds(s: seq<nat>, t: seq<nat>, f: seq<nat>)
    requires multiset(s) == multiset(t) && InBounds(s, f)
    ensures InBounds(t, f)
  {
    forall i | 0 <= i < |t| ensures t[i] < |f| {
      assert t[i] in multiset(t);
      assert t[i] in multiset(s);
    }
  }

  lemma {:induction false} FreqsPermutation(s: seq<nat>, t: seq<nat>, f: seq<nat>)
    requires multiset(s) == multiset(t) && InBounds(s, f)
    ensures InBounds(t, f) && multiset(FreqsOf(s, f)) == multiset(FreqsOf(t, f))
    decreases |s|
  {
    hide FreqsOf;
    PermutationBounds(s, t, f);
    if s == [] {
      assert |multiset(t)| == 0;
      assert t == s;
    } else {
      assert s[0] in multiset(t);
      var i :| 0 <= i < |t| && t[i] == s[0];
      var s', t' := s[..0] + s[1..], t[..i] + t[i + 1..];
      assert multiset(s') == multiset(t') by { MultisetRemove(t, i); MultisetRemove(s, 0); }
      FreqsRemove(t, i, f);
      FreqsRemove(s, 0, f);
      FreqsPermutation(s', t', f);
    }
  }

  /** Joint frequency of all fathers made so far: the bits spent by the merges. */
  ghost function Joined(f: seq<nat>, elems: nat, k: nat): nat
    requires elems + k <= |f|
  {
    if k == 0 then 0 else Joined(f, elems, k - 1) + f[elems + k - 1]
  }

  /** Any bound for what is left, plus what the merges cost, bounds the whole. */
  ghost predicate GreedySoFar(f: seq<nat>, live: seq<nat>, leafFreqs: multiset<nat>, elems: nat, k: nat)
    requires InBounds(live, f) && elems + k <= |f|
  {
    forall c: nat :: LowerBound(multiset(FreqsOf(live, f)), c) ==> LowerBound(leafFreqs, c + Joined(f, elems, k))
  }

  lemma {:induction false} JoinedAgree(f: seq<nat>, f': seq<nat>, elems: nat, k: nat)
    requires elems + k <= |f| && |f'| == |f| && forall j :: elems <= j < elems + k ==> f'[j] == f[j]
    ensures Joined(f', elems, k) == Joined(f, elems, k)
  {
    if k > 0 {
      JoinedAgree(f, f', elems, k - 1);
    }
  }

  lemma RarestFreq(s: seq<nat>, f: seq<nat>, n: nat)
    requires InBounds(s, f) && Rarest(f, s, n)
    ensures LeastOf(f[n], multiset(FreqsOf(s, f)))
  {
    var r := FreqsOf(s, f);
    var i :| 0 <= i < |s| && s[i] == n;
    assert r[i] == f[n];
    forall x | x in multiset(r) ensures f[n] <= x {
      var j :| 0 <= j < |r| && r[j] == x;
    }
  }

  lemma FreqsCons(n: nat, mid: seq<nat>, live: seq<nat>, f: seq<nat>)
    requires InBounds(mid, f) && n < |f| && multiset(live) == multiset(mid) + multiset{n}
    ensures InBounds(live, f) && multiset(FreqsOf(live, f)) == multiset(FreqsOf(mid, f)) + multiset{f[n]}
  {
    var s := [n] + mid;
    assert multiset(s) == multiset(live);
    FreqsPermutation(s, live, f);
    assert FreqsOf(s, f) == [f[n]] + FreqsOf(mid, f);
  }

  /** The greedy argument for one step of the loop. */
  lemma GreedyMerge(f: seq<nat>, live: seq<nat>, mid: seq<nat>, rest: seq<nat>, live': seq<nat>,
      leafFreqs: multiset<nat>, elems: nat, k: nat, n: nat, m: nat, node: nat)
    requires InBounds(live, f) && node == elems + k < |f| && GreedySoFar(f, live, leafFreqs, elems, k)
    requires Rarest(f, live, n) && multiset(live) == multiset(mid) + multiset{n}
    requires InBounds(mid, f) && Rarest(f, mid, m) && multiset(mid) == multiset(rest) + multiset{m}
    requires multiset(live') == multiset(rest) + multiset{node} && InBounds(rest, f)
    requires n < node && m < node && forall i :: 0 <= i < |rest| ==> rest[i] < node
    ensures InBounds(live', f) && GreedySoFar(f[node := f[n] + f[m]], live', leafFreqs, elems, k + 1)
  {
    hide LowerBound, LeastOf, Rarest, FreqsOf;
    var f' := f[node := f[n] + f[m]];
    FreqsCons(n, mid, live, f);
    FreqsCons(m, rest, mid, f);
    FreqsCons(node, rest, live', f');
    FreqsSame(rest, f, f');
    RarestFreq(live, f, n);
    RarestFreq(mid, f, m);
    JoinedAgree(f, f', elems, k);
    forall c: nat | LowerBound(multiset(FreqsOf(live', f')), c) ensures LowerBound(leafFreqs,
        c + Joined(f', elems, k + 1)) {
      GreedyStep(multiset(FreqsOf(live, f)), multiset(FreqsOf(mid, f)), multiset(FreqsOf(rest, f)), f[n], f[m],
          f'[node], c);
      assert Joined(f', elems, k + 1) == Joined(f, elems, k) + f[n] + f[m];
    }
  }

  lemma FreqsSame(s: seq<nat>, f: seq<nat>, f': seq<nat>)
    requires InBounds(s, f) && InBounds(s, f') && forall i :: 0 <= i < |s| ==> f[s[i]] == f'[s[i]]
    ensures FreqsOf(s, f) == FreqsOf(s, f')
  {
  }
}
