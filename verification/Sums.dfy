/** Sums of node attributes over lists of nodes, independent of the order. */
module Sums {

  /** The attribute of node `x`, 0 for nodes that have none. */
  function At(g: seq<int>, x: nat): int {
    if x < |g| then g[x] else 0
  }

  /** Sum of the attributes `g` over the nodes listed in `s`. */
  function Sum(s: seq<nat>, g: seq<int>): int {
    if s == [] then 0 else At(g, s[0]) + Sum(s[1..], g)
  }

  lemma {:induction false} SumAppend(s: seq<nat>, t: seq<nat>, g: seq<int>)
    ensures Sum(s + t, g) == Sum(s, g) + Sum(t, g)
  {
    if s == [] {
      assert s + t == t;
    } else {
      assert (s + t)[1..] == s[1..] + t;
      SumAppend(s[1..], t, g);
    }
  }

  lemma SumOne(x: nat, g: seq<int>)
    ensures Sum([x], g) == At(g, x)
  {
    assert [x][1..] == [];
  }

  /** Taking out one element. */
  lemma SumRemove(s: seq<nat>, i: nat, g: seq<int>)
    requires i < |s|
    ensures Sum(s, g) == At(g, s[i]) + Sum(s[..i] + s[i + 1..], g)
  {
    var a, b := s[..i], s[i + 1..];
    assert s == a + ([s[i]] + b);
    SumAppend(a, [s[i]] + b, g);
    SumAppend([s[i]], b, g);
    SumAppend(a, b, g);
    SumOne(s[i], g);
  }

  lemma MultisetRemove(s: seq<nat>, i: nat)
    requires i < |s|
    ensures multiset(s[..i] + s[i + 1..]) == multiset(s) - multiset{s[i]}
  {
    assert s == s[..i] + [s[i]] + s[i + 1..];
  }

  /** Rearranging the list does not change the sum. */
  lemma {:induction false} SumPermutation(s: seq<nat>, t: seq<nat>, g: seq<int>)
    requires multiset(s) == multiset(t)
    ensures Sum(s, g) == Sum(t, g)
    decreases |s|
  {
    if s == [] {
      assert |multiset(t)| == 0;
    } else {
      assert s[0] in multiset(t);
      var i :| 0 <= i < |t| && t[i] == s[0];
      SumRemove(t, i, g);
      MultisetRemove(t, i);
      MultisetRemove(s, 0);
      assert s[..0] + s[1..] == s[1..];
      SumPermutation(s[1..], t[..i] + t[i + 1..], g);
    }
  }

  /** Sums see only the attributes of the listed nodes. */
  lemma {:induction false} SumAgree(s: seq<nat>, g: seq<int>, g': seq<int>)
    requires forall i :: 0 <= i < |s| ==> At(g, s[i]) == At(g', s[i])
    ensures Sum(s, g) == Sum(s, g')
  {
    if s != [] {
      SumAgree(s[1..], g, g');
    }
  }

  /** The numbers a, a+1, .., b-1. */
  function Range(a: nat, b: nat): (r: seq<nat>)
    requires a <= b
    ensures |r| == b - a && forall i :: 0 <= i < |r| ==> r[i] == a + i
  {
    seq(b - a, i requires 0 <= i => a + i)
  }
}
