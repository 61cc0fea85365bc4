/**
 The hash chains in terms of positions in the stream.  `head` and `prev` hold window indices;
 `base` is the stream position of window index 0, `ins` the positions inserted so far.
 */
module HashChains {
  import opened Bits
  import opened HashLaws
  import opened RollingHash

  /** `p & w_mask`: the slot of `prev` for a position. */
  function Slot(p: nat, wbits: nat): (r: nat)
    ensures r < Pow2(wbits)
  {
    Low(p, wbits)
  }

  lemma SlotClash(a: nat, b: nat, wbits: nat)
    requires Slot(a, wbits) == Slot(b, wbits) && a < b
    ensures a + Pow2(wbits) <= b
  {
    hide Low, Shr, Shl, Pow2;
    ShrLow(a, wbits);
    ShrLow(b, wbits);
    var q, r := Shr(a, wbits), Shr(b, wbits);
    if r <= q {
      ShlLe(r, q, wbits);
    } else {
      ShlLt(q, r, wbits);
    }
  }

  lemma SlotBase(base: nat, p: nat, wbits: nat)
    requires Slot(base, wbits) == 0
    ensures Slot(base + p, wbits) == Slot(p, wbits) && Slot(base + Pow2(wbits), wbits) == 0
  {
    hide Low, Shr, Shl, Pow2;
    ShrLow(base, wbits);
    ShrLow(p, wbits);
    var k, j := Shr(base, wbits), Shr(p, wbits);
    ShlAdd(k, j, wbits);
    ShrLowUnique(base + p, wbits, k + j, Low(p, wbits));
    ShlNext(k, wbits);
    assert 0 < Pow2(wbits);
    ShrLowUnique(base + Pow2(wbits), wbits, k + 1, 0);
  }

  // ---------- the chains ----------

  /** The bucket of the string at stream position `a`. */
  ghost function HashAt(bits: nat, s: seq<byte>, a: nat): nat
    requires a + 2 < |s|
  {
    Bucket(HashOf(bits, s[a], s[a + 1], s[a + 2]))
  }

  /** Every inserted string is whole and before `lim`. */
  ghost predicate Inserted(ins: set<nat>, s: seq<byte>, lim: nat) {
    forall a :: a in ins ==> a < lim && a + 2 < |s|
  }

  /** Every bucket is empty or starts with a string of that bucket. */
  ghost predicate Heads(bits: nat, head: seq<nat>, s: seq<byte>, base: nat, ins: set<nat>) {
    forall h :: 0 <= h < |head| && head[h] != 0 ==>
      base + head[h] in ins && base + head[h] + 2 < |s| && HashAt(bits, s, base + head[h]) == h
  }

  /** The slot of an inserted position is empty or holds an inserted position. */
  ghost predicate Legit(prev: seq<nat>, base: nat, ins: set<nat>, wbits: nat)
    requires |prev| == Pow2(wbits)
  {
    forall a :: a in ins && prev[Slot(a, wbits)] != 0 ==> base + prev[Slot(a, wbits)] in ins
  }

  /** The link of a recent position is empty or leads to an earlier one in the same bucket. */
  ghost predicate LinkOk(bits: nat, prev: seq<nat>, s: seq<byte>, base: nat, wbits: nat, a: nat)
    requires |prev| == Pow2(wbits)
  {
    var q := prev[Slot(a, wbits)];
    q == 0 || (base + q < a && a + 2 < |s| && HashAt(bits, s, base + q) == HashAt(bits, s, a))
  }

  /** No position `wsize` after `a` has been reached, so that the slot is still its own. */
  ghost predicate Links(bits: nat, prev: seq<nat>, s: seq<byte>, base: nat, ins: set<nat>, wbits: nat, lim: nat)
    requires |prev| == Pow2(wbits)
  {
    forall a :: a in ins && a + Pow2(wbits) >= lim ==> LinkOk(bits, prev, s, base, wbits, a)
  }

  ghost predicate Chains(bits: nat, head: seq<nat>, prev: seq<nat>, s: seq<byte>, base: nat, ins: set<nat>, wbits: nat,
      lim: nat) {
    && |prev| == Pow2(wbits) && Slot(base, wbits) == 0
    && Inserted(ins, s, lim) && Heads(bits, head, s, base, ins) && Legit(prev, base, ins, wbits)
    && Links(bits, prev, s, base, ins, wbits, lim)
    && Newest(bits, head, s, base, ins) && LinksNewest(bits, prev, s, base, ins, wbits, lim)
  }

  /** The string at `a` is in the table and in the bucket of that at `b`. */
  ghost predicate InBucket(bits: nat, s: seq<byte>, ins: set<nat>, a: nat, b: nat) {
    a in ins && a + 2 < |s| && b + 2 < |s| && HashAt(bits, s, a) == HashAt(bits, s, b)
  }

  /** A bucket starts with its latest string, unless that is at window index 0, which means none. */
  ghost predicate Newest(bits: nat, head: seq<nat>, s: seq<byte>, base: nat, ins: set<nat>) {
    forall a: nat, b: nat :: InBucket(bits, s, ins, a, b) && a > base ==>
      HashAt(bits, s, b) < |head| && head[HashAt(bits, s, b)] != 0 && base + head[HashAt(bits, s, b)] >= a
  }

  /** The link of `a` leads to the latest string of the bucket before it. */
  ghost predicate LinkNewest(bits: nat, prev: seq<nat>, s: seq<byte>, base: nat, ins: set<nat>, wbits: nat, a: nat)
    requires |prev| == Pow2(wbits)
  {
    forall b: nat :: InBucket(bits, s, ins, b, a) && base < b < a ==>
      prev[Slot(a, wbits)] != 0 && base + prev[Slot(a, wbits)] >= b
  }

  ghost predicate LinksNewest(bits: nat, prev: seq<nat>, s: seq<byte>, base: nat, ins: set<nat>, wbits: nat, lim: nat)
    requires |prev| == Pow2(wbits)
  {
    forall a :: a in ins && a + Pow2(wbits) >= lim ==> LinkNewest(bits, prev, s, base, ins, wbits, a)
  }

  /** Nothing inserted yet. */
  lemma NoChains(bits: nat, head: seq<nat>, prev: seq<nat>, s: seq<byte>, base: nat, wbits: nat, lim: nat)
    requires |prev| == Pow2(wbits) && Slot(base, wbits) == 0 && forall h :: 0 <= h < |head| ==> head[h] == 0
    ensures Chains(bits, head, prev, s, base, {}, wbits, lim)
  {
  }

  /** Moving on, and reading more, keeps the chains. */
  lemma ChainsLater(bits: nat, head: seq<nat>, prev: seq<nat>, s: seq<byte>, s': seq<byte>, base: nat, ins: set<nat>,
      wbits: nat, lim: nat, lim': nat)
    requires Chains(bits, head, prev, s, base, ins, wbits, lim) && lim <= lim' && s <= s'
    ensures Chains(bits, head, prev, s', base, ins, wbits, lim')
  {
    hide Bucket, HashOf, Slot, Pow2, Newest, LinksNewest;
    forall a | a in ins && a + Pow2(wbits) >= lim' ensures LinkOk(bits, prev, s', base, wbits, a) {
      assert LinkOk(bits, prev, s, base, wbits, a);
    }
    NewestLater(bits, head, prev, s, s', base, ins, wbits, lim, lim');
  }

  /** More input puts no string into a bucket. */
  lemma BucketLater(bits: nat, s: seq<byte>, s': seq<byte>, ins: set<nat>, a: nat, b: nat)
    requires s <= s' && InBucket(bits, s', ins, a, b) && a + 2 < |s| && b + 2 < |s|
    ensures InBucket(bits, s, ins, a, b) && HashAt(bits, s', b) == HashAt(bits, s, b)
  {
    hide Bucket, HashOf;
  }

  lemma NewestLater(bits: nat, head: seq<nat>, prev: seq<nat>, s: seq<byte>, s': seq<byte>, base: nat, ins: set<nat>,
      wbits: nat, lim: nat, lim': nat)
    requires |prev| == Pow2(wbits) && s <= s' && lim <= lim' && Inserted(ins, s, lim)
    requires Newest(bits, head, s, base, ins) && LinksNewest(bits, prev, s, base, ins, wbits, lim)
    ensures Newest(bits, head, s', base, ins) && LinksNewest(bits, prev, s', base, ins, wbits, lim')
  {
    hide HashAt, Slot, Pow2;
    forall a: nat, b: nat | InBucket(bits, s', ins, a, b) && a > base
      ensures HashAt(bits, s', b) < |head| && head[HashAt(bits, s', b)] != 0
      ensures base + head[HashAt(bits, s', b)] >= a
    {
      assert InBucket(bits, s', ins, a, a);
      BucketLater(bits, s, s', ins, a, a);
    }
    forall a | a in ins && a + Pow2(wbits) >= lim' ensures LinkNewest(bits, prev, s', base, ins, wbits, a) {
      assert LinkNewest(bits, prev, s, base, ins, wbits, a);
      forall b: nat | InBucket(bits, s', ins, b, a) && base < b < a
        ensures prev[Slot(a, wbits)] != 0 && base + prev[Slot(a, wbits)] >= b
      {
        BucketLater(bits, s, s', ins, b, a);
      }
    }
  }

  /** INSERT_STRING keeps the chains; the old head becomes the link. */
  lemma InsertKeeps(bits: nat, head: seq<nat>, prev: seq<nat>, s: seq<byte>, base: nat, ins: set<nat>, wbits: nat,
      p: nat, h: nat)
    requires Chains(bits, head, prev, s, base, ins, wbits, base + p) && base + p + 2 < |s| && h < |head|
    requires h == HashAt(bits, s, base + p)
    ensures Chains(bits, head[h := p], prev[Slot(p, wbits) := head[h]], s, base, ins + {base + p}, wbits, base + p + 1)
  {
    hide HashAt, Slot, Pow2, LinkOk, Legit, Links, Newest, LinksNewest;
    var m, i := head[h], Slot(p, wbits);
    InsertLegit(head, prev, base, ins, wbits, p, h, bits, s);
    InsertLinks(bits, head, prev, s, base, ins, wbits, p, h);
    InsertNewest(bits, head, prev, s, base, ins, wbits, p, h);
    assert Heads(bits, head[h := p], s, base, ins + {base + p});
  }

  lemma InsertLegit(head: seq<nat>, prev: seq<nat>, base: nat, ins: set<nat>, wbits: nat, p: nat, h: nat, bits: nat,
      s: seq<byte>)
    requires |prev| == Pow2(wbits) && Slot(base, wbits) == 0 && Heads(bits, head, s, base, ins)
    requires Legit(prev, base, ins, wbits) && h < |head|
    ensures Legit(prev[Slot(p, wbits) := head[h]], base, ins + {base + p}, wbits)
  {
    hide HashAt, Slot, Pow2;
    var i := Slot(p, wbits);
    var prev', ins' := prev[i := head[h]], ins + {base + p};
    SlotBase(base, p, wbits);
    forall a | a in ins' && prev'[Slot(a, wbits)] != 0 ensures base + prev'[Slot(a, wbits)] in ins' {
      if Slot(a, wbits) != i {
        assert a in ins;
      }
    }
  }

  lemma InsertNewest(bits: nat, head: seq<nat>, prev: seq<nat>, s: seq<byte>, base: nat, ins: set<nat>, wbits: nat,
      p: nat, h: nat)
    requires |prev| == Pow2(wbits) && Slot(base, wbits) == 0 && base + p + 2 < |s| && h < |head|
    requires h == HashAt(bits, s, base + p) && Inserted(ins, s, base + p)
    requires Newest(bits, head, s, base, ins) && LinksNewest(bits, prev, s, base, ins, wbits, base + p)
    ensures Newest(bits, head[h := p], s, base, ins + {base + p})
    ensures LinksNewest(bits, prev[Slot(p, wbits) := head[h]], s, base, ins + {base + p}, wbits, base + p + 1)
  {
    hide HashAt, Slot, Pow2;
    var a0, i := base + p, Slot(p, wbits);
    var prev', ins' := prev[i := head[h]], ins + {a0};
    SlotBase(base, p, wbits);
    forall a: nat, b: nat | InBucket(bits, s, ins', a, b) && a > base
      ensures HashAt(bits, s, b) < |head| && head[h := p][HashAt(bits, s, b)] != 0
      ensures base + head[h := p][HashAt(bits, s, b)] >= a
    {
      if a != a0 {
        assert InBucket(bits, s, ins, a, b);
      }
    }
    forall a | a in ins' && a + Pow2(wbits) >= a0 + 1 ensures LinkNewest(bits, prev', s, base, ins', wbits, a) {
      forall b: nat | InBucket(bits, s, ins', b, a) && base < b < a
        ensures prev'[Slot(a, wbits)] != 0 && base + prev'[Slot(a, wbits)] >= b
      {
        assert b in ins && InBucket(bits, s, ins, b, a);
        if a != a0 {
          assert a in ins && a < a0;
          if Slot(a, wbits) == i {
            SlotClash(a, a0, wbits);
            assert false;
          }
          assert LinkNewest(bits, prev, s, base, ins, wbits, a);
        }
      }
    }
  }

  lemma InsertLinks(bits: nat, head: seq<nat>, prev: seq<nat>, s: seq<byte>, base: nat, ins: set<nat>, wbits: nat,
      p: nat, h: nat)
    requires Chains(bits, head, prev, s, base, ins, wbits, base + p) && base + p + 2 < |s| && h < |head|
    requires h == HashAt(bits, s, base + p)
    ensures Links(bits, prev[Slot(p, wbits) := head[h]], s, base, ins + {base + p}, wbits, base + p + 1)
  {
    hide HashAt, Slot, Pow2;
    var a0, i := base + p, Slot(p, wbits);
    var prev', ins' := prev[i := head[h]], ins + {a0};
    SlotBase(base, p, wbits);
    forall a | a in ins' && a + Pow2(wbits) >= a0 + 1 ensures LinkOk(bits, prev', s, base, wbits, a) {
      if a != a0 {
        assert a in ins && a < a0;
        if Slot(a, wbits) == i {
          SlotClash(a, a0, wbits);
          assert false;
        }
        assert LinkOk(bits, prev, s, base, wbits, a);
      }
    }
  }

  /** Sliding the window by `wsize`. */
  function Slid(v: nat, wsize: nat): nat {
    if v >= wsize then v - wsize else 0
  }

  ghost predicate AllSlid(t: seq<nat>, t': seq<nat>, wsize: nat) {
    |t'| == |t| && forall i :: 0 <= i < |t| ==> t'[i] == Slid(t[i], wsize)
  }

  lemma SlideKeeps(bits: nat, head: seq<nat>, head': seq<nat>, prev: seq<nat>, prev': seq<nat>, s: seq<byte>, base: nat,
      ins: set<nat>, wbits: nat, lim: nat)
    requires Chains(bits, head, prev, s, base, ins, wbits, lim) && AllSlid(head, head', Pow2(wbits))
    requires AllSlid(prev, prev', Pow2(wbits))
    ensures Chains(bits, head', prev', s, base + Pow2(wbits), ins, wbits, lim)
  {
    hide Bucket, HashOf, Slot, Pow2, Newest, LinksNewest;
    SlideNewest(bits, head, head', prev, prev', s, base, ins, wbits, lim);
    var wsize := Pow2(wbits);
    SlotBase(base, 0, wbits);
    forall h | 0 <= h < |head'| && head'[h] != 0
      ensures base + wsize + head'[h] in ins && base + wsize + head'[h] + 2 < |s|
      ensures HashAt(bits, s, base + wsize + head'[h]) == h
    {
      assert head[h] == head'[h] + wsize;
      assert base + wsize + head'[h] == base + head[h];
    }
    forall a | a in ins && prev'[Slot(a, wbits)] != 0 ensures base + wsize + prev'[Slot(a, wbits)] in ins {
      assert base + wsize + prev'[Slot(a, wbits)] == base + prev[Slot(a, wbits)];
    }
    forall a | a in ins && a + Pow2(wbits) >= lim ensures LinkOk(bits, prev', s, base + wsize, wbits, a) {
      assert LinkOk(bits, prev, s, base, wbits, a);
      assert prev'[Slot(a, wbits)] != 0 ==> base + wsize + prev'[Slot(a, wbits)] == base + prev[Slot(a, wbits)];
    }
  }

  /** The latest strings stay where they can be found, as far as they are still in the window. */
  lemma SlideNewest(bits: nat, head: seq<nat>, head': seq<nat>, prev: seq<nat>, prev': seq<nat>, s: seq<byte>,
      base: nat, ins: set<nat>, wbits: nat, lim: nat)
    requires |prev| == Pow2(wbits) && AllSlid(head, head', Pow2(wbits)) && AllSlid(prev, prev', Pow2(wbits))
    requires Newest(bits, head, s, base, ins) && LinksNewest(bits, prev, s, base, ins, wbits, lim)
    ensures Newest(bits, head', s, base + Pow2(wbits), ins)
    ensures LinksNewest(bits, prev', s, base + Pow2(wbits), ins, wbits, lim)
  {
    hide HashAt, Slot, Pow2, InBucket;
    var later := base + Pow2(wbits);
    forall a: nat, b: nat | InBucket(bits, s, ins, a, b) && a > later
      ensures b + 2 < |s| && HashAt(bits, s, b) < |head'| && head'[HashAt(bits, s, b)] != 0
      ensures later + head'[HashAt(bits, s, b)] >= a
    {
      Whole(bits, s, ins, a, b);
    }
    forall a | a in ins && a + Pow2(wbits) >= lim ensures LinkNewest(bits, prev', s, later, ins, wbits, a) {
      assert LinkNewest(bits, prev, s, base, ins, wbits, a);
    }
  }

  lemma Whole(bits: nat, s: seq<byte>, ins: set<nat>, a: nat, b: nat)
    requires InBucket(bits, s, ins, a, b)
    ensures a in ins && a + 2 < |s| && b + 2 < |s| && HashAt(bits, s, a) == HashAt(bits, s, b)
  {
  }

  /** CLEAR_HASH empties the buckets; the links may stay, because nothing leads to them. */
  lemma ClearForgets(bits: nat, head: seq<nat>, head': seq<nat>, prev: seq<nat>, s: seq<byte>, base: nat, ins: set<nat>,
      wbits: nat, lim: nat)
    requires Chains(bits, head, prev, s, base, ins, wbits, lim) && |head'| == |head|
    requires forall h :: 0 <= h < |head'| ==> head'[h] == 0
    ensures Chains(bits, head', prev, s, base, {}, wbits, lim)
  {
    hide Slot, HashAt, LinkOk;
    NoChains(bits, head', prev, s, base, wbits, lim);
  }
}
