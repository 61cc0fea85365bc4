/**
 The length-limit repair of gen_bitlen on the counts of codes per length: each
 round moves one leaf down, keeps the number of leaves and lowers the excess of
 code space by one unit of the limiting length.
 */
module LimitRepair {
  import opened Bits
  import opened CanonicalCode

  /** Code space of all counted codes of length 1..m, in units of 2^-15. */
  ghost function BlSpace(bl: seq<nat>, m: nat): nat
    requires |bl| == MAX_BITS + 1 && m <= MAX_BITS
  {
    if m == 0 then 0 else BlSpace(bl, m - 1) + Shl(bl[m], MAX_BITS - m)
  }

  ghost function BlTotal(bl: seq<nat>, m: nat): nat
    requires |bl| == MAX_BITS + 1 && m <= MAX_BITS
  {
    if m == 0 then 0 else BlTotal(bl, m - 1) + bl[m]
  }

  lemma {:induction false} SpaceAdd(bl: seq<nat>, i: nat, d: nat, m: nat)
    requires |bl| == MAX_BITS + 1 && m <= MAX_BITS && 1 <= i <= MAX_BITS
    ensures BlSpace(bl[i := bl[i] + d], m) == BlSpace(bl, m) + if i <= m then Shl(d, MAX_BITS - i) else 0
    ensures BlTotal(bl[i := bl[i] + d], m) == BlTotal(bl, m) + if i <= m then d else 0
  {
    if m > 0 {
      SpaceAdd(bl, i, d, m - 1);
      if i == m {
        ShlAdd(bl[i], d, MAX_BITS - i);
      }
    }
  }

  lemma SpaceSub(bl: seq<nat>, i: nat, m: nat)
    requires |bl| == MAX_BITS + 1 && 1 <= i <= m <= MAX_BITS && bl[i] >= 1
    ensures BlSpace(bl[i := bl[i] - 1], m) == BlSpace(bl, m) - Pow2(MAX_BITS - i)
    ensures BlTotal(bl[i := bl[i] - 1], m) == BlTotal(bl, m) - 1
  {
    hide BlSpace, BlTotal;
    var bl' := bl[i := bl[i] - 1];
    SpaceAdd(bl', i, 1, m);
    assert bl'[i := bl'[i] + 1] == bl;
    ShlOne(MAX_BITS - i);
  }

  /** Counts with `e` units of the limiting length too much. */
  ghost predicate Excess(bl: seq<nat>, max: nat, e: nat) {
    && |bl| == MAX_BITS + 1 && 1 <= max <= MAX_BITS && bl[0] == 0
    && (forall b :: max < b <= MAX_BITS ==> bl[b] == 0)
    && BlSpace(bl, MAX_BITS) == Pow2(MAX_BITS) + Shl(e, MAX_BITS - max)
    && bl[max] >= e
  }

  lemma {:induction false} EmptyBelow(bl: seq<nat>, m: nat)
    requires |bl| == MAX_BITS + 1 && m <= MAX_BITS && forall b :: 1 <= b <= m ==> bl[b] == 0
    ensures BlSpace(bl, m) == 0 && BlTotal(bl, m) == 0
  {
    if m > 0 {
      EmptyBelow(bl, m - 1);
      ShlOne(MAX_BITS - m);
    }
  }

  lemma {:induction false} EmptyAbove(bl: seq<nat>, max: nat, m: nat)
    requires |bl| == MAX_BITS + 1 && max <= m <= MAX_BITS && forall b :: max < b <= m ==> bl[b] == 0
    ensures BlSpace(bl, m) == BlSpace(bl, max) && BlTotal(bl, m) == BlTotal(bl, max)
  {
    if max < m {
      EmptyAbove(bl, max, m - 1);
      ShlOne(MAX_BITS - m);
    }
  }

  /** With few enough leaves and space in excess, some code is shorter than the limit. */
  lemma SomeShorter(bl: seq<nat>, max: nat, e: nat)
    requires Excess(bl, max, e) && e > 0 && BlTotal(bl, MAX_BITS) <= Pow2(max)
    ensures exists b :: 1 <= b < max && bl[b] != 0
  {
    hide BlSpace, BlTotal, Shl, Pow2;
    if forall b :: 1 <= b < max ==> bl[b] == 0 {
      EmptyBelow(bl, max - 1);
      EmptyAbove(bl, max, MAX_BITS);
      assert BlSpace(bl, max) == Shl(bl[max], MAX_BITS - max) && BlTotal(bl, max) == bl[max] by { OneLength(bl, max); }
      ShlPow2(max, MAX_BITS - max);
      ShlLe(bl[max], Pow2(max), MAX_BITS - max);
      ShlLt(0, e, MAX_BITS - max);
    }
  }

  lemma OneLength(bl: seq<nat>, m: nat)
    requires |bl| == MAX_BITS + 1 && 1 <= m <= MAX_BITS && BlSpace(bl, m - 1) == 0 && BlTotal(bl, m - 1) == 0
    ensures BlSpace(bl, m) == Shl(bl[m], MAX_BITS - m) && BlTotal(bl, m) == bl[m]
  {
  }

  /** The counts after moving one leaf of length `b` down. */
  function MoveDown(bl: seq<nat>, b: nat, max: nat): seq<nat>
    requires |bl| == MAX_BITS + 1 && 1 <= b < max <= MAX_BITS && bl[b] >= 1 && bl[max] >= 1
  {
    var bl1 := bl[b := bl[b] - 1];
    var bl2 := bl1[b + 1 := bl1[b + 1] + 2];
    bl2[max := bl2[max] - 1]
  }

  /** One round: as many leaves, one unit less of excess. */
  lemma MoveDownRepairs(bl: seq<nat>, b: nat, max: nat, e: nat)
    requires Excess(bl, max, e) && e >= 1 && 1 <= b < max && bl[b] >= 1
    ensures bl[max] >= 1 && Excess(MoveDown(bl, b, max), max, e - 1)
    ensures BlTotal(MoveDown(bl, b, max), MAX_BITS) == BlTotal(bl, MAX_BITS)
    ensures MoveDown(bl, b, max)[max] >= bl[max] - 1
  {
    hide BlSpace, BlTotal, Shl, Pow2;
    var bl1 := bl[b := bl[b] - 1];
    var bl2 := bl1[b + 1 := bl1[b + 1] + 2];
    SpaceSub(bl, b, MAX_BITS);
    SpaceAdd(bl1, b + 1, 2, MAX_BITS);
    SpaceSub(bl2, max, MAX_BITS);
    ShlNext(e - 1, MAX_BITS - max);
    TwoHalves(b);
  }

  lemma TwoHalves(b: nat)
    requires b < MAX_BITS
    ensures Shl(2, MAX_BITS - (b + 1)) == Pow2(MAX_BITS - b)
  {
    ShlPow2(1, MAX_BITS - (b + 1));
    assert Pow2(1) == 2;
  }

  /** The do-while of gen_bitlen.  The inner search always succeeds. */
  method Repair(bl: array<nat>, max: nat, overflow: nat, ghost e: nat)
    requires bl.Length == MAX_BITS + 1 && Excess(bl[..], max, e) && overflow == 2 * e && e >= 1
    requires BlTotal(bl[..], MAX_BITS) <= Pow2(max)
    modifies bl
    ensures Excess(bl[..], max, 0)
    ensures BlTotal(bl[..], MAX_BITS) == BlTotal(old(bl[..]), MAX_BITS)
    ensures bl[max] >= old(bl[max]) - e
  {
    hide Shl, BlSpace, BlTotal, Pow2, MoveDown;
    var over: int := overflow;
    ghost var r := e;
    while over > 0
      invariant over == 2 * r && Excess(bl[..], max, r)
      invariant BlTotal(bl[..], MAX_BITS) == BlTotal(old(bl[..]), MAX_BITS)
      invariant bl[max] >= old(bl[max]) - (e - r)
      decreases r
    {
      ghost var c := bl[..];
      SomeShorter(c, max, r);
      var bits := max - 1;
      ghost var b :| 1 <= b < max && c[b] != 0;
      while bl[bits] == 0
        invariant b <= bits < max
        invariant bl[..] == c
        decreases bits
      {
        bits := bits - 1;
      }
      MoveDownRepairs(c, bits, max, r);
      bl[bits] := bl[bits] - 1;
      bl[bits + 1] := bl[bits + 1] + 2;
      bl[max] := bl[max] - 1;
      assert bl[..] == MoveDown(c, bits, max) by { MoveDownIs(c, bits, max, bl[..]); }
      over := over - 2;
      r := r - 1;
    }
  }

  lemma MoveDownIs(c: seq<nat>, b: nat, max: nat, d: seq<nat>)
    requires |c| == MAX_BITS + 1 && 1 <= b < max <= MAX_BITS && c[b] >= 1 && c[max] >= 1
    requires d == c[b := c[b] - 1][b + 1 := c[b + 1] + 2][max := (if max == b + 1 then c[max] + 2 else c[max]) - 1]
    ensures d == MoveDown(c, b, max)
  {
  }
}
