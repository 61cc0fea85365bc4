/** Literals and matches as they stand in d_buf and l_buf, and what they expand to. */
module Tokens {
  import opened Bits
  import opened CodeTables

  const MIN_MATCH := 3
  const MAX_MATCH := 258
  const WSIZE := 32768

  /** A literal `lc` when `dist` is 0, else a match of length `lc + MIN_MATCH`. */
  datatype Token = Token(dist: nat, lc: nat)

  predicate ValidToken(t: Token) {
    t.dist <= WSIZE && t.lc < 256
  }

  predicate ValidTokens(ts: seq<Token>) {
    forall i :: 0 <= i < |ts| ==> ValidToken(ts[i])
  }

  /** The byte `d` back, 0 if there is none. */
  function Back(out: seq<byte>, d: nat): byte {
    if 1 <= d <= |out| then out[|out| - d] else 0
  }

  /** Copy `n` bytes from `d` back, byte by byte, so that the copy may overlap its source. */
  function CopyMatch(out: seq<byte>, d: nat, n: nat): (r: seq<byte>)
    ensures out <= r && |r| == |out| + n
    decreases n
  {
    if n == 0 then out else CopyMatch(out + [Back(out, d)], d, n - 1)
  }

  function ExpandOne(out: seq<byte>, t: Token): (r: seq<byte>)
    ensures out <= r
  {
    if t.dist == 0 then out + [(t.lc % 256) as byte] else CopyMatch(out, t.dist, t.lc + MIN_MATCH)
  }

  /** LZ77 expansion of `ts` after the history `out`. */
  function Expand(out: seq<byte>, ts: seq<Token>): (r: seq<byte>)
    ensures out <= r
    decreases |ts|
  {
    if ts == [] then out else Expand(ExpandOne(out, ts[0]), ts[1..])
  }

  /** No token reaches back before the start of the history. */
  ghost predicate InReach(out: seq<byte>, ts: seq<Token>)
    decreases |ts|
  {
    ts == [] || (ts[0].dist <= |out| && InReach(ExpandOne(out, ts[0]), ts[1..]))
  }

  lemma {:induction false} ExpandAppend(out: seq<byte>, a: seq<Token>, b: seq<Token>)
    ensures Expand(out, a + b) == Expand(Expand(out, a), b)
    ensures InReach(out, a + b) <==> InReach(out, a) && InReach(Expand(out, a), b)
    decreases |a|
  {
    if a == [] {
      assert a + b == b;
    } else {
      assert (a + b)[1..] == a[1..] + b;
      ExpandAppend(ExpandOne(out, a[0]), a[1..], b);
    }
  }

  /** How many bytes a token stands for. */
  function TokenLength(t: Token): nat {
    if t.dist == 0 then 1 else t.lc + MIN_MATCH
  }

  function TokensLength(ts: seq<Token>): nat {
    if ts == [] then 0 else TokenLength(ts[0]) + TokensLength(ts[1..])
  }

  lemma {:induction false} ExpandLength(out: seq<byte>, ts: seq<Token>)
    ensures |Expand(out, ts)| == |out| + TokensLength(ts) && TokensLength(ts) >= |ts|
    decreases |ts|
  {
    if ts != [] {
      ExpandLength(ExpandOne(out, ts[0]), ts[1..]);
    }
  }

  // ---------- length and distance codes ----------

  /** The largest of the codes up to `c` whose base does not exceed `len`. */
  function LenCodeUpTo(len: nat, c: nat): nat {
    if c == 0 || LenBase(c) <= len then c else LenCodeUpTo(len, c - 1)
  }

  function DistCodeUpTo(dist: nat, c: nat): nat {
    if c == 0 || DistBase(c) <= dist then c else DistCodeUpTo(dist, c - 1)
  }

  /** Length code (0..28) of match length `lc + MIN_MATCH`. */
  function LengthCode(lc: nat): nat {
    LenCodeUpTo(lc + MIN_MATCH, LENGTH_CODES - 1)
  }

  /** Distance code (0..29) of distance `dist`. */
  function DistanceCode(dist: nat): nat {
    DistCodeUpTo(dist, D_CODES - 1)
  }

  lemma LenBases(c: nat)
    requires c < LENGTH_CODES - 1
    ensures LenBase(c) < LenBase(c + 1) <= LenBase(c) + Pow2(LenExtra(c)) && LenExtra(c) <= 5
    ensures LenBase(c) + Pow2(LenExtra(c)) == if c < 27 then LenBase(c + 1) else 259
  {
    Pow2Values();
    ShlSmall(4 + c % 4, LenExtra(c));
    ShlSmall(4 + (c + 1) % 4, LenExtra(c + 1));
  }

  lemma DistBases(c: nat)
    requires c < D_CODES - 1
    ensures DistBase(c) < DistBase(c + 1) && DistBase(c + 1) == DistBase(c) + Pow2(DistExtra(c)) && DistExtra(c) <= 13
  {
    hide Shl, Pow2;
    if c >= 4 {
      var e := DistExtra(c);
      ShlNext(2, e);
      ShlNext(3, e);
      ShlShl(2, 1, e);
      ShlBy1(2);
      if c % 2 == 1 {
        assert Shl(2, e + 1) == Shl(4, e) by { assert Shl(Shl(2, 1), e) == Shl(2, 1 + e); }
      }
    } else {
      Pow2Values();
      ShlBy1(2);
      ShlBy1(3);
    }
  }

  lemma ShlBy1(v: nat)
    ensures Shl(v, 1) == 2 * v && Shl(v, 0) == v
  {
  }

  lemma ShlSmall(v: nat, n: nat)
    requires n <= 5
    ensures Shl(v, n)
            == match n case 0 => v case 1 => 2 * v case 2 => 4 * v case 3 => 8 * v case 4 => 16 * v case _ => 32 * v
  {
    assert Shl(v, 1) == 2 * v;
    assert Shl(v, 2) == 4 * v;
    assert Shl(v, 3) == 8 * v;
    assert Shl(v, 4) == 16 * v;
    assert Shl(v, 5) == 32 * v;
  }

  lemma {:induction false} LenCodeFits(len: nat, c: nat)
    requires c < LENGTH_CODES && 3 <= len && (c < LENGTH_CODES - 1 ==> len < LenBase(c + 1)) && len <= MAX_MATCH
    ensures LenCodeUpTo(len, c) <= c
    ensures LenBase(LenCodeUpTo(len, c)) <= len < LenBase(LenCodeUpTo(len, c)) + Pow2(LenExtra(LenCodeUpTo(len, c)))
  {
    hide LenBase, Pow2, LenExtra;
    if c == 0 || LenBase(c) <= len {
      if c < LENGTH_CODES - 1 {
        LenBases(c);
      } else {
        LastLength();
      }
      FirstLength();
    } else {
      LenCodeFits(len, c - 1);
    }
  }

  lemma FirstLength()
    ensures LenBase(0) == 3 && DistBase(0) == 1
  {
  }

  lemma LastLength()
    ensures LenBase(28) == 258 && LenExtra(28) == 0 && Pow2(0) == 1 && DistBase(29) == 24577 && DistExtra(29) == 13
    ensures Pow2(13) == 8192
  {
    hide Pow2, Shl;
    Pow2Values();
    ShlNext(2, 13);
    ShlShl(1, 1, 13);
    ShlOne(13);
    ShlOne(14);
    Pow2Next(13);
    assert Shl(1, 1) == 2 by { ShlBy1(1); }
  }

  lemma {:induction false} DistCodeFits(dist: nat, c: nat)
    requires c < D_CODES && 1 <= dist <= WSIZE && (c < D_CODES - 1 ==> dist < DistBase(c + 1))
    ensures DistCodeUpTo(dist, c) <= c
    ensures DistBase(DistCodeUpTo(dist, c)) <= dist < DistBase(DistCodeUpTo(dist,
            c)) + Pow2(DistExtra(DistCodeUpTo(dist, c)))
  {
    hide DistBase, Pow2, DistExtra;
    if c == 0 || DistBase(c) <= dist {
      if c < D_CODES - 1 {
        DistBases(c);
      } else {
        LastLength();
      }
      FirstLength();
    } else {
      DistCodeFits(dist, c - 1);
    }
  }

  /** Every match length is its code's base plus a value that fits the extra bits. */
  lemma LengthCodeFits(lc: nat)
    requires lc < 256
    ensures LengthCode(lc) < LENGTH_CODES
    ensures LenBase(LengthCode(lc)) <= lc + MIN_MATCH < LenBase(LengthCode(lc)) + Pow2(LenExtra(LengthCode(lc)))
  {
    LenCodeFits(lc + MIN_MATCH, LENGTH_CODES - 1);
  }

  /** Every distance is its code's base plus a value that fits the extra bits. */
  lemma DistanceCodeFits(dist: nat)
    requires 1 <= dist <= WSIZE
    ensures DistanceCode(dist) < D_CODES
    ensures DistBase(DistanceCode(dist)) <= dist < DistBase(DistanceCode(dist)) + Pow2(DistExtra(DistanceCode(dist)))
  {
    DistCodeFits(dist, D_CODES - 1);
  }

  lemma {:induction false} LenBaseOrder(c: nat, d: nat)
    requires c < d < LENGTH_CODES
    ensures LenBase(c) < LenBase(d)
  {
    hide LenBase, Pow2, LenExtra;
    LenBases(d - 1);
    if c < d - 1 {
      LenBaseOrder(c, d - 1);
    }
  }

  lemma {:induction false} DistBaseOrder(c: nat, d: nat)
    requires c < d < D_CODES
    ensures DistBase(c) < DistBase(d)
  {
    hide DistBase, Pow2, DistExtra;
    DistBases(d - 1);
    if c < d - 1 {
      DistBaseOrder(c, d - 1);
    }
  }

  /** A length between two bases has the code of the lower one. */
  lemma {:induction false} LenCodeIs(len: nat, c: nat, top: nat)
    requires c <= top < LENGTH_CODES && LenBase(c) <= len && (c < top ==> len < LenBase(c + 1))
    ensures LenCodeUpTo(len, top) == c
  {
    hide LenBase;
    if c < top {
      if c + 1 < top {
        LenBaseOrder(c + 1, top);
      }
      LenCodeIs(len, c, top - 1);
    }
  }

  lemma {:induction false} DistCodeIs(dist: nat, c: nat, top: nat)
    requires c <= top < D_CODES && DistBase(c) <= dist && (c < top ==> dist < DistBase(c + 1))
    ensures DistCodeUpTo(dist, top) == c
  {
    hide DistBase;
    if c < top {
      if c + 1 < top {
        DistBaseOrder(c + 1, top);
      }
      DistCodeIs(dist, c, top - 1);
    }
  }
}
