/** How many bits the fixed code takes for a token. */
module FixedWidth {
  import opened Bits
  import opened CanonicalCode
  import opened CodeTables
  import opened InfTrees
  import opened Tokens
  import opened FixedCode
  import opened InflateSpec
  import opened DataDecode
  import opened StreamDecode

  /** Distances up to which the fixed code takes at most 24 bits. */
  const NEAR := 256

  lemma DistanceExtra(dist: nat)
    requires 1 <= dist <= WSIZE
    ensures DistExtra(DistanceCode(dist)) <= 13 && (dist <= NEAR ==> DistExtra(DistanceCode(dist)) <= 6)
  {
    hide DistanceCode, DistBase, Pow2;
    DistanceCodeFits(dist);
    if dist <= NEAR && DistanceCode(dist) >= 16 {
      BaseAt16(DistanceCode(dist));
    }
  }

  lemma {:induction false} BaseAt16(c: nat)
    requires 16 <= c < D_CODES
    ensures DistBase(c) >= 257
  {
    hide Pow2;
    if c == 16 {
      Shl7();
    } else {
      hide DistBase;
      BaseAt16(c - 1);
      DistBases(c - 1);
    }
  }

  lemma Shl7()
    ensures DistBase(16) == 257
  {
    assert Shl(2, 7) == 256;
  }

  /** The eight shortest lengths have codes without extra bits. */
  lemma {:induction false} ShortLength(lc: nat, c: nat)
    requires 7 <= c < LENGTH_CODES && lc < 8
    ensures LenCodeUpTo(lc + MIN_MATCH, c) <= 7
  {
    hide LenBase;
    if c > 7 {
      LaterBase(c);
      ShortLength(lc, c - 1);
    } else {
      UpToBound(lc + MIN_MATCH, c);
    }
  }

  lemma LaterBase(c: nat)
    requires 8 <= c < LENGTH_CODES
    ensures LenBase(c) > 10
  {
    if c < 28 {
      ShlTimes(4 + c % 4, c / 4 - 1);
      Pow2Mono(1, c / 4 - 1);
      TwiceFour(4 + c % 4, Pow2(c / 4 - 1));
    }
  }

  lemma TwiceFour(a: nat, b: nat)
    requires a >= 4 && b >= 2
    ensures a * b >= 8
  {
  }

  lemma {:induction false} UpToBound(len: nat, c: nat)
    ensures LenCodeUpTo(len, c) <= c
  {
    if c > 0 && LenBase(c) > len {
      UpToBound(len, c - 1);
    }
  }

  /** At most 31 bits and at most 9 for each byte; 24 for a near match. */
  lemma TokenWidth(t: Token)
    requires ValidToken(t)
    ensures CodedToken(FixedLens(), FixedDists(), t)
    ensures var n := |EncodeToken(FixedLens(), FixedDists(), t)|;
            n <= 31 && n <= 9 * TokenLength(t) && (t.dist <= NEAR ==> n <= 24)
  {
    hide LengthCode, DistanceCode, LenBase, DistBase, CodeBits, Pow2;
    if t.dist != 0 {
      LengthCodeFits(t.lc);
      DistanceCodeFits(t.dist);
      DistanceExtra(t.dist);
      if t.lc < 8 {
        ShortCode(t.lc);
      }
    }
  }

  lemma ShortCode(lc: nat)
    requires lc < 8
    ensures LengthCode(lc) <= 7
  {
    ShortLength(lc, LENGTH_CODES - 1);
  }

  /** No match reaches further back than NEAR. */
  ghost predicate AllNear(ts: seq<Token>) {
    forall i :: 0 <= i < |ts| ==> ts[i].dist <= NEAR
  }

  lemma {:induction false} TokensWidth(ts: seq<Token>)
    requires ValidTokens(ts) && CodedTokens(FixedLens(), FixedDists(), ts)
    ensures |EncodeTokens(FixedLens(), FixedDists(), ts)| <= 31 * |ts|
    ensures AllNear(ts) ==> |EncodeTokens(FixedLens(), FixedDists(), ts)| <= 24 * |ts|
  {
    hide CodedToken, EncodeToken, FixedLens, FixedDists;
    if ts != [] {
      TokenWidth(ts[0]);
      TokensWidth(ts[1..]);
    }
  }

  /** At most 9 bits for each byte that the tokens stand for. */
  lemma {:induction false} BitsPerByte(ts: seq<Token>)
    requires ValidTokens(ts) && CodedTokens(FixedLens(), FixedDists(), ts)
    ensures |EncodeTokens(FixedLens(), FixedDists(), ts)| <= 9 * TokensLength(ts)
    decreases |ts|
  {
    hide CodedToken, EncodeToken, FixedLens, FixedDists, TokenLength;
    if ts != [] {
      TokenWidth(ts[0]);
      BitsPerByte(ts[1..]);
    }
  }

  lemma EndWidth()
    ensures IsSymbol(FixedLens(), END_BLOCK) && |CodeBits(FixedLens(), END_BLOCK)| == 7
  {
  }
}
