/**
 The comment at deflate.c:232-235 has pending_buf and the tokens share memory because a token takes at
 most 24 bits on average.  Here is a block whose tokens take 26, and what becomes of it.
 */
module FarMatches {
  import opened Bits
  import opened CanonicalCode
  import opened CodeTables
  import opened InfTrees
  import opened Tokens
  import opened FixedCode
  import opened InflateSpec
  import opened DataDecode
  import opened StreamDecode
  import opened StaticTables
  import opened BitQueue
  import opened CompressBlock
  import opened Overlay

  /** lit_bufsize with memLevel 8. */
  const SIZE := 16384

  /** As many tokens as a block can have. */
  const MANY := 16383

  /** The first of them that the output reaches before it is read. */
  const REACHED := 13109

  /** A match of 258 bytes from 20000 bytes back. */
  const FAR := Token(20000, 255)

  function Many(n: nat): seq<Token> {
    seq(n, _ => FAR)
  }

  // ---------- the bits of one ----------

  lemma FarCodes()
    ensures LengthCode(255) == 28 && DistanceCode(20000) == 28 && DistExtra(28) == 13 && LenExtra(28) == 0
  {
    Pow2Values();
    ShlTimes(2, 13);
    ShlTimes(3, 13);
  }

  /** 26 bits, of which the tenth, the second of the distance code, is set. */
  lemma FarBits()
    ensures CodedToken(FixedLens(), FixedDists(), FAR)
    ensures var b := EncodeToken(FixedLens(), FixedDists(), FAR); |b| == 26 && b[9]
  {
    hide LengthCode, DistanceCode, LenBase, DistBase, Code, Pow2;
    FarCodes();
    LengthCodeFits(255);
    DistanceCodeFits(20000);
    FlatCodes(32, 28);
    assert FixedDists()[..32] == FixedDists();
    TwentyEight();
    assert LengthBits(FixedLens(), 255) == CodeBits(FixedLens(), 285) + [];
    assert |CodeBits(FixedLens(), 285)| == 8;
  }

  lemma TwentyEight()
    ensures MBits(28, 5)[1]
  {
    assert MBits(3, 2) == MBits(1, 1) + [true];
    assert MBits(7, 3) == MBits(3, 2) + [true];
    assert MBits(14, 4) == MBits(7, 3) + [false];
    assert MBits(28, 5) == MBits(14, 4) + [false];
  }

  /** The bits of many, one after the other. */
  lemma {:induction false} ManyBits(n: nat)
    ensures CodedTokens(FixedLens(), FixedDists(), Many(n))
    ensures |EncodeTokens(FixedLens(), FixedDists(), Many(n))| == 26 * n
    ensures forall k: nat :: k < n ==> EncodeTokens(FixedLens(), FixedDists(), Many(n))[26 * k + 9]
  {
    hide EncodeToken, CodedToken, FixedLens, FixedDists;
    FarBits();
    if n > 0 {
      ManyBits(n - 1);
      assert Many(n)[1..] == Many(n - 1);
      var rest := EncodeTokens(FixedLens(), FixedDists(), Many(n - 1));
      var all := EncodeTokens(FixedLens(), FixedDists(), Many(n));
      assert all == EncodeToken(FixedLens(), FixedDists(), FAR) + rest;
      forall k: nat | k < n ensures all[26 * k + 9] {
        if k > 0 {
          assert all[26 * k + 9] == rest[26 * (k - 1) + 9];
        }
      }
    }
  }

  // ---------- the block ----------

  lemma ManyPut(lx: nat, held: nat)
    requires lx < MANY
    ensures CodedTokens(FixedLens(), FixedDists(), Many(MANY))
    ensures PutBefore(FixedLens(), FixedDists(), Many(MANY), lx, 3, held) == PutBytes(held, 3 + 26 * lx)
  {
    hide CodedToken, EncodeTokens, FixedLens, FixedDists, PutBytes;
    ManyBits(MANY);
    ManyBits(lx);
    assert Many(MANY)[..lx] == Many(lx);
  }

  /** With nothing pending, whatever bits are held back, the block loses tokens. */
  lemma FarMatchesSpoilt(held: nat)
    requires held <= BUF_SIZE
    ensures |Many(MANY)| < SIZE && BlockOk(Fixed(Many(MANY))) && !Clear(Fixed(Many(MANY)), 0, held, SIZE)
  {
    hide CodedTokens, PutBefore, FixedLens, FixedDists;
    ManyPut(REACHED, held);
  }

  /** With no bits held back, the first token reached is this one. */
  lemma FirstReached(lx: nat)
    requires lx <= REACHED
    ensures CodedTokens(FixedLens(), FixedDists(), Many(MANY))
    ensures PutBefore(FixedLens(), FixedDists(), Many(MANY), lx, 3, 0) <= SIZE + 2 * lx <==> lx < REACHED
    ensures lx == REACHED ==> PutBefore(FixedLens(), FixedDists(), Many(MANY), lx, 3, 0) == SIZE + 2 * lx + 2
  {
    hide CodedTokens, PutBefore, FixedLens, FixedDists;
    ManyPut(lx, 0);
  }

  lemma FifthBit(v: nat)
    ensures BitsOf(v, 8)[4] == (v / 16 % 2 == 1)
  {
    assert BitsOf(v, 8)[4] == BitsOf(v / 2, 7)[3];
    assert BitsOf(v / 2, 7)[3] == BitsOf(v / 2 / 2, 6)[2];
    assert BitsOf(v / 2 / 2, 6)[2] == BitsOf(v / 2 / 2 / 2, 5)[1];
    assert BitsOf(v / 2 / 2 / 2, 5)[1] == BitsOf(v / 2 / 2 / 2 / 2, 4)[0];
  }

  /** The fifth bit of each byte. */
  lemma {:induction false} FifthOf(x: seq<byte>, i: nat)
    requires i < |x|
    ensures BytesBits(x)[8 * i + 4] == (x[i] / 16 % 2 == 1)
  {
    hide BitsOf;
    if i > 0 {
      FifthOf(x[1..], i - 1);
      assert BytesBits(x)[8 * i + 4] == BytesBits(x[1..])[8 * (i - 1) + 4];
    } else {
      FifthBit(x[0]);
    }
  }

  /**
   And it is not read as it was tallied: after the bytes of the block so far, `out`, its distance has
   a byte with the fifth bit set, which is clear in both bytes of 20000, whatever the byte order.
   */
  lemma FarMatchChanged(mem: seq<byte>, out: seq<byte>, eof: bool, big: bool)
    requires |mem| == 4 * SIZE && CodedTokens(FixedLens(), FixedDists(), Many(MANY))
    requires |out| == PutBefore(FixedLens(), FixedDists(), Many(MANY), REACHED, 3, 0)
    requires CodedTokens(FixedLens(), FixedDists(), Many(REACHED))
    requires BytesBits(out) <= [eof, true, false] + EncodeTokens(FixedLens(), FixedDists(), Many(REACHED))
    ensures !Holds(Put(mem, out), SIZE, REACHED, FAR, big)
  {
    hide CodedTokens, PutBefore, FixedLens, FixedDists, BytesBits, EncodeTokens;
    FirstReached(REACHED);
    ManyBits(REACHED);
    var at := SIZE + 2 * REACHED;
    FifthOf(out, at);
    assert 8 * at + 4 == 3 + (26 * (REACHED - 1) + 9);
    assert BytesBits(out)[8 * at + 4]
           == ([eof, true, false] + EncodeTokens(FixedLens(), FixedDists(), Many(REACHED)))[8 * at + 4];
    assert Put(mem, out)[at] == out[at];
    assert Put(mem, out)[at..at + 2][0] == out[at];
  }
}
