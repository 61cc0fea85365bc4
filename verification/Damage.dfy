/** What inflate and the checksums make of damaged bytes. */
module Damage {
  import opened Bits
  import opened ByteStrings
  import opened Adler32
  import opened BitQueue
  import opened InflateSpec
  import opened InflateRuns
  import Inflate
  import opened Resumption
  import opened ZlibFormat
  import opened ZlibInflate

  // ---------- the header ----------

  /** A bit more or less changes a number by its weight. */
  lemma {:induction false} ValFlip(s: seq<bool>, i: nat)
    requires i < |s|
    ensures Val(s[i := !s[i]]) == if s[i] then Val(s) - Pow2(i) else Val(s) + Pow2(i)
  {
    var t := s[i := !s[i]];
    if i == 0 {
      assert t[1..] == s[1..];
    } else {
      assert t[1..] == s[1..][i - 1 := !s[1..][i - 1]];
      ValFlip(s[1..], i - 1);
    }
  }

  /** No power of two is a multiple of 31. */
  lemma {:induction false} NotMultiple(k: nat)
    ensures Pow2(k) % 31 in {1, 2, 4, 8, 16}
  {
    if k > 0 {
      NotMultiple(k - 1);
      var q, r := Pow2(k - 1) / 31, Pow2(k - 1) % 31;
      assert Pow2(k) == 31 * (2 * q) + 2 * r;
      if r == 16 {
        assert Pow2(k) == 31 * (2 * q + 1) + 1;
      }
    }
  }

  /** One of the 16 bits of two bytes changed changes FCHECK's number by a power of two. */
  lemma TwoFlip(x: seq<byte>, y: seq<byte>, i: nat) returns (k: nat)
    requires |x| == |y| == 2 && i < 16 && BytesBits(y) == BytesBits(x)[i := !BytesBits(x)[i]]
    ensures 256 * y[0] as nat + y[1] as nat - (256 * x[0] as nat + x[1] as nat) in {Pow2(k) as int, -(Pow2(k) as int)}
  {
    hide BytesBits, BitsOf, Val, Pow2;
    TwoBytesBits(x);
    TwoBytesBits(y);
    var b, c := BytesBits(x), BytesBits(y);
    ValFlip(b[8..] + b[..8], if i < 8 then 8 + i else i - 8);
    var j := if i < 8 then 8 + i else i - 8;
    assert c[8..] + c[..8] == (b[8..] + b[..8])[j := !(b[8..] + b[..8])[j]];
    k := j;
  }

  /** The number of two bytes, the first of which counts more. */
  lemma TwoBytesBits(x: seq<byte>)
    requires |x| == 2
    ensures Val(BytesBits(x)[8..] + BytesBits(x)[..8]) == 256 * x[0] as nat + x[1] as nat
  {
    hide BitsOf, Val;
    assert x[1..] == [x[1]] && x[1..][1..] == [];
    assert BytesBits(x[1..]) == BitsOf(x[1], 8) + BytesBits([]);
    assert BytesBits([]) == [];
    assert BytesBits(x)[..8] == BitsOf(x[0], 8) && BytesBits(x)[8..] == BitsOf(x[1], 8);
    ValAppend(BitsOf(x[1], 8), BitsOf(x[0], 8));
    ValBitsOf(x[0], 8);
    ValBitsOf(x[1], 8);
    Pow2Values();
    LowSmall(x[0], 8);
    LowSmall(x[1], 8);
    ShlTimes(x[0], 8);
  }

  /** A header that is accepted, damaged in any one of its 16 bits, is not, whatever follows. */
  lemma FlippedHead(x: seq<byte>, y: seq<byte>, i: nat)
    requires |x| >= 2 && |y| >= 2 && i < 16
    requires BytesBits(y[..2]) == BytesBits(x[..2])[i := !BytesBits(x[..2])[i]]
    requires HeadOk(x[0], x[1])
    ensures ZlibDecoded(y) == Outcome(FAILED, [])
  {
    hide *;
    var k := TwoFlip(x[..2], y[..2], i);
    NotMultiple(k);
    CheckBits(x[0], x[1]);
    CheckBits(y[0], y[1]);
    if HeadOk(y[0], y[1]) {
      OffMultiple(256 * x[0] as nat + x[1] as nat, 256 * y[0] as nat + y[1] as nat, Pow2(k));
    }
    HeadFailed(y);
  }

  lemma CheckBits(cmf: byte, flg: byte)
    ensures HeadOk(cmf, flg) ==> (256 * cmf as nat + flg as nat) % 31 == 0
  {
  }

  lemma OffMultiple(m: nat, n: nat, d: nat)
    requires m % 31 == 0 && n % 31 == 0 && n - m in {d as int, -(d as int)}
    ensures d % 31 == 0
  {
    var p, q := m / 31, n / 31;
    assert m == 31 * p && n == 31 * q;
    assert d == 31 * (if q >= p then q - p else p - q);
  }

  // ---------- the trailer ----------

  /** After the blocks four bytes end the stream if and only if they are the checksum; all others fail. */
  lemma OnlyTrailer(x: seq<byte>, z: seq<byte>)
    requires |x| >= 2 && HeadOk(x[0], x[1]) && !HasDict(x[1]) && |z| == 4
    requires Resumption.Decoded(x[2..]).mode == DONE && Resumption.Decoded(x[2..]).bits == []
    ensures ZlibDecoded(x + z)
            == Outcome(if z == TrailerOf(Resumption.Decoded(x[2..]).out) then END else FAILED,
                Resumption.Decoded(x[2..]).out)
  {
    hide *;
    var y := x[2..];
    var a := Resumption.Decoded(y);
    MoreSeen(x, z);
    Inflate.StartFits();
    DecodedIs(y);
    FinishLeads(Feed(InflateSpec.Start(), BytesBits(y)));
    assert (y + z)[..|y|] == y && (y + z)[|y|..] == z;
    Prefix(y + z, |y|, a);
    FeedIs(a, BytesBits(z));
    assert [] + BytesBits(z) == BytesBits(z);
    assert |BytesBits(z)| == 32;
    assert (x + z)[2..] == y + z;
    TrailerRead(x + z, Feed(a, BytesBits(z)));
    if BytesBits(z) == BytesBits(TrailerOf(a.out)) {
      BytesSame(z, TrailerOf(a.out));
    }
  }

  lemma DecodedIs(y: seq<byte>)
    ensures Resumption.Decoded(y) == Finish(Feed(InflateSpec.Start(), BytesBits(y)))
  {
  }

  lemma BytesSame(x: seq<byte>, y: seq<byte>)
    requires BytesBits(x) == BytesBits(y)
    ensures x == y
  {
    hide BytesBits;
    assert BytesBits(y) == BytesBits(x) + [];
    BytesPrefix(y, x, []);
    assert |BytesBits(x)| == 8 * |x| && |BytesBits(y)| == 8 * |y|;
  }

  // ---------- the checksum ----------

  /** One byte changed changes the first of the two sums. */
  lemma {:induction false} FirstSumMoves(a: nat, x: seq<byte>, i: nat, c: byte)
    requires a < BASE && i < |x|
    ensures S1(a, x[i := c]) == (S1(a, x) - x[i] + c) % BASE
    decreases |x|
  {
    var n := |x| - 1;
    var y := x[i := c];
    if i == n {
      assert y[..n] == x[..n];
      Moved(S1(a, x[..n]), x[n], c);
    } else {
      assert y[..n] == x[..n][i := c] && y[n] == x[n];
      FirstSumMoves(a, x[..n], i, c);
      MovedOn(S1(a, x[..n]), x[i], c, x[n]);
    }
  }

  lemma Moved(s: int, b: byte, c: byte)
    ensures (s + c) % BASE == ((s + b) % BASE - b + c) % BASE
  {
    var q := (s + b) / BASE;
    MultipleCong(s + c - q * BASE, q);
  }

  lemma MovedOn(s: int, b: byte, c: byte, d: byte)
    ensures ((s - b + c) % BASE + d) % BASE == ((s + d) % BASE - b + c) % BASE
  {
    var q, r := (s - b + c) / BASE, (s + d) / BASE;
    MultipleCong(s - b + c + d - q * BASE, q);
    MultipleCong(s + d - b + c - r * BASE, r);
  }

  /** Any one byte changed changes the Adler-32 checksum. */
  lemma AdlerNotices(x: seq<byte>, i: nat, c: byte)
    requires i < |x| && c != x[i]
    ensures AdlerOf(x[i := c]) != AdlerOf(x)
  {
    hide S1, S2;
    FirstSumMoves(1, x, i, c);
    SumsBound(x);
    SumsBound(x[i := c]);
  }
}
