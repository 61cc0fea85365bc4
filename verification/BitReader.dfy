/** The input side of inflate: the accumulator `hold` and the macros that work on it. */
module BitReader {
  import opened Bits
  import opened BitQueue

  lemma {:induction false} BytesTail(input: seq<byte>, n: nat)
    requires n < |input|
    ensures BytesBits(input[n..]) == BitsOf(input[n], 8) + BytesBits(input[n + 1..])
  {
    hide BitsOf;
    assert input[n..][1..] == input[n + 1..];
  }

  /** A byte added above the bits held is the next byte of the stream. */
  lemma PullBits(hold: nat, bits: nat, b: byte)
    requires hold < Pow2(bits)
    ensures hold + Shl(b, bits) < Pow2(bits + 8)
    ensures BitsOf(hold + Shl(b, bits), bits + 8) == BitsOf(hold, bits) + BitsOf(b, 8)
  {
    hide BitsOf, Shl, Pow2;
    Pow2Values();
    RoomForMore(hold, bits, b, 8);
  }

  lemma DropHeld(hold: nat, bits: nat, n: nat)
    requires hold < Pow2(bits) && n <= bits
    ensures Shr(hold, n) < Pow2(bits - n) && BitsOf(Shr(hold, n), bits - n) == BitsOf(hold, bits)[n..]
    ensures Low(hold, n) == Val(BitsOf(hold, bits)[..n]) && BitsOf(hold, bits)[..n] == BitsOf(hold, n)
  {
    hide BitsOf, Shl, Shr, Pow2, Val, Low;
    ShlPow2(bits - n, n);
    ShrBound(hold, n, Pow2(bits - n));
    BitsOfSplit(hold, n, bits - n);
    ValBitsOf(hold, n);
    assert BitsOf(hold, bits)[..n] == BitsOf(hold, n);
  }

  class Reader {
    var input: seq<byte>
    var next: nat
    var hold: nat
    var bits: nat

    ghost predicate Valid()
      reads this
    {
      next <= |input| && bits <= 32 && hold < Pow2(bits)
    }

    /** The bits in the accumulator. */
    ghost function Held(): (s: seq<bool>)
      reads this`hold, this`bits
      ensures |s| == bits
    {
      BitsOf(hold, bits)
    }

    /** All the bits still to be decoded. */
    ghost function Stream(): seq<bool>
      requires next <= |input|
      reads this
    {
      Held() + BytesBits(input[next..])
    }

    constructor ()
      ensures Valid() && input == [] && next == 0 && bits == 0 && Stream() == []
    {
      input, next, hold, bits := [], 0, 0, 0;
      new;
      Pow2Values();
    }

    /** PULLBYTE, when there is a byte. */
    method PullByte()
      requires Valid() && next < |input| && bits <= 24
      modifies this`next, this`hold, this`bits
      ensures Valid() && Stream() == old(Stream()) && bits == old(bits) + 8 && next == old(next) + 1
      ensures old(Held()) <= Held()
    {
      hide BitsOf, BytesBits, Pow2, Shl;
      ghost var h, rest := Held(), BytesBits(input[next + 1..]);
      BytesTail(input, next);
      PullBits(hold, bits, input[next]);
      ghost var b := input[next];
      hold := hold + Shl(input[next], bits);
      bits := bits + 8;
      next := next + 1;
      assert h + (BitsOf(b, 8) + rest) == (h + BitsOf(b, 8)) + rest;
    }

    /** NEEDBITS: false when the input runs out first. */
    method NeedBits(n: nat) returns (ok: bool)
      requires Valid() && (n <= 25 || (n == 32 && bits % 8 == 0))
      modifies this`next, this`hold, this`bits
      ensures Valid() && Stream() == old(Stream()) && old(Held()) <= Held() && bits >= old(bits)
      ensures next >= old(next) && 8 * (next - old(next)) == bits - old(bits)
      ensures if ok then bits >= n && (bits == old(bits) || bits < n + 8) else next == |input| && bits < n
    {
      while bits < n
        invariant Valid() && Stream() == old(Stream()) && old(Held()) <= Held() && bits >= old(bits)
        invariant next >= old(next) && 8 * (next - old(next)) == bits - old(bits)
        invariant bits == old(bits) || bits < n + 8
        decreases |input| - next
      {
        hide BitsOf, BytesBits, Pow2;
        if next == |input| {
          return false;
        }
        PullByte();
      }
      ok := true;
    }

    /** BITS: the n next bits as a number. */
    function BitsAt(n: nat): (v: nat)
      reads this
      ensures v < Pow2(n)
    {
      Low(hold, n)
    }

    lemma BitsAtIs(n: nat)
      requires Valid() && n <= bits
      ensures |Stream()| >= n && BitsAt(n) == Val(Stream()[..n]) && Stream()[..n] == Held()[..n]
    {
      hide BitsOf, BytesBits, Pow2, Low, Val;
      DropHeld(hold, bits, n);
      assert Stream()[..n] == Held()[..n];
    }

    /** DROPBITS. */
    method DropBits(n: nat)
      requires Valid() && n <= bits
      modifies this`hold, this`bits
      ensures Valid() && |old(Stream())| >= n && Stream() == old(Stream())[n..] && bits == old(bits) - n
      ensures Held() == old(Held())[n..] && hold == Shr(old(hold), n)
    {
      hide BitsOf, BytesBits, Pow2, Low, Val, Shr;
      DropHeld(hold, bits, n);
      hold := Shr(hold, n);
      bits := bits - n;
    }

    /** BYTEBITS: go to a byte boundary. */
    method ByteBits()
      requires Valid()
      modifies this`hold, this`bits
      ensures Valid() && bits % 8 == 0 && bits <= old(bits) && Held() == old(Held())[|old(Stream())| % 8..]
      ensures |old(Stream())| % 8 == old(bits) % 8 && Stream() == old(Stream())[|old(Stream())| % 8..]
    {
      hide BitsOf, BytesBits, Pow2;
      assert |Stream()| == bits + 8 * |input[next..]|;
      ModOf(bits, |input[next..]|);
      DropBits(bits % 8);
    }

    /** INITBITS: everything held has been used. */
    method InitBits()
      requires Valid()
      modifies this`hold, this`bits
      ensures Valid() && bits == 0 && Held() == [] && Stream() == old(Stream())[old(bits)..]
    {
      hide BytesBits;
      hold := 0;
      bits := 0;
    }
  }

  lemma ModOf(a: nat, b: nat)
    ensures (a + 8 * b) % 8 == a % 8
  {
  }
}
