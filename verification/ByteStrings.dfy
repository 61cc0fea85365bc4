/** Byte strings from their bits. */
module ByteStrings {
  import opened Bits

  lemma SameByte(x: byte, y: byte)
    requires BitsOf(x, 8) == BitsOf(y, 8)
    ensures x == y
  {
    hide BitsOf, Low;
    ValBitsOf(x, 8);
    ValBitsOf(y, 8);
    Pow2Values();
    LowSmall(x, 8);
    LowSmall(y, 8);
  }

  /** Bits that start with those of `h` are those of bytes that start with `h`. */
  lemma {:induction false} BytesPrefix(x: seq<byte>, h: seq<byte>, y: seq<bool>)
    requires BytesBits(x) == BytesBits(h) + y
    ensures h <= x && BytesBits(x[|h|..]) == y
    decreases |h|
  {
    hide BitsOf;
    if h == [] {
      assert BytesBits(h) + y == y;
      assert x[0..] == x;
    } else {
      assert |BytesBits(x)| == 8 * |x| && |BytesBits(h)| == 8 * |h|;
      var bx, bh := BytesBits(x), BytesBits(h);
      assert bx[..8] == BitsOf(x[0], 8) && (bh + y)[..8] == BitsOf(h[0], 8);
      SameByte(x[0], h[0]);
      assert bx[8..] == BytesBits(x[1..]) && (bh + y)[8..] == BytesBits(h[1..]) + y;
      BytesPrefix(x[1..], h[1..], y);
      assert x[1..][|h| - 1..] == x[|h|..];
    }
  }

  /** And likewise at the end. */
  lemma BytesSuffix(x: seq<byte>, z: seq<bool>, t: seq<byte>)
    requires BytesBits(x) == z + BytesBits(t) && |z| % 8 == 0
    ensures |t| <= |x| && x[|x| - |t|..] == t
  {
    hide BytesBits;
    assert 8 * |x| == |z| + 8 * |t|;
    var m := |x| - |t|;
    assert x == x[..m] + x[m..];
    BytesBitsAppend(x[..m], x[m..]);
    assert BytesBits(x[m..]) == (z + BytesBits(t))[8 * m..] == BytesBits(t);
    assert BytesBits([]) == [];
    assert BytesBits(t) + [] == BytesBits(t);
    BytesPrefix(x[m..], t, []);
  }

  lemma DropBytes(x: seq<byte>, a: seq<bool>, b: seq<bool>, n: nat)
    requires BytesBits(x) == a + b && |a| == 8 * n
    ensures n <= |x| && BytesBits(x[n..]) == b
  {
    hide BytesBits;
    assert 8 * |x| == |a| + |b|;
    assert x == x[..n] + x[n..];
    BytesBitsAppend(x[..n], x[n..]);
    assert BytesBits(x[n..]) == (a + b)[8 * n..] == b;
  }

  /** Any bits in eights are those of some bytes. */
  lemma {:induction false} AsBytes(b: seq<bool>) returns (x: seq<byte>)
    requires |b| % 8 == 0
    ensures BytesBits(x) == b
    decreases |b|
  {
    hide BitsOf, Val, Pow2;
    if b == [] {
      x := [];
    } else {
      var rest := AsBytes(b[8..]);
      BitsOfVal(b[..8]);
      ValBound(b[..8]);
      Pow2Values();
      x := [Val(b[..8]) as byte] + rest;
      assert x[1..] == rest;
    }
  }
}
