/** The rolling hash over the bytes of the window. */
module RollingHash {
  import opened Bits
  import opened HashLaws

  /** A byte as a bit vector. */
  function BvOf(c: nat): bv8 {
    if c == 0 then 0 else BvOf(c - 1) + 1
  }

  function Bv(c: byte): bv8 {
    BvOf(c)
  }

  function BvInt(b: bv8): int {
    b as int
  }

  lemma BvSucc(x: bv8)
    requires BvInt(x) < 255
    ensures BvInt(x + 1) == BvInt(x) + 1
  {
    assert x != 0xff;
    Successor(x);
  }

  lemma Successor(x: bv8)
    requires x != 0xff
    ensures (x + 1) as int == x as int + 1
  {
  }

  lemma {:induction false} BvBack(c: nat)
    requires c < 256
    ensures BvInt(BvOf(c)) == c
  {
    if c > 0 {
      hide BvInt;
      BvBack(c - 1);
      BvSucc(BvOf(c - 1));
    }
  }

  lemma BvInjective(c: byte, d: byte)
    requires Bv(c) == Bv(d)
    ensures c == d
  {
    hide BvInt, BvOf;
    BvBack(c);
    BvBack(d);
  }

  /** UPDATE_HASH with the next byte. */
  function Next(bits: nat, h: bv32, c: byte): bv32 {
    Update(bits, h, Bv(c))
  }

  /** The hash of a single byte, before any update. */
  function First(c: byte): bv32 {
    Bv(c) as bv32
  }

  function HashOf(bits: nat, x: byte, y: byte, z: byte): bv32 {
    Next(bits, Next(bits, First(x), y), z)
  }

  /** Index in `head`. */
  function Bucket(h: bv32): nat {
    h as nat
  }

  lemma BucketBound(bits: nat, h: bv32, c: byte)
    requires HashBits(bits)
    ensures Bucket(Next(bits, h, c)) < HashSize(bits)
  {
    hide InMask, HashMask, HashSize, Update;
    UpdateFits(bits, h, Bv(c));
    BucketFits(bits, Next(bits, h, c));
  }

  /** With the next byte `h` becomes the hash of that byte and the two before it. */
  ghost predicate Rolls(bits: nat, h: bv32, x: byte, y: byte) {
    forall c: byte :: Next(bits, h, c) == HashOf(bits, x, y, c)
  }

  lemma RollStart(bits: nat, x: byte, y: byte)
    ensures Rolls(bits, Next(bits, First(x), y), x, y)
  {
    hide Next, First;
  }

  lemma RollOn(bits: nat, h: bv32, x: byte, y: byte, c: byte)
    requires HashBits(bits) && Rolls(bits, h, x, y)
    ensures Rolls(bits, Next(bits, h, c), y, c)
  {
    hide Update, Bv;
    forall d: byte ensures Next(bits, Next(bits, h, c), d) == HashOf(bits, y, c, d) {
      assert Next(bits, h, c) == HashOf(bits, x, y, c);
      OldestDrops(bits, Bv(x), Bv(y), Bv(c), Bv(d));
    }
  }

  lemma SameThird(bits: nat, x: byte, y: byte, z: byte, w: byte)
    requires HashBits(bits) && HashOf(bits, x, y, z) == HashOf(bits, x, y, w)
    ensures z == w
  {
    hide Update, Bv;
    ThirdByte(bits, Bv(x), Bv(y), Bv(z), Bv(w));
    BvInjective(z, w);
  }
}
