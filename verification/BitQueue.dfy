/**
 The output side of deflate as a queue of bits: bytes delivered to the caller, then
 bytes pending in pending_buf, then the valid bits of bi_buf.  Bytes are put at index
 `pending` whatever `pendingOut` is, so a put is only right when no partial flush remains.
 */
module BitQueue {
  import opened Bits

  const BUF_SIZE := 16

  /** Storing at an index of a buffer that is large enough. */
  function Store(buf: seq<byte>, i: nat, c: byte): (r: seq<byte>)
    requires i <= |buf|
    ensures |r| >= i + 1 && r[..i + 1] == buf[..i] + [c]
  {
    if i < |buf| then buf[i := c] else buf + [c]
  }

  // ---------- bits of the 16-bit buffer ----------

  lemma ByteBits(w: nat)
    requires w < Pow2(8)
    ensures w < 256 && BytesBits([w as byte]) == BitsOf(w, 8)
  {
    Pow2Values();
    assert [w as byte][1..] == [];
    assert BytesBits([]) == [];
    assert BitsOf(w, 8) + [] == BitsOf(w, 8);
  }

  lemma ShortBits(w: nat)
    requires w < 0x10000
    ensures BitsOf(w % 256, 8) + BitsOf(w / 256, 8) == BitsOf(w, 16)
  {
    hide BytesBits, BitsOf, Pow2, Shl, Shr;
    var lo, hi := w % 256, w / 256;
    Pow2Values();
    EightShift(hi);
    BitsOfAppend(lo, 8, hi, 8);
  }

  lemma EightShift(v: nat)
    ensures Shl(v, 8) == 256 * v && Shr(v, 8) == v / 256 && Low(v, 8) == v % 256
  {
    hide Shr, Low;
    ShlTimes(v, 8);
    ShlTimes(v / 256, 8);
    Pow2Values();
    ShrLowUnique(v, 8, v / 256, v % 256);
  }

  /** What send_bits does when the buffer overflows: 16 bits leave, the rest stays. */
  lemma Overflow(buf: nat, valid: nat, value: nat, length: nat)
    requires valid <= BUF_SIZE && length <= BUF_SIZE && valid + length > BUF_SIZE && buf < Pow2(valid)
    requires value < Pow2(length)
    ensures buf + Low(Shl(value, valid), BUF_SIZE) < 0x10000
    ensures Shr(value, BUF_SIZE - valid) < Pow2(valid + length - BUF_SIZE)
    ensures BitsOf(buf + Low(Shl(value, valid), BUF_SIZE), BUF_SIZE) + BitsOf(Shr(value, BUF_SIZE - valid),
            valid + length - BUF_SIZE)
         == BitsOf(buf, valid) + BitsOf(value, length)
  {
    hide Pow2, Shl, Shr, Low, BitsOf;
    var k, rest := BUF_SIZE - valid, valid + length - BUF_SIZE;
    var lo, hi := Low(value, k), Shr(value, k);
    ShrLow(value, k);
    assert Low(Shl(value, valid), BUF_SIZE) == Shl(lo, valid) by { LowOfShl(value, valid, k); }
    ShlLt(lo, Pow2(k), valid);
    ShlPow2(k, valid);
    Pow2Values();
    assert hi < Pow2(rest) by {
      ShlPow2(rest, k);
      ShrBound(value, k, Pow2(rest));
    }
    BitsOfAppend(buf, valid, lo, k);
    BitsOfSplit(value, k, rest);
    BitsOfLow(value, k, k);
    assert BitsOf(buf,
        valid) + (BitsOf(value, k) + BitsOf(hi, rest)) == (BitsOf(buf, valid) + BitsOf(value, k)) + BitsOf(hi, rest);
  }

  lemma LowOfShl(v: nat, n: nat, k: nat)
    ensures Low(Shl(v, n), n + k) == Shl(Low(v, k), n)
  {
    hide Low, Shr, Pow2;
    ShrLow(v, k);
    ShlAdd(Low(v, k), Shl(Shr(v, k), k), n);
    ShlShl(Shr(v, k), k, n);
    ShlLt(Low(v, k), Pow2(k), n);
    ShlPow2(k, n);
    assert Pow2(n) >= 1;
    ShrLowUnique(Shl(v, n), n + k, Shr(v, k), Shl(Low(v, k), n));
  }

  lemma RoomForMore(buf: nat, valid: nat, value: nat, length: nat)
    requires buf < Pow2(valid) && value < Pow2(length)
    ensures buf + Shl(value, valid) < Pow2(valid + length)
    ensures BitsOf(buf + Shl(value, valid), valid + length) == BitsOf(buf, valid) + BitsOf(value, length)
  {
    ShlLt(value, Pow2(length), valid);
    ShlPow2(length, valid);
    BitsOfAppend(buf, valid, value, length);
  }

  /** Zero bits up to the next byte boundary. */
  function Padding(n: nat): seq<bool> {
    BitsOf(0, (8 - n % 8) % 8)
  }

  lemma PadBits(buf: nat, valid: nat, n: nat)
    requires buf < Pow2(valid) && valid <= n
    ensures BitsOf(buf, n) == BitsOf(buf, valid) + BitsOf(0, n - valid)
  {
    ShlOne(valid);
    BitsOfAppend(buf, valid, 0, n - valid);
  }

  /** Bytes that send_bits puts when `held` bits are held back and `n` more are sent. */
  function PutBytes(held: nat, n: nat): nat {
    if held + n == 0 then 0 else 2 * ((held + n - 1) / 16)
  }

  /** From `from` bytes on they have come in twos, each time leaving bits behind. */
  ghost predicate Paired(from: nat, bytes: nat, held: nat) {
    from <= bytes && (bytes - from) % 2 == 0 && (from < bytes ==> held > 0)
  }

  lemma PairedPut(from: nat, b0: nat, h0: nat, b1: nat, h1: nat)
    requires Paired(from, b0, h0) && Paired(from, b1, h1) && h0 <= BUF_SIZE && h1 <= BUF_SIZE
    requires 8 * b1 + h1 >= 8 * b0 + h0
    ensures b1 == b0 + PutBytes(h0, 8 * b1 + h1 - 8 * b0 - h0)
  {
    var k0, k1 := (b0 - from) / 2, (b1 - from) / 2;
    assert 16 * k1 + h1 >= 16 * k0 + h0;
    if k1 < k0 {
      assert false;
    }
    assert h0 + (8 * b1 + h1 - 8 * b0 - h0) == 16 * (k1 - k0) + h1;
    if h1 > 0 {
      DivOf(k1 - k0, h1 - 1);
    }
  }

  lemma DivOf(k: nat, r: nat)
    requires r < 16
    ensures (16 * k + r) / 16 == k
  {
  }

  /** Sending bits in two goes puts as many bytes as sending them in one. */
  lemma PutBytesAdd(held: nat, m: nat, n: nat)
    ensures 8 * PutBytes(held, m) <= held + m
    ensures PutBytes(held, m + n) == PutBytes(held, m) + PutBytes(held + m - 8 * PutBytes(held, m), n)
  {
    if held + m > 0 {
      var k, r := (held + m - 1) / 16, (held + m - 1) % 16;
      assert held + m - 16 * k + n - 1 == r + n && held + m + n - 1 == 16 * k + (r + n);
      DivMore(k, r + n);
    }
  }

  lemma DivMore(k: nat, x: nat)
    ensures (16 * k + x) / 16 == k + x / 16
  {
    DivOf(k + x / 16, x % 16);
  }

  class Queue {
    var pendingBuf: seq<byte>
    var pending: nat
    var pendingOut: nat
    var biBuf: nat
    var biValid: nat
    ghost var delivered: seq<byte>
    ghost var from: nat        // since this many bytes only send_bits has put any, two at a time

    ghost predicate Valid()
      reads this
    {
      && pendingOut + pending <= |pendingBuf| && (pending == 0 ==> pendingOut == 0)
      && biValid <= BUF_SIZE && biBuf < Pow2(biValid) && Paired(from, |delivered| + pending, biValid)
    }

    /** No partial flush remains. */
    predicate Ready()
      reads this
    {
      pendingOut == 0
    }

    function Waiting(): seq<byte>
      requires pendingOut + pending <= |pendingBuf|
      reads this`pendingBuf, this`pendingOut, this`pending
    {
      pendingBuf[pendingOut..pendingOut + pending]
    }

    /** The bytes that have left bi_buf. */
    ghost function Bytes(): seq<byte>
      requires pendingOut + pending <= |pendingBuf|
      reads this`delivered, this`pendingBuf, this`pendingOut, this`pending
    {
      delivered + Waiting()
    }

    /** All the bits sent so far, in order. */
    ghost function Sent(): seq<bool>
      requires Valid()
      reads this
    {
      BytesBits(Bytes()) + BitsOf(biBuf, biValid)
    }

    constructor ()
      ensures Valid() && Ready() && biValid == 0 && pending == 0 && Sent() == [] && delivered == []
    {
      pendingBuf, pending, pendingOut, biBuf, biValid, delivered, from := [], 0, 0, 0, 0, [], 0;
    }

    method PutByte(c: byte)
      requires Ready() && pending <= |pendingBuf|
      modifies this`pendingBuf, this`pending
      ensures pending == old(pending) + 1 <= |pendingBuf| && Waiting() == old(Waiting()) + [c]
      ensures BytesBits(Bytes()) == old(BytesBits(Bytes())) + BitsOf(c, 8)
    {
      hide BytesBits, BitsOf, Pow2;
      ghost var d, w := delivered, Waiting();
      pendingBuf := Store(pendingBuf, pending, c);
      pending := pending + 1;
      assert Waiting() == w + [c];
      PutOne(d, w, c);
    }

    method PutShort(w: nat)
      requires w < 0x10000 && Ready() && pending <= |pendingBuf|
      modifies this`pendingBuf, this`pending
      ensures pending == old(pending) + 2 <= |pendingBuf|
      ensures Waiting() == old(Waiting()) + [(w % 256) as byte, (w / 256) as byte]
      ensures BytesBits(Bytes()) == old(BytesBits(Bytes())) + BitsOf(w, 16)
    {
      hide BytesBits, BitsOf, Waiting, Bytes;
      ghost var s := BytesBits(Bytes());
      PutByte((w % 256) as byte);
      PutByte((w / 256) as byte);
      ShortBits(w);
      assert s + BitsOf(w % 256, 8) + BitsOf(w / 256, 8) == s + BitsOf(w, 16);
    }

    /** putShortMSB, which only makes sense when no bits are held back. */
    method PutShortMSB(w: nat)
      requires w < 0x10000 && Valid() && Ready() && biValid == 0
      modifies this`pendingBuf, this`pending, this`from
      ensures Valid() && Ready() && pending == old(pending) + 2 && Sent() == old(Sent()) + BytesBits(BigEndian(w))
    {
      hide BytesBits, BitsOf, Waiting, Bytes;
      ghost var s := BytesBits(Bytes());
      NoBits(biBuf);
      PutByte((w / 256) as byte);
      PutByte((w % 256) as byte);
      from := |delivered| + pending;
      TwoBytes(s, (w / 256) as byte, (w % 256) as byte);
    }

    /** send_bits: the value is appended, low bit first. */
    method SendBits(value: nat, length: nat)
      requires Valid() && Ready() && length <= BUF_SIZE && value < Pow2(length)
      modifies this`pendingBuf, this`pending, this`biBuf, this`biValid
      ensures Valid() && Ready() && Sent() == old(Sent()) + BitsOf(value, length)
    {
      hide BitsOf, BytesBits, Pow2, Shl, Shr, Low, Waiting, Bytes;
      ghost var s := BytesBits(Bytes());
      if biValid > BUF_SIZE - length {
        Overflow(biBuf, biValid, value, length);
        ghost var tail := BitsOf(biBuf, biValid) + BitsOf(value, length);
        // the bits are disjoint, so that `|=` is addition
        biBuf := biBuf + Low(Shl(value, biValid), BUF_SIZE);
        PutShort(biBuf);
        ghost var b := biBuf;
        biBuf := Shr(value, BUF_SIZE - biValid);
        biValid := biValid + length - BUF_SIZE;
        assert s + BitsOf(b, 16) + BitsOf(biBuf, biValid) == s + tail;
      } else {
        RoomForMore(biBuf, biValid, value, length);
        biBuf := biBuf + Shl(value, biValid);
        biValid := biValid + length;
      }
    }

    /** bi_flush: keep at most 7 bits back; nothing is added. */
    method BiFlush()
      requires Valid() && Ready()
      modifies this`pendingBuf, this`pending, this`biBuf, this`biValid, this`from
      ensures Valid() && Ready() && biValid < 8 && Sent() == old(Sent())
    {
      hide BitsOf, BytesBits, Pow2, Shl, Shr, Low, Waiting, Bytes;
      Pow2Values();
      if biValid == 16 {
        PutShort(biBuf);
        biBuf := 0;
        biValid := 0;
        assert BitsOf(0, 0) == [];
      } else if biValid >= 8 {
        ghost var s := BytesBits(Bytes());
        FlushByte(biBuf, biValid);
        ghost var tail := BitsOf(biBuf, biValid);
        PutByte((biBuf % 256) as byte);
        ghost var b := biBuf;
        biBuf := biBuf / 256;
        biValid := biValid - 8;
        assert s + BitsOf(b % 256, 8) + BitsOf(biBuf, biValid) == s + tail;
      }
      from := |delivered| + pending;
    }

    /** Fewer than 8 bits held back are those after the last whole byte. */
    lemma HeldIs()
      requires Valid() && biValid < 8
      ensures biValid == |Sent()| % 8
    {
      hide BytesBits, BitsOf, Waiting, Bytes;
      assert |Sent()| == 8 * |Bytes()| + biValid;
    }

    /** The bits sent are those of whole bytes and those held back. */
    lemma SentLength()
      requires Valid()
      ensures |Sent()| == 8 * (|delivered| + pending) + biValid
    {
      hide BytesBits, BitsOf;
    }

    /** Any valid queue is where send_bits may start. */
    lemma Start()
      requires Valid()
      ensures Paired(from, |delivered| + pending, biValid) && biValid <= BUF_SIZE == 16
      ensures |Sent()| == 8 * (|delivered| + pending) + biValid
    {
      hide Sent;
      SentLength();
    }

    /** With nothing pending, all that has not been delivered is held back. */
    lemma HeldBack()
      requires Valid() && pending == 0
      ensures Sent() == BytesBits(delivered) + BitsOf(biBuf, biValid)
    {
      hide BytesBits, BitsOf;
      assert Waiting() == [];
      assert delivered + [] == delivered;
    }

    /** What send_bits has put since there were `p` bytes pending and `held` bits held back. */
    lemma PutSince(p: nat, held: nat, n: nat)
      requires Valid() && Paired(from, |delivered| + p, held) && held <= BUF_SIZE
      requires |Sent()| == 8 * (|delivered| + p) + held + n
      ensures pending == p + PutBytes(held, n)
    {
      hide Sent, BytesBits, BitsOf, PutBytes;
      SentLength();
      PairedPut(from, |delivered| + p, held, |delivered| + pending, biValid);
    }

    /** bi_windup: zero bits up to a byte boundary. */
    method BiWindup()
      requires Valid() && Ready()
      modifies this`pendingBuf, this`pending, this`biBuf, this`biValid, this`from
      ensures Valid() && Ready() && biValid == 0 && Sent() == old(Sent()) + Padding(|old(Sent())|)
      ensures Sent() == BytesBits(Bytes())
    {
      hide BitsOf, BytesBits, Pow2, Shl, Shr, Low, Waiting, Bytes, Padding;
      WindupBits(Bytes(), biBuf, biValid);
      if biValid > 8 {
        PutShort(biBuf);
      } else if biValid > 0 {
        PutByte((biBuf % 256) as byte);
      }
      biBuf := 0;
      biValid := 0;
      from := |delivered| + pending;
    }

    /** flush_pending: deliver as much as there is room for; what was sent does not change. */
    method FlushPending(availOut: nat) returns (out: seq<byte>)
      requires Valid()
      modifies this`pending, this`pendingOut, this`delivered
      ensures Valid() && Sent() == old(Sent()) && delivered == old(delivered) + out
      ensures |out| == (if old(pending) <= availOut then old(pending) else availOut)
      ensures out + Waiting() == old(Waiting())
      ensures |out| < availOut ==> Ready() && pending == 0
    {
      var len := if pending > availOut then availOut else pending;
      if len == 0 {
        return [];
      }
      out := pendingBuf[pendingOut..pendingOut + len];
      ghost var w := Waiting();
      pendingOut := pendingOut + len;
      pending := pending - len;
      if pending == 0 {
        pendingOut := 0;
      }
      delivered := delivered + out;
      assert out + Waiting() == w;
      assert delivered + Waiting() == old(delivered) + w;
    }

    /** copy_block: align, then the length and its complement if asked, then the bytes. */
    method CopyBlock(data: seq<byte>, header: bool)
      requires Valid() && Ready() && |data| < 0x10000
      modifies this`pendingBuf, this`pending, this`biBuf, this`biValid, this`from
      ensures Valid() && Ready() && biValid == 0
      ensures Sent() == old(Sent()) + Padding(|old(Sent())|)
                        + (if header then BitsOf(|data|, 16) + BitsOf(0xffff - |data|, 16) else []) + BytesBits(data)
    {
      hide BitsOf, BytesBits, Pow2, Padding, Waiting, Bytes;
      BiWindup();
      ghost var s1 := Sent();
      assert BitsOf(biBuf, 0) == [];
      if header {
        PutShort(|data|);
        PutShort(0xffff - |data|);
        from := |delivered| + pending;
      }
      ghost var s2 := BytesBits(Bytes());
      assert s2 == s1 + if header then BitsOf(|data|, 16) + BitsOf(0xffff - |data|, 16) else [];
      PutAll(data);
    }

    method PutAll(data: seq<byte>)
      requires Valid() && Ready()
      modifies this`pendingBuf, this`pending, this`from
      ensures Valid() && Ready() && BytesBits(Bytes()) == old(BytesBits(Bytes())) + BytesBits(data)
    {
      hide BytesBits, BitsOf, Pow2, Waiting, Bytes;
      ghost var s := BytesBits(Bytes());
      var n := 0;
      assert data[..0] == [] && BytesBits([]) == [];
      while n < |data|
        invariant 0 <= n <= |data| && Valid() && Ready()
        invariant BytesBits(Bytes()) == s + BytesBits(data[..n])
      {
        BytesNext(data, n);
        PutByte(data[n]);
        from := |delivered| + pending;
        n := n + 1;
      }
      assert data[..n] == data;
    }
  }

  /** The two bytes of a 16-bit number, most significant first. */
  function BigEndian(w: nat): seq<byte>
    requires w < 0x10000
  {
    [(w / 256) as byte, (w % 256) as byte]
  }

  lemma NoBits(v: nat)
    ensures BitsOf(v, 0) == []
  {
  }

  lemma TwoBytes(s: seq<bool>, x: byte, y: byte)
    ensures s + BitsOf(x, 8) + BitsOf(y, 8) + [] == s + [] + BytesBits([x, y])
  {
    hide BitsOf, BytesBits;
    assert [x, y] == [x] + [y];
    BytesBitsAppend([x], [y]);
    Pow2Values();
    ByteBits(x);
    ByteBits(y);
    assert s + BitsOf(x, 8) + BitsOf(y, 8) == s + (BitsOf(x, 8) + BitsOf(y, 8));
  }

  lemma WindupBits(out: seq<byte>, b: nat, n: nat)
    requires n <= BUF_SIZE && b < Pow2(n)
    ensures b < 0x10000 && (n <= 8 ==> b < 256) && 0 < Pow2(0)
    ensures forall v :: BitsOf(v, 0) == []
    ensures BytesBits(out) + BitsOf(b, n) + Padding(|BytesBits(out) + BitsOf(b, n)|)
         == BytesBits(out) + BitsOf(b, if n > 8 then 16 else if n > 0 then 8 else 0)
  {
    hide BytesBits, Pow2, BitsOf;
    Pow2Values();
    PadCount(|out|, n);
    assert forall v :: BitsOf(v, 0) == [];
    var m := if n > 8 then 16 else if n > 0 then 8 else 0;
    assert Pow2(n) <= Pow2(m) by { Pow2Mono(n, m); }
    PadBits(b, n, m);
    assert Padding(|BytesBits(out) + BitsOf(b, n)|) == BitsOf(0, m - n);
    assert BytesBits(out) + BitsOf(b, n) + BitsOf(0, m - n) == BytesBits(out) + (BitsOf(b, n) + BitsOf(0, m - n));
  }

  lemma PadCount(k: nat, n: nat)
    requires n <= 16
    ensures (8 - (8 * k + n) % 8) % 8 == (if n > 8 then 16 else if n > 0 then 8 else 0) - n
  {
    assert (8 * k + n) % 8 == n % 8;
  }

  lemma BytesNext(data: seq<byte>, n: nat)
    requires n < |data|
    ensures BytesBits(data[..n + 1]) == BytesBits(data[..n]) + BitsOf(data[n], 8)
  {
    hide BitsOf, BytesBits;
    assert data[..n + 1] == data[..n] + [data[n]];
    BytesBitsAppend(data[..n], [data[n]]);
    Pow2Values();
    ByteBits(data[n]);
  }

  lemma PutOne(d: seq<byte>, w: seq<byte>, c: byte)
    ensures BytesBits(d + (w + [c])) == BytesBits(d + w) + BitsOf(c, 8)
  {
    hide BitsOf, BytesBits;
    assert d + (w + [c]) == (d + w) + [c];
    BytesBitsAppend(d + w, [c]);
    Pow2Values();
    ByteBits(c);
  }

  lemma FlushByte(b: nat, v: nat)
    requires 8 <= v && b < Pow2(v)
    ensures b / 256 < Pow2(v - 8) && BitsOf(b, v) == BitsOf(b % 256, 8) + BitsOf(b / 256, v - 8)
  {
    hide BitsOf, Pow2, Shl, Shr, Low;
    EightShift(b);
    BitsOfSplit(b, 8, v - 8);
    BitsOfLow(b, 8, 8);
    ShlPow2(v - 8, 8);
    ShrBound(b, 8, Pow2(v - 8));
  }
}
