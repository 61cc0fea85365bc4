/**
 inflate of the zlib format: HEAD, DICTID and CHECK around the modes for the blocks, and the running
 checksum of what is written.
 */
module ZlibInflate {
  import opened Bits
  import opened ByteStrings
  import opened Adler32
  import opened BitQueue
  import opened BitReader
  import opened InflateSpec
  import opened InflateRuns
  import opened Inflate
  import opened Resumption
  import opened ZlibFormat

  // ---------- numbers in the accumulator ----------

  lemma SameNumber(x: nat, y: nat, n: nat)
    requires x < Pow2(n) && y < Pow2(n) && BitsOf(x, n) == BitsOf(y, n)
    ensures x == y
  {
    hide BitsOf, Low, Pow2;
    ValBitsOf(x, n);
    ValBitsOf(y, n);
    LowSmall(x, n);
    LowSmall(y, n);
  }

  lemma TwoBits(a: byte, b: byte)
    ensures a as nat + 256 * b as nat < Pow2(16) && BitsOf(a as nat + 256 * b as nat, 16) == BytesBits([a, b])
  {
    hide BitsOf, BytesBits;
    var w := a as nat + 256 * b as nat;
    Pow2Values();
    assert w % 256 == a as nat && w / 256 == b as nat;
    ShortBits(w);
    assert [a, b] == [a] + [b];
    BytesBitsAppend([a], [b]);
    ByteBits(a);
    ByteBits(b);
  }

  /** Two bytes in the accumulator, the first one lowest. */
  lemma TwoHeld(hold: nat, a: byte, b: byte)
    requires hold < Pow2(16) && BitsOf(hold, 16) == BytesBits([a, b])
    ensures hold == a as nat + 256 * b as nat
  {
    hide BitsOf, BytesBits, Pow2;
    TwoBits(a, b);
    SameNumber(hold, a as nat + 256 * b as nat, 16);
  }

  /** Four bytes as a number, the first one lowest. */
  function Little(a: byte, b: byte, c: byte, d: byte): nat {
    a as nat + 256 * b as nat + 0x10000 * (c as nat + 256 * d as nat)
  }

  lemma FourBits(a: byte, b: byte, c: byte, d: byte)
    ensures Little(a, b, c, d) < Pow2(32) && BitsOf(Little(a, b, c, d), 32) == BytesBits([a, b, c, d])
  {
    hide BitsOf, BytesBits, Pow2, Shl;
    var lo, hi := a as nat + 256 * b as nat, c as nat + 256 * d as nat;
    TwoBits(a, b);
    TwoBits(c, d);
    BitsOfAppend(lo, 16, hi, 16);
    ShlTimes(hi, 16);
    Pow2Values();
    Pow32();
    assert [a, b, c, d] == [a, b] + [c, d];
    BytesBitsAppend([a, b], [c, d]);
  }

  lemma Pow32()
    ensures Pow2(32) == 0x1_0000_0000
  {
    assert Pow2(16) == 0x10000 by { Pow2Values(); }
    assert Pow2(20) == 0x10_0000;
    assert Pow2(24) == 0x100_0000;
    assert Pow2(28) == 0x1000_0000;
  }

  /** REVERSE: the bytes of a 32-bit number in the opposite order. */
  function Reverse(q: nat): nat {
    q / 0x100_0000 % 256 + q / 0x1_0000 % 256 * 0x100 + q / 0x100 % 256 * 0x1_0000 + q % 256 * 0x100_0000
  }

  lemma LowByte(r: nat, k: nat)
    requires r < 256
    ensures (r + 256 * k) / 256 == k && (r + 256 * k) % 256 == r
  {
  }

  lemma ReverseSteps(q: nat)
    ensures var x := q / 256;
            Reverse(q) == x / 256 / 256 % 256 + x / 256 % 256 * 0x100 + x % 256 * 0x1_0000 + q % 256 * 0x100_0000
  {
    assert q / 0x1_0000 == q / 256 / 256;
    assert q / 0x100_0000 == q / 0x1_0000 / 256;
  }

  lemma ReverseLittle(a: byte, b: byte, c: byte, d: byte)
    ensures Reverse(Little(a, b, c, d))
            == d as nat + 256 * c as nat + 0x1_0000 * b as nat + 0x100_0000 * a as nat
  {
    hide Reverse;
    var t := c as nat + 256 * d as nat;
    var x := b as nat + 256 * t;
    assert Little(a, b, c, d) == a as nat + 256 * x;
    LowByte(a as nat, x);
    LowByte(b as nat, t);
    LowByte(c as nat, d as nat);
    LowByte(d as nat, 0);
    ReverseSteps(Little(a, b, c, d));
  }

  /** The four bytes of the checksum, most significant first, are the checksum reversed. */
  lemma TrailerReversed(s: seq<byte>, hold: nat)
    requires hold < Pow2(32)
    ensures Reverse(hold) == AdlerOf(s) <==> BitsOf(hold, 32) == BytesBits(TrailerOf(s))
  {
    hide BitsOf, BytesBits, Pow2, AdlerOf, Reverse, Little;
    var t, n := TrailerOf(s), AdlerOf(s);
    assert t == [t[0], t[1], t[2], t[3]];
    Pow32();
    FourBits(t[0], t[1], t[2], t[3]);
    ReverseLittle(t[0], t[1], t[2], t[3]);
    BigBytes(n);
    if BitsOf(hold, 32) == BytesBits(t) {
      SameNumber(hold, Little(t[0], t[1], t[2], t[3]), 32);
    }
    if Reverse(hold) == n {
      Digits(hold, n);
    }
  }

  /** The four bytes after the header, in the accumulator, as the number they stand for. */
  lemma DictNumber(hold: nat, s: seq<byte>)
    requires hold < Pow2(32) && |s| == 6 && BitsOf(hold, 32) == BytesBits(s[2..])
    ensures Reverse(hold) == s[5] as nat + 256 * s[4] as nat + 0x1_0000 * s[3] as nat + 0x100_0000 * s[2] as nat
  {
    hide BitsOf, BytesBits, Pow2, Reverse, Little;
    assert s[2..] == [s[2], s[3], s[4], s[5]];
    FourBits(s[2], s[3], s[4], s[5]);
    SameNumber(hold, Little(s[2], s[3], s[4], s[5]), 32);
    ReverseLittle(s[2], s[3], s[4], s[5]);
  }

  lemma BigBytes(n: nat)
    requires n < 0x1_0000_0000
    ensures n / 0x10000 < 0x10000
    ensures var t := BigEndian(n / 0x10000) + BigEndian(n % 0x10000);
            |t| == 4 && n == t[3] as nat + 256 * t[2] as nat + 0x1_0000 * t[1] as nat + 0x100_0000 * t[0] as nat
  {
  }

  /** A number is known from its reverse. */
  lemma Digits(hold: nat, n: nat)
    requires hold < 0x1_0000_0000 && n < 0x1_0000_0000 && Reverse(hold) == n
    ensures var t := BigEndian(n / 0x10000) + BigEndian(n % 0x10000); hold == Little(t[0], t[1], t[2], t[3])
  {
    hide Reverse;
    var a, b := (hold % 256) as byte, (hold / 0x100 % 256) as byte;
    var c, d := (hold / 0x1_0000 % 256) as byte, (hold / 0x100_0000) as byte;
    assert hold == Little(a, b, c, d) by { hide Reverse; FromDigits(hold); }
    ReverseLittle(a, b, c, d);
    BigBytes(n);
    var t := BigEndian(n / 0x10000) + BigEndian(n % 0x10000);
    SameDigits(d, c, b, a, t[3], t[2], t[1], t[0]);
  }

  lemma FromDigits(h: nat)
    requires h < 0x1_0000_0000
    ensures h == h % 256 + 256 * (h / 0x100 % 256) + 0x10000 * (h / 0x1_0000 % 256 + 256 * (h / 0x100_0000))
    ensures h / 0x100_0000 < 256
  {
    assert h / 0x1_0000 == h / 0x100 / 256 && h / 0x100_0000 == h / 0x1_0000 / 256;
  }

  lemma SameDigits(a: byte, b: byte, c: byte, d: byte, e: byte, f: byte, g: byte, h: byte)
    requires a as nat + 256 * b as nat + 0x1_0000 * c as nat + 0x100_0000 * d as nat
          == e as nat + 256 * f as nat + 0x1_0000 * g as nat + 0x100_0000 * h as nat
    ensures a == e && b == f && c == g && d == h
  {
  }

  lemma FourShift(v: nat)
    ensures Shr(v, 4) == v / 16 && Low(v, 4) == v % 16
  {
    hide Shr, Low;
    ShlTimes(v / 16, 4);
    Pow2Values();
    ShrLowUnique(v, 4, v / 16, v % 16);
  }

  /** The tests of HEAD on two bytes in the accumulator. */
  lemma HeadReads(hold: nat, cmf: byte, flg: byte)
    requires hold == cmf as nat + 256 * flg as nat
    ensures Low(hold, 8) == cmf as nat && Shr(hold, 8) == flg as nat && Low(hold, 4) == cmf as nat % 16
    ensures Low(Shr(hold, 4), 4) == cmf as nat / 16 && Shr(hold, 4) / 0x200 % 2 == flg as nat / 32 % 2
  {
    hide Low, Shr;
    EightShift(hold);
    FourShift(hold);
    FourShift(hold / 16);
    HighNibble(cmf as nat, flg as nat);
  }

  lemma HighNibble(a: nat, b: nat)
    requires a < 256 && b < 256
    ensures (a + 256 * b) % 256 == a && (a + 256 * b) / 256 == b && (a + 256 * b) % 16 == a % 16
    ensures (a + 256 * b) / 16 % 16 == a / 16 && (a + 256 * b) / 16 / 0x200 == b / 32
  {
    assert (a + 256 * b) / 16 == a / 16 + 16 * b;
    assert (a / 16 + 16 * b) / 0x200 == b / 32;
  }

  lemma MoreSeen(s: seq<byte>, x: seq<byte>)
    requires |s| >= 2
    ensures (s + x)[2..] == s[2..] + x && (s + x)[0] == s[0] && (s + x)[1] == s[1]
    ensures BytesBits((s + x)[2..]) == BytesBits(s[2..]) + BytesBits(x)
  {
    hide BytesBits;
    BytesBitsAppend(s[2..], x);
    assert (s + x)[2..] == s[2..] + x;
  }

  /** Where the machine has stopped for good is what the bytes decode to. */
  lemma DoneDecoded(seen: seq<byte>, a: State)
    requires |seen| >= 2 && Leads(Feed(InflateSpec.Start(), BytesBits(seen[2..])), a)
    requires a.mode in {InflateSpec.DONE, InflateSpec.BAD}
    ensures Resumption.Decoded(seen[2..]) == a
  {
    hide Leads, BytesBits, Step, Finish, Feed;
    LeadsFinish(Feed(InflateSpec.Start(), BytesBits(seen[2..])), a);
    Stopped(a, []);
    FeedNone(a);
  }

  lemma HeadFailed(seen: seq<byte>)
    requires |seen| >= 2 && !HeadOk(seen[0], seen[1])
    ensures ZlibDecoded(seen) == Outcome(FAILED, [])
  {
    hide HeadOk;
  }

  lemma HeadDict(seen: seq<byte>)
    requires |seen| >= 6 && HeadOk(seen[0], seen[1]) && HasDict(seen[1])
    ensures ZlibDecoded(seen) == Outcome(DICT, [])
  {
    hide HeadOk, HasDict;
  }

  lemma BlocksFailed(seen: seq<byte>, a: State)
    requires |seen| >= 2 && HeadOk(seen[0], seen[1]) && !HasDict(seen[1])
    requires Resumption.Decoded(seen[2..]) == a && a.mode == InflateSpec.BAD
    ensures ZlibDecoded(seen) == Outcome(FAILED, a.out)
  {
    hide HeadOk, HasDict, Resumption.Decoded;
  }

  /** Once done, more input only adds to what is left. */
  lemma StillDone(x: seq<byte>, a: State, y: seq<byte>)
    requires Leads(Feed(InflateSpec.Start(), BytesBits(x)), a)
    ensures Leads(Feed(InflateSpec.Start(), BytesBits(x + y)), Feed(a, BytesBits(y)))
  {
    hide *;
    StartFits();
    LeadsSelf(Feed(a, BytesBits(y)));
    Continue(InflateSpec.Start(), x, a, y, Feed(a, BytesBits(y)));
  }

  lemma FeedIs(a: State, x: seq<bool>)
    ensures Feed(a, x) == a.(bits := a.bits + x)
  {
  }

  lemma PulledMore(h: seq<bool>, input: seq<byte>, k: nat, h': seq<bool>)
    requires k <= |input| && h + BytesBits(input) == h' + BytesBits(input[k..])
    ensures h' == h + BytesBits(input[..k])
  {
    hide BytesBits;
    assert input == input[..k] + input[k..];
    BytesBitsAppend(input[..k], input[k..]);
    var x, y := BytesBits(input[..k]), BytesBits(input[k..]);
    assert h + (x + y) == (h + x) + y;
    assert h' == (h' + y)[..|h'|] && h + x == (h + x + y)[..|h + x|];
  }

  /** With 32 bits left the trailer decides. */
  lemma TrailerRead(seen: seq<byte>, a: State)
    requires |seen| >= 2 && HeadOk(seen[0], seen[1]) && !HasDict(seen[1])
    requires Resumption.Decoded(seen[2..]) == a && a.mode == InflateSpec.DONE && |a.bits| == 32
    ensures ZlibDecoded(seen) == Outcome(if a.bits == BytesBits(TrailerOf(a.out)) then END else FAILED, a.out)
  {
    hide HeadOk, HasDict, Resumption.Decoded, BytesBits, TrailerOf;
    TrailerLength(a.out);
    if BytesBits(TrailerOf(a.out)) <= a.bits {
      assert a.bits == a.bits[..32];
    }
  }

  /** inflate for windowBits of 15 without gzip. */
  class ZlibInflater {
    const inf: Inflater
    var phase: Phase
    var check: nat
    ghost var seen: seq<byte>      // all the input consumed

    /** The blocks have been begun. */
    ghost predicate Started()
      reads this`seen, inf
    {
      && |seen| >= 2 && HeadOk(seen[0], seen[1]) && !HasDict(seen[1])
      && Leads(Feed(InflateSpec.Start(), BytesBits(seen[2..])), inf.abs)
    }

    /** The checksum is that of what has been written. */
    ghost predicate Summed()
      reads this`check, inf
    {
      check == AdlerOf(inf.abs.out)
    }

    /** The first two bytes are not all there. */
    ghost predicate AtHead()
      reads this`seen, inf.br
    {
      |seen| < 2 && inf.br.Held() == BytesBits(seen)
    }

    /** The next four are not all there. */
    ghost predicate AtDictId()
      reads this`seen, inf.br
    {
      && 2 <= |seen| < 6 && HeadOk(seen[0], seen[1]) && HasDict(seen[1]) && inf.br.Held() == BytesBits(seen[2..])
    }

    /** The blocks are at their end, the checksum is not all there. */
    ghost predicate AtCheck()
      reads this, inf, inf.br
    {
      && Started() && Summed() && inf.mode == InflateSpec.DONE && inf.abs.bits == inf.br.Held()
      && inf.br.bits < 32 && inf.br.bits % 8 == 0
    }

    /** The outcome is settled. */
    ghost predicate Settled()
      reads this, inf
    {
      ZlibDecoded(seen) == Outcome(phase, inf.abs.out)
    }

    /** Between calls, what the phase says about the input so far. */
    ghost predicate InPhase()
      reads this, inf, inf.br, inf.ow, inf.ow.window, inf.lens, inf.lencode, inf.distcode
    {
      match phase
      case HEAD => inf.Blank() && AtHead()
      case DICTID => inf.Blank() && AtDictId()
      case BLOCKS => inf.Idle() && inf.mode !in {InflateSpec.DONE, InflateSpec.BAD} && Started() && Summed()
      case CHECK => inf.Idle() && AtCheck()
      case _ => Settled()
    }

    ghost predicate Valid()
      reads this, inf, inf.br, inf.ow, inf.ow.window, inf.lens, inf.lencode, inf.distcode
    {
      inf.br.Valid() && inf.br.next == |inf.br.input| && InPhase()
    }

    lemma InPhaseIs()
      ensures phase == HEAD ==> (InPhase() <==> inf.Blank() && |seen| < 2 && inf.br.Held() == BytesBits(seen))
      ensures phase == DICTID ==>
                (InPhase() <==> inf.Blank() && 2 <= |seen| < 6 && HeadOk(seen[0], seen[1]) && HasDict(seen[1])
                                && inf.br.Held() == BytesBits(seen[2..]))
      ensures phase == BLOCKS ==>
                (InPhase() <==> inf.Idle() && inf.mode !in {InflateSpec.DONE, InflateSpec.BAD} && Started() && Summed())
      ensures phase in {DICT, END, FAILED} ==> (InPhase() <==> ZlibDecoded(seen) == Outcome(phase, inf.abs.out))
    {
      hide Inflater.Blank, Inflater.Idle, Started, Summed, ZlibDecoded, BytesBits, HeadOk, HasDict, Reader.Held,
           AtCheck;
    }

    lemma InCheckIs()
      requires phase == CHECK
      ensures InPhase() <==> inf.Idle() && inf.mode == InflateSpec.DONE && Started() && Summed()
                             && inf.abs.bits == inf.br.Held() && inf.br.bits < 32 && inf.br.bits % 8 == 0
    {
      hide Inflater.Blank, Inflater.Idle, Started, Summed, Reader.Held, AtHead, AtDictId, Settled;
    }

    constructor ()
      ensures Valid() && phase == HEAD && seen == [] && inf.abs.out == []
      ensures fresh(inf) && fresh(inf.br) && fresh(inf.ow) && fresh(inf.ow.window) && fresh(inf.lens) && fresh(inf.work)
      ensures fresh(inf.lencode) && fresh(inf.distcode)
    {
      hide *;
      inf := new Inflater();
      phase, check, seen := HEAD, 1, [];
      new;
      inf.FirstBlank();
      inf.BlankIs();
      Waiting();
      NoBytes();
      assert inf.br.Held() == [];
      InPhaseIs();
      ValidIs();
    }

    /** HEAD with both bytes in the accumulator. */
    method ParseHead()
      requires inf.br.Valid() && inf.br.bits == 16 && |seen| == 2 && inf.br.Held() == BytesBits(seen)
      modifies this`phase, this`check, inf.br`hold, inf.br`bits
      ensures inf.br.Valid() && phase in {DICTID, BLOCKS, FAILED}
      ensures phase == FAILED <==>
                || (256 * seen[0] as nat + seen[1] as nat) % 31 != 0   // FCHECK
                || seen[0] as nat % 16 != 8                            // CM: deflate
                || seen[0] as nat / 16 > 7                             // CINFO: a window of more than 32K
      ensures phase == FAILED <==> !HeadOk(seen[0], seen[1])
      ensures phase != FAILED ==> (phase == DICTID <==> HasDict(seen[1])) && inf.br.bits == 0 && check == 1
      ensures phase != FAILED ==> (phase == DICTID <==> seen[1] as nat / 32 % 2 == 1)   // FDICT
    {
      hide BytesBits, BitsOf, Low, Shr, Pow2, ZlibDecoded;
      ghost var cmf, flg := seen[0], seen[1];
      assert seen == [cmf, flg];
      TwoHeld(inf.br.hold, cmf, flg);
      HeadReads(inf.br.hold, cmf, flg);
      Pow2Values();
      if (inf.br.BitsAt(8) * 256 + Shr(inf.br.hold, 8)) % 31 != 0 {
        phase := FAILED;
        return;
      }
      if inf.br.BitsAt(4) != 8 {
        phase := FAILED;
        return;
      }
      inf.br.DropBits(4);
      var len := inf.br.BitsAt(4) + 8;
      if len > 15 {
        phase := FAILED;
        return;
      }
      check := 1;
      phase := if inf.br.hold / 0x200 % 2 == 1 then DICTID else BLOCKS;
      inf.br.InitBits();
    }

    /** Fill the accumulator from the input up to `n` bits; what is pulled is consumed. */
    method Pull(input: seq<byte>, n: nat) returns (ok: bool, k: nat)
      requires inf.br.Valid() && inf.br.bits < n && inf.br.bits % 8 == 0 && n in {16, 32}
      modifies inf.br
      ensures inf.br.Valid() && inf.br.next == |inf.br.input| && k <= |input| && inf.br.bits % 8 == 0
      ensures inf.br.Held() == old(inf.br.Held()) + BytesBits(input[..k])
      ensures if ok then inf.br.bits == n else k == |input| && inf.br.bits < n
    {
      hide *;
      Waiting();
      ghost var h := inf.br.Held();
      NothingRead(input);
      inf.br.input, inf.br.next := input, 0;
      Waiting();
      StreamIs();
      ok := inf.br.NeedBits(n);
      Waiting();
      StreamIs();
      k := inf.br.next;
      PulledMore(h, input, k, inf.br.Held());
      inf.br.input, inf.br.next := [], 0;
      Waiting();
    }

    /** HEAD. */
    method HeadMode(input: seq<byte>) returns (k: nat)
      requires Valid() && phase == HEAD
      modifies this`phase, this`check, this`seen, inf.br
      ensures Valid() && k <= |input| && seen == old(seen) + input[..k] && inf.abs == old(inf.abs)
      ensures phase in {HEAD, DICTID, BLOCKS, FAILED} && (phase == HEAD ==> k == |input|)
    {
      hide *;
      ValidIs();
      InPhaseIs();
      Waiting();
      ghost var s0 := seen;
      var ok;
      ok, k := Pull(input, 16);
      BytesBitsAppend(s0, input[..k]);
      seen := s0 + input[..k];
      Waiting();
      if ok {
        ParseHead();
      }
      Headed();
    }

    /** After HEAD. */
    lemma Headed()
      requires inf.Blank() && inf.br.Valid() && inf.br.next == |inf.br.input|
      requires phase == HEAD ==> |seen| < 2 && inf.br.Held() == BytesBits(seen)
      requires phase != HEAD ==> phase in {DICTID, BLOCKS, FAILED} && |seen| == 2
      requires phase != HEAD ==> (phase == FAILED <==> !HeadOk(seen[0], seen[1]))
      requires phase in {DICTID, BLOCKS} ==>
                 (phase == DICTID <==> HasDict(seen[1])) && inf.br.bits == 0 && check == 1
      ensures Valid()
    {
      hide *;
      InPhaseIs();
      inf.BlankIs();
      Waiting();
      NoBytes();
      if phase != HEAD {
        assert seen[2..] == [];
        if phase == FAILED {
          HeadFailed(seen);
        } else if phase == DICTID {
          assert inf.br.Held() == [];
        } else {
          inf.BlankIdle();
          FeedNone(InflateSpec.Start());
          LeadsSelf(InflateSpec.Start());
          AdlerOfNone();
          StartedIs();
        }
      }
      ValidIs();
    }

    lemma StartedIs()
      ensures Started() <==>
              && |seen| >= 2 && HeadOk(seen[0], seen[1]) && !HasDict(seen[1])
              && Leads(Feed(InflateSpec.Start(), BytesBits(seen[2..])), inf.abs)
      ensures Summed() <==> check == AdlerOf(inf.abs.out)
    {
      hide Leads, BytesBits, HeadOk, HasDict, AdlerOf;
    }

    lemma ValidIs()
      ensures Valid() <==> inf.br.Valid() && inf.br.next == |inf.br.input| && InPhase()
    {
      hide InPhase;
    }

    /** The caller is told the checksum of the dictionary, bytes 2 to 5 of the input, the first one highest. */
    ghost predicate DictAsked()
      reads this`seen, this`check
    {
      && |seen| == 6
      && check == seen[5] as nat + 256 * seen[4] as nat + 0x1_0000 * seen[3] as nat + 0x100_0000 * seen[2] as nat
    }

    lemma DictAskedIs()
      ensures DictAsked()
              <==> && |seen| == 6
                   && check == seen[5] as nat + 256 * seen[4] as nat + 0x1_0000 * seen[3] as nat
                               + 0x100_0000 * seen[2] as nat
    {
    }

    /** DICTID: the checksum of the dictionary. */
    method DictIdMode(input: seq<byte>) returns (k: nat)
      requires Valid() && phase == DICTID
      modifies this`phase, this`check, this`seen, inf.br
      ensures Valid() && k <= |input| && seen == old(seen) + input[..k] && inf.abs == old(inf.abs)
      ensures phase in {DICTID, DICT} && (phase == DICTID ==> k == |input|)
      ensures phase == DICT ==> DictAsked()
    {
      hide *;
      ValidIs();
      InPhaseIs();
      inf.BlankIs();
      Waiting();
      ghost var s0 := seen;
      var ok;
      ok, k := Pull(input, 32);
      seen := s0 + input[..k];
      MoreSeen(s0, input[..k]);
      Waiting();
      if ok {
        DictNumber(inf.br.hold, seen);
        check := Reverse(inf.br.hold);
        inf.br.InitBits();
        phase := DICT;
        HeadDict(seen);
      }
      InPhaseIs();
      ValidIs();
      DictAskedIs();
    }

    /** The loop of inflate over the modes for the blocks, and the checksum of what they have written. */
    method RunBlocks(input: seq<byte>, out: array<byte>) returns (k: nat, written: nat)
      requires inf.Idle() && inf.mode !in {InflateSpec.DONE, InflateSpec.BAD} && out != inf.ow.window && Summed()
      modifies this`check, inf, inf.br, inf.ow, out, inf.ow.window, inf.lens, inf.work, inf.lencode, inf.distcode
      ensures inf.Idle() && k <= |input| && written <= out.Length && Summed()
      ensures Leads(Feed(old(inf.abs), BytesBits(input[..k])), inf.abs)
      ensures inf.abs.out == old(inf.abs.out) + out[..written]
      ensures inf.mode in {InflateSpec.DONE, InflateSpec.BAD} || (k == |input| && Step(inf.abs) == None)
              || written == out.Length
      ensures inf.mode == InflateSpec.DONE ==> inf.abs.bits == inf.br.Held() && inf.br.bits == 0
    {
      hide *;
      StartedIs();
      ghost var a0 := inf.abs;
      FitsNow();
      inf.Begin(input, out);
      inf.RunModes();
      inf.RunningFits();
      RoomIs();
      AllIs();
      ghost var o := out[..inf.ow.put];
      if inf.ow.put != 0 {
        check := AdlerMore(check, out[..inf.ow.put], a0.out);
      }
      StartedIs();
      k, written := inf.Leave(a0);
      assert out[..written] == o;
      StartedIs();
    }

    /** The modes for the blocks, as far as input and room allow. */
    method BlocksMode(input: seq<byte>, out: array<byte>) returns (k: nat, written: nat)
      requires Valid() && phase == BLOCKS && out != inf.ow.window
      modifies this`phase, this`check, this`seen, inf, inf.br, inf.ow, out, inf.ow.window, inf.lens, inf.work,
               inf.lencode, inf.distcode
      ensures Valid() && k <= |input| && seen == old(seen) + input[..k] && written <= out.Length
      ensures inf.abs.out == old(inf.abs.out) + out[..written] && phase in {BLOCKS, CHECK, FAILED}
      ensures phase == BLOCKS ==> (k == |input| && Step(inf.abs) == None) || written == out.Length
    {
      hide *;
      ValidIs();
      InPhaseIs();
      StartedIs();
      ghost var a0, s0 := inf.abs, seen;
      k, written := RunBlocks(input, out);
      inf.IdleMode();
      FitsNow();
      seen := seen + input[..k];
      MoreSeen(s0, input[..k]);
      StartFits();
      Continue(InflateSpec.Start(), s0[2..], a0, input[..k], inf.abs);
      phase := if inf.mode == InflateSpec.BAD then FAILED else if inf.mode == InflateSpec.DONE then CHECK else BLOCKS;
      if phase == FAILED {
        DoneDecoded(seen, inf.abs);
        BlocksFailed(seen, inf.abs);
      }
      StartedIs();
      InPhaseIs();
      if phase == CHECK {
        InCheckIs();
      }
      ValidIs();
    }

    lemma FitsNow()
      requires inf.Idle()
      ensures CodesFit(inf.abs) && inf.Shapes() && inf.br.Valid() && inf.br.next == |inf.br.input|
    {
      hide CodesFit, Inflater.Shapes;
    }

    lemma AllIs()
      requires inf.ow.put <= inf.ow.out.Length
      ensures inf.ow.All() == inf.ow.hist + inf.ow.out[..inf.ow.put]
      ensures inf.ow.put == 0 ==> inf.ow.All() == inf.ow.hist
    {
    }

    lemma RoomIs()
      requires inf.ow.Valid()
      ensures inf.ow.put <= inf.ow.out.Length
    {
    }

    /** CHECK: the trailer against the checksum. */
    method CheckMode(input: seq<byte>) returns (k: nat)
      requires Valid() && phase == CHECK
      modifies this`phase, this`seen, inf.br, inf`abs
      ensures Valid() && k <= |input| && seen == old(seen) + input[..k] && inf.abs.out == old(inf.abs.out)
      ensures phase in {CHECK, END, FAILED} && (phase == CHECK ==> k == |input|)
    {
      hide *;
      ValidIs();
      InCheckIs();
      inf.IdleMode();
      FitsNow();
      StartedIs();
      ghost var a0, s0 := inf.abs, seen;
      var ok;
      ok, k := Pull(input, 32);
      seen := s0 + input[..k];
      MoreSeen(s0, input[..k]);
      StillDone(s0[2..], a0, input[..k]);
      inf.abs := Feed(a0, BytesBits(input[..k]));
      FeedIs(a0, BytesBits(input[..k]));
      FedFits(a0, BytesBits(input[..k]));
      if ok {
        Compare();
      } else {
        StartedIs();
        StillIdle();
        InCheckIs();
      }
      ValidIs();
    }

    /** The comparison. */
    method Compare()
      requires inf.br.Valid() && inf.br.next == |inf.br.input| && inf.br.bits == 32 && inf.abs.bits == inf.br.Held()
      requires |seen| >= 2 && HeadOk(seen[0], seen[1]) && !HasDict(seen[1]) && inf.abs.mode == InflateSpec.DONE
      requires Leads(Feed(InflateSpec.Start(), BytesBits(seen[2..])), inf.abs) && check == AdlerOf(inf.abs.out)
      modifies this`phase, inf.br`hold, inf.br`bits
      ensures inf.br.Valid() && InPhase() && phase in {END, FAILED}
    {
      hide *;
      Waiting();
      DoneDecoded(seen, inf.abs);
      TrailerReversed(inf.abs.out, inf.br.hold);
      TrailerRead(seen, inf.abs);
      if Reverse(inf.br.hold) != check {
        phase := FAILED;
      } else {
        inf.br.InitBits();
        phase := END;
      }
      InPhaseIs();
    }

    lemma StillIdle()
      requires inf.Shapes() && inf.br.Valid() && inf.br.next == |inf.br.input| && CodesFit(inf.abs)
      requires inf.mode == inf.abs.mode == InflateSpec.DONE
      ensures inf.Idle()
    {
      hide CodesFit, Inflater.Shapes;
    }

    /** The accumulator and its length. */
    lemma Waiting()
      ensures inf.br.bits == |inf.br.Held()| && forall x: seq<byte> :: |BytesBits(x)| == 8 * |x|
      ensures inf.br.Valid() <==> inf.br.bits <= 32 && inf.br.next <= |inf.br.input| && inf.br.hold < Pow2(inf.br.bits)
      ensures inf.br.Held() == BitsOf(inf.br.hold, inf.br.bits)
    {
      hide BitsOf, BytesBits, Pow2;
    }

    lemma StreamIs()
      requires inf.br.next <= |inf.br.input|
      ensures inf.br.Stream() == inf.br.Held() + BytesBits(inf.br.input[inf.br.next..])
    {
      hide BitsOf, BytesBits;
    }

    lemma NothingRead(input: seq<byte>)
      ensures input[0..] == input && input[..0] == []
    {
    }

    // ---------- a call ----------

    /** What has been written so far is the beginning of what the input decodes to. */
    lemma OutSoFar()
      requires Valid()
      ensures inf.abs.out <= ZlibDecoded(seen).out
      ensures (phase == BLOCKS ==> Step(inf.abs) == None) ==> ZlibDecoded(seen) == Outcome(phase, inf.abs.out)
    {
      hide *;
      ValidIs();
      InPhaseIs();
      if phase == HEAD || phase == DICTID {
        inf.BlankIs();
        HeadWaits(seen);
      } else if phase == BLOCKS {
        StartedIs();
        inf.IdleMode();
        BlocksSoFar(seen, inf.abs);
      } else if phase == CHECK {
        InCheckIs();
        StartedIs();
        inf.IdleMode();
        Waiting();
        DoneDecoded(seen, inf.abs);
        CheckWaits(seen, inf.abs);
      }
    }

    /** HEAD and DICTID. */
    method Opening(input: seq<byte>) returns (k: nat)
      requires Valid()
      modifies this`phase, this`check, this`seen, inf.br
      ensures Valid() && k <= |input| && seen == old(seen) + input[..k] && inf.abs == old(inf.abs)
      ensures phase in {HEAD, DICTID} ==> k == |input|
      ensures phase == DICT ==> old(phase) == DICT || DictAsked()
    {
      hide *;
      ghost var s0 := seen;
      k := 0;
      Slices(s0, input, 0, 0);
      if phase == HEAD {
        k := HeadMode(input);
      }
      if phase == DICTID {
        var m := DictIdMode(input[k..]);
        Slices(s0, input, k, m);
        k := k + m;
      }
    }

    /** The modes for the blocks and CHECK. */
    method BlocksAndCheck(input: seq<byte>, out: array<byte>) returns (k: nat, written: nat)
      requires Valid() && out != inf.ow.window && (phase in {HEAD, DICTID} ==> input == [])
      modifies this`phase, this`check, this`seen, inf, inf.br, inf.ow, out, inf.ow.window, inf.lens, inf.work,
               inf.lencode, inf.distcode
      ensures Valid() && k <= |input| && seen == old(seen) + input[..k] && written <= out.Length
      ensures inf.abs.out == old(inf.abs.out) + out[..written]
      ensures phase in {DICT, END, FAILED} || (k == |input| && (phase == BLOCKS ==> Step(inf.abs) == None))
              || written == out.Length
      ensures phase == DICT ==> old(phase) == DICT && check == old(check) && k == 0
    {
      hide *;
      ghost var s0 := seen;
      k, written := 0, 0;
      Slices(s0, input, 0, 0);
      assert out[..0] == [];
      if phase == BLOCKS {
        k, written := BlocksMode(input, out);
      }
      if phase == CHECK {
        ghost var o := out[..written];
        var m := CheckMode(input[k..]);
        Slices(s0, input, k, m);
        k := k + m;
      }
    }

    /**
     inflate: HEAD, DICTID, the modes for the blocks and CHECK, each as far as input and room allow.
     */
    method Inflate(input: seq<byte>, out: array<byte>, finish: bool) returns (consumed: nat, written: nat, ret: Ret)
      requires Valid() && out != inf.ow.window
      modifies this`phase, this`check, this`seen, inf, inf.br, inf.ow, out, inf.ow.window, inf.lens, inf.work,
               inf.lencode, inf.distcode
      ensures Valid() && consumed <= |input| && written <= out.Length
      ensures seen == old(seen) + input[..consumed] && inf.abs.out == old(inf.abs.out) + out[..written]
      ensures phase in {DICT, END, FAILED} || (consumed == |input| && (phase == BLOCKS ==> Step(inf.abs) == None))
              || written == out.Length
      ensures (ret == Z_STREAM_END <==> phase == END) && (ret == Z_DATA_ERROR <==> phase == FAILED)
      ensures ret == Z_NEED_DICT <==> phase == DICT
      ensures ret == Z_NEED_DICT && old(phase) != DICT
              ==> && |seen| == 6
                  && check == seen[5] as nat + 256 * seen[4] as nat + 0x1_0000 * seen[3] as nat
                              + 0x100_0000 * seen[2] as nat
      ensures ret == Z_BUF_ERROR
              <==> phase !in {DICT, END, FAILED} && (finish || (consumed == 0 && written == 0))
    {
      hide *;
      ghost var s0 := seen;
      consumed := Opening(input);
      DictAskedIs();
      assert input[consumed..][..0] == [];
      ghost var s1 := seen;
      assert s1 + [] == s1;
      var k;
      k, written := BlocksAndCheck(input[consumed..], out);
      Slices(s0, input, consumed, k);
      consumed := consumed + k;
      ret := match phase
             case END => Z_STREAM_END
             case FAILED => Z_DATA_ERROR
             case DICT => Z_NEED_DICT
             case _ => if finish || (consumed == 0 && written == 0) then Z_BUF_ERROR else Z_OK;
    }
  }

  lemma Slices(s: seq<byte>, input: seq<byte>, m: nat, k: nat)
    requires m <= |input|
    ensures k <= |input[m..]| ==> m + k <= |input| && s + input[..m] + input[m..][..k] == s + input[..m + k]
    ensures s + input[..0] == s && |input[m..]| == |input| - m
  {
    if k <= |input[m..]| {
      assert input[..m] + input[m..][..k] == input[..m + k];
    }
  }

  lemma HeadWaits(seen: seq<byte>)
    ensures |seen| < 2 ==> ZlibDecoded(seen) == Outcome(HEAD, [])
    ensures 2 <= |seen| < 6 && HeadOk(seen[0], seen[1]) && HasDict(seen[1]) ==> ZlibDecoded(seen) == Outcome(DICTID, [])
  {
    hide HeadOk, HasDict, Resumption.Decoded;
  }

  lemma CheckWaits(seen: seq<byte>, a: State)
    requires |seen| >= 2 && HeadOk(seen[0], seen[1]) && !HasDict(seen[1])
    requires Resumption.Decoded(seen[2..]) == a && a.mode == InflateSpec.DONE && |a.bits| < 32
    ensures ZlibDecoded(seen) == Outcome(CHECK, a.out)
  {
    hide HeadOk, HasDict, Resumption.Decoded;
  }

  lemma BlocksSoFar(seen: seq<byte>, a: State)
    requires |seen| >= 2 && HeadOk(seen[0], seen[1]) && !HasDict(seen[1])
    requires Leads(Feed(InflateSpec.Start(), BytesBits(seen[2..])), a)
    requires a.mode !in {InflateSpec.DONE, InflateSpec.BAD}
    ensures a.out <= ZlibDecoded(seen).out
    ensures Step(a) == None ==> ZlibDecoded(seen) == Outcome(BLOCKS, a.out)
  {
    hide HeadOk, HasDict, Leads, Step, Finish, Feed, BytesBits, TrailerOf;
    var y := seen[2..];
    StartFits();
    assert y[..|y|] == y;
    Prefix(y, |y|, a);
    if Step(a) == None {
      LeadsFinish(Feed(InflateSpec.Start(), BytesBits(y)), a);
      FinishStuck(a);
    }
  }

  // ---------- whole streams ----------

  /**
   Decompress a stream of the zlib format with any slices of input and room.  It ends exactly where the
   checksum of all that has been written is what follows the blocks.
   */
  method ZlibDecompress(stream: seq<byte>, slices: seq<Slice>)
    returns (output: seq<byte>, used: nat, ret: Ret)
    ensures used <= |stream| && output <= ZlibDecoded(stream).out
    ensures ret == Z_STREAM_END ==> ZlibDecoded(stream) == Outcome(END, output)
    ensures ret == Z_DATA_ERROR ==> ZlibDecoded(stream) == Outcome(FAILED, output)
    ensures ret == Z_NEED_DICT ==> ZlibDecoded(stream) == Outcome(DICT, output)
    ensures |slices| > 0 && slices[|slices| - 1].availIn >= |stream|
            && slices[|slices| - 1].availOut > |ZlibDecoded(stream).out|
            ==> && output == ZlibDecoded(stream).out
                && (ret == Z_STREAM_END <==> ZlibDecoded(stream).phase == END)
                && (ret == Z_DATA_ERROR <==> ZlibDecoded(stream).phase == FAILED)
                && (ret == Z_NEED_DICT <==> ZlibDecoded(stream).phase == DICT)
  {
    hide *;
    var z := new ZlibInflater();
    output, used, ret := [], 0, Z_OK;
    assert stream[..0] == [];
    var i := 0;
    while i < |slices| && ret !in {Z_STREAM_END, Z_DATA_ERROR, Z_NEED_DICT}
      invariant 0 <= i <= |slices| && used <= |stream| && z.Valid() && output == z.inf.abs.out
      invariant z.seen == stream[..used]
      invariant (ret == Z_STREAM_END <==> z.phase == END) && (ret == Z_DATA_ERROR <==> z.phase == FAILED)
      invariant ret == Z_NEED_DICT <==> z.phase == DICT
      invariant i > 0 && slices[i - 1].availIn >= |stream| ==>
                  || z.phase in {DICT, END, FAILED}
                  || (used == |stream| && (z.phase == BLOCKS ==> Step(z.inf.abs) == None))
                  || |output| >= slices[i - 1].availOut
      decreases |slices| - i
    {
      hide *;
      var n := slices[i].availIn;
      var input := stream[used..if used + n <= |stream| then used + n else |stream|];
      var out := new byte[slices[i].availOut];
      var consumed, written;
      consumed, written, ret := z.Inflate(input, out, false);
      TakeMore(stream, used, input, consumed);
      output := output + out[..written];
      used := used + consumed;
      i := i + 1;
    }
    z.OutSoFar();
    ZlibMore(stream, used);
    AllTaken(stream);
  }
}
