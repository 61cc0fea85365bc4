/**
 The two machines undo each other: whatever calls the compressor was given, the bytes it has
 delivered decode to the bytes it has read.
 */
module RoundTrip {
  import opened Bits
  import opened ByteStrings
  import opened ZlibFormat
  import opened Tokens
  import opened Adler32
  import opened BitQueue
  import opened InflateSpec
  import opened InflateRuns
  import opened StreamDecode
  import opened FlushBlock
  import opened Coverage
  import opened Overrun
  import opened Expansion
  import opened WorthCoding
  import opened Repetition
  import opened PartialFlush
  import opened Dictionary
  import opened Deflate
  import opened DeflateStream
  import Inflate
  import Resumption
  import opened ZlibInflate

  // ---------- a finished stream ----------

  /** A complete stream is its header, bytes that decode to all that was read, and its trailer. */
  ghost predicate Delivers(delivered: seq<byte>, header: seq<byte>, trailer: seq<byte>, s: seq<byte>) {
    && header <= delivered && |header| + |trailer| <= |delivered| && delivered[|delivered| - |trailer|..] == trailer
    && var t := Resumption.Decoded(delivered[|header|..]);
       t.mode == DONE && t.out == s && t.bits == BytesBits(trailer)
  }

  lemma Finished(delivered: seq<byte>, header: seq<byte>, bs: seq<Block>, stream: seq<bool>, trailer: seq<byte>,
      s: seq<byte>)
    requires StreamSent(header, bs, stream) && BytesBits(delivered) == stream + BytesBits(trailer)
    requires BlocksCover(s, bs, |s|)
    ensures Delivers(delivered, header, trailer, s)
  {
    hide BytesBits, Padding, BlockOk, BlocksOk, AfterAll, StreamBits, Finish, Feed;
    var bits := StreamBits(bs, [], 0);
    var body := bits + Padding(|bits|);
    PaddingLength(|bits|);
    assert stream + BytesBits(trailer) == BytesBits(header) + (body + BytesBits(trailer));
    BytesPrefix(delivered, header, body + BytesBits(trailer));
    BytesSuffix(delivered[|header|..], body, trailer);
    assert delivered[|header|..][|delivered| - |header| - |trailer|..] == delivered[|delivered| - |trailer|..];
    StreamDecodes(bs, trailer);
    assert s[..|s|] == s;
  }

  /** Every way to end a stream, after any calls, ends it right if no tokens were overwritten. */
  lemma CompleteDecodes(c: Compressor)
    requires c.Valid() && c.Complete() && !c.df.overrun
    ensures Delivers(c.df.enc.q.delivered, c.Header(), if c.wrapped then TrailerOf(c.df.d.s) else [], c.df.d.s)
  {
    hide *;
    c.CompleteParts();
    AllDelivered(c.df.enc.q);
    Finished(c.df.enc.q.delivered, c.df.header, c.df.blocks, c.stream, c.trailer, c.df.d.s);
  }

  /** From byte `at` on, decoding on its own gives `s` and leaves the trailer. */
  ghost predicate DeliversFrom(delivered: seq<byte>, at: nat, trailer: seq<byte>, s: seq<byte>) {
    && at <= |delivered|
    && var t := Resumption.Decoded(delivered[at..]);
       t.mode == DONE && t.out == s && t.bits == BytesBits(trailer)
  }

  /**
   Decoding may start right after the last full flush: on their own, the bytes from there on
   decode to what was read from there on.
   */
  lemma RestartDecodes(c: Compressor)
    requires c.Valid() && c.Complete() && !c.df.overrun
    ensures c.df.origin <= |c.df.d.s|
    ensures DeliversFrom(c.df.enc.q.delivered, |c.Header()| + c.df.skip, if c.wrapped then TrailerOf(c.df.d.s) else [],
            c.df.d.s[c.df.origin..])
  {
    hide *;
    c.CompleteParts();
    AllDelivered(c.df.enc.q);
    FromMark(c.df.enc.q.delivered, c.df.header, c.df.blocks, c.stream, c.trailer, c.df.d.s, c.df.origin, c.df.first,
        c.df.skip);
  }

  lemma FromMark(delivered: seq<byte>, header: seq<byte>, bs: seq<Block>, stream: seq<bool>, trailer: seq<byte>,
      s: seq<byte>, origin: nat, first: nat, skip: nat)
    requires StreamSent(header, bs, stream) && BytesBits(delivered) == stream + BytesBits(trailer)
    requires Marked(bs, first, skip) && first < |bs| && Afresh(s, origin, bs, first, |s|, [], |s|)
    ensures origin <= |s| && DeliversFrom(delivered, |header| + skip, trailer, s[origin..])
  {
    hide BytesBits, Padding, BlockOk, AfterAll, StreamBits, SentBits, Covers, Finish, Feed, StreamSent, Marked,
         BlocksOk;
    var front, body := StreamAt(header, bs, stream, first, skip, BytesBits(trailer));
    DropBytes(delivered, front, body + Padding(|body|) + BytesBits(trailer), |header| + skip);
    StreamDecodes(bs[first..], trailer);
    assert s[origin..][..|s| - origin] == s[origin..];
  }

  /** The bits before and after a mark. */
  lemma StreamAt(header: seq<byte>, bs: seq<Block>, stream: seq<bool>, first: nat, skip: nat, more: seq<bool>)
      returns (front: seq<bool>, body: seq<bool>)
    requires StreamSent(header, bs, stream) && Marked(bs, first, skip) && first < |bs| && BlocksOk(bs[first..], [])
    ensures |front| == 8 * (|header| + skip) && body == StreamBits(bs[first..], [], 0)
    ensures stream + more == front + (body + Padding(|body|) + more)
  {
    hide BytesBits, Padding, BlockOk, BlocksOk, StreamBits, SentBits;
    StreamSplit(bs, first, skip);
    var x := SentBits(bs[..first]);
    body := StreamBits(bs[first..], [], 0);
    front := BytesBits(header) + x;
    PadShift(skip, |body|);
    RegroupStream(BytesBits(header), x, body, Padding(|body|), more);
  }

  lemma RegroupStream(h: seq<bool>, x: seq<bool>, y: seq<bool>, z: seq<bool>, more: seq<bool>)
    ensures h + (x + y + z) + more == (h + x) + (y + z + more)
  {
  }

  lemma AllDelivered(q: Queue)
    requires q.Valid() && q.pending == 0 && q.biValid == 0
    ensures q.Sent() == BytesBits(q.delivered)
  {
    hide BytesBits;
    NoBits(q.biBuf);
    assert q.Waiting() == [];
    assert q.delivered + [] == q.delivered;
    assert BytesBits(q.delivered) + [] == BytesBits(q.delivered);
  }

  // ---------- a stream that has been flushed ----------

  lemma {:induction false} OpenDecodes(s: State, bs: seq<Block>, rest: seq<bool>) returns (t: State)
    requires s.mode == TYPE && !s.last && s.out == [] && (forall i :: 0 <= i < |bs| ==> BlockOk(bs[i]))
    requires BlocksOk(bs, [])
    requires s.bits == SentBits(bs) + rest && |s.bits| % 8 == 0
    ensures Leads(s, t) && t.mode == TYPE && !t.last && t.bits == rest && t.out == AfterAll([], bs)
    decreases |bs|
  {
    hide Leads, Step, BlockBits, BlockOk, BlockInReach, After, BlocksOk, AfterAll;
    if bs == [] {
      assert s.bits == rest;
      NoneAfter();
      LeadsSelf(s);
      t := s;
    } else {
      var n := |bs| - 1;
      var b := bs[n];
      assert bs == bs[..n] + [b];
      BlocksAppend([], bs[..n], b);
      var x := SentBits(bs[..n]);
      var y := BlockBits(b, false, |x|);
      assert s.bits == x + (y + rest);
      var t1 := OpenDecodes(s, bs[..n], y + rest);
      t := BlockDecodes(t1, b, false, |x|, rest);
      LeadsTrans(s, t1, t);
    }
  }

  lemma NoneAfter()
    ensures AfterAll([], []) == []
  {
  }

  /** After a sync or full flush that had room, the decoder can give back all that was read. */
  lemma SyncedDecodes(c: Compressor)
    requires c.df.Synced()
    ensures c.df.header <= c.df.enc.q.delivered
    ensures var t := Resumption.Decoded(c.df.enc.q.delivered[|c.df.header|..]);
            t.out == c.df.d.s && t.mode == TYPE && t.bits == []
  {
    hide BytesBits, Leads, BlockOk, BlocksOk, AfterAll, SentBits;
    var x, h, bs := c.df.enc.q.delivered, c.df.header, c.df.blocks;
    BytesPrefix(x, h, SentBits(bs));
    var s := Feed(InflateSpec.Start(), BytesBits(x[|h|..]));
    assert s.bits == SentBits(bs) + [];
    var t := OpenDecodes(s, bs, []);
    LeadsFinish(s, t);
    assert Step(t) == None;
    assert c.df.d.s[..|c.df.d.s|] == c.df.d.s;
  }

  /**
   After a partial flush that had room, although up to 7 bits are held back, the decoder can give back
   all that was read.
   */
  lemma PartialDecodes(c: Compressor)
    requires c.df.PartlySynced()
    ensures c.df.header <= c.df.enc.q.delivered
    ensures Resumption.Decoded(c.df.enc.q.delivered[|c.df.header|..]).out == c.df.d.s
  {
    hide *;
    var x, h, bs := c.df.enc.q.delivered, c.df.header, c.df.blocks;
    var kept := PartKept(c);
    var front := bs[..|bs| - 1];
    assert bs == front + [Fixed([])];
    CoverIs(c.df.d.s, bs, |c.df.d.s|);
    EmptyLast(front);
    EmptyBitsAre();
    var k := 10 - |kept|;
    PartSent(BytesBits(x), kept, BytesBits(h), SentBits(front), EmptyBits());
    BytesPrefix(x, h, SentBits(front) + EmptyBits()[..k]);
    PartBody(x[|h|..], front, k);
    assert c.df.d.s[..|c.df.d.s|] == c.df.d.s;
  }

  lemma PartKept(c: Compressor) returns (kept: seq<bool>)
    requires c.df.PartlySynced()
    ensures BlocksCover(c.df.d.s, c.df.blocks, |c.df.d.s|) && c.df.blocks != []
    ensures c.df.blocks[|c.df.blocks| - 1] == Fixed([]) && |kept| < 8
    ensures forall i :: 0 <= i < |c.df.blocks| ==> BlockOk(c.df.blocks[i])
    ensures BytesBits(c.df.enc.q.delivered) + kept == BytesBits(c.df.header) + SentBits(c.df.blocks)
  {
    hide BytesBits, BlockOk, BlocksOk, AfterAll, SentBits;
    kept :| |kept| < 8 && BytesBits(c.df.enc.q.delivered) + kept == BytesBits(c.df.header) + SentBits(c.df.blocks);
  }

  lemma PartBody(y: seq<byte>, front: seq<Block>, k: nat)
    requires (forall i :: 0 <= i < |front| ==> BlockOk(front[i])) && BlocksOk(front, []) && |EmptyBits()| == 10
    requires 3 <= k <= 10 && BytesBits(y) == SentBits(front) + EmptyBits()[..k]
    ensures Resumption.Decoded(y).out == AfterAll([], front)
  {
    hide *;
    Resumption.Unfed(BytesBits(y));
    InEights(y);
    var a := Feed(InflateSpec.Start(), BytesBits(y));
    var t := OpenDecodes(a, front, EmptyBits()[..k]);
    LeadsFinish(a, t);
    EmptyEnds(t, k);
    DecodedIs(y);
  }

  lemma PartSent(x: seq<bool>, kept: seq<bool>, h: seq<bool>, y: seq<bool>, e: seq<bool>)
    requires x + kept == h + (y + e) && |kept| <= |e|
    ensures x == h + (y + e[..|e| - |kept|])
  {
    assert x == (x + kept)[..|x|];
    assert |x| == |h| + |y| + |e| - |kept|;
  }

  /** The last block, empty and fixed, adds its bits and no bytes. */
  lemma EmptyLast(front: seq<Block>)
    requires (forall i :: 0 <= i < |front| ==> BlockOk(front[i])) && BlocksOk(front + [Fixed([])], [])
    ensures BlocksOk(front, []) && AfterAll([], front + [Fixed([])]) == AfterAll([], front) && BlockOk(Fixed([]))
    ensures SentBits(front + [Fixed([])]) == SentBits(front) + EmptyBits()
  {
    hide BlocksOk, AfterAll, SentBits, BlockBits;
    BlocksAppend([], front, Fixed([]));
    SentAppend(front, Fixed([]));
    FixedAnywhere(|SentBits(front)|);
  }

  // ---------- whatever has been delivered ----------

  function Zeros(n: nat): seq<bool> {
    seq(n, _ => false)
  }

  /** Fewer than 8 zero bits after a block write nothing. */
  lemma ZerosEnd(t: State)
    requires t.mode == TYPE && !t.last && |t.bits| < 8 && t.bits == Zeros(|t.bits|)
    ensures Finish(t).out == t.out && Finish(t).mode in {TYPE, STORED}
  {
    hide Step, Leads, Finish;
    if |t.bits| < 3 {
      Stuck(t);
      Resumption.FinishStuck(t);
    } else {
      var rest := Zeros(|t.bits| - 3);
      assert t.bits == [false, false, false] + rest;
      KindRead(t, false, false, false, rest);
      var s := t.(mode := STORED, bits := rest);
      LeadsStep(t, s);
      var u := t.(mode := STORED, bits := []);
      if rest != [] {
        Realign(s);
        LeadsStep(s, u);
        LeadsTrans(t, s, u);
      }
      LeadsFinish(t, u);
      Stuck(u);
      Resumption.FinishStuck(u);
    }
  }

  lemma Stuck(t: State)
    requires (t.mode == TYPE && !t.last && |t.bits| < 3) || (t.mode == STORED && t.bits == [])
    ensures Step(t) == None
  {
  }

  lemma Realign(s: State)
    requires s.mode == STORED && 0 < |s.bits| < 8
    ensures Step(s) == Some(s.(bits := []))
  {
    assert s.bits[|s.bits|..] == [];
  }

  /** A part of a stream decodes to a part of what all of it does, and is bad only if all of it is. */
  lemma PartDecodes(x: seq<byte>, n: nat, h: nat)
    requires h <= n <= |x|
    ensures Resumption.Decoded(x[..n][h..]).out <= Resumption.Decoded(x[h..]).out
    ensures Resumption.Decoded(x[..n][h..]).mode == BAD ==> Resumption.Decoded(x[h..]).mode == BAD
  {
    hide Leads, Step, Finish, Feed, BytesBits;
    var y := x[h..];
    assert x[..n][h..] == y[..n - h];
    var s := Feed(InflateSpec.Start(), BytesBits(y[..n - h]));
    FinishLeads(s);
    Inflate.StartFits();
    Resumption.Prefix(y, n - h, Finish(s));
    Resumption.FeedMode(Finish(s), BytesBits(y[n - h..]));
  }

  /** Blocks and a few zeros decode to what the blocks stand for. */
  lemma OpenWhole(x: seq<byte>, h: seq<byte>, bs: seq<Block>, s: seq<byte>, n: nat, k: nat)
    requires BlocksCover(s, bs, n) && (forall i :: 0 <= i < |bs| ==> BlockOk(bs[i]))
    requires BytesBits(x) == BytesBits(h) + SentBits(bs) + Zeros(k) && k < 8
    ensures h <= x && Resumption.Decoded(x[|h|..]).out == s[..n] && Resumption.Decoded(x[|h|..]).mode in {TYPE, STORED}
  {
    hide *;
    Regroup(BytesBits(h), SentBits(bs), Zeros(k));
    BytesPrefix(x, h, SentBits(bs) + Zeros(k));
    CoverIs(s, bs, n);
    OpenBody(x[|h|..], bs, k);
  }

  lemma OpenBody(y: seq<byte>, bs: seq<Block>, k: nat)
    requires (forall i :: 0 <= i < |bs| ==> BlockOk(bs[i])) && BlocksOk(bs, [])
    requires BytesBits(y) == SentBits(bs) + Zeros(k) && k < 8
    ensures Resumption.Decoded(y).out == AfterAll([], bs) && Resumption.Decoded(y).mode in {TYPE, STORED}
  {
    hide *;
    Resumption.Unfed(BytesBits(y));
    InEights(y);
    var a := Feed(InflateSpec.Start(), BytesBits(y));
    var t := OpenDecodes(a, bs, Zeros(k));
    LeadsFinish(a, t);
    ZerosLength(k);
    ZerosEnd(t);
    DecodedIs(y);
  }

  lemma InEights(y: seq<byte>)
    ensures |BytesBits(y)| == 8 * |y| && |BytesBits(y)| % 8 == 0
  {
    hide BytesBits;
    assert |BytesBits(y)| == 8 * |y|;
  }

  lemma DecodedIs(y: seq<byte>)
    ensures Resumption.Decoded(y) == Finish(Feed(InflateSpec.Start(), BytesBits(y)))
  {
  }

  lemma CoverIs(s: seq<byte>, bs: seq<Block>, n: nat)
    requires BlocksCover(s, bs, n)
    ensures n <= |s| && BlocksOk(bs, []) && AfterAll([], bs) == s[..n]
  {
    hide BlockOk, BlocksOk, AfterAll;
  }

  lemma ZerosLength(k: nat)
    ensures |Zeros(k)| == k
  {
  }

  /** Some bytes that begin with those put so far, and stand for everything sent. */
  lemma Completed(q: Queue) returns (x: seq<byte>, k: nat)
    requires q.Valid()
    ensures q.delivered <= x && k < 8 && BytesBits(x) == q.Sent() + Zeros(k) && (q.biValid == 0 ==> k == 0)
  {
    hide BytesBits, BitsOf, Pow2, Zeros, Queue.Waiting;
    var held := BitsOf(q.biBuf, q.biValid);
    k := (8 - q.biValid % 8) % 8;
    ZerosLength(k);
    assert |held + Zeros(k)| % 8 == 0;
    var y := AsBytes(held + Zeros(k));
    x := q.Bytes() + y;
    BytesBitsAppend(q.Bytes(), y);
    assert BytesBits(q.Bytes()) + (held + Zeros(k)) == (BytesBits(q.Bytes()) + held) + Zeros(k);
  }

  /** What has been delivered after the header decodes to the beginning of `s`, and not to an error. */
  ghost predicate Begins(delivered: seq<byte>, header: seq<byte>, s: seq<byte>) {
    |header| <= |delivered| ==>
      var t := Resumption.Decoded(delivered[|header|..]);
      t.out <= s && t.mode != BAD
  }

  lemma BeginsIs(delivered: seq<byte>, header: seq<byte>, s: seq<byte>)
    ensures Begins(delivered, header, s)
            <==> (|header| <= |delivered| ==>
                    var t := Resumption.Decoded(delivered[|header|..]);
                    t.out <= s && t.mode != BAD)
  {
  }

  /** At any time, after any calls, nothing wrong has been delivered, if no tokens were overwritten. */
  lemma NeverWrong(c: Compressor)
    requires c.Valid() && !c.df.overrun
    ensures Begins(c.df.enc.q.delivered, c.Header(), c.df.d.s)
  {
    hide *;
    var n := c.SentParts();
    if c.status == INIT_STATE {
      c.NothingYet();
    } else if |c.Header()| <= |c.df.enc.q.delivered| {
      var x, k := Completed(c.df.enc.q);
      var d := |c.df.enc.q.delivered|;
      assert c.df.enc.q.delivered == x[..d];
      if c.status == FINISH_STATE {
        NoZeros(c.df.enc.q.Sent());
        Finished(x, c.df.header, c.df.blocks, c.stream, c.trailer, c.df.d.s);
        DeliversIs(x, c.df.header, c.trailer, c.df.d.s);
      } else {
        ToldIs(c.df.header, c.df.blocks, c.df.first, c.df.skip, c.df.enc.q.Sent());
        OpenWhole(x, c.df.header, c.df.blocks, c.df.d.s, n, k);
        CoverBound(c.df.d.s, c.df.blocks, n);
      }
      PartDecodes(x, d, |c.Header()|);
    }
    BeginsIs(c.df.enc.q.delivered, c.Header(), c.df.d.s);
  }

  lemma NoZeros(b: seq<bool>)
    ensures b + Zeros(0) == b
  {
  }

  lemma CoverBound(s: seq<byte>, bs: seq<Block>, n: nat)
    requires BlocksCover(s, bs, n)
    ensures n <= |s| && s[..n] <= s
  {
    hide BlockOk, BlocksOk, AfterAll;
  }

  // ---------- with header and trailer ----------

  /** The header is one that HEAD accepts. */
  lemma HeaderAccepted(wbits: nat, level: nat, strategy: Strategy)
    requires 9 <= wbits <= 15
    ensures var h := BigEndian(ZlibHeader(wbits, level, strategy)); |h| == 2 && HeadOk(h[0], h[1]) && !HasDict(h[1])
  {
    hide ZlibHeader;
    var r := ZlibHeader(wbits, level, strategy);
    assert r == 256 * (r / 256) + r % 256;
    assert r / 32 == 8 * (r / 256) + r % 256 / 32;
  }

  /** What has been delivered decodes, header and trailer included, to the beginning of `s`. */
  ghost predicate ZlibBegins(delivered: seq<byte>, s: seq<byte>) {
    ZlibDecoded(delivered).out <= s && ZlibDecoded(delivered).phase in {HEAD, BLOCKS, CHECK, END}
  }

  /** After the header the blocks decide. */
  lemma AfterHeader(x: seq<byte>, header: seq<byte>)
    requires |header| == 2 && HeadOk(header[0], header[1]) && !HasDict(header[1]) && header <= x
    ensures |x| >= 2 && ZlibDecoded(x) == Checked(Resumption.Decoded(x[2..]))
  {
    hide HeadOk, HasDict, Checked, Resumption.Decoded;
  }

  lemma CheckedIs(t: State, trailer: seq<byte>)
    ensures t.mode in {TYPE, STORED} ==> Checked(t) == Outcome(BLOCKS, t.out)
    ensures t.mode == DONE && t.bits == BytesBits(trailer) && trailer in {[], TrailerOf(t.out)} ==>
              Checked(t) == Outcome(if trailer == [] then CHECK else END, t.out)
  {
    hide BytesBits, TrailerOf;
    TrailerLength(t.out);
    assert |BytesBits([])| == 0;
  }

  /** At any time the same holds with header and trailer, which inflate then checks. */
  lemma ZlibNeverWrong(c: Compressor)
    requires c.Valid() && !c.df.overrun && c.wrapped
    ensures ZlibBegins(c.df.enc.q.delivered, c.df.d.s)
    ensures c.Complete() ==> ZlibDecoded(c.df.enc.q.delivered) == Outcome(END, c.df.d.s)
  {
    hide *;
    var n := c.SentParts();
    var x, k := Completed(c.df.enc.q);
    var d := |c.df.enc.q.delivered|;
    assert c.df.enc.q.delivered == x[..d];
    c.HeaderAt();
    c.CompleteIs();
    HeaderAccepted(c.wbits, c.level, c.df.strategy);
    if c.status == INIT_STATE {
      c.NothingYet();
      HeadWaits(c.df.enc.q.delivered);
    } else {
      if c.status == FINISH_STATE {
        NoZeros(c.df.enc.q.Sent());
        Finished(x, c.df.header, c.df.blocks, c.stream, c.trailer, c.df.d.s);
        DeliversIs(x, c.df.header, c.trailer, c.df.d.s);
        c.TrailerIs();
        c.df.enc.q.SentLength();
        InEights(x);
      } else {
        ToldIs(c.df.header, c.df.blocks, c.df.first, c.df.skip, c.df.enc.q.Sent());
        OpenWhole(x, c.df.header, c.df.blocks, c.df.d.s, n, k);
        CoverBound(c.df.d.s, c.df.blocks, n);
      }
      AfterHeader(x, c.df.header);
      CheckedIs(Resumption.Decoded(x[2..]), c.trailer);
      TrailerLength(c.df.d.s);
      ZlibMore(x, d);
      if c.Complete() {
        assert |x| == d;
        assert x[..d] == x;
      }
    }
    ZlibBeginsIs(c.df.enc.q.delivered, c.df.d.s);
  }

  lemma ZlibBeginsIs(delivered: seq<byte>, s: seq<byte>)
    ensures ZlibBegins(delivered, s)
            <==> ZlibDecoded(delivered).out <= s && ZlibDecoded(delivered).phase in {HEAD, BLOCKS, CHECK, END}
  {
    hide ZlibDecoded;
  }

  // ---------- how much is delivered ----------

  /** What header, padding and trailer may cost, in bits; stored blocks need no padding. */
  function Ends(level: int): (r: nat)
    ensures r == if level == 0 then 48 else 55
  {
    if level == 0 then 48 else 55
  }

  /** `delivered` bytes are no more than 9 bits for each of `n`, 10 for every 127 of them, and `more` bits. */
  predicate AtMost(delivered: nat, n: nat, more: nat) {
    127 * 8 * delivered <= 1153 * n + 127 * more
  }

  /**
   At any time, after any calls: 9 bits for each byte read and 10 for every 127 of them, whatever
   small blocks may have cost, and header, padding and trailer; nor are there many blocks.
   */
  lemma NotMuchLonger(c: Compressor)
    requires c.Valid() && !c.df.overrun
    ensures AtMost(|c.df.enc.q.delivered|, |c.df.d.s|, c.df.slack + Ends(c.df.enc.level))
    ensures 17 * 127 * |c.df.blocks| <= 17 * |c.df.d.s| + 127 * c.df.slack
  {
    hide *;
    var n0 := c.SentParts();
    var n := c.LogKept();
    c.df.LogIs();
    c.HeaderShort();
    c.df.enc.q.SentLength();
    var q, bs, size, fixedOnly := c.df.enc.q, c.df.blocks, c.df.enc.litBufsize, c.df.enc.fixedOnly;
    CoverIs(c.df.d.s, bs, n0);
    AllFair(bs, c.df.held, size, fixedOnly, false);
    FewBlocks(bs);
    AtMostIs(|q.delivered|, |c.df.d.s|, c.df.slack + Ends(c.df.enc.level));
    if c.status == FINISH_STATE {
      c.TrailerShort();
      StreamSentIs(c.df.header, bs, c.stream);
      StreamWidth(bs, size, fixedOnly);
      LastPadIs(bs);
      FinishedBits(q.Sent(), c.df.header, StreamBits(bs, [], 0) + Padding(|StreamBits(bs, [], 0)|), c.trailer);
    } else {
      ToldIs(c.df.header, bs, c.df.first, c.df.skip, q.Sent());
      SentWidth(bs, size, fixedOnly);
      FinishedBits(q.Sent(), c.df.header, SentBits(bs), []);
    }
  }

  /** deflateBound without its special case for the default parameters. */
  function DeflateBound(n: nat): nat {
    n + (n + 7) / 8 + (n + 63) / 64 + 11
  }

  lemma BoundIs(n: nat)
    ensures DeflateBound(n) == n + (n + 7) / 8 + (n + 63) / 64 + 11
  {
  }

  lemma MoreBound(m: nat, n: nat)
    requires m <= n
    ensures DeflateBound(m) <= DeflateBound(n) && (m < n ==> DeflateBound(m) < DeflateBound(n))
  {
    assert (m + 7) / 8 <= (n + 7) / 8;
    assert (m + 63) / 64 <= (n + 63) / 64;
  }

  /** With little slack that is a bound. */
  lemma WithinBound(delivered: nat, n: nat, slack: nat, level: int, calls: nat)
    requires AtMost(delivered, n, slack + Ends(level))
    ensures level != 0 && slack <= 27 ==> delivered < DeflateBound(n)
    ensures level == 0 && slack <= 42 ==> delivered <= DeflateBound(n) && (n > 0 ==> delivered < DeflateBound(n))
    ensures slack <= 84 * calls ==> delivered <= DeflateBound(n) + 11 * calls
  {
  }

  lemma AtMostIs(delivered: nat, n: nat, more: nat)
    ensures AtMost(delivered, n, more) <==> 127 * 8 * delivered <= 1153 * n + 127 * more
  {
  }

  lemma LastPadIs(bs: seq<Block>)
    requires bs != []
    ensures LastPad(bs[|bs| - 1]) <= 7 && (OnlyStored(bs) ==> LastPad(bs[|bs| - 1]) == 0)
  {
    assert ByteCount(Fixed([])) == 0;
  }

  lemma FinishedBits(sent: seq<bool>, header: seq<byte>, body: seq<bool>, trailer: seq<byte>)
    ensures sent == BytesBits(header) + body + BytesBits(trailer) ==>
              |sent| == 8 * |header| + |body| + 8 * |trailer|
    ensures trailer == [] ==> BytesBits(header) + body + BytesBits(trailer) == BytesBits(header) + body
  {
    hide BytesBits;
    NoBytesBits();
  }

  lemma StreamSentIs(header: seq<byte>, bs: seq<Block>, sent: seq<bool>)
    requires StreamSent(header, bs, sent)
    ensures bs != [] && BlocksOk(bs, []) && sent == BytesBits(header) + (StreamBits(bs, [], 0)
                                                                        + Padding(|StreamBits(bs, [], 0)|))
  {
    hide BlockOk, BlocksOk, StreamBits, Padding, BytesBits;
  }

  // ---------- whole runs ----------

  /** What a caller of deflate offers in one call. */
  datatype Call = Call(availIn: nat, availOut: nat, flush: Flush)

  /** How far back matches may start: MAX_DIST, 1 with Z_RLE, and not at all with Z_HUFFMAN_ONLY. */
  function FarOf(windowBits: nat, strategy: Strategy): int {
    if strategy == HUFFMAN_ONLY then 0
    else if strategy == RLE then 1
    else Pow2(if windowBits == 8 then 9 else windowBits) - MIN_LOOKAHEAD
  }

  /** Tokens are overwritten only on inputs of which some stretch can be made a block that is not clear. */
  lemma OverrunOnly(c: Compressor)
    requires c.Valid()
    ensures Logged(c.df.blocks, c.df.held, c.df.enc.litBufsize, c.df.enc.fixedOnly, c.df.overrun)
    ensures c.df.overrun ==> Overrunnable(c.df.d.s, c.df.enc.litBufsize, c.df.Far(), c.df.enc.fixedOnly)
    ensures c.df.enc.level == 0 ==> OnlyStored(c.df.blocks) && !c.df.overrun
    ensures !c.df.enc.fixedOnly ==> AllWorth(c.df.blocks, c.df.MaxDist())
  {
    hide *;
    var n := c.LogKept();
    c.df.LogIs();
    if c.df.enc.level == 0 {
      NothingToLose(c.df.blocks, c.df.held, c.df.enc.litBufsize, c.df.enc.fixedOnly, c.df.overrun);
    }
    if c.df.overrun {
      OverrunComesFrom(c.df.d.s, c.df.blocks, n, c.df.held, c.df.enc.litBufsize, c.df.Far(), c.df.enc.fixedOnly);
    }
  }

  /** The blocks give a first part of `s`, all of it if the stream has `ended`. */
  ghost predicate Account(bs: seq<Block>, s: seq<byte>, ended: bool) {
    exists n: nat :: BlocksCover(s, bs, n) && (ended ==> n == |s|)
  }

  lemma AccountIs(bs: seq<Block>, s: seq<byte>, ended: bool, n: nat)
    requires BlocksCover(s, bs, n) && (ended ==> n == |s|)
    ensures Account(bs, s, ended)
  {
    hide BlocksCover;
  }

  /** The bytes are those of the stream of the blocks, between header and trailer. */
  ghost predicate Carries(delivered: seq<byte>, header: seq<byte>, bs: seq<Block>, trailer: seq<byte>) {
    exists stream: seq<bool> :: StreamSent(header, bs, stream) && BytesBits(delivered) == stream + BytesBits(trailer)
  }

  lemma CarriesIs(delivered: seq<byte>, header: seq<byte>, bs: seq<Block>, trailer: seq<byte>, stream: seq<bool>)
    requires StreamSent(header, bs, stream) && BytesBits(delivered) == stream + BytesBits(trailer)
    ensures Carries(delivered, header, bs, trailer)
  {
    hide StreamSent, BytesBits;
  }

  /** The blocks of a stream, with what is known of them. */
  lemma BlocksSent(c: Compressor, ended: bool)
    requires c.Valid() && (ended ==> c.Complete())
    ensures Logged(c.df.blocks, c.df.held, c.df.enc.litBufsize, c.df.enc.fixedOnly, c.df.overrun)
    ensures Account(c.df.blocks, c.df.d.s, ended) && BlocksWithin(c.df.blocks, c.df.Far())
    ensures c.df.enc.level > 0 && c.df.strategy != HUFFMAN_ONLY ==> BlocksApart(c.df.d.s, c.df.blocks, c.df.ends)
    ensures ended && !c.df.overrun ==>
              Carries(c.df.enc.q.delivered, c.Header(), c.df.blocks, if c.wrapped then TrailerOf(c.df.d.s) else [])
  {
    hide *;
    var n := c.LogKept();
    c.df.RunsTakenIs();
    c.df.LogIs();
    c.CompleteIs();
    AccountIs(c.df.blocks, c.df.d.s, ended, n);
    if ended && !c.df.overrun {
      c.CompleteParts();
      AllDelivered(c.df.enc.q);
      CarriesIs(c.df.enc.q.delivered, c.df.header, c.df.blocks, c.trailer, c.stream);
    }
  }

  /** Short inputs, and Z_FIXED with the smallest window, are safe. */
  lemma SafeInput(s: seq<byte>, windowBits: nat, memLevel: nat, strategy: Strategy)
    requires 8 <= windowBits <= 15 && 1 <= memLevel <= 9
    requires 5 * |s| <= 4 * BufferSize(memLevel) || (strategy == FIXED && windowBits <= 9)
    ensures !Overrunnable(s, BufferSize(memLevel), FarOf(windowBits, strategy), strategy == FIXED)
  {
    hide Overrunnable, Pow2;
    Pow2Values();
    if 5 * |s| <= 4 * BufferSize(memLevel) {
      ShortInput(s, BufferSize(memLevel), FarOf(windowBits, strategy), strategy == FIXED);
    } else {
      NearInput(s, BufferSize(memLevel), FarOf(windowBits, strategy));
    }
  }

  ghost function HeaderOf(level: int, windowBits: nat, strategy: Strategy, wrapped: bool): seq<byte>
    requires LevelOk(level) && 8 <= windowBits <= 15
  {
    if wrapped then BigEndian(ZlibHeader(if windowBits == 8 then 9 else windowBits, LevelOf(level), strategy)) else []
  }

  /** Call `k` is the first with Z_FINISH, offers at least `n` bytes, and has more room than `m`. */
  predicate Closing(calls: seq<Call>, k: int, n: nat, m: nat) {
    && 0 <= k < |calls| && calls[k].flush == Z_FINISH && calls[k].availIn >= n && calls[k].availOut > m
    && forall j :: 0 <= j < k ==> calls[j].flush != Z_FINISH
  }

  lemma ClosingIs(calls: seq<Call>, k: int, n: nat, m: nat)
    ensures Closing(calls, k, n, m) <==>
              && 0 <= k < |calls| && calls[k].flush == Z_FINISH && calls[k].availIn >= n && calls[k].availOut > m
              && forall j :: 0 <= j < k ==> calls[j].flush != Z_FINISH
  {
  }

  /** None of the first `n` calls asks for a flush. */
  predicate Quiet(calls: seq<Call>, n: int) {
    forall j :: 0 <= j < n && j < |calls| ==> calls[j].flush == Z_NO_FLUSH
  }

  lemma QuietIs(calls: seq<Call>, i: nat)
    requires i < |calls|
    ensures Quiet(calls, i + 1) <==> Quiet(calls, i) && calls[i].flush == Z_NO_FLUSH
    ensures Quiet(calls, |calls| - 1) ==> Quiet(calls, i)
  {
  }

  lemma NoneAsked(calls: seq<Call>)
    ensures Quiet(calls, -1)
  {
  }

  /** The last slice offers at least `n` bytes and has more room than `m`. */
  predicate Offers(slices: seq<Resumption.Slice>, n: nat, m: nat) {
    |slices| > 0 && slices[|slices| - 1].availIn >= n && slices[|slices| - 1].availOut > m
  }

  lemma OffersIs(slices: seq<Resumption.Slice>, n: nat, m: nat)
    ensures Offers(slices, n, m)
            <==> |slices| > 0 && slices[|slices| - 1].availIn >= n && slices[|slices| - 1].availOut > m
  {
  }

  /** A first Z_FINISH with room always has something to do. */
  lemma NotIdle(status: Status, pending: nat, offered: seq<byte>, availOut: nat, lastFlush: int)
    requires status != FINISH_STATE && availOut > 0
    ensures !NothingToDo(status, pending, offered, availOut, Z_FINISH, lastFlush)
  {
  }

  /**
   Compress with any calls, whose flushes may come anywhere; input not consumed by a call is
   offered again.  If no tokens were overwritten, what has come out decodes to the beginning of the
   input consumed, and is not much longer; if the stream has ended, it is that of all of it.  It ends
   when the last call, and no other, asks for that with all the input and enough room.
   */
  method Compress(input: seq<byte>, calls: seq<Call>, level: int, windowBits: nat, memLevel: nat, strategy: Strategy,
      wrapped: bool)
    returns (output: seq<byte>, used: nat, ended: bool, intact: bool, ghost blocks: seq<Block>,
        ghost held: seq<nat>, ghost ends: set<nat>)
    requires LevelOk(level) && 8 <= windowBits <= 15 && 1 <= memLevel <= 9
    ensures used <= |input|
    ensures ended && intact ==> Delivers(output, HeaderOf(level, windowBits, strategy, wrapped),
            if wrapped then TrailerOf(input[..used]) else [], input[..used])
    ensures intact ==> Begins(output, HeaderOf(level, windowBits, strategy, wrapped), input[..used])
    ensures intact && wrapped ==>
              && ZlibBegins(output, input[..used])
              && (ended ==> ZlibDecoded(output) == Outcome(END, input[..used]))
    ensures intact ==> |output| <= DeflateBound(used) + 11 * |calls|
    ensures intact && Closing(calls, |calls| - 1, |input|, DeflateBound(|input|) + 11 * |calls|) ==>
              ended && used == |input|
    ensures Logged(blocks, held, BufferSize(memLevel), strategy == FIXED, !intact)
    ensures level == 0 ==> intact && OnlyStored(blocks)
    ensures strategy != FIXED ==> AllWorth(blocks, FarOf(windowBits, DEFAULT))
    ensures Account(blocks, input[..used], ended) && BlocksWithin(blocks, FarOf(windowBits, strategy))
    ensures level != 0 && strategy != HUFFMAN_ONLY ==> BlocksApart(input[..used], blocks, ends)
    ensures Quiet(calls, |calls| - 1) ==> ends <= {used}
    ensures intact && ended ==> Carries(output, HeaderOf(level, windowBits, strategy, wrapped), blocks,
            if wrapped then TrailerOf(input[..used]) else [])
    ensures !intact ==>
              Overrunnable(input[..used], BufferSize(memLevel), FarOf(windowBits, strategy), strategy == FIXED)
  {
    hide *;
    var c := new Compressor(level, windowBits, memLevel, strategy, wrapped);
    output, used, ended := [], 0, false;
    ghost var m := DeflateBound(|input|) + 11 * |calls|;
    ClosingIs(calls, -1, |input|, m);
    NoneAsked(calls);
    assert input[..0] == [];
    var i := 0;
    while i < |calls| && !ended
      invariant 0 <= i <= |calls| && used <= |input| && c.Valid() && c.df.d.s == input[..used]
      invariant c.df.enc.q.delivered == output && c.df.slack <= 84 * i
      invariant ended ==> c.Complete()
      invariant (forall j :: 0 <= j < i ==> calls[j].flush != Z_FINISH) ==> !ended && c.status != FINISH_STATE
      invariant Closing(calls, i - 1, |input|, m) ==> if ended then used == |input| else |output| > m
      invariant (Quiet(calls, i) ==> c.df.ends == {}) && (Quiet(calls, i - 1) ==> c.df.ends <= {used})
      invariant Quiet(calls, |calls| - 1) ==> Quiet(calls, i - 1)
      decreases |calls| - i
    {
      hide *;
      ClosingIs(calls, i, |input|, m);
      QuietIs(calls, i);
      var n := calls[i].availIn;
      var offered := input[used..if used + n <= |input| then used + n else |input|];
      if c.status != FINISH_STATE && calls[i].availOut > 0 {
        NotIdle(c.status, c.df.enc.q.pending, offered, calls[i].availOut, c.lastFlush);
      }
      var ret, k, out := c.Deflate(offered, calls[i].availOut, calls[i].flush);
      ReadSoFar(input, used, offered, k);
      output, used, ended := output + out, used + k, ret == Z_STREAM_END;
      i := i + 1;
    }
    intact := !c.df.overrun;
    blocks, held, ends := c.df.blocks, c.df.held, c.df.ends;
    Reported(c, level, windowBits, memLevel, strategy, wrapped, |calls|, ended);
    if intact {
      MoreBound(used, |input|);
      ClosingIs(calls, |calls| - 1, |input|, m);
    }
  }

  /** What `n` calls have left, in terms of the parameters. */
  lemma Reported(c: Compressor, level: int, windowBits: nat, memLevel: nat, strategy: Strategy, wrapped: bool,
      n: nat, ended: bool)
    requires LevelOk(level) && 8 <= windowBits <= 15 && 1 <= memLevel <= 9 && c.Valid()
    requires c.level == LevelOf(level) && c.df.enc.level == c.level && c.wrapped == wrapped
    requires c.wbits == (if windowBits == 8 then 9 else windowBits) && c.df.strategy == strategy
    requires c.df.enc.fixedOnly == (strategy == FIXED) && c.df.enc.litBufsize == BufferSize(memLevel)
    requires c.df.MaxDist() == Pow2(c.wbits) - MIN_LOOKAHEAD && c.df.slack <= 84 * n && (ended ==> c.Complete())
    ensures Logged(c.df.blocks, c.df.held, BufferSize(memLevel), strategy == FIXED, c.df.overrun)
    ensures level == 0 ==> !c.df.overrun && OnlyStored(c.df.blocks)
    ensures strategy != FIXED ==> AllWorth(c.df.blocks, FarOf(windowBits, DEFAULT))
    ensures Account(c.df.blocks, c.df.d.s, ended) && BlocksWithin(c.df.blocks, FarOf(windowBits, strategy))
    ensures level != 0 && strategy != HUFFMAN_ONLY ==> BlocksApart(c.df.d.s, c.df.blocks, c.df.ends)
    ensures c.df.overrun ==>
              Overrunnable(c.df.d.s, BufferSize(memLevel), FarOf(windowBits, strategy), strategy == FIXED)
    ensures !c.df.overrun ==>
              var out, header := c.df.enc.q.delivered, HeaderOf(level, windowBits, strategy, wrapped);
              var trailer := if wrapped then TrailerOf(c.df.d.s) else [];
              && Begins(out, header, c.df.d.s) && |out| <= DeflateBound(|c.df.d.s|) + 11 * n
              && (wrapped ==> ZlibBegins(out, c.df.d.s))
              && (wrapped && ended ==> ZlibDecoded(out) == Outcome(END, c.df.d.s))
              && (ended ==> Delivers(out, header, trailer, c.df.d.s) && Carries(out, header, c.df.blocks, trailer))
  {
    hide *;
    OverrunOnly(c);
    BlocksSent(c, ended);
    SameFar(c, windowBits, strategy);
    SameHeader(c, level, windowBits, strategy, wrapped);
    if !c.df.overrun {
      OutputRight(c, n, ended);
    }
  }

  /** What has come out after `n` calls. */
  lemma OutputRight(c: Compressor, n: nat, ended: bool)
    requires c.Valid() && !c.df.overrun && c.df.slack <= 84 * n && (ended ==> c.Complete())
    ensures Begins(c.df.enc.q.delivered, c.Header(), c.df.d.s)
    ensures ended ==>
              Delivers(c.df.enc.q.delivered, c.Header(), if c.wrapped then TrailerOf(c.df.d.s) else [], c.df.d.s)
    ensures c.wrapped ==>
              && ZlibBegins(c.df.enc.q.delivered, c.df.d.s)
              && (ended ==> ZlibDecoded(c.df.enc.q.delivered) == Outcome(END, c.df.d.s))
    ensures |c.df.enc.q.delivered| <= DeflateBound(|c.df.d.s|) + 11 * n
  {
    hide *;
    NeverWrong(c);
    if c.wrapped {
      ZlibNeverWrong(c);
    }
    NotMuchLonger(c);
    WithinBound(|c.df.enc.q.delivered|, |c.df.d.s|, c.df.slack, c.df.enc.level, n);
    if ended {
      CompleteDecodes(c);
    }
  }

  lemma ReadSoFar(input: seq<byte>, used: nat, offered: seq<byte>, k: nat)
    requires used + |offered| <= |input| && offered == input[used..used + |offered|] && k <= |offered|
    ensures input[..used] + offered[0..k] == input[..used + k]
  {
    assert offered[0..k] == input[used..used + k];
  }

  lemma SameFar(c: Compressor, windowBits: nat, strategy: Strategy)
    requires c.wbits == (if windowBits == 8 then 9 else windowBits) && c.df.strategy == strategy
    requires c.df.MaxDist() == Pow2(c.wbits) - MIN_LOOKAHEAD
    ensures c.df.Far() == FarOf(windowBits, strategy) && c.df.MaxDist() == FarOf(windowBits, DEFAULT)
  {
  }

  lemma SameHeader(c: Compressor, level: int, windowBits: nat, strategy: Strategy, wrapped: bool)
    requires LevelOk(level) && 8 <= windowBits <= 15 && c.level == LevelOf(level)
    requires c.wbits == (if windowBits == 8 then 9 else windowBits) && c.wrapped == wrapped && c.df.strategy == strategy
    ensures c.Header() == HeaderOf(level, windowBits, strategy, wrapped)
  {
    hide BigEndian, ZlibHeader;
  }

  /**
   Compress with any calls and decompress with any slices, with or without the zlib header and
   trailer: if no tokens were overwritten, the result is the beginning of the input and there is no
   data error; if both streams have come to their end, it is all of the input.  They do when the last
   call on either side is enough for it.
   */
  method CompressAndDecompress(input: seq<byte>, calls: seq<Call>, slices: seq<Resumption.Slice>, level: int,
      windowBits: nat, memLevel: nat, strategy: Strategy, wrapped: bool)
    returns (result: seq<byte>, used: nat, ended: bool, intact: bool, ret: Inflate.Ret, ghost blocks: seq<Block>,
        ghost held: seq<nat>)
    requires LevelOk(level) && 8 <= windowBits <= 15 && 1 <= memLevel <= 9
    ensures used <= |input|
    ensures intact ==> result <= input[..used] && ret !in {Inflate.Z_DATA_ERROR, Inflate.Z_NEED_DICT}
    ensures intact && ended && ret == Inflate.Z_STREAM_END ==> result == input[..used]
    ensures var m := DeflateBound(|input|) + 11 * |calls|;
            intact && Closing(calls, |calls| - 1, |input|, m) && Offers(slices, m, |input|) ==>
              result == input && ret == Inflate.Z_STREAM_END
    ensures Logged(blocks, held, BufferSize(memLevel), strategy == FIXED, !intact)
    ensures level == 0 ==> intact && OnlyStored(blocks)
    ensures strategy != FIXED ==> AllWorth(blocks, FarOf(windowBits, DEFAULT))
    ensures Account(blocks, input[..used], ended) && BlocksWithin(blocks, FarOf(windowBits, strategy))
    ensures !intact ==>
              Overrunnable(input[..used], BufferSize(memLevel), FarOf(windowBits, strategy), strategy == FIXED)
  {
    hide *;
    var output;
    ghost var ends;
    output, used, ended, intact, blocks, held, ends := Compress(input, calls, level, windowBits, memLevel, strategy,
        wrapped);
    HeaderLength(level, windowBits, strategy, wrapped);
    ghost var m := DeflateBound(|input|) + 11 * |calls|;
    MoreBound(used, |input|);
    OffersIs(slices, m, |input|);
    if wrapped {
      if intact {
        ZlibBeginsIs(output, input[..used]);
      }
      var n;
      result, n, ret := ZlibDecompress(output, slices);
    } else {
      assert output[0..] == output;
      if intact {
        BeginsIs(output, HeaderOf(level, windowBits, strategy, wrapped), input[..used]);
        if ended {
          DeliversIs(output, HeaderOf(level, windowBits, strategy, wrapped), [], input[..used]);
        }
      }
      var n, mode, h;
      result, n, ret, mode, h := Resumption.Decompress(output, slices);
    }
  }

  lemma DeliversIs(delivered: seq<byte>, header: seq<byte>, trailer: seq<byte>, s: seq<byte>)
    requires Delivers(delivered, header, trailer, s)
    ensures header <= delivered && Resumption.Decoded(delivered[|header|..]).out == s
    ensures Resumption.Decoded(delivered[|header|..]).mode == DONE
    ensures Resumption.Decoded(delivered[|header|..]).bits == BytesBits(trailer)
  {
  }

  lemma HeaderLength(level: int, windowBits: nat, strategy: Strategy, wrapped: bool)
    requires LevelOk(level) && 8 <= windowBits <= 15
    ensures |HeaderOf(level, windowBits, strategy, wrapped)| == if wrapped then 2 else 0
  {
  }

  /** All the input in one call, as `ThereAndBack` has it. */
  method CompressAtOnce(input: seq<byte>, room: nat, level: int, windowBits: nat, memLevel: nat, strategy: Strategy,
      wrapped: bool)
    returns (packed: seq<byte>, intact: bool, ghost blocks: seq<Block>, ghost held: seq<nat>)
    requires LevelOk(level) && 8 <= windowBits <= 15 && 1 <= memLevel <= 9
    ensures |packed| < room && intact ==> Delivers(packed, HeaderOf(level, windowBits, strategy, wrapped),
            if wrapped then TrailerOf(input) else [], input)
    ensures |packed| <= room && (intact ==> |packed| <= DeflateBound(|input|))
    ensures intact && (level != 0 || input != []) ==> |packed| < DeflateBound(|input|)
    ensures Logged(blocks, held, BufferSize(memLevel), strategy == FIXED, !intact)
    ensures level == 0 ==> intact && OnlyStored(blocks)
    ensures strategy != FIXED ==> AllWorth(blocks, FarOf(windowBits, DEFAULT))
    ensures (|packed| < room ==> Account(blocks, input, true)) && BlocksWithin(blocks, FarOf(windowBits, strategy))
    ensures level != 0 && strategy != HUFFMAN_ONLY ==> BlocksApart(input, blocks, {|input|})
    ensures |packed| < room && intact ==> Carries(packed, HeaderOf(level, windowBits, strategy, wrapped), blocks,
            if wrapped then TrailerOf(input) else [])
    ensures !intact ==> Overrunnable(input, BufferSize(memLevel), FarOf(windowBits, strategy), strategy == FIXED)
    ensures 5 * |input| <= 4 * BufferSize(memLevel) || (strategy == FIXED && windowBits <= 9) ==> intact
    ensures intact && wrapped ==>
              ZlibBegins(packed, input) && (|packed| < room ==> ZlibDecoded(packed) == Outcome(END, input))
    ensures intact && !wrapped ==>
              Begins(packed, [], input) && (|packed| < room ==> Delivers(packed, [], [], input))
  {
    hide *;
    var c := new Compressor(level, windowBits, memLevel, strategy, wrapped);
    c.NothingIs(c.status, c.df.enc.q.pending, input, room, Z_FINISH, c.lastFlush);
    var code, used, out := c.Deflate(input, room, Z_FINISH);
    packed, intact := out, !c.df.overrun;
    blocks, held := c.df.blocks, c.df.held;
    assert c.df.d.s == input[..used] && c.df.enc.q.delivered == out;
    assert |out| < room ==> input[..used] == input;
    Reported(c, level, windowBits, memLevel, strategy, wrapped, 1, |out| < room);
    if level != 0 && strategy != HUFFMAN_ONLY {
      BlocksApartMore(input[..used], input, blocks, c.df.ends, {|input|});
    }
    if c.df.overrun {
      MoreOverrunnable(input, used, BufferSize(memLevel), FarOf(windowBits, strategy), strategy == FIXED);
    }
    if 5 * |input| <= 4 * BufferSize(memLevel) || (strategy == FIXED && windowBits <= 9) {
      SafeInput(input, windowBits, memLevel, strategy);
    }
    HeaderLength(level, windowBits, strategy, wrapped);
    assert !wrapped ==> HeaderOf(level, windowBits, strategy, wrapped) == [];
    if intact {
      NotMuchLonger(c);
      WithinBound(|out|, used, c.df.slack, c.df.enc.level, 1);
      MoreBound(used, |input|);
      if wrapped {
        ZlibBeginsIs(out, input[..used]);
        ZlibBeginsIs(out, input);
      } else {
        BeginsIs(out, HeaderOf(level, windowBits, strategy, wrapped), input[..used]);
        BeginsIs(out, [], input);
      }
    }
  }

  /**
   All the input in one call with Z_FINISH, and one call to decompress: unless tokens were
   overwritten, the result is the beginning of the input, and all of it if the compressed stream does
   not fill its room, which it cannot if that is DeflateBound.
   */
  method ThereAndBack(input: seq<byte>, room: nat, level: int, windowBits: nat, memLevel: nat, strategy: Strategy,
      wrapped: bool)
    returns (packed: seq<byte>, result: seq<byte>, intact: bool, ret: Inflate.Ret, ghost blocks: seq<Block>,
        ghost held: seq<nat>)
    requires LevelOk(level) && 8 <= windowBits <= 15 && 1 <= memLevel <= 9
    ensures |packed| < room && intact ==> Delivers(packed, HeaderOf(level, windowBits, strategy, wrapped),
            if wrapped then TrailerOf(input) else [], input)
    ensures intact ==> result <= input && (|packed| < room ==> result == input && ret == Inflate.Z_STREAM_END)
    ensures |packed| <= room && (intact ==> |packed| <= |input| + (|input| + 7) / 8 + (|input| + 63) / 64 + 11)
    ensures intact && (level != 0 || input != []) ==> |packed| < DeflateBound(|input|)
    ensures Logged(blocks, held, BufferSize(memLevel), strategy == FIXED, !intact)
    ensures level == 0 ==> intact && OnlyStored(blocks)
    ensures strategy != FIXED ==> AllWorth(blocks, FarOf(windowBits, DEFAULT))
    ensures (|packed| < room ==> Account(blocks, input, true)) && BlocksWithin(blocks, FarOf(windowBits, strategy))
    ensures level != 0 && strategy != HUFFMAN_ONLY ==> BlocksApart(input, blocks, {|input|})
    ensures |packed| < room && intact ==> Carries(packed, HeaderOf(level, windowBits, strategy, wrapped), blocks,
            if wrapped then TrailerOf(input) else [])
    ensures !intact ==> Overrunnable(input, BufferSize(memLevel), FarOf(windowBits, strategy), strategy == FIXED)
    ensures 5 * |input| <= 4 * BufferSize(memLevel) || (strategy == FIXED && windowBits <= 9) ==> intact
  {
    hide *;
    packed, intact, blocks, held := CompressAtOnce(input, room, level, windowBits, memLevel, strategy, wrapped);
    ZlibBeginsIs(packed, input);
    BeginsIs(packed, [], input);
    BoundIs(|input|);
    assert packed[0..] == packed;
    if intact && !wrapped && |packed| < room {
      DeliversIs(packed, [], [], input);
    }
    var n, mode, h;
    if wrapped {
      result, n, ret := ZlibDecompress(packed, [Resumption.Slice(|packed|, |input| + 1)]);
    } else {
      result, n, ret, mode, h := Resumption.Decompress(packed, [Resumption.Slice(|packed|, |input| + 1)]);
    }
  }
}
