/** Resumption is invisible: however input and room are sliced over calls, the output is the same. */
module Resumption {
  import opened Bits
  import opened CanonicalCode
  import opened InflateSpec
  import opened InflateRuns
  import opened Inflate

  /** The machine run on a whole stream. */
  ghost function Decoded(stream: seq<byte>): State {
    Finish(Feed(InflateSpec.Start(), BytesBits(stream)))
  }

  /** What a caller offers in one call. */
  datatype Slice = Slice(availIn: nat, availOut: nat)

  lemma FeedMore(a: State, x: seq<byte>, y: seq<byte>)
    ensures Feed(Feed(a, BytesBits(x)), BytesBits(y)) == Feed(a, BytesBits(x + y))
  {
    hide BytesBits;
    BytesBitsAppend(x, y);
    FeedFeed(a, BytesBits(x), BytesBits(y));
  }

  /** A call after others. */
  lemma Continue(s: State, x: seq<byte>, a: State, y: seq<byte>, b: State)
    requires CodesFit(s) && Leads(Feed(s, BytesBits(x)), a) && Leads(Feed(a, BytesBits(y)), b)
    ensures Leads(Feed(s, BytesBits(x + y)), b)
  {
    hide Leads, CodesFit, BytesBits, Feed;
    FedFits(s, BytesBits(x));
    assert |BytesBits(y)| % 8 == 0;
    LeadsFeed(Feed(s, BytesBits(x)), a, BytesBits(y));
    FeedMore(s, x, y);
    LeadsTrans(Feed(s, BytesBits(x + y)), Feed(a, BytesBits(y)), b);
  }

  /** What has come out is a prefix of what the whole stream gives; all of it if the machine is stuck. */
  lemma Prefix(stream: seq<byte>, n: nat, a: State)
    requires n <= |stream| && CodesFit(InflateSpec.Start())
    requires Leads(Feed(InflateSpec.Start(), BytesBits(stream[..n])), a)
    ensures a.out <= Decoded(stream).out
    ensures a.mode in {DONE, BAD} || (n == |stream| && Step(a) == None) ==>
              Decoded(stream) == Feed(a, BytesBits(stream[n..]))
  {
    hide Leads, CodesFit, BytesBits, Step, Finish, Feed;
    var s, rest := InflateSpec.Start(), BytesBits(stream[n..]);
    assert stream == stream[..n] + stream[n..];
    FedFits(s, BytesBits(stream[..n]));
    assert |rest| % 8 == 0;
    LeadsFeed(Feed(s, BytesBits(stream[..n])), a, rest);
    FeedMore(s, stream[..n], stream[n..]);
    var b := Feed(a, rest);
    LeadsFinish(Feed(s, BytesBits(stream)), b);
    FinishLeads(b);
    LeadsOut(b, Finish(b));
    FeedOut(a, rest);
    if a.mode in {DONE, BAD} {
      Stopped(a, rest);
    } else if n == |stream| && Step(a) == None {
      assert stream[n..] == [] && BytesBits([]) == [] by { NoBytes(); }
      FeedNone(a);
      FinishStuck(a);
    }
  }

  lemma NoBytes()
    ensures BytesBits([]) == []
  {
  }

  lemma FeedOut(a: State, x: seq<bool>)
    ensures Feed(a, x).out == a.out
  {
  }

  lemma FeedNone(a: State)
    ensures Feed(a, []) == a
  {
    assert a.bits + [] == a.bits;
  }

  lemma FinishStuck(a: State)
    requires Step(a) == None
    ensures Finish(a) == a
  {
    hide Step;
  }

  lemma NeedStops(t: State)
    requires t.mode == LEN && Decode(t.lencode, t.bits) == Need
    ensures Step(t) == None
  {
    hide Decode;
  }

  lemma Stopped(a: State, x: seq<bool>)
    requires a.mode in {DONE, BAD}
    ensures Finish(Feed(a, x)) == Feed(a, x)
  {
  }

  /**
   Decompress a raw stream with any slices of input and room; input not consumed by a call is
   offered again.  If the last of them offers all the rest, and room to spare, everything has come
   out.  After the calls, in LEN, `held` bits are in the accumulator: those that the machine, run on
   the input used, has left.
   */
  method Decompress(stream: seq<byte>, slices: seq<Slice>)
    returns (output: seq<byte>, used: nat, ret: Ret, mode: Mode, held: nat)
    ensures used <= |stream| && output <= Decoded(stream).out && ret != Z_NEED_DICT
    ensures ret == Z_STREAM_END ==> output == Decoded(stream).out && Decoded(stream).mode == DONE
    ensures ret == Z_DATA_ERROR ==> output == Decoded(stream).out && Decoded(stream).mode == BAD
    ensures |slices| > 0 && slices[|slices| - 1].availIn >= |stream|
            && slices[|slices| - 1].availOut > |Decoded(stream).out|
            ==> output == Decoded(stream).out && (ret == Z_STREAM_END <==> Decoded(stream).mode == DONE)
    ensures mode == LEN ==>
              var t := Decoded(stream[..used]);
              t.mode == LEN && held == |t.bits| <= MAX_BITS - 1 && Decode(t.lencode, t.bits) == Need
  {
    hide *;
    var inf := new Inflater();
    output, used, ret := [], 0, Z_OK;
    StartFits();
    StartIs();
    LeadsSelf(InflateSpec.Start());
    assert stream[..0] == [];
    NoBytes();
    FeedNone(InflateSpec.Start());
    inf.FirstIdle();
    inf.IdleMode();
    var i := 0;
    while i < |slices| && ret != Z_STREAM_END && ret != Z_DATA_ERROR
      invariant 0 <= i <= |slices| && used <= |stream| && inf.Idle() && output == inf.abs.out
      invariant Leads(Feed(InflateSpec.Start(), BytesBits(stream[..used])), inf.abs)
      invariant (ret == Z_STREAM_END ==> inf.mode == DONE) && (ret == Z_DATA_ERROR ==> inf.mode == BAD)
      invariant inf.mode == LEN ==> Step(inf.abs) == None
      invariant (ret == Z_STREAM_END <== inf.mode == DONE) && inf.mode == inf.abs.mode && ret != Z_NEED_DICT
      invariant i > 0 && slices[i - 1].availIn >= |stream| ==>
                  || inf.mode in {DONE, BAD} || (used == |stream| && Step(inf.abs) == None)
                  || |output| >= slices[i - 1].availOut
      decreases |slices| - i
    {
      hide *;
      var n := slices[i].availIn;
      var input := stream[used..if used + n <= |stream| then used + n else |stream|];
      var out := new byte[slices[i].availOut];
      ghost var a := inf.abs;
      var consumed, written;
      consumed, written, ret := inf.Inflate(input, out, false);
      Continue(InflateSpec.Start(), stream[..used], a, input[..consumed], inf.abs);
      TakeMore(stream, used, input, consumed);
      output := output + out[..written];
      used := used + consumed;
      i := i + 1;
      inf.IdleMode();
    }
    AllTaken(stream);
    FeedNone(inf.abs);
    mode, held := inf.mode, inf.br.bits;
    Prefix(stream, used, inf.abs);
    FeedMode(inf.abs, BytesBits(stream[used..]));
    if mode == LEN {
      inf.HeldInLen();
      Alone(stream[..used], inf.abs);
    }
  }

  lemma TakeMore(stream: seq<byte>, used: nat, input: seq<byte>, k: nat)
    requires used <= |stream| && input <= stream[used..] && k <= |input|
    ensures stream[..used] + input[..k] == stream[..used + k]
  {
  }

  lemma AllTaken(stream: seq<byte>)
    ensures stream[..|stream|] == stream && stream[|stream|..] == []
  {
  }

  lemma Unfed(x: seq<bool>)
    ensures var s := Feed(InflateSpec.Start(), x); s.mode == TYPE && !s.last && s.bits == x && s.out == []
  {
    assert [] + x == x;
  }

  lemma StartIs()
    ensures InflateSpec.Start().out == [] && InflateSpec.Start().mode == TYPE
  {
  }

  /** A machine that is stuck is what its input alone leads to. */
  lemma Alone(stream: seq<byte>, a: State)
    requires CodesFit(InflateSpec.Start()) && Leads(Feed(InflateSpec.Start(), BytesBits(stream)), a) && Step(a) == None
    ensures Decoded(stream) == a
  {
    hide Leads, CodesFit, BytesBits, Step, Finish, Feed;
    LeadsFinish(Feed(InflateSpec.Start(), BytesBits(stream)), a);
    FinishStuck(a);
  }

  lemma FeedMode(a: State, x: seq<bool>)
    ensures Feed(a, x).mode == a.mode && Feed(a, x).out == a.out
  {
  }

  /** One call with all the input and enough room gives everything. */
  method DecompressAtOnce(stream: seq<byte>, room: nat) returns (output: seq<byte>)
    ensures output <= Decoded(stream).out && (|Decoded(stream).out| <= room ==> output == Decoded(stream).out)
  {
    hide Leads, CodesFit, BytesBits, Step, Finish, Feed;
    var inf := new Inflater();
    StartFits();
    inf.FirstIdle();
    var out := new byte[room];
    var consumed, written, ret := inf.Inflate(stream, out, true);
    output := out[..written];
    inf.IdleMode();
    Prefix(stream, consumed, inf.abs);
    FeedMode(inf.abs, BytesBits(stream[consumed..]));
  }
}
