/**
 The zlib format of RFC 1950: a header of two bytes, deflate blocks, and the Adler-32 checksum of what
 they stand for.
 */
module ZlibFormat {
  import opened Bits
  import opened ByteStrings
  import opened Adler32
  import opened BitQueue
  import opened InflateSpec
  import opened InflateRuns
  import opened Inflate
  import opened Resumption

  /** Where inflate is in a stream of that format. */
  datatype Phase = HEAD | DICTID | DICT | BLOCKS | CHECK | END | FAILED

  /** The trailer: the checksum, most significant byte first. */
  ghost function TrailerOf(s: seq<byte>): seq<byte> {
    BigEndian(AdlerOf(s) / 0x10000) + BigEndian(AdlerOf(s) % 0x10000)
  }

  /** The check bits, the method and the window size are right. */
  predicate HeadOk(cmf: byte, flg: byte) {
    (256 * cmf as nat + flg as nat) % 31 == 0 && cmf as nat % 16 == 8 && cmf as nat / 16 + 8 <= 15
  }

  /** A preset dictionary is needed. */
  predicate HasDict(flg: byte) {
    flg as nat / 32 % 2 == 1
  }

  datatype Outcome = Outcome(phase: Phase, out: seq<byte>)

  /** What is decoded of a stream, and how far that leads. */
  ghost function ZlibDecoded(stream: seq<byte>): Outcome {
    if |stream| < 2 then Outcome(HEAD, [])
    else if !HeadOk(stream[0], stream[1]) then Outcome(FAILED, [])
    else if HasDict(stream[1]) then Outcome(if |stream| < 6 then DICTID else DICT, [])
    else Checked(Resumption.Decoded(stream[2..]))
  }

  /** The blocks have been decoded; then the checksum is compared. */
  ghost function Checked(t: State): Outcome {
    if t.mode == InflateSpec.BAD then Outcome(FAILED, t.out)
    else if t.mode != InflateSpec.DONE then Outcome(BLOCKS, t.out)
    else if |t.bits| < 32 then Outcome(CHECK, t.out)
    else if BytesBits(TrailerOf(t.out)) <= t.bits then Outcome(END, t.out)
    else Outcome(FAILED, t.out)
  }

  /** More input never takes anything back. */
  lemma ZlibMore(stream: seq<byte>, n: nat)
    requires n <= |stream|
    ensures var a, b := ZlibDecoded(stream[..n]), ZlibDecoded(stream);
            && a.out <= b.out
            && (a.phase in {END, FAILED, DICT} ==> b == a)
            && (a.phase == DICTID ==> b.phase in {DICTID, DICT})
  {
    hide Leads, Step, Finish, Feed, BytesBits, TrailerOf, CodesFit;
    if n >= 2 {
      var y := stream[2..];
      assert stream[..n][2..] == y[..n - 2];
      var s := Feed(InflateSpec.Start(), BytesBits(y[..n - 2]));
      FinishLeads(s);
      StartFits();
      Prefix(y, n - 2, Finish(s));
      FeedMode(Finish(s), BytesBits(y[n - 2..]));
      MoreChecked(Finish(s), BytesBits(y[n - 2..]));
    }
  }

  lemma MoreChecked(t: State, more: seq<bool>)
    ensures Checked(t).phase in {END, FAILED} ==> Checked(Feed(t, more)) == Checked(t)
  {
    hide BytesBits, TrailerOf;
    TrailerLength(t.out);
  }

  /** The trailer holds the two sums, each its high byte first, the second sum before the first. */
  lemma TrailerBytes(s: seq<byte>)
    ensures var a, b, t := S1(1, s), S2(1, 0, s), TrailerOf(s);
            |t| == 4 && 256 * t[0] as nat + t[1] as nat == b && 256 * t[2] as nat + t[3] as nat == a
  {
    hide S1, S2, AdlerOf;
    SumHalves(s);
  }

  lemma TrailerLength(s: seq<byte>)
    ensures |TrailerOf(s)| == 4 && |BytesBits(TrailerOf(s))| == 32
  {
    hide BytesBits, AdlerOf;
  }
}
