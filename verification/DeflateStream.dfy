/**
 deflate(): the driver around the compressors, which decides when bytes may be put and when
 there is something to do, and which adds the header and the trailer of the zlib format.
 */
module DeflateStream {
  import opened Bits
  import opened Tokens
  import opened Adler32
  import opened Dictionary
  import LongestMatch
  import opened BitQueue
  import opened ZlibFormat
  import opened StreamDecode
  import opened FlushBlock
  import opened Coverage
  import opened Overrun
  import opened Expansion
  import opened Deflate

  datatype Status = INIT_STATE | BUSY_STATE | FINISH_STATE

  datatype Code = Z_OK | Z_STREAM_END | Z_STREAM_ERROR | Z_BUF_ERROR

  /** The flush values as the numbers that deflate compares. */
  function Rank(f: Flush): int {
    match f
    case Z_NO_FLUSH => 0
    case Z_PARTIAL_FLUSH => 1
    case Z_SYNC_FLUSH => 2
    case Z_FULL_FLUSH => 3
    case Z_FINISH => 4
  }

  /** Their order; -1, for a call that ended for want of room, is below all. */
  lemma FlushOrder()
    ensures 0 == Rank(Z_NO_FLUSH) < Rank(Z_PARTIAL_FLUSH) < Rank(Z_SYNC_FLUSH) < Rank(Z_FULL_FLUSH) < Rank(Z_FINISH)
  {
  }

  /** configuration_table. */
  function Configuration(level: nat): (c: Config)
    requires level <= 9
    ensures c.niceMatch <= MAX_MATCH
    ensures level > 0 ==> c.maxLazy >= MIN_MATCH && c.maxChain >= 4 && c.niceMatch > 5
  {
    match level
    case 0 => Config(0, 0, 0, 0)
    case 1 => Config(4, 4, 8, 4)
    case 2 => Config(4, 5, 16, 8)
    case 3 => Config(4, 6, 32, 32)
    case 4 => Config(4, 4, 16, 16)
    case 5 => Config(8, 16, 32, 32)
    case 6 => Config(8, 16, 128, 128)
    case 7 => Config(8, 32, 128, 256)
    case 8 => Config(32, 128, 258, 1024)
    case _ => Config(32, 258, 258, 4096)
  }

  /**
   Among the levels of either compressor a higher one gives up later in every respect.  The default
   follows 128 places of a chain, and the highest takes a match for good enough only at full length.
   */
  lemma LevelsGrow(level: nat)
    requires 1 <= level < 9 && level != 3
    ensures var a, b := Configuration(level), Configuration(level + 1);
            && a.goodMatch <= b.goodMatch && a.maxLazy <= b.maxLazy && a.niceMatch <= b.niceMatch
            && (level != 6 ==> a.niceMatch < b.niceMatch || a.maxLazy < b.maxLazy) && a.maxChain < b.maxChain
    ensures Configuration(6) == Config(8, 16, 128, 128)
    ensures Configuration(9).niceMatch == Configuration(9).maxLazy == 258
  {
  }

  /** The levels: 0, which only stores, to 9, and -1 for the default. */
  predicate LevelOk(level: int) {
    -1 <= level <= 9
  }

  function LevelOf(level: int): (r: nat)
    requires LevelOk(level)
    ensures r <= 9 && (r == 0 <==> level == 0) && (level >= 0 ==> r == level) && (level < 0 ==> r == 6)
  {
    if level == -1 then 6 else level
  }

  function LevelFlags(level: nat, strategy: Strategy): (r: nat)
    ensures r <= 3
  {
    if strategy in {HUFFMAN_ONLY, RLE,
        FIXED} || level < 2 then 0 else if level < 6 then 1 else if level == 6 then 2 else 3
  }

  /** The header, with the check bits that make it a multiple of 31, and no preset dictionary. */
  function ZlibHeader(wbits: nat, level: nat, strategy: Strategy): (r: nat)
    requires 9 <= wbits <= 15
    ensures r < 0x10000 && r % 31 == 0
    ensures (r / 256) % 16 == 8 && r / 256 / 16 == wbits - 8 && (r / 32) % 2 == 0
    ensures r / 64 % 4 == if strategy in {HUFFMAN_ONLY, RLE, FIXED} || level < 2 then 0
                          else if level < 6 then 1 else if level == 6 then 2 else 3
  {
    var h := 256 * (8 + 16 * (wbits - 8)) + 64 * LevelFlags(level, strategy);
    HeaderParts(wbits - 8, LevelFlags(level, strategy), 31 - h % 31);
    ToMultiple(h);
    h + (31 - h % 31)
  }

  lemma ToMultiple(h: nat)
    ensures (h + (31 - h % 31)) % 31 == 0
  {
    var q := h / 31;
    assert h + (31 - h % 31) == 31 * (q + 1);
  }

  lemma HeaderParts(w: nat, f: nat, c: nat)
    requires w <= 7 && f <= 3 && 1 <= c <= 31
    ensures var r := 256 * (8 + 16 * w) + 64 * f + c;
            && r < 0x10000 && r / 256 == 8 + 16 * w && (r / 32) % 2 == 0
            && (8 + 16 * w) % 16 == 8 && (8 + 16 * w) / 16 == w && r / 64 % 4 == f
  {
    var r := 256 * (8 + 16 * w) + 64 * f + c;
    assert r / 64 == 4 * (8 + 16 * w) + f;
    assert r / 32 == 2 * (4 * (8 + 16 * w) + f);
  }

  /** When deflate finds no room, nothing new to do, or input after the end. */
  predicate NothingToDo(status: Status, pending: nat, input: seq<byte>, availOut: nat, flush: Flush, lastFlush: int) {
    || availOut == 0
    || (status != INIT_STATE && pending == 0 && input == [] && Rank(flush) <= lastFlush && flush != Z_FINISH)
    || (status == FINISH_STATE && input != [] && pending < availOut)
  }

  class Compressor {
    const df: Deflater
    const level: nat
    const wbits: nat
    const wrapped: bool
    var wrap: int
    var status: Status
    var lastFlush: int
    ghost var stream: seq<bool>      // header and blocks, once finished
    ghost var trailer: seq<byte>     // what follows them

    /** How far what has been tallied or sent is behind what has been passed. */
    function Ahead(): nat
      reads df`matchAvailable, df.d`strstart, df.d`blockStart
    {
      if level == 0 then df.Copied() else df.HeldBack()
    }

    /** What the three compressors keep between calls. */
    ghost predicate Between()
      reads df, df.d, df.d.window, df.d.head, df.d.prev, df.enc, df.enc.q, df.enc.lfc, df.enc.ldl, df.enc.dfc,
            df.enc.ddl, df.enc.bfc, df.enc.bdl
    {
      && df.Paused(Ahead()) && df.enc.level == level
      && (if level == 0 then df.Storing() && !df.matchAvailable
          else if level <= 3
          then df.matchLength < MIN_MATCH && df.prevLength == MIN_MATCH - 1 && !df.matchAvailable && df.Eager()
          else df.Lazy() && df.Steady())
    }

    /** Nothing has been sent yet, not even the header. */
    ghost predicate Unsent()
      reads df, df.d, df.enc.q
    {
      && df.header == [] && df.blocks == [] && !df.matchAvailable && df.d.strstart == df.d.blockStart == 0
      && df.enc.q.Ready() && df.enc.q.pending == 0 && df.enc.q.biValid == 0
    }

    ghost function Header(): seq<byte> {
      if wrapped && 9 <= wbits <= 15 then BigEndian(ZlibHeader(wbits, level, df.strategy)) else []
    }

    /** Everything has been sent: the blocks give all that was read. */
    ghost predicate Done()
      reads this`stream, this`trailer, this`wrap, df, df.d, df.d.window, df.d.head, df.d.prev, df.enc, df.enc.q,
            df.enc.lfc, df.enc.ldl, df.enc.dfc, df.enc.ddl, df.enc.bfc, df.enc.bdl
    {
      && df.d.Valid() && df.d.lookahead == 0 && df.enc.Valid() && df.enc.q.biValid == 0
      && df.Log() && df.Capacity() && df.enc.q.Sent() == stream + BytesBits(trailer)
      && (!df.overrun ==> StreamSent(df.header, df.blocks, stream) && Marked(df.blocks, df.first, df.skip))
      && BlocksCover(df.d.s, df.blocks, |df.d.s|) && BlocksWithin(df.blocks, df.Far())
      && df.first < |df.blocks| && Slack(df.blocks) <= df.slack && df.RunsTaken()
      && Afresh(df.d.s, df.origin, df.blocks, df.first, |df.d.s|, [], |df.d.s|)
      && trailer == if wrap < 0 then TrailerOf(df.d.s) else []
    }

    predicate Framed()
      reads this`wrap
    {
      level <= 9 && 9 <= wbits <= 15 && df.d.summed == wrapped && wrap in {-1, 0, 1} && (wrap != 0 <==> wrapped)
    }

    ghost predicate Valid()
      reads this, df, df.d, df.d.window, df.d.head, df.d.prev, df.enc, df.enc.q, df.enc.lfc, df.enc.ldl, df.enc.dfc,
            df.enc.ddl, df.enc.bfc, df.enc.bdl
    {
      && Framed()
      && match status
         case INIT_STATE => wrap == 1 && Between() && Unsent()
         case BUSY_STATE => wrap >= 0 && Between() && df.header == Header()
         case FINISH_STATE => Done() && df.header == Header()
    }

    /** deflateInit2_ without gzip; a window of 256 bytes becomes one of 512. */
    constructor (level: int, windowBits: nat, memLevel: nat, strategy: Strategy, wrapped: bool)
      requires LevelOk(level) && 8 <= windowBits <= 15 && 1 <= memLevel <= 9
      ensures Valid() && this.level == LevelOf(level) && this.wbits == (if windowBits == 8 then 9 else windowBits)
      ensures df.slack == 0 && df.ends == {} && df.enc.level == this.level && this.wrapped == wrapped
      ensures df.strategy == strategy
      ensures df.enc.fixedOnly == (strategy == FIXED)
      ensures df.enc.litBufsize == BufferSize(memLevel) && df.MaxDist() == Pow2(wbits) - MIN_LOOKAHEAD
      ensures status == (if wrapped then INIT_STATE else BUSY_STATE) && df.d.s == [] && df.enc.q.delivered == []
      ensures lastFlush == 0
      ensures fresh(df) && fresh(df.d) && fresh(df.d.window) && fresh(df.d.head) && fresh(df.d.prev) && fresh(df.enc)
      ensures fresh(df.enc.q)
      ensures fresh(df.enc.lfc) && fresh(df.enc.ldl) && fresh(df.enc.dfc) && fresh(df.enc.ddl) && fresh(df.enc.bfc)
      ensures fresh(df.enc.bdl)
    {
      hide Dict.Valid, Configuration, BigEndian, ZlibHeader, TrailerOf, Deflater.Sending, Deflater.UpTo;
      var wb := if windowBits == 8 then 9 else windowBits;
      var lev := LevelOf(level);
      this.df := new Deflater(wb, memLevel, wrapped, lev, strategy, Configuration(lev));
      this.level, this.wbits, this.wrapped := lev, wb, wrapped;
      this.wrap := if wrapped then 1 else 0;
      this.status := if wrapped then INIT_STATE else BUSY_STATE;
      this.lastFlush, this.stream, this.trailer := 0, [], [];
    }

    /** All of the stream has been delivered. */
    ghost predicate Complete()
      reads this`status, this`wrap, df.enc.q
    {
      status == FINISH_STATE && df.enc.q.pending == 0 && wrap <= 0
    }

    lemma DoneIs()
      requires Done()
      ensures df.d.Valid() && df.enc.Valid() && df.enc.q.Valid() && df.enc.q.biValid == 0 && df.d.lookahead == 0
      ensures !df.overrun ==> StreamSent(df.header, df.blocks, stream) && Marked(df.blocks, df.first, df.skip)
      ensures df.enc.q.Sent() == stream + BytesBits(trailer) && df.first < |df.blocks|
      ensures BlocksCover(df.d.s, df.blocks, |df.d.s|) && trailer == if wrap < 0 then TrailerOf(df.d.s) else []
      ensures Afresh(df.d.s, df.origin, df.blocks, df.first, |df.d.s|, [], |df.d.s|)
      ensures df.Log() && df.Capacity() && BlocksWithin(df.blocks, df.Far()) && Slack(df.blocks) <= df.slack
      ensures df.RunsTaken()
    {
      hide Dict.Valid, StreamSent, BlocksCover, BlocksWithin, Marked, Afresh, Slack, BytesBits, TrailerOf, Queue.Sent,
           Queue.Valid, Encoder.Valid;
      df.enc.QueueValid();
    }

    /** What is known of a stream that has been delivered to the end. */
    lemma CompleteParts()
      requires Valid() && Complete() && !df.overrun
      ensures df.enc.q.Valid() && df.enc.q.biValid == 0 && df.enc.q.pending == 0 && df.header == Header()
      ensures StreamSent(df.header, df.blocks, stream) && df.enc.q.Sent() == stream + BytesBits(trailer)
      ensures BlocksCover(df.d.s, df.blocks, |df.d.s|) && trailer == if wrapped then TrailerOf(df.d.s) else []
      ensures Marked(df.blocks, df.first, df.skip) && df.first < |df.blocks|
      ensures Afresh(df.d.s, df.origin, df.blocks, df.first, |df.d.s|, [], |df.d.s|)
    {
      hide *;
      ValidIs();
      CompleteIs();
      FramedIs();
      DoneIs();
    }

    /** Whatever the state, the blocks are logged, and give a first part of what has been read. */
    lemma LogKept() returns (n: nat)
      requires Valid()
      ensures df.Log() && BlocksCover(df.d.s, df.blocks, n) && BlocksWithin(df.blocks, df.Far())
      ensures Slack(df.blocks) <= df.slack && df.RunsTaken() && (status == FINISH_STATE ==> n == |df.d.s|)
    {
      hide *;
      ValidIs();
      if status == FINISH_STATE {
        DoneIs();
        n := |df.d.s|;
      } else {
        BetweenIs();
        n := df.PausedCovers(Ahead());
      }
    }

    /** What has been sent of a stream, be it finished or not, while no tokens have been lost. */
    lemma SentParts() returns (n: nat)
      requires Valid() && !df.overrun
      ensures df.enc.q.Valid() && BlocksCover(df.d.s, df.blocks, n)
      ensures status == INIT_STATE ==> df.header == [] && df.blocks == []
      ensures status != INIT_STATE ==> df.header == Header()
      ensures if status == FINISH_STATE
              then df.enc.q.biValid == 0 && StreamSent(df.header, df.blocks, stream) && n == |df.d.s|
                   && df.enc.q.Sent() == stream + BytesBits(trailer)
              else Told(df.header, df.blocks, df.first, df.skip, df.enc.q.Sent())
    {
      hide *;
      ValidIs();
      if status == FINISH_STATE {
        DoneIs();
        n := |df.d.s|;
      } else {
        BetweenIs();
        n := df.PausedCovers(Ahead());
        if status == INIT_STATE {
          UnsentIs();
        }
      }
    }

    /** pending_buf never holds more than its size, unless tokens have been lost. */
    lemma PendingFits()
      requires Valid()
      ensures !df.overrun ==> df.enc.q.pending <= 4 * df.enc.litBufsize
    {
      hide *;
      ValidIs();
      if status == FINISH_STATE {
        DoneIs();
      } else {
        BetweenIs();
        df.PausedParts(Ahead());
        df.SendingIs();
      }
      df.CapacityIs();
    }

    /** Before the header has been put nothing can have been delivered. */
    lemma NothingYet()
      requires Valid() && status == INIT_STATE && !df.overrun
      ensures |df.enc.q.delivered| < |Header()|
    {
      hide *;
      var n := SentParts();
      ValidIs();
      ToldIs(df.header, df.blocks, df.first, df.skip, df.enc.q.Sent());
      df.enc.q.SentLength();
      NoBlocks([]);
      NoBytesBits();
      TwoByteHeader();
    }

    lemma TwoByteHeader()
      requires Framed() && wrap == 1
      ensures |Header()| == 2
    {
      hide ZlibHeader;
    }

    lemma HeaderShort()
      requires Valid()
      ensures |df.header| <= 2
    {
      hide BigEndian, ZlibHeader, Between, Done;
      TwoLong(0);
      if wrapped && 9 <= wbits <= 15 {
        TwoLong(ZlibHeader(wbits, level, df.strategy));
      }
    }

    lemma HeaderAt()
      requires Valid() && wrapped
      ensures 9 <= wbits <= 15 && Header() == BigEndian(ZlibHeader(wbits, level, df.strategy))
    {
      hide BigEndian, ZlibHeader, Between, Done, Unsent;
    }

    /** The trailer follows at once or with room, and is there at the end. */
    lemma TrailerIs()
      requires Valid() && status == FINISH_STATE && wrapped
      ensures trailer in {[], TrailerOf(df.d.s)} && (Complete() ==> trailer == TrailerOf(df.d.s))
    {
      hide *;
      ValidIs();
      DoneIs();
      FramedIs();
      CompleteIs();
    }

    lemma TrailerShort()
      requires Valid() && status == FINISH_STATE
      ensures |trailer| <= 4
    {
      hide *;
      ValidIs();
      DoneIs();
      FourLong(df.d.s);
    }

    lemma UnsentIs()
      requires Unsent()
      ensures df.header == [] && df.blocks == []
    {
    }

    lemma FramedIs()
      requires Framed()
      ensures wrap in {-1, 0, 1} && (wrap != 0 <==> wrapped) && df.d.summed == wrapped && level <= 9
      ensures 9 <= wbits <= 15
    {
    }

    // ---------- the header and the trailer ----------

    method WriteHeader()
      requires Valid() && status == INIT_STATE
      modifies this`status, df`header, df.enc.q
      ensures Valid() && status == BUSY_STATE && df.enc.q.Ready() && df.enc.q.pending > 0
      ensures df.enc.q.delivered == old(df.enc.q.delivered)
    {
      hide Dict.Valid, Deflater.Paused, BigEndian, ZlibHeader, Deflater.Lazy;
      HeaderIs();
      df.PutHeader(ZlibHeader(wbits, level, df.strategy));
      status := BUSY_STATE;
    }

    lemma HeaderIs()
      requires wrapped && 9 <= wbits <= 15
      ensures Header() == BigEndian(ZlibHeader(wbits, level, df.strategy))
    {
      hide BigEndian, ZlibHeader;
    }

    /** The checksum after the last block. */
    method WriteTrailer()
      requires Valid() && status == FINISH_STATE && wrap == 1 && df.enc.q.Ready() && df.enc.q.pending == 0
      modifies this`wrap, this`trailer, df.enc.q
      ensures Valid() && wrap == -1 && df.enc.q.delivered == old(df.enc.q.delivered)
    {
      hide *;
      ValidIs();
      DoneIs();
      FramedIs();
      SumIs();
      df.enc.Parts();
      df.CapacityIs();
      df.enc.PutShortMSB(df.d.adler / 0x10000);
      df.enc.PutShortMSB(df.d.adler % 0x10000);
      TwoShorts(stream, df.d.adler / 0x10000, df.d.adler % 0x10000);
      trailer := BigEndian(df.d.adler / 0x10000) + BigEndian(df.d.adler % 0x10000);
      wrap := -wrap;
      df.CapacityIs();
      MakeDone();
      ValidIs();
    }

    /** The trailer makes it done once more. */
    lemma MakeDone()
      requires wrap == -1 && wrapped && level <= 9 && 9 <= wbits <= 15 && df.d.summed
      requires df.d.Valid() && df.d.lookahead == 0 && df.enc.Valid() && df.enc.q.biValid == 0
      requires df.Log() && df.Capacity() && df.enc.q.Sent() == stream + BytesBits(trailer)
      requires !df.overrun ==> StreamSent(df.header, df.blocks, stream) && Marked(df.blocks, df.first, df.skip)
      requires BlocksCover(df.d.s, df.blocks, |df.d.s|) && BlocksWithin(df.blocks, df.Far())
      requires df.RunsTaken() && df.first < |df.blocks| && Slack(df.blocks) <= df.slack && df.d.adler == AdlerOf(df.d.s)
      requires Afresh(df.d.s, df.origin, df.blocks, df.first, |df.d.s|, [], |df.d.s|)
      requires trailer == BigEndian(df.d.adler / 0x10000) + BigEndian(df.d.adler % 0x10000)
      ensures Done() && Framed()
    {
      hide Dict.Valid, Encoder.Valid, Deflater.Log, Deflater.Capacity, Queue.Sent, BigEndian, StreamSent, BlocksCover,
           BlocksWithin, Marked, Afresh, Slack, BytesBits, AdlerOf;
    }

    lemma SumIs()
      requires df.d.Valid() && df.d.summed
      ensures df.d.adler == AdlerOf(df.d.s) && df.d.adler / 0x10000 < 0x10000
    {
      hide AdlerOf;
    }

    // ---------- the work ----------

    /** deflate_stored, deflate_fast or deflate_slow, by level. */
    method RunCompressor(flush: Flush) returns (state: BlockState, out: seq<byte>)
      requires Between() && df.enc.q.Ready() && df.enc.q.pending == 0 && df.availOut > 0
      modifies df`matchLength, df`prevLength, df`prevMatch, df`matchAvailable, df`availOut, df`overrun, df`blocks,
               df`ends, df`held, df`slack, df`finished, df.d, df.d.window, df.d.head, df.d.prev, df.enc, df.enc.q,
                   df.enc.lfc,
               df.enc.ldl, df.enc.dfc, df.enc.ddl, df.enc.bfc, df.enc.bdl
      ensures if state in {FINISH_STARTED, FINISH_DONE} then df.Ended() && flush == Z_FINISH else Between()
      ensures state in {BLOCK_DONE, FINISH_DONE} ==> df.availOut > 0 && df.enc.q.Ready() && df.enc.q.pending == 0
      ensures state == BLOCK_DONE ==>
                && df.enc.tokens == [] && flush != Z_FINISH && !df.matchAvailable && df.d.lookahead == 0
                && df.d.blockStart == df.d.strstart && (level == 0 ==> df.enc.q.biValid == 0)
                && df.d.nextIn == |df.d.input|
      ensures state in {FINISH_STARTED, NEED_MORE} && flush != Z_NO_FLUSH ==> df.availOut == 0
      ensures df.availOut > 0 ==> df.d.nextIn == |df.d.input|
      ensures df.Noted(old(df.ends), flush)
      ensures df.enc.q.delivered == old(df.enc.q.delivered) + out && |out| + df.availOut == old(df.availOut)
      ensures df.d.input == old(df.d.input) && old(df.d.nextIn) <= df.d.nextIn <= |df.d.input|
      ensures df.d.s == old(df.d.s) + df.d.input[old(df.d.nextIn)..df.d.nextIn]
      ensures df.slack <= old(df.slack) + df.LastCost()
    {
      hide *;
      BetweenIs();
      df.HeldBackIs();
      df.WakeUp(Ahead());
      df.NotedIs(df.ends, flush);
      if level == 0 {
        state, out := df.DeflateStored(flush);
      } else if level <= 3 {
        state, out := df.DeflateFast(flush);
      } else {
        state, out := df.DeflateSlow(flush);
      }
      df.NotedIs(old(df.ends), flush);
      df.HeldBackIs();
      BetweenIs();
    }

    lemma BetweenIs()
      ensures Between() <==>
              && df.Paused(Ahead()) && df.enc.level == level
              && (if level == 0 then df.Storing() && !df.matchAvailable
                  else if level <= 3
                  then df.matchLength < MIN_MATCH && df.prevLength == MIN_MATCH - 1 && !df.matchAvailable && df.Eager()
                  else df.Lazy() && df.Steady())
      ensures Ahead() == if level == 0 then df.Copied() else df.HeldBack()
    {
      hide Deflater.Paused, Deflater.Lazy, Deflater.Eager, Deflater.Steady, Deflater.Storing, Deflater.Copied,
           Deflater.HeldBack;
    }

    lemma ValidIs()
      ensures Valid() <==> Framed() && (status == INIT_STATE ==> wrap == 1 && Between() && Unsent())
                           && (status == BUSY_STATE ==> wrap >= 0 && Between() && df.header == Header())
                           && (status == FINISH_STATE ==> Done() && df.header == Header())
    {
      hide Between, Done, Unsent, Header;
    }

    lemma EndedDone()
      requires df.Ended() && stream == df.enc.q.Sent() && trailer == [] && wrap >= 0
      ensures Done() && df.d.nextIn == |df.d.input|
    {
      hide Dict.Valid, Encoder.Valid, Queue.Sent, StreamSent, BlocksCover, BlocksWithin, Marked, Afresh, Slack,
           BytesBits;
      NoBytesBits();
      assert stream + [] == stream;
    }

    /** Mark a flush, and deliver what there is room for. */
    method Mark(flush: Flush) returns (out: seq<byte>)
      requires Between() && !df.matchAvailable && df.enc.tokens == [] && df.d.lookahead == 0 && df.enc.q.Ready()
      requires flush != Z_FINISH && df.d.blockStart == df.d.strstart && df.enc.q.pending == 0
      requires level == 0 ==> df.enc.q.biValid == 0
      modifies df`availOut, df`blocks, df`held, df`slack, df`origin, df`first, df`skip, df.d.head, df.d`ins,
               df.enc`lastEobLen, df.enc.q
      ensures Between() && (df.availOut > 0 ==> df.enc.q.Ready() && df.enc.q.pending == 0)
      ensures df.availOut > 0 && !df.overrun ==> Flushed(flush)
      ensures if flush == Z_FULL_FLUSH
              then df.origin == |df.d.s| && (df.availOut > 0 && !df.overrun ==> Restartable())
              else df.origin == old(df.origin) && df.skip == old(df.skip)
      ensures df.enc.q.delivered == old(df.enc.q.delivered) + out && |out| + df.availOut == old(df.availOut)
      ensures df.slack <= old(df.slack) + 42
    {
      hide *;
      BetweenIs();
      df.HeldBackIs();
      LongestMatch.Sizes();
      NothingHeld();
      df.PausedValid(0);
      df.enc.QueueValid();
      ghost var bs, two := df.blocks, TooFew(df.enc.lastEobLen, |df.enc.q.Sent()|);
      df.MarkFlush(flush);
      if level > 3 {
        df.MakeLazy();
      }
      df.EagerIs();
      df.SteadyIs();
      df.PausedValid(0);
      out := df.FlushPending();
      BetweenIs();
      FlushedIs(flush);
      if df.availOut > 0 && !df.overrun {
        if flush == Z_PARTIAL_FLUSH {
          LastIsEmpty(bs, two);
          df.MakePartlySynced();
        } else {
          df.MakeSynced();
          if flush == Z_FULL_FLUSH {
            df.PausedMarked(0);
            df.RestartHere();
            RestartableIs();
          }
        }
      }
    }

    /** What a flush that had room has delivered. */
    ghost predicate Flushed(flush: Flush)
      reads df, df.d, df.enc.q
    {
      && (flush in {Z_SYNC_FLUSH, Z_FULL_FLUSH} ==> df.Synced())
      && (flush == Z_PARTIAL_FLUSH ==> df.PartlySynced())
    }

    lemma FlushedIs(flush: Flush)
      ensures Flushed(flush) <==> (flush in {Z_SYNC_FLUSH, Z_FULL_FLUSH} ==> df.Synced())
                                  && (flush == Z_PARTIAL_FLUSH ==> df.PartlySynced())
    {
      hide Deflater.Synced, Deflater.PartlySynced;
    }

    lemma LastIsEmpty(bs: seq<Block>, two: bool)
      ensures var all := bs + EmptyFixedBlocks(two); all != [] && all[|all| - 1] == Fixed([])
    {
    }

    /** What has been delivered ends where the decoder can start afresh. */
    ghost predicate Restartable()
      reads df, df.enc.q
    {
      |df.enc.q.delivered| == |df.header| + df.skip
    }

    lemma RestartableIs()
      ensures Restartable() <==> |df.enc.q.delivered| == |df.header| + df.skip
    {
    }

    lemma NothingHeld()
      requires Between() && !df.matchAvailable
      ensures level > 3 ==> 1 <= df.matchLength < MIN_MATCH
      ensures df.d.blockStart == df.d.strstart ==> Ahead() == 0
    {
      hide Deflater.Paused, Deflater.Held;
    }

    /** Start a new block or continue the current one; `go` unless the call is over. */
    method Work(flush: Flush) returns (go: bool, out: seq<byte>)
      requires Valid() && status == BUSY_STATE && df.enc.q.Ready() && df.enc.q.pending == 0 && df.availOut > 0
      modifies this`status, this`lastFlush, this`stream, this`trailer, df`matchLength, df`prevLength, df`prevMatch,
               df`matchAvailable, df`availOut, df`overrun, df`blocks, df`ends, df`held, df`slack, df`finished,
                   df`origin,
               df`first, df`skip, df.d, df.d.window, df.d.head, df.d.prev, df.enc, df.enc.q, df.enc.lfc, df.enc.ldl,
               df.enc.dfc, df.enc.ddl, df.enc.bfc, df.enc.bdl
      ensures Valid() && status != INIT_STATE && (status == FINISH_STATE ==> flush == Z_FINISH)
      ensures go ==>
                && df.availOut > 0 && df.enc.q.Ready() && df.enc.q.pending == 0
                && (flush == Z_FINISH ==> status == FINISH_STATE && df.d.nextIn == |df.d.input|)
      ensures go && !df.overrun ==> Flushed(flush)
      ensures flush == Z_FULL_FLUSH && go ==> df.origin == |df.d.s| && (df.overrun || Restartable())
      ensures flush != Z_FULL_FLUSH ==> df.origin == old(df.origin) && df.skip == old(df.skip)
      ensures !go && flush != Z_NO_FLUSH ==> df.availOut == 0
      ensures df.availOut > 0 ==> df.d.nextIn == |df.d.input|
      ensures df.Noted(old(df.ends), flush)
      ensures lastFlush == if df.availOut == 0 then -1 else old(lastFlush)
      ensures df.enc.q.delivered == old(df.enc.q.delivered) + out && |out| + df.availOut == old(df.availOut)
      ensures df.d.input == old(df.d.input) && old(df.d.nextIn) <= df.d.nextIn <= |df.d.input|
      ensures df.d.s == old(df.d.s) + df.d.input[old(df.d.nextIn)..df.d.nextIn]
      ensures df.slack <= old(df.slack) + df.LastCost() + (if flush == Z_FINISH then 0 else 42)
    {
      hide *;
      var state;
      state, out := Advance(flush);
      df.NotedIs(old(df.ends), flush);
      var o;
      go, o := Conclude(state, flush);
      df.NotedIs(old(df.ends), flush);
      PutOn(old(df.enc.q.delivered), out, o);
      out := out + o;
    }

    /** Run the compressor; the stream may have been finished. */
    method Advance(flush: Flush) returns (state: BlockState, out: seq<byte>)
      requires Valid() && status == BUSY_STATE && df.enc.q.Ready() && df.enc.q.pending == 0 && df.availOut > 0
      modifies this`status, this`stream, this`trailer, df`matchLength, df`prevLength, df`prevMatch, df`matchAvailable,
               df`availOut, df`overrun, df`blocks, df`ends, df`held, df`slack, df`finished, df.d, df.d.window,
                   df.d.head,
               df.d.prev, df.enc, df.enc.q, df.enc.lfc, df.enc.ldl, df.enc.dfc, df.enc.ddl, df.enc.bfc, df.enc.bdl
      ensures Valid() && status == if state in {FINISH_STARTED, FINISH_DONE} then FINISH_STATE else BUSY_STATE
      ensures state in {BLOCK_DONE, FINISH_DONE} ==> df.availOut > 0 && df.enc.q.Ready() && df.enc.q.pending == 0
      ensures state == BLOCK_DONE ==>
                && df.enc.tokens == [] && flush != Z_FINISH && !df.matchAvailable && df.d.lookahead == 0
                && df.d.blockStart == df.d.strstart && (level == 0 ==> df.enc.q.biValid == 0)
                && df.d.nextIn == |df.d.input|
      ensures state in {FINISH_STARTED, FINISH_DONE} ==> flush == Z_FINISH && df.d.nextIn == |df.d.input|
      ensures state in {FINISH_STARTED, NEED_MORE} && flush != Z_NO_FLUSH ==> df.availOut == 0
      ensures df.availOut > 0 ==> df.d.nextIn == |df.d.input|
      ensures df.Noted(old(df.ends), flush)
      ensures df.enc.q.delivered == old(df.enc.q.delivered) + out && |out| + df.availOut == old(df.availOut)
      ensures df.d.input == old(df.d.input) && old(df.d.nextIn) <= df.d.nextIn <= |df.d.input|
      ensures df.d.s == old(df.d.s) + df.d.input[old(df.d.nextIn)..df.d.nextIn]
      ensures df.slack <= old(df.slack) + df.LastCost()
    {
      hide *;
      ValidIs();
      state, out := RunCompressor(flush);
      if state in {FINISH_STARTED, FINISH_DONE} {
        status := FINISH_STATE;
        df.EndedValid();
        stream, trailer := df.enc.q.Sent(), [];
        EndedDone();
      }
      df.NotedIs(old(df.ends), flush);
      ValidIs();
    }

    /** What follows the compressor: a flush is marked; `go` unless the call is over. */
    method Conclude(state: BlockState, flush: Flush) returns (go: bool, out: seq<byte>)
      requires Valid() && status == if state in {FINISH_STARTED, FINISH_DONE} then FINISH_STATE else BUSY_STATE
      requires state in {BLOCK_DONE, FINISH_DONE} ==> df.availOut > 0 && df.enc.q.Ready() && df.enc.q.pending == 0
      requires state == BLOCK_DONE ==>
                 && df.enc.tokens == [] && flush != Z_FINISH && !df.matchAvailable && df.d.lookahead == 0
                 && df.d.blockStart == df.d.strstart && (level == 0 ==> df.enc.q.biValid == 0)
      requires state in {FINISH_STARTED, FINISH_DONE} ==> flush == Z_FINISH
      requires state in {FINISH_STARTED, NEED_MORE} && flush != Z_NO_FLUSH ==> df.availOut == 0
      modifies this`lastFlush, df`availOut, df`blocks, df`held, df`slack, df`origin, df`first, df`skip, df.d.head,
               df.d`ins, df.enc`lastEobLen, df.enc.q
      ensures Valid() && (go <==> df.availOut > 0 && state in {BLOCK_DONE, FINISH_DONE})
      ensures go ==> df.enc.q.Ready() && df.enc.q.pending == 0 && (!df.overrun ==> Flushed(flush))
      ensures flush == Z_FULL_FLUSH && go ==> df.origin == |df.d.s| && (df.overrun || Restartable())
      ensures flush != Z_FULL_FLUSH ==> df.origin == old(df.origin) && df.skip == old(df.skip)
      ensures !go && flush != Z_NO_FLUSH ==> df.availOut == 0
      ensures lastFlush == if df.availOut == 0 then -1 else old(lastFlush)
      ensures df.enc.q.delivered == old(df.enc.q.delivered) + out && |out| + df.availOut == old(df.availOut)
      ensures df.slack <= old(df.slack) + (if flush == Z_FINISH then 0 else 42)
    {
      hide *;
      ValidIs();
      go, out := true, [];
      if state in {NEED_MORE, FINISH_STARTED} {
        if df.availOut == 0 {
          lastFlush := -1;
        }
        go := false;
      } else if state == BLOCK_DONE {
        out := Mark(flush);
        if df.availOut == 0 {
          lastFlush := -1;
          go := false;
        }
      } else {
        FlushedIs(flush);
      }
      ValidIs();
    }

    method TakeOffer(input: seq<byte>, availOut: nat)
      requires Valid()
      modifies df`availOut, df.d`input, df.d`nextIn
      ensures Valid() && df.d.input == input && df.d.nextIn == 0 && df.availOut == availOut
    {
      hide Dict.Valid, Encoder.Valid, Queue.Sent, StreamSent, BlocksCover, BlocksWithin, Marked, Afresh, Slack,
           BytesBits, Deflater.Paused, TrailerOf, BigEndian, ZlibHeader;
      ValidDict();
      df.Offer(input, availOut);
    }

    lemma ValidDict()
      requires Valid()
      ensures df.d.Valid() && df.enc.Valid()
    {
      hide Dict.Valid, Encoder.Valid, StreamSent, BlocksCover, BlocksWithin, Marked, Afresh, Slack, BytesBits,
           TrailerOf, BigEndian, ZlibHeader, Deflater.UpTo, Deflater.Lazy;
    }

    method DeliverPending() returns (out: seq<byte>)
      requires Valid() && status != INIT_STATE
      modifies df`availOut, df.enc.q
      ensures Valid() && (df.availOut > 0 ==> df.enc.q.Ready() && df.enc.q.pending == 0)
      ensures |out| == Min(old(df.enc.q.pending), old(df.availOut))
      ensures df.enc.q.delivered == old(df.enc.q.delivered) + out && |out| + df.availOut == old(df.availOut)
    {
      hide Dict.Valid, Encoder.Valid, Queue.Sent, StreamSent, BlocksCover, BlocksWithin, Marked, Afresh, Slack,
           BytesBits, Deflater.Paused, TrailerOf, BigEndian, ZlibHeader;
      ValidDict();
      out := df.FlushPending();
    }

    lemma NoPending()
      requires df.enc.Valid() && df.enc.q.pending == 0
      ensures df.enc.q.Ready()
    {
    }

    /** Offer the input, write the header if it is time, and deliver what is pending. */
    method Begin(input: seq<byte>, availOut: nat, flush: Flush, oldFlush: int)
      returns (stop: bool, ret: Code, out: seq<byte>)
      requires Valid() && availOut > 0 && (status == FINISH_STATE ==> flush == Z_FINISH)
      modifies this`status, this`lastFlush, df`header, df`availOut, df.d`input, df.d`nextIn, df.enc.q
      ensures Valid() && status != INIT_STATE && df.d.input == input && df.d.nextIn == 0
      ensures df.availOut + |out| == availOut && (status == FINISH_STATE <==> old(status) == FINISH_STATE)
      ensures lastFlush == if df.availOut == 0 then -1 else old(lastFlush)
      ensures df.enc.q.delivered == old(df.enc.q.delivered) + out
      ensures !stop ==>
                && df.availOut > 0 && df.enc.q.Ready() && df.enc.q.pending == 0
                && (status == FINISH_STATE ==> flush == Z_FINISH && input == []) && ret == Z_OK
      ensures stop ==> ret == Z_BUF_ERROR || (ret == Z_OK && df.availOut == 0)
      ensures stop && ret == Z_BUF_ERROR <==>
              || (old(status) != INIT_STATE && old(df.enc.q.pending) == 0 && input == [] && Rank(flush) <= oldFlush
                  && flush != Z_FINISH)
              || (old(status) == FINISH_STATE && input != [] && old(df.enc.q.pending) < availOut)
    {
      hide *;
      TakeOffer(input, availOut);
      if status == INIT_STATE {
        WriteHeader();
      }
      stop, ret, out := false, Z_OK, [];
      if df.enc.q.pending != 0 {
        MinIs(df.enc.q.pending, df.availOut);
        out := DeliverPending();
        if df.availOut == 0 {
          ValidIs();
          lastFlush := -1;
          stop := true;
          ValidIs();
          return;
        }
      } else {
        ValidDict();
        NoPending();
        if |input| == 0 && Rank(flush) <= oldFlush && flush != Z_FINISH {
          stop, ret := true, Z_BUF_ERROR;
          return;
        }
      }
      if status == FINISH_STATE && |input| != 0 {
        stop, ret := true, Z_BUF_ERROR;
      }
    }

    /** The end of a call: with Z_FINISH the trailer, once. */
    method End(flush: Flush) returns (ret: Code, out: seq<byte>)
      requires Valid() && df.availOut > 0 && df.enc.q.Ready() && df.enc.q.pending == 0
      requires (flush == Z_FINISH ==> status == FINISH_STATE)
      modifies this`wrap, this`trailer, df`availOut, df.enc.q
      ensures Valid() && df.enc.q.delivered == old(df.enc.q.delivered) + out && |out| + df.availOut == old(df.availOut)
      ensures if flush == Z_FINISH
              then (ret == Z_STREAM_END && Complete()) || (ret == Z_OK && df.availOut == 0)
              else ret == Z_OK && out == []
      ensures flush != Z_FINISH ==>
                && df.availOut == old(df.availOut) && (old(Flushed(flush)) ==> Flushed(flush))
                && (old(Restartable()) ==> Restartable())
    {
      hide *;
      out := [];
      ret := Z_OK;
      if flush == Z_FINISH {
        if wrap > 0 {
          OnlyOne();
          WriteTrailer();
          out := DeliverPending();
        }
        CompleteIs();
        ret := if df.enc.q.pending != 0 then Z_OK else Z_STREAM_END;
      }
    }

    lemma OnlyOne()
      requires Valid()
      ensures wrap in {-1, 0, 1}
    {
      hide Between, Done, Unsent;
    }

    lemma CompleteIs()
      ensures Complete() <==> status == FINISH_STATE && df.enc.q.pending == 0 && wrap <= 0
    {
    }

    /**
     deflate: consume input and deliver output, as much as the room allows.  All input with
     Z_FINISH and enough room ends the stream; a sync or full flush with enough room delivers
     whole blocks for all the input.
     */
    method Deflate(input: seq<byte>, availOut: nat, flush: Flush) returns (ret: Code, used: nat, out: seq<byte>)
      requires Valid()
      modifies this`status, this`lastFlush, this`wrap, this`stream, this`trailer, df`header, df`matchLength,
               df`prevLength, df`prevMatch, df`matchAvailable, df`availOut, df`overrun, df`blocks, df`ends, df`held,
                   df`slack,
               df`finished, df`origin, df`first, df`skip, df.d, df.d.window, df.d.head, df.d.prev, df.enc, df.enc.q,
               df.enc.lfc, df.enc.ldl, df.enc.dfc, df.enc.ddl, df.enc.bfc, df.enc.bdl
      ensures Valid() && used <= |input| && df.d.s == old(df.d.s) + input[0..used]
      ensures df.enc.q.delivered == old(df.enc.q.delivered) + out && |out| <= availOut
      ensures ret == Z_STREAM_ERROR <==> old(status) == FINISH_STATE && flush != Z_FINISH
      ensures ret == Z_STREAM_END ==> flush == Z_FINISH && used == |input| && Complete()
      ensures ret == Z_BUF_ERROR <==>
                && (old(status) == FINISH_STATE ==> flush == Z_FINISH)
                && NothingToDo(old(status), old(df.enc.q.pending), input, availOut, flush, old(lastFlush))
      ensures availOut == 0 || ret == Z_STREAM_ERROR ==> lastFlush == old(lastFlush)
      ensures availOut > 0 && ret != Z_STREAM_ERROR && (flush != Z_FINISH || status != FINISH_STATE) ==>
                lastFlush == if |out| == availOut then -1 else Rank(flush)
      ensures ret == Z_OK && flush == Z_FINISH ==> |out| == availOut
      ensures ret == Z_OK && |out| < availOut ==> used == |input|
      ensures ret == Z_OK && |out| < availOut && !df.overrun ==> Flushed(flush)
      ensures ret == Z_OK && flush == Z_FULL_FLUSH && |out| < availOut ==>
                df.origin == |df.d.s| && (df.overrun || Restartable())
      ensures flush != Z_FULL_FLUSH ==> df.origin == old(df.origin) && df.skip == old(df.skip)
      ensures df.slack <= old(df.slack) + df.LastCost() + (if flush == Z_FINISH then 0 else 42)
      ensures df.ends == old(df.ends)
              || (df.ends == old(df.ends) + {|df.d.s|} && flush != Z_NO_FLUSH && used == |input|)
      ensures status == FINISH_STATE ==> old(status) == FINISH_STATE || flush == Z_FINISH
    {
      hide *;
      used, out := 0, [];
      ReadNone(df.d.s, input, 0);
      if status == FINISH_STATE && flush != Z_FINISH {
        ret := Z_STREAM_ERROR;
        return;
      }
      if availOut == 0 {
        ret := Z_BUF_ERROR;
        NothingIs(status, df.enc.q.pending, input, availOut, flush, lastFlush);
        return;
      }
      ValidIs();
      var oldFlush := lastFlush;
      lastFlush := Rank(flush);
      ValidIs();
      var stop, o;
      stop, ret, out := Begin(input, availOut, flush, oldFlush);
      if stop {
        NothingIs(old(status), old(df.enc.q.pending), input, availOut, flush, oldFlush);
        return;
      }
      NothingIs(old(status), old(df.enc.q.pending), input, availOut, flush, oldFlush);
      ret, o := Proceed(flush);
      df.NotedIs(old(df.ends), flush);
      PutOn(old(df.enc.q.delivered), out, o);
      out := out + o;
      used := df.d.nextIn;
    }

    /** Compress what there is, and end the call. */
    method Proceed(flush: Flush) returns (ret: Code, out: seq<byte>)
      requires Valid() && status != INIT_STATE && df.d.nextIn == 0 && df.availOut > 0 && df.enc.q.Ready()
      requires df.enc.q.pending == 0
      requires status == FINISH_STATE ==> flush == Z_FINISH && df.d.input == []
      modifies this`status, this`lastFlush, this`wrap, this`stream, this`trailer, df`matchLength, df`prevLength,
               df`prevMatch, df`matchAvailable, df`availOut, df`overrun, df`blocks, df`ends, df`held, df`slack,
                   df`finished,
               df`origin, df`first, df`skip, df.d, df.d.window, df.d.head, df.d.prev, df.enc, df.enc.q, df.enc.lfc,
               df.enc.ldl, df.enc.dfc, df.enc.ddl, df.enc.bfc, df.enc.bdl
      ensures Valid() && df.d.input == old(df.d.input) && df.d.nextIn <= |df.d.input|
      ensures df.d.s == old(df.d.s) + df.d.input[0..df.d.nextIn]
      ensures df.Noted(old(df.ends), flush)
      ensures flush != Z_FINISH || status != FINISH_STATE ==>
                lastFlush == if df.availOut == 0 then -1 else old(lastFlush)
      ensures df.enc.q.delivered == old(df.enc.q.delivered) + out && |out| + df.availOut == old(df.availOut)
      ensures ret == Z_OK || (ret == Z_STREAM_END && flush == Z_FINISH && df.d.nextIn == |df.d.input| && Complete())
      ensures ret == Z_OK && flush == Z_FINISH ==> df.availOut == 0
      ensures ret == Z_OK && df.availOut > 0 ==> df.d.nextIn == |df.d.input|
      ensures ret == Z_OK && df.availOut > 0 && !df.overrun ==> Flushed(flush)
      ensures ret == Z_OK && flush == Z_FULL_FLUSH && df.availOut > 0 ==>
                df.origin == |df.d.s| && (df.overrun || Restartable())
      ensures flush != Z_FULL_FLUSH ==> df.origin == old(df.origin) && df.skip == old(df.skip)
      ensures df.slack <= old(df.slack) + df.LastCost() + (if flush == Z_FINISH then 0 else 42)
      ensures status == FINISH_STATE ==> flush == Z_FINISH
    {
      hide *;
      ReadNone(df.d.s, df.d.input, 0);
      FlushedIs(flush);
      Empty(df.d.input);
      var go, o;
      go, out, ret := true, [], Z_OK;
      if |df.d.input| != 0 || df.d.lookahead != 0 || (flush != Z_NO_FLUSH && status != FINISH_STATE) {
        go, out := Work(flush);
      }
      df.NotedIs(old(df.ends), flush);
      if go {
        ret, o := End(flush);
        PutOn(old(df.enc.q.delivered), out, o);
        out := out + o;
      }
      df.NotedIs(old(df.ends), flush);
      FlushedIs(flush);
    }

    lemma MinIs(a: nat, b: nat)
      ensures Min(a, b) == if a <= b then a else b
    {
    }

    lemma NothingIs(status: Status, pending: nat, input: seq<byte>, availOut: nat, flush: Flush, lastFlush: int)
      ensures NothingToDo(status, pending, input, availOut, flush, lastFlush) <==>
              || availOut == 0
              || (status != INIT_STATE && pending == 0 && input == [] && Rank(flush) <= lastFlush && flush != Z_FINISH)
              || (status == FINISH_STATE && input != [] && pending < availOut)
    {
      hide Rank;
    }

    /** A finished stream has nothing ahead and takes no input. */
    lemma Empty(input: seq<byte>)
      requires Valid() && (status == FINISH_STATE ==> input == []) && status != INIT_STATE
      ensures status == BUSY_STATE || (input == [] && df.d.lookahead == 0)
    {
      hide Between;
    }
  }

  lemma TwoLong(w: nat)
    requires w < 0x10000
    ensures |BigEndian(w)| == 2
  {
  }

  lemma FourLong(s: seq<byte>)
    ensures |TrailerOf(s)| == 4
  {
    hide AdlerOf;
  }

  lemma TwoShorts(s: seq<bool>, x: nat, y: nat)
    requires x < 0x10000 && y < 0x10000
    ensures s + BytesBits([]) + BytesBits(BigEndian(x)) + BytesBits(BigEndian(y))
            == s + BytesBits(BigEndian(x) + BigEndian(y))
  {
    hide BytesBits, BigEndian;
    NoBytesBits();
    BytesBitsAppend(BigEndian(x), BigEndian(y));
    assert s + [] == s;
    assert s + BytesBits(BigEndian(x)) + BytesBits(BigEndian(y))
           == s + (BytesBits(BigEndian(x)) + BytesBits(BigEndian(y)));
  }
}
