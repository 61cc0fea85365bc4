/**
 deflate_stored, deflate_fast and deflate_slow: at every turn of the loop the tokens tallied and the
 blocks sent stand for exactly the input before the current position, or at level 0, where nothing
 is tallied, the blocks for the input before the current block.
 */
module Deflate {
  import opened Bits
  import opened Tokens
  import opened HashLaws
  import opened RollingHash
  import opened HashChains
  import opened Dictionary
  import opened Adler32
  import opened LongestMatch
  import opened InflateSpec
  import opened BitQueue
  import opened SendTree
  import opened CompressBlock
  import opened BlockCosts
  import opened StreamDecode
  import opened FlushBlock
  import opened Coverage
  import opened Overlay
  import opened Overrun
  import opened Expansion
  import opened WorthCoding
  import opened Repetition

  datatype Flush = Z_NO_FLUSH | Z_PARTIAL_FLUSH | Z_SYNC_FLUSH | Z_FULL_FLUSH | Z_FINISH

  datatype BlockState = NEED_MORE | BLOCK_DONE | FINISH_STARTED | FINISH_DONE

  /** What a turn of the loop leads to. */
  datatype Outcome = GO_ON | LEAVE | NO_MORE

  datatype Strategy = DEFAULT | FILTERED | HUFFMAN_ONLY | RLE | FIXED

  const TOO_FAR := 4096

  /** A row of configuration_table. */
  datatype Config = Config(goodMatch: nat, maxLazy: nat, niceMatch: nat, maxChain: nat)

  /** lit_bufsize: 1 << (memLevel + 6). */
  function BufferSize(memLevel: nat): (r: nat)
    requires 1 <= memLevel <= 9
    ensures 128 <= r <= 0x8000
  {
    Pow2Values();
    Pow2Mono(7, memLevel + 6);
    Pow2Mono(memLevel + 6, 15);
    Pow2(memLevel + 6)
  }

  /** Every level doubles it: 128 tokens for memLevel 1, 16384 for the default of 8. */
  lemma BufferSizes(memLevel: nat)
    requires 1 <= memLevel <= 9
    ensures BufferSize(1) == 128 && BufferSize(8) == 16384
    ensures memLevel < 9 ==> BufferSize(memLevel + 1) == 2 * BufferSize(memLevel)
  {
    hide Pow2;
    Pow2Values();
    Pow2Next(memLevel + 6);
    Pow2Next(13);
    Pow2Next(12);
    Pow2Next(11);
    Pow2Next(10);
    Pow2Next(9);
  }

  class Deflater {
    const d: Dict
    const enc: Encoder
    const strategy: Strategy
    const config: Config
    var matchLength: nat
    var prevLength: nat
    var prevMatch: nat
    var matchAvailable: bool
    var availOut: nat
    var overrun: bool                // output has reached tokens not yet read: the source has no such field
    ghost var header: seq<byte>      // put before the first block
    ghost var blocks: seq<Block>     // sent so far
    ghost var held: seq<nat>         // the bits held back before each
    ghost var slack: nat             // bits they may have cost because they were small
    ghost var ends: set<nat>         // how much had been read when a turn had to do with less than MIN_LOOKAHEAD
    ghost var finished: bool         // the last of them was marked so
    ghost var origin: nat            // where the last full flush was, as a position of the input
    ghost var first: nat             // the first block after it
    ghost var skip: nat              // and how many bytes the blocks before it are

    /** The tables of the matcher are not those of the encoder. */
    ghost predicate Apart() {
      && d.prev != enc.lfc && d.prev != enc.ldl && d.prev != enc.dfc && d.prev != enc.ddl && d.prev != enc.bfc
      && d.prev != enc.bdl
      && d.head != enc.lfc && d.head != enc.ldl && d.head != enc.dfc && d.head != enc.ddl && d.head != enc.bfc
      && d.head != enc.bdl
    }

    ghost predicate Settings() {
      && Apart() && 128 <= enc.litBufsize <= 0x8000 && enc.fixedOnly == (strategy == FIXED)
      && d.hashed == (enc.level > 0)
      && (enc.level > 0 ==> config.maxChain >= 4 && config.niceMatch > 5 && config.maxLazy >= MIN_MATCH)
    }

    /** The encoder's part: its own invariant and what it has sent. */
    ghost predicate Sending()
      reads this`header, this`overrun, this`blocks, this`held, this`slack, this`finished, this`first, this`skip, enc,
            enc.q, enc.lfc, enc.ldl, enc.dfc, enc.ddl, enc.bfc, enc.bdl
    {
      && enc.Valid() && !finished && first <= |blocks| && Log() && Capacity()
      && (!overrun ==> Told(header, blocks, first, skip, enc.q.Sent()))
    }

    /** What is pending fits into pending_buf, which has 4 bytes for each token. */
    ghost predicate Capacity()
      reads this`overrun, enc.q
    {
      (!overrun ==> enc.q.pending <= 4 * enc.litBufsize) && (enc.level == 0 ==> enc.q.biValid <= 4)
    }

    lemma CapacityIs()
      ensures Capacity() <==>
                (!overrun ==> enc.q.pending <= 4 * enc.litBufsize) && (enc.level == 0 ==> enc.q.biValid <= 4)
    {
    }

    /** `overrun` is set exactly when a block has lost tokens; at level 0 there are none. */
    ghost predicate Log()
      reads this`overrun, this`blocks, this`held
    {
      && Logged(blocks, held, enc.litBufsize, enc.fixedOnly, overrun) && (enc.level == 0 ==> OnlyStored(blocks))
      && (!enc.fixedOnly ==> AllWorth(blocks, MaxDist()))
    }

    /** No string from before the last full flush is in the table. */
    ghost predicate Recent()
      reads this`origin, d`ins
    {
      forall a :: a in d.ins ==> a >= origin
    }

    /** MAX_DIST. */
    function MaxDist(): int {
      d.wsize - MIN_LOOKAHEAD
    }

    /** Matches are looked for at all. */
    predicate Seeks() {
      enc.level > 0 && strategy != HUFFMAN_ONLY
    }

    /** No long run has been missed in the blocks sent. */
    ghost predicate RunsTaken()
      reads this`blocks, this`ends, d`s
    {
      Seeks() ==> BlocksApart(d.s, blocks, ends)
    }

    lemma RunsTakenIs()
      ensures RunsTaken() <==> (Seeks() ==> BlocksApart(d.s, blocks, ends))
      ensures Seeks() <==> enc.level > 0 && strategy != HUFFMAN_ONLY
    {
      hide BlocksApart;
    }

    /** How far back the strategy lets a match start. */
    function Far(): (far: int)
      ensures far == if strategy == HUFFMAN_ONLY then 0 else if strategy == RLE then 1 else d.wsize - MIN_LOOKAHEAD
    {
      if strategy == HUFFMAN_ONLY then 0 else if strategy == RLE then 1 else MaxDist()
    }

    /** How many places of a chain are looked at when a match of `best` bytes is known. */
    function Chain(best: nat): (n: nat)
      ensures best < config.goodMatch ==> n == config.maxChain
      ensures best >= config.goodMatch ==> n == config.maxChain / 4
    {
      if best >= config.goodMatch then config.maxChain / 4 else config.maxChain
    }

    /**
     Blocks and tokens give the first `n` bytes read, those after the last full flush do so on their
     own, and none of them reaches further back than the strategy allows.
     */
    ghost predicate UpTo(n: nat)
      reads this`blocks, this`slack, this`ends, this`origin, this`first, d`base, d`s, d`blockStart, enc`tokens
    {
      && BlocksWithin(blocks, Far()) && Within(enc.tokens, Far())
      && d.base + d.blockStart >= 0 && BlocksCover(d.s, blocks, d.base + d.blockStart)
      && Slack(blocks) <= slack
      && Covers(d.s, d.base + d.blockStart, enc.tokens, n)
      && Afresh(d.s, origin, blocks, first, d.base + d.blockStart, enc.tokens, n)
      && RunsTaken() && (Seeks() ==> LitsApart(d.s, d.base + d.blockStart, enc.tokens, ends))
    }

    /** The token buffer is not about to overflow. */
    predicate Room()
      reads enc`tokens
    {
      |enc.tokens| < enc.litBufsize - 1
    }

    /** deflateInit2; memLevel gives the sizes of the hash table and the token buffer. */
    constructor (wbits: nat, memLevel: nat, wrapped: bool, level: nat, strategy: Strategy, config: Config)
      requires 9 <= wbits <= 15 && 1 <= memLevel <= 9
      requires level > 0 ==> config.maxChain >= 4 && config.niceMatch > 5 && config.maxLazy >= MIN_MATCH
      ensures Settings() && d.Valid() && Sending() && Recent() && UpTo(0) && Room() && header == [] && blocks == []
      ensures !overrun && slack == 0 && ends == {} && enc.litBufsize == BufferSize(memLevel)
      ensures enc.fixedOnly == (strategy == FIXED) && d.bits == memLevel + 7
      ensures MaxDist() == Pow2(wbits) - MIN_LOOKAHEAD
      ensures origin == first == skip == 0 && enc.q.Ready() && enc.q.biValid == 0 && enc.q.pending == 0
      ensures enc.q.delivered == [] && enc.tokens == []
      ensures d.s == [] && d.base == 0 && d.strstart == 0 && d.input == [] && d.nextIn == 0 && d.lookahead == 0
      ensures d.blockStart == 0 && Copied() == 0 && (level == 0 ==> Storing())
      ensures matchLength == prevLength == MIN_MATCH - 1 && !matchAvailable && d.matchStart < UINT && d.wbits == wbits
      ensures d.summed == wrapped && this.strategy == strategy && this.config == config && enc.level == level
      ensures fresh(d) && fresh(d.window) && fresh(d.prev) && fresh(d.head)
      ensures fresh(enc) && fresh(enc.q) && fresh(enc.lfc) && fresh(enc.ldl) && fresh(enc.dfc) && fresh(enc.ddl)
      ensures fresh(enc.bfc) && fresh(enc.bdl)
    {
      hide BlocksApart, LitsApart, Chains, Covers, BlocksCover, Afresh, Slack, Marked, Told, Logged, BlockOk, SentBits,
           TablesOk, Tallied, CodesIn, HashSize, Pow2, Queue.Valid, Queue.Sent, Encoder.Valid, RunEnds, BufferSize,
               Dict.Text,
           Dict.ChainsAt, Dict.RollsAt;
      this.d := new Dict(wbits, memLevel + 7, wrapped, level > 0);
      this.enc := new Encoder(BufferSize(memLevel), level, strategy == FIXED);
      this.strategy, this.config := strategy, config;
      this.matchLength, this.prevLength, this.prevMatch, this.matchAvailable, this.availOut := MIN_MATCH - 1,
          MIN_MATCH - 1, 0, false, 0;
      this.overrun, this.held, this.slack := false, [], 0;
      this.ends := {};
      this.header, this.blocks, this.finished, this.origin, this.first, this.skip := [], [], false, 0, 0, 0;
      new;
      NoneWorth(MaxDist());
      NoBlocks([]);
      CoversNothing([], 0);
      ToldNothing();
      NoSlack();
      NoneApart([], 0, {});
      LoggedNone(enc.litBufsize, enc.fixedOnly);
      AfreshHere([], [], 0);
    }

    // ---------- tallying ----------

    /** The byte at `n` may follow a literal as a literal. */
    ghost predicate LitMay(n: nat)
      reads this`ends, d`s, enc`tokens
    {
      Seeks() && LastLit(enc.tokens) ==> RunEnds(d.s, n, ends)
    }

    lemma LitMayIs(n: nat)
      ensures LitMay(n) <==> (Seeks() && LastLit(enc.tokens) ==> RunEnds(d.s, n, ends))
    {
      hide RunEnds;
    }

    /** _tr_tally_lit. */
    method TallyLit(c: byte, ghost n: nat) returns (bflush: bool)
      requires Settings() && d.Shapes() && Sending() && UpTo(n) && Room() && n < |d.s| && c == d.s[n]
      requires LitMay(n)
      modifies enc`tokens, enc.lfc, enc.dfc
      ensures Sending() && UpTo(n + 1) && (bflush <==> !Room()) && enc.tokens == old(enc.tokens) + [Token(0, c)]
      ensures (old(d.Valid()) ==> d.Valid()) && (old(d.Entered()) ==> d.Entered())
      ensures forall h: nat :: old(HeadOk(h)) ==> HeadOk(h)
    {
      hide RunEnds, LitsApart, BlocksApart, TokensLength, Covers, BlocksCover, Afresh, Slack, Marked, Told, Logged,
           BlockOk, SentBits, Encoder.Valid, Queue.Sent,
           Queue.Valid, Dict.Valid, Dict.Entered, Dict.Shapes, HeadOk;
      CoversLength(d.s, d.base + d.blockStart, enc.tokens, n);
      if Seeks() {
        ApartAdd(d.s, d.base + d.blockStart, enc.tokens, ends, Token(0, c));
      }
      CoversLiteral(d.s, d.base + d.blockStart, enc.tokens, n);
      AfreshLiteral(d.s, origin, blocks, first, d.base + d.blockStart, enc.tokens, n);
      bflush := enc.Tally(0, c);
    }

    /** _tr_tally_dist. */
    method TallyDist(dist: nat, len: nat, ghost n: nat) returns (bflush: bool)
      requires Settings() && d.Shapes() && Sending() && UpTo(n) && Room() && 1 <= dist <= n - origin
      requires dist <= Far() && MIN_MATCH <= len <= MAX_MATCH
      requires n + len <= |d.s| && Repeats(d.s, n, dist, len)
      modifies enc`tokens, enc.lfc, enc.dfc
      ensures Sending() && UpTo(n + len) && (bflush <==> !Room())
      ensures enc.tokens == old(enc.tokens) + [Token(dist, len - MIN_MATCH)]
      ensures (old(d.Valid()) ==> d.Valid()) && (old(d.Entered()) ==> d.Entered())
      ensures forall h: nat :: old(HeadOk(h)) ==> HeadOk(h)
    {
      hide RunEnds, LitsApart, BlocksApart, TokensLength, Covers, BlocksCover, Afresh, Slack, Marked, Told, Logged,
           BlockOk, SentBits, Repeats, Encoder.Valid,
           Queue.Sent, Queue.Valid, Dict.Valid, Dict.Entered, Dict.Shapes, HeadOk;
      WindowFits();
      if Seeks() {
        ApartAdd(d.s, d.base + d.blockStart, enc.tokens, ends, Token(dist, len - MIN_MATCH));
      }
      CoversMatch(d.s, d.base + d.blockStart, enc.tokens, n, dist, len);
      AfreshMatch(d.s, origin, blocks, first, d.base + d.blockStart, enc.tokens, n, dist, len);
      bflush := enc.Tally(dist, len - MIN_MATCH);
    }

    lemma WindowFits()
      requires d.Shapes()
      ensures d.wsize <= WSIZE
    {
    }

    // ---------- flushing ----------

    /** The bytes of the block as they are in the window, if they all still are. */
    method BlockBytes() returns (buf: Option<seq<byte>>)
      requires d.Shapes() && d.Text() && d.blockStart <= d.strstart && d.base + d.strstart <= |d.s|
      ensures buf.Some? <==> d.blockStart >= 0
      ensures buf.Some? ==> d.base + d.blockStart >= 0 && buf.value == d.s[d.base + d.blockStart..d.base + d.strstart]
    {
      if d.blockStart >= 0 {
        var bytes := d.window[d.blockStart..d.strstart];
        assert bytes == d.s[d.base + d.blockStart..d.base + d.strstart];
        buf := Some(bytes);
      } else {
        buf := None;
      }
    }

    lemma SettingsAre()
      requires Settings()
      ensures 128 <= enc.litBufsize <= 0x8000 && d.hashed == (enc.level > 0)
      ensures enc.level > 0 ==> config.niceMatch > 5 && config.maxLazy >= MIN_MATCH
    {
    }

    lemma SendingIs()
      ensures Sending() <==>
              && enc.Valid() && !finished && first <= |blocks| && Log() && Capacity()
              && (!overrun ==> Told(header, blocks, first, skip, enc.q.Sent()))
      ensures enc.Valid() ==> enc.q.Valid() && |enc.tokens| < enc.litBufsize && enc.q.biValid <= BUF_SIZE
    {
      hide Log, Told, Capacity, Encoder.Valid, Queue.Sent;
      if enc.Valid() {
        enc.Parts();
        enc.q.Start();
      }
    }

    lemma UpToIs(n: nat)
      ensures UpTo(n) <==>
              && BlocksWithin(blocks, Far()) && Within(enc.tokens, Far())
              && d.base + d.blockStart >= 0 && BlocksCover(d.s, blocks, d.base + d.blockStart)
              && Slack(blocks) <= slack
              && Covers(d.s, d.base + d.blockStart, enc.tokens, n)
              && Afresh(d.s, origin, blocks, first, d.base + d.blockStart, enc.tokens, n)
              && RunsTaken() && (Seeks() ==> LitsApart(d.s, d.base + d.blockStart, enc.tokens, ends))
    {
      hide BlocksWithin, Within, BlocksCover, Covers, Afresh, Slack, BlocksApart, LitsApart;
    }

    /** _tr_flush_block with nothing pending; the block stands for the tokens `ts`, at level 0 as their bytes. */
    method SendTokens(buf: Option<seq<byte>>, storedLen: nat, eof: bool, ghost ts: seq<Token>)
      returns (ok: bool, ghost b: Block)
      requires enc.Valid() && enc.q.Valid() && enc.q.Ready() && enc.q.pending == 0
      requires (buf.Some? ==> |buf.value| == storedLen < 0x10000) && TokensLength(ts) == storedLen
      requires if enc.level == 0 then buf.Some? else ts == enc.tokens
      modifies enc`tokens, enc`optLen, enc`staticLen, enc`lastEobLen, enc.q, enc.lfc, enc.ldl, enc.dfc, enc.ddl,
               enc.bfc, enc.bdl
      ensures enc.Valid() && enc.q.Valid() && enc.tokens == [] && enc.q.delivered == old(enc.q.delivered)
      ensures (eof ==> enc.q.biValid == 0) && Fair(b, enc.litBufsize, enc.fixedOnly) && BlockOk(b)
      ensures if enc.level == 0 then b.Stored? else Extra(b) <= Scanty(|ts|)
      ensures !enc.fixedOnly && buf.Some? && !b.Stored? ==> NBytes(b) < storedLen + 4
      ensures ByteCount(b) == storedLen
      ensures enc.level > 0 && ok ==> enc.q.pending <= 4 * enc.litBufsize
      ensures enc.level == 0 ==>
                enc.q.biValid == 0 && (old(enc.q.biValid) <= 4 ==> enc.q.pending == storedLen + 5)
      ensures if b.Stored? then buf == Some(b.data) else b.tokens == ts
      ensures Sends(old(enc.q.Sent()), enc.q.Sent(), b, old(enc.q.biValid), enc.litBufsize, eof, ok)
    {
      hide *;
      enc.Parts();
      ghost var s, h := enc.q.Sent(), enc.q.biValid;
      ghost var dyn := Stored([]);
      ok, b, dyn := enc.FlushBlock(buf, storedLen, eof);
      enc.Parts();
      CountIs(b, ts);
      if enc.level == 0 {
        StoredIsFair(b, enc.fixedOnly, enc.litBufsize);
      } else {
        CheapStored(b, dyn, ts, buf);
        CheapIsFair(b, dyn, ts, buf, enc.fixedOnly, enc.litBufsize);
        ManyTokens(b, |ts|);
      }
      SendsIs(s, enc.q.Sent(), b, h, enc.litBufsize, eof, ok);
    }

    /** The bytes of the current block. */
    ghost function CurrentBytes(): seq<byte>
      reads d`s, d`base, d`blockStart, d`strstart
    {
      if 0 <= d.base + d.blockStart <= d.base + d.strstart <= |d.s|
      then d.s[d.base + d.blockStart..d.base + d.strstart] else []
    }

    lemma CurrentAre()
      requires 0 <= d.base + d.blockStart && d.blockStart <= d.strstart && d.base + d.strstart <= |d.s|
      ensures CurrentBytes() == d.s[d.base + d.blockStart..d.base + d.strstart]
    {
    }

    /** The same with the bytes of the current block, if they are still in the window. */
    method SendBytes(eof: bool, ghost ts: seq<Token>) returns (ok: bool, ghost b: Block)
      requires d.Shapes() && d.Text() && d.blockStart <= d.strstart && d.base + d.strstart <= |d.s|
      requires 0 <= d.base + d.blockStart
      requires enc.Valid() && enc.q.Valid() && enc.q.Ready() && enc.q.pending == 0
      requires d.blockStart >= 0 ==> d.strstart - d.blockStart < 0x10000
      requires TokensLength(ts) == d.strstart - d.blockStart
      requires if enc.level == 0 then d.blockStart >= 0 else ts == enc.tokens
      modifies enc`tokens, enc`optLen, enc`staticLen, enc`lastEobLen, enc.q, enc.lfc, enc.ldl, enc.dfc, enc.ddl,
               enc.bfc, enc.bdl
      ensures enc.Valid() && enc.q.Valid() && enc.tokens == [] && enc.q.delivered == old(enc.q.delivered)
      ensures (eof ==> enc.q.biValid == 0) && Fair(b, enc.litBufsize, enc.fixedOnly) && BlockOk(b)
      ensures if enc.level == 0 then b.Stored? else Extra(b) <= Scanty(|ts|)
      ensures !enc.fixedOnly && d.blockStart >= 0 && !b.Stored? ==> NBytes(b) < d.strstart - d.blockStart + 4
      ensures ByteCount(b) == d.strstart - d.blockStart
      ensures enc.level > 0 && ok ==> enc.q.pending <= 4 * enc.litBufsize
      ensures enc.level == 0 ==>
                && enc.q.biValid == 0
                && (old(enc.q.biValid) <= 4 ==> enc.q.pending == d.strstart - d.blockStart + 5)
      ensures if b.Stored? then b.data == CurrentBytes() else b.tokens == ts
      ensures Sends(old(enc.q.Sent()), enc.q.Sent(), b, old(enc.q.biValid), enc.litBufsize, eof, ok)
    {
      hide *;
      var buf := BlockBytes();
      ok, b := SendTokens(buf, d.strstart - d.blockStart, eof, ts);
      CurrentAre();
    }

    lemma CheapStored(b: Block, dyn: Block, ts: seq<Token>, buf: Option<seq<byte>>)
      requires BlockOk(b) && Cheapest(b, dyn, ts, buf, enc.fixedOnly)
      ensures !enc.fixedOnly && buf.Some? && !b.Stored? ==> NBytes(b) < |buf.value| + 4
    {
      hide NBytes, BlockOk;
    }

    /** What the next block may cost if it is small. */
    ghost function Cost(): nat
      reads d`strstart, d`blockStart, enc`tokens
    {
      if enc.level > 0 then Scanty(|enc.tokens|)
      else if d.blockStart <= d.strstart then Thin(d.strstart - d.blockStart) else 0
    }

    lemma CostIs()
      ensures enc.level > 0 ==> Cost() == Scanty(|enc.tokens|)
      ensures enc.level == 0 && d.blockStart <= d.strstart ==> Cost() == Thin(d.strstart - d.blockStart)
    {
    }

    /** Send what has been tallied as a block, or at level 0 what has been read. */
    method SendBlock(eof: bool)
      requires Settings() && d.Shapes() && d.Text() && d.base + d.strstart <= |d.s|
      requires d.blockStart <= d.strstart && (d.blockStart >= 0 ==> d.strstart - d.blockStart < 0x10000)
      requires d.base == 0 || d.strstart >= MaxDist()
      requires enc.level == 0 ==> d.blockStart >= 0 && enc.tokens == [] && d.strstart - d.blockStart <= MaxBlock()
      requires Sending() && UpTo(d.base + if enc.level == 0 then d.blockStart else d.strstart) && enc.q.Ready()
      requires enc.q.pending == 0
      modifies this`overrun, this`blocks, this`held, this`slack, this`finished, d`blockStart, enc`tokens, enc`optLen,
               enc`staticLen, enc`lastEobLen, enc.q, enc.lfc, enc.ldl, enc.dfc, enc.ddl, enc.bfc, enc.bdl
      ensures d.blockStart == d.strstart && UpTo(d.base + d.strstart) && enc.tokens == [] && enc.Valid()
      ensures finished == eof
      ensures !eof ==> Sending()
      ensures Log() && Capacity() && (eof ==> enc.q.biValid == 0 && first < |blocks|)
      ensures enc.level == 0 ==> enc.q.biValid == 0
      ensures eof && !overrun ==> StreamSent(header, blocks, enc.q.Sent()) && Marked(blocks, first, skip)
      ensures slack == old(slack) + old(Cost())
      ensures enc.q.delivered == old(enc.q.delivered)
    {
      hide *;
      SettingsAre();
      SendingIs();
      CostIs();
      CapacityIs();
      MaxBlockIs();
      ghost var ts := BlockTokens();
      ghost var h, sent, cost := enc.q.biValid, enc.q.Sent(), Cost();
      var ok;
      ghost var b;
      ok, b := SendBytes(eof, ts);
      BlockMade(ts, b);
      if enc.level == 0 {
        CurrentAre();
        ManyBytes(b.data);
      }
      Record(b, h, ok, eof, sent);
      slack := slack + cost;
      d.blockStart := d.strstart;
      RunsTakenIs();
      CapacityIs();
      SendingIs();
      UpToIs(d.base + d.strstart);
    }

    /** What has been tallied since the last block, or what could have been. */
    ghost predicate Stand(ts: seq<Token>)
      reads this`blocks, this`slack, this`ends, this`origin, this`first, d`base, d`s, d`blockStart, d`strstart
    {
      && BlocksWithin(blocks, Far()) && Within(ts, Far())
      && d.base + d.blockStart >= 0 && BlocksCover(d.s, blocks, d.base + d.blockStart) && Slack(blocks) <= slack
      && Covers(d.s, d.base + d.blockStart, ts, d.base + d.strstart)
      && Afresh(d.s, origin, blocks, first, d.base + d.blockStart, ts, d.base + d.strstart)
      && RunsTaken() && (Seeks() ==> LitsApart(d.s, d.base + d.blockStart, ts, ends))
    }

    lemma BlockTokens() returns (ts: seq<Token>)
      requires d.blockStart <= d.strstart && d.base + d.strstart <= |d.s|
      requires enc.level == 0 ==> d.blockStart >= 0 && enc.tokens == []
      requires UpTo(d.base + if enc.level == 0 then d.blockStart else d.strstart)
      ensures 0 <= d.base + d.blockStart
      ensures Stand(ts) && TokensLength(ts) == d.strstart - d.blockStart && (enc.level > 0 ==> ts == enc.tokens)
    {
      hide BlocksWithin, Within, BlocksCover, Covers, Afresh, Slack, BlocksApart, LitsApart, RunsTaken, TokensLength;
      ts := enc.tokens;
      if enc.level == 0 {
        ts := AsLiterals(d.s, origin, blocks, first, d.base + d.blockStart, d.base + d.strstart, Far());
      }
      CoversLength(d.s, d.base + d.blockStart, ts, d.base + d.strstart);
    }

    /** What holds once they are a block. */
    lemma BlockMade(ts: seq<Token>, b: Block)
      requires Stand(ts) && BlockOk(b)
      requires d.base + d.strstart <= |d.s| && d.blockStart <= d.strstart
      requires if b.Stored? then b.data == CurrentBytes() else b.tokens == ts
      requires (d.base == 0 || d.strstart >= MaxDist()) && ByteCount(b) == d.strstart - d.blockStart
      requires !enc.fixedOnly && d.blockStart >= 0 && !b.Stored? ==> NBytes(b) < d.strstart - d.blockStart + 4
      ensures !enc.fixedOnly ==> Worth(b, MaxDist())
      ensures BlocksCover(d.s, blocks + [b], d.base + d.strstart) && first <= |blocks|
      ensures Covers(d.s, d.base + d.strstart, [], d.base + d.strstart) && BlocksWithin(blocks + [b], Far())
      ensures Afresh(d.s, origin, blocks + [b], first, d.base + d.strstart, [], d.base + d.strstart)
      ensures Within([], Far()) && Slack(blocks + [b]) <= slack + Extra(b)
      ensures Seeks() ==>
                BlocksApart(d.s, blocks + [b], ends) && LitsApart(d.s, d.base + d.strstart, [], ends)
    {
      hide BlocksWithin, Within, BlocksCover, Covers, Afresh, Slack, BlocksApart, LitsApart, BlockOk, Extra, Worth,
           NBytes, ByteCount;
      if !enc.fixedOnly {
        TriedWorth(b, d.strstart - d.blockStart, d.blockStart >= 0, MaxDist());
      }
      BlockStands(d.s, origin, blocks, first, d.base + d.blockStart, ts, d.base + d.strstart, Far(), b);
      SlackAppend(blocks, b);
      if Seeks() {
        BlockApart(d.s, blocks, ends, d.base + d.blockStart, ts, b);
        NoneApart(d.s, d.base + d.strstart, ends);
      }
    }

    /** Take down the block that has been sent. */
    method Record(ghost b: Block, ghost h: nat, ok: bool, eof: bool, ghost sent: seq<bool>)
      requires Log() && Fair(b, enc.litBufsize, enc.fixedOnly) && h <= BUF_SIZE && first <= |blocks| && enc.q.Valid()
      requires (!overrun ==> Told(header, blocks, first, skip, sent))
      requires Sends(sent, enc.q.Sent(), b, h, enc.litBufsize, eof, ok)
      requires BlocksCover(d.s, blocks + [b], d.base + d.strstart) && (enc.level == 0 ==> b.Stored?)
      requires !enc.fixedOnly ==> Worth(b, MaxDist())
      modifies this`overrun, this`blocks, this`held, this`finished
      ensures Log() && first < |blocks| && blocks == old(blocks) + [b] && finished == eof && (!overrun ==> ok)
      ensures !overrun ==>
                if eof then StreamSent(header, blocks, enc.q.Sent()) && Marked(blocks, first, skip)
                else Told(header, blocks, first, skip, enc.q.Sent())
    {
      hide *;
      LogIs();
      SendsIs(sent, enc.q.Sent(), b, h, enc.litBufsize, eof, ok);
      LoggedMore(blocks, held, enc.litBufsize, enc.fixedOnly, overrun, b, h, ok);
      overrun := overrun || !ok;
      if !overrun {
        ToldMore(header, blocks, first, skip, sent, b, eof, d.s, d.base + d.strstart);
      }
      OnlyOne(b);
      if enc.level == 0 {
        OnlyStoredMore(blocks, [b]);
      }
      if !enc.fixedOnly {
        WorthMore(blocks, b, MaxDist());
      }
      blocks, held := blocks + [b], held + [h];
      finished := eof;
      LogIs();
    }

    /** Send the block, and deliver what there is room for. */
    method SendAndDeliver(eof: bool) returns (out: seq<byte>)
      requires Settings() && d.Shapes() && d.Text() && d.base + d.strstart <= |d.s|
      requires d.blockStart <= d.strstart && (d.blockStart >= 0 ==> d.strstart - d.blockStart < 0x10000)
      requires d.base == 0 || d.strstart >= MaxDist()
      requires enc.level == 0 ==> d.blockStart >= 0 && enc.tokens == [] && d.strstart - d.blockStart <= MaxBlock()
      requires Sending() && UpTo(d.base + if enc.level == 0 then d.blockStart else d.strstart) && enc.q.Ready()
      requires enc.q.pending == 0
      modifies this`overrun, this`blocks, this`held, this`slack, this`finished, this`availOut, d`blockStart,
               enc`tokens, enc`optLen, enc`staticLen, enc`lastEobLen, enc.q, enc.lfc, enc.ldl, enc.dfc, enc.ddl,
               enc.bfc, enc.bdl
      ensures d.blockStart == d.strstart && UpTo(d.base + d.strstart) && enc.tokens == [] && enc.Valid()
      ensures finished == eof
      ensures !eof ==> Sending()
      ensures Log() && Capacity() && (eof ==> enc.q.biValid == 0 && first < |blocks|)
      ensures enc.level == 0 ==> enc.q.biValid == 0
      ensures eof && !overrun ==> StreamSent(header, blocks, enc.q.Sent()) && Marked(blocks, first, skip)
      ensures slack == old(slack) + old(Cost())
      ensures enc.q.delivered == old(enc.q.delivered) + out && |out| <= old(availOut)
      ensures availOut == old(availOut) - |out|
      ensures availOut > 0 ==> enc.q.Ready() && enc.q.pending == 0
    {
      hide *;
      SendBlock(eof);
      SendingIs();
      CapacityIs();
      out := enc.Deliver(availOut);
      availOut := availOut - |out|;
      CapacityIs();
      SendingIs();
    }

    /** FLUSH_BLOCK_ONLY; the window, the hash chains and what is known of them stay. */
    method FlushBlockOnly(eof: bool) returns (out: seq<byte>)
      requires Settings() && d.Shapes() && d.Text() && d.base + d.strstart <= |d.s|
      requires d.blockStart <= d.strstart && (d.blockStart >= 0 ==> d.strstart - d.blockStart < 0x10000)
      requires d.base == 0 || d.strstart >= MaxDist()
      requires enc.level == 0 ==> d.blockStart >= 0 && enc.tokens == [] && d.strstart - d.blockStart <= MaxBlock()
      requires Sending() && UpTo(d.base + if enc.level == 0 then d.blockStart else d.strstart) && enc.q.Ready()
      requires enc.q.pending == 0
      modifies this`overrun, this`blocks, this`held, this`slack, this`finished, this`availOut, d`blockStart,
               enc`tokens, enc`optLen, enc`staticLen, enc`lastEobLen, enc.q, enc.lfc, enc.ldl, enc.dfc, enc.ddl,
               enc.bfc, enc.bdl
      ensures d.blockStart == d.strstart && UpTo(d.base + d.strstart) && enc.tokens == [] && enc.Valid()
      ensures finished == eof
      ensures !eof ==> Sending()
      ensures Log() && Capacity() && (eof ==> enc.q.biValid == 0 && first < |blocks|)
      ensures enc.level == 0 ==> enc.q.biValid == 0
      ensures eof && !overrun ==> StreamSent(header, blocks, enc.q.Sent()) && Marked(blocks, first, skip)
      ensures slack == old(slack) + old(Cost())
      ensures enc.q.delivered == old(enc.q.delivered) + out && |out| <= old(availOut)
      ensures availOut == old(availOut) - |out|
      ensures availOut > 0 ==> enc.q.Ready() && enc.q.pending == 0
      ensures (old(d.Valid()) ==> d.Valid()) && (old(d.Entered()) ==> d.Entered()) && (old(Recent()) ==> Recent())
      ensures forall h: nat :: old(HeadOk(h)) ==> HeadOk(h)
    {
      hide *;
      ApartIs();
      out := SendAndDeliver(eof);
    }

    // ---------- what the compressors do ----------

    /** At the head of the loop; `ahead` is 1 when a literal is being held back. */
    ghost predicate Turn(ahead: nat)
      reads this, d, d.window, d.head, d.prev, enc, enc.q, enc.lfc, enc.ldl, enc.dfc, enc.ddl, enc.bfc, enc.bdl
    {
      && Settings() && d.Valid() && d.matchStart < UINT && Sending() && Recent() && d.base + d.strstart >= ahead
      && UpTo(d.base + d.strstart - ahead)
      && Room() && enc.q.Ready() && enc.q.pending == 0 && availOut > 0
    }

    /** Between calls. */
    ghost predicate Paused(ahead: nat)
      reads this, d, d.window, d.head, d.prev, enc, enc.q, enc.lfc, enc.ldl, enc.dfc, enc.ddl, enc.bfc, enc.bdl
    {
      && Settings() && d.Valid() && d.matchStart < UINT && Sending() && Recent() && d.base + d.strstart >= ahead
      && UpTo(d.base + d.strstart - ahead) && Room()
    }

    /** The stream is complete: its blocks give all the input. */
    ghost predicate Ended()
      reads this, d, d.window, d.head, d.prev, enc, enc.q, enc.lfc, enc.ldl, enc.dfc, enc.ddl, enc.bfc, enc.bdl
    {
      && Settings() && d.Valid() && d.lookahead == 0 && d.nextIn == |d.input| && enc.Valid() && finished
      && Log() && Capacity()
      && (!overrun ==> StreamSent(header, blocks, enc.q.Sent()) && Marked(blocks, first, skip))
      && enc.q.biValid == 0 && BlocksCover(d.s, blocks, |d.s|) && BlocksWithin(blocks, Far())
      && Slack(blocks) <= slack && RunsTaken()
      && first < |blocks| && Afresh(d.s, origin, blocks, first, |d.s|, [], |d.s|)
    }

    /** A head of a chain from this turn or an earlier one. */
    ghost predicate HeadOk(hashHead: nat)
      requires d.Shapes()
      reads d`base, d`ins, d.prev
    {
      hashHead < 0x10000 && (hashHead != 0 ==> d.LegitSlot(Slot(hashHead, d.wbits)))
    }

    /** fill_window when the lookahead is short; stream positions and what has been tallied stay. */
    method Refill(hashHead: nat, ghost ahead: nat)
      requires Turn(ahead) && d.lookahead < MIN_LOOKAHEAD && HeadOk(hashHead)
      modifies d.window, d.head, d.prev, d`base, d`strstart, d`lookahead, d`matchStart, d`blockStart, d`nextIn, d`s,
               d`insH, d`adler
      ensures Turn(ahead) && HeadOk(hashHead) && d.base + d.strstart == old(d.base) + old(d.strstart)
      ensures d.strstart + MIN_LOOKAHEAD <= 2 * d.wsize && (d.lookahead >= MIN_LOOKAHEAD || d.nextIn == |d.input|)
      ensures Sub32(d.strstart, d.matchStart) == Sub32(old(d.strstart), old(d.matchStart))
      ensures old(d.nextIn) <= d.nextIn <= |d.input| && d.s == old(d.s) + d.input[old(d.nextIn)..d.nextIn]
      ensures d.lookahead == old(d.lookahead) + d.nextIn - old(d.nextIn)
      ensures (d.strstart == old(d.strstart) || d.strstart >= d.wsize - MIN_LOOKAHEAD)
      ensures d.base + d.blockStart == old(d.base) + old(d.blockStart)
    {
      hide LitsApart, BlocksApart, Covers, BlocksCover, Afresh, Slack, Marked, Told, Logged, BlockOk, SentBits,
           Encoder.Valid, Queue.Sent,
           Queue.Valid, Dict.ChainsAt, Dict.RollsAt, Sub32, Slot, Dict.Text;
      ghost var s0, bp := d.s, d.base + d.blockStart;
      d.FillWindow();
      if Seeks() {
        BlocksApartMore(s0, d.s, blocks, ends, ends);
        ApartMore(s0, d.s, bp, enc.tokens, ends, ends);
      }
      CoversMore(s0, d.input[old(d.nextIn)..d.nextIn], bp, enc.tokens, d.base + d.strstart - ahead);
      BlocksMore(s0, d.input[old(d.nextIn)..d.nextIn], blocks, bp);
      AfreshMore(s0, d.input[old(d.nextIn)..d.nextIn], origin, blocks, first, bp, enc.tokens,
          d.base + d.strstart - ahead);
    }

    /** The chain found for the current string leads to strings with the same hash. */
    ghost predicate FreshHead(hashHead: nat)
      requires d.Shapes()
      reads d, d.prev
    {
      && HeadOk(hashHead) && Head(d, hashHead)
      && (d.lookahead >= MIN_MATCH && hashHead != 0 ==>
            d.base + hashHead in d.ins && hashHead < d.strstart && d.base + d.strstart + 2 < |d.s|
            && d.base + hashHead + 2 < |d.s|
            && HashAt(d.bits, d.s, d.base + hashHead) == HashAt(d.bits, d.s, d.base + d.strstart))
    }

    /** A match within the reach of the strategy starts at match_start. */
    ghost predicate GoodMatch(len: nat)
      reads d`strstart, d`base, d`s, d`ins, d`matchStart
    {
      MatchAt(d, d.matchStart, len) && d.strstart - d.matchStart <= Far()
    }

    /**
     Look for a match if the head of the chain is near enough and the strategy allows.  Nothing is
     missed that must be considered: if no search is made there is nothing.
     */
    method FindMatch(hashHead: nat, best: nat) returns (searched: bool, len: nat)
      requires Settings() && enc.level > 0 && d.Entered() && d.strstart + MIN_LOOKAHEAD <= 2 * d.wsize
      requires FreshHead(hashHead)
      requires 1 <= best <= MAX_MATCH && d.matchStart < UINT
      modifies d`matchStart
      ensures d.Entered() && d.matchStart < UINT && (!searched ==> d.matchStart == old(d.matchStart))
      ensures searched ==>
                && len <= MAX_MATCH
                && (len > best && len >= MIN_MATCH ==> len <= d.lookahead && GoodMatch(len))
      ensures searched && d.lookahead >= 1 ==> len >= 1
      ensures Thorough(d.bits, d.s, d.ins, d.base, d.base + d.strstart, Far(), Chain(best), config.niceMatch,
          if searched then len else 0, 0)
    {
      hide Dict.ChainsAt, Dict.RollsAt, HashAt, Slot, MatchAt, Candidate, Sub32, Thorough, Head, NoLonger, NoneLonger,
           Places;
      searched, len := false, 0;
      if hashHead != 0 && Sub32(d.strstart, hashHead) <= d.wsize - MIN_LOOKAHEAD {
        Near(d.strstart, hashHead, d.wsize - MIN_LOOKAHEAD);
        if strategy != HUFFMAN_ONLY && strategy != RLE {
          IsCandidate(hashHead);
          len := LongestMatch.LongestMatch(d, hashHead, best, config.maxChain, config.goodMatch, config.niceMatch);
          searched := true;
        } else if strategy == RLE && Sub32(d.strstart, hashHead) == 1 {
          IsCandidate(hashHead);
          len := LongestMatchFast(d, hashHead);
          searched := true;
          SubIs(d.strstart, hashHead);
          NextFound(d, hashHead, Chain(best), config.niceMatch, len);
        }
      }
      if len > best && len >= MIN_MATCH {
        MatchFar(len);
      }
      if !searched {
        Unsearched(hashHead);
        NoneFound(d, hashHead, Far(), Chain(best), config.niceMatch, 0);
      }
    }

    lemma MatchFar(len: nat)
      requires MatchAt(d, d.matchStart, len)
      ensures d.strstart - d.matchStart <= MaxDist()
    {
      hide Repeats;
    }

    /** Where the strategy does not search, the chain starts too far back for it. */
    lemma Unsearched(hashHead: nat)
      requires d.Entered() && FreshHead(hashHead) && d.strstart < 0x10000
      requires || hashHead == 0 || Sub32(d.strstart, hashHead) > d.wsize - MIN_LOOKAHEAD || strategy == HUFFMAN_ONLY
               || (strategy == RLE && Sub32(d.strstart, hashHead) != 1)
      ensures Far() <= d.wsize - MIN_LOOKAHEAD
      ensures d.lookahead >= MIN_MATCH && hashHead != 0 ==> d.strstart - hashHead > Far()
    {
      hide Dict.ChainsAt, Dict.RollsAt, HashAt, Slot, Head;
    }

    lemma IsCandidate(hashHead: nat)
      requires d.Shapes() && FreshHead(hashHead) && 1 <= hashHead <= d.strstart
      requires d.strstart - hashHead <= d.wsize - MIN_LOOKAHEAD
      ensures Candidate(d, hashHead)
    {
      hide HashAt, Slot;
    }

    /** Insert the current string and remember the head of its chain. */
    method EnterString(hashHead0: nat) returns (hashHead: nat)
      requires Settings() && enc.level > 0 && d.Valid() && HeadOk(hashHead0) && d.strstart < 0x10000 && Recent()
      requires origin <= d.base + d.strstart
      modifies d`insH, d`ins, d.head, d.prev
      ensures d.Entered() && FreshHead(hashHead) && HeadOk(hashHead) && Recent() && (old(Sending()) ==> Sending())
      ensures d.ins == old(d.ins) + if d.lookahead >= MIN_MATCH then {d.base + d.strstart} else {}
    {
      hide Sending, Dict.ChainsAt, Dict.RollsAt, HashAt, Slot, Dict.Text;
      hashHead := d.Enter(hashHead0);
    }

    lemma DictFacts()
      requires d.Valid()
      ensures d.Shapes() && d.Text() && |d.s| == d.base + d.strstart + d.lookahead && d.nextIn <= |d.input|
      ensures d.strstart + d.lookahead <= 2 * d.wsize
      ensures d.base == 0 || d.strstart >= MaxDist()
    {
    }

    lemma BlockBefore(n: nat)
      requires UpTo(n)
      ensures origin <= d.base + d.blockStart <= n
    {
      hide BlocksCover, Covers;
    }

    /** With nothing ahead the blocks give all that has been read. */
    lemma AllCovered()
      requires UpTo(d.base + d.strstart) && d.blockStart == d.strstart && |d.s| == d.base + d.strstart
      requires enc.tokens == []
      ensures BlocksCover(d.s, blocks, |d.s|) && BlocksWithin(blocks, Far()) && Slack(blocks) <= slack && RunsTaken()
      ensures Afresh(d.s, origin, blocks, first, |d.s|, [], |d.s|)
    {
      hide BlocksCover, Covers, Afresh, Slack;
    }

    /** FLUSH_BLOCK when the token buffer is full. */
    method FlushFull(full: bool) returns (out: seq<byte>)
      requires Settings() && enc.level > 0 && d.Shapes() && d.Text() && d.base + d.strstart <= |d.s|
      requires d.strstart < 0x10000 && Sending() && UpTo(d.base + d.strstart) && (full <==> !Room())
      requires d.base == 0 || d.strstart >= MaxDist()
      requires enc.q.Ready() && enc.q.pending == 0 && availOut > 0
      modifies this`overrun, this`blocks, this`held, this`slack, this`finished, this`availOut, d`blockStart,
               enc`tokens, enc`optLen, enc`staticLen, enc`lastEobLen, enc.q, enc.lfc, enc.ldl, enc.dfc, enc.ddl,
               enc.bfc, enc.bdl
      ensures Sending() && UpTo(d.base + d.strstart) && Room() && slack == old(slack)
      ensures enc.tokens == (if full then [] else old(enc.tokens)) && (!full ==> out == [])
      ensures availOut > 0 ==> enc.q.Ready() && enc.q.pending == 0
      ensures enc.q.delivered == old(enc.q.delivered) + out && |out| + availOut == old(availOut)
      ensures (old(d.Valid()) ==> d.Valid()) && (old(d.Entered()) ==> d.Entered()) && (old(Recent()) ==> Recent())
      ensures forall h: nat :: old(HeadOk(h)) ==> HeadOk(h)
    {
      hide *;
      out := [];
      if full {
        BlockBefore(d.base + d.strstart);
        NoRoom();
        out := FlushBlockOnly(false);
        RoomAgain();
      }
    }

    // ---------- runs ----------

    /** The string before `p` can be found, if it was whole in time. */
    ghost predicate Seen(ins: set<nat>, p: nat)
      reads this`ends
    {
      p >= 1 && (p - 1 in ins || p in ends || p + 1 in ends)
    }

    /** Between the turns of deflate_fast the byte before the current one, if it is a literal, can be found. */
    ghost predicate Eager()
      reads this`ends, enc`tokens, d`ins, d`base, d`strstart
    {
      Seeks() && LastLit(enc.tokens) ==> Seen(d.ins, d.base + d.strstart)
    }

    lemma EagerIs()
      ensures Eager() <==> (Seeks() && LastLit(enc.tokens) ==> Seen(d.ins, d.base + d.strstart))
      ensures enc.tokens == [] ==> Eager()
    {
    }

    /** With little ahead the turn is on record. */
    ghost predicate Short()
      reads this`ends, d`lookahead, d`s
    {
      d.lookahead < MIN_LOOKAHEAD ==> |d.s| in ends
    }

    lemma ShortIs()
      ensures Short() <==> (d.lookahead < MIN_LOOKAHEAD ==> |d.s| in ends)
    {
    }

    /** Where nothing was missed a short result means that no long run starts here. */
    lemma LiteralEnds(ins: set<nat>, p: nat, best: nat, used: nat, waived: nat)
      requires Settings() && Seeks() && Short() && NoneMissed(ins, p, best, used, waived)
      requires used < MAX_MATCH && waived < MAX_MATCH && Seen(ins, p) && 512 <= d.wsize
      requires |d.s| == p + d.lookahead && d.lookahead >= 1 && (p >= 2 ==> d.base + 1 < p)
      ensures RunEnds(d.s, p, ends)
    {
      hide Thorough;
      if p >= 2 && !RunEnds(d.s, p, ends) {
        assert p - 1 in ins && p + MAX_MATCH <= |d.s| && !Varies(d.s, p);
        Unvaried(d.s, p);
        IsRival(d.s, ins, d.base, p, Far());
        ThoroughLatest(d.bits, d.s, ins, d.base, p, Far(), Chain(best), config.niceMatch, used, waived);
      }
    }

    /** The byte at the current position may follow a literal. */
    lemma MayFollow(ins: set<nat>, p: nat, best: nat, used: nat, waived: nat)
      requires Settings() && Short() && NoneMissed(ins, p, best, used, waived)
      requires used < MAX_MATCH && waived < MAX_MATCH && 512 <= d.wsize
      requires Seeks() && LastLit(enc.tokens) ==> Seen(ins, p)
      requires |d.s| == p + d.lookahead && d.lookahead >= 1 && (p >= 2 ==> d.base + 1 < p)
      ensures LitMay(p)
    {
      hide NoneMissed, RunEnds, Short, Seen;
      if Seeks() && LastLit(enc.tokens) {
        LiteralEnds(ins, p, best, used, waived);
      }
    }

    /** Put on record how much there was. */
    method NoteShort(ghost ahead: nat)
      requires Turn(ahead)
      modifies this`ends
      ensures Turn(ahead) && Short() && ends == old(ends) + if d.lookahead < MIN_LOOKAHEAD then {|d.s|} else {}
      ensures (old(Eager()) ==> Eager()) && (old(Lazy()) ==> Lazy()) && (old(Steady()) ==> Steady())
    {
      hide *;
      ghost var before := ends;
      TurnFacts(ahead);
      UpToIs(d.base + d.strstart - ahead);
      RunsTakenIs();
      EagerIs();
      SteadyIs();
      SeenIs(d.base + d.strstart);
      if Seeks() {
        BlocksApartMore(d.s, d.s, blocks, ends, ends + {|d.s|});
        ApartMore(d.s, d.s, d.base + d.blockStart, enc.tokens, ends, ends + {|d.s|});
      }
      ghost var p: nat := if d.base + d.strstart >= 1 then d.base + d.strstart - 1 else 0;
      if RunEnds(d.s, p, ends) {
        EndsMore(d.s, d.s, p, ends, ends + {|d.s|});
      }
      if d.lookahead < MIN_LOOKAHEAD {
        ends := ends + {|d.s|};
      }
      RunsTakenIs();
      UpToIs(d.base + d.strstart - ahead);
      EagerIs();
      SteadyIs();
      SeenIs(d.base + d.strstart);
      ShortIs();
      MakeTurn(ahead);
    }

    lemma SeenIs(p: nat)
      ensures Seen(d.ins, p) <==> p >= 1 && (p - 1 in d.ins || p in ends || p + 1 in ends)
    {
    }

    /**
     Between the turns of deflate_slow the byte held back, if it follows a literal, can be found, and
     will not be a literal if a long run starts there.
     */
    ghost predicate Steady()
      reads this`ends, this`matchAvailable, this`matchLength, enc`tokens, d`ins, d`base, d`strstart, d`s
    {
      Seeks() ==>
        if matchAvailable
        then && Seen(d.ins, d.base + d.strstart)
             && (LastLit(enc.tokens) && d.base + d.strstart >= 1 ==>
                   RunEnds(d.s, d.base + d.strstart - 1, ends) || matchLength == MAX_MATCH)
        else !LastLit(enc.tokens)
    }

    lemma SteadyIs()
      ensures Steady() <==> (Seeks() ==>
                if matchAvailable
                then && Seen(d.ins, d.base + d.strstart)
                     && (LastLit(enc.tokens) && d.base + d.strstart >= 1 ==>
                           RunEnds(d.s, d.base + d.strstart - 1, ends) || matchLength == MAX_MATCH)
                else !LastLit(enc.tokens))
      ensures enc.tokens == [] && !matchAvailable ==> Steady()
    {
      hide RunEnds, Seen;
    }

    /** A turn is put on record only when a flush is due and all input has been read. */
    ghost predicate Noted(before: set<nat>, flush: Flush)
      reads this`ends, d`s, d`input, d`nextIn
    {
      || ends == before
      || (ends == before + {|d.s|} && flush != Z_NO_FLUSH && d.nextIn == |d.input|)
    }

    lemma NoteKept(before: set<nat>, flush: Flush)
      ensures ends == before ==> Noted(before, flush)
    {
    }

    lemma NotedIs(before: set<nat>, flush: Flush)
      ensures Noted(before, flush) <==>
                || ends == before
                || (ends == before + {|d.s|} && flush != Z_NO_FLUSH && d.nextIn == |d.input|)
    {
    }

    /** A position passed can be found next, if its string is whole. */
    lemma SeenNext(ins: set<nat>, p: nat, ahead: nat, n: nat)
      requires n == p + ahead && ahead >= 1 && (ahead >= MIN_MATCH ==> p in ins)
      requires (ahead < MIN_LOOKAHEAD ==> n in ends)
      ensures Seen(ins, p + 1)
    {
    }

    lemma NotFirst()
      requires d.Valid()
      ensures d.base + d.strstart >= 2 ==> d.base + 1 < d.base + d.strstart
      ensures 512 <= d.wsize && |d.s| == d.base + d.strstart + d.lookahead
    {
    }

    // ---------- deflate_fast ----------

    /** Take the match found: tally it and move on past it. */
    method TakeMatch(hashHead0: nat) returns (hashHead: nat, bflush: bool)
      requires Settings() && enc.level > 0 && d.Entered() && Sending() && Recent() && UpTo(d.base + d.strstart)
      requires Room()
      requires d.strstart + MIN_LOOKAHEAD <= 2 * d.wsize && HeadOk(hashHead0)
      requires MIN_MATCH <= matchLength <= d.lookahead && matchLength <= MAX_MATCH
      requires GoodMatch(matchLength)
      modifies this`matchLength, d`strstart, d`lookahead, d`insH, d`ins, d.head, d.prev, enc`tokens, enc.lfc, enc.dfc
      ensures d.Valid() && Sending() && Recent() && UpTo(d.base + d.strstart) && matchLength == 0
      ensures (bflush <==> !Room())
      ensures d.strstart == old(d.strstart) + old(matchLength) && d.lookahead == old(d.lookahead) - old(matchLength)
      ensures HeadOk(hashHead)
      ensures enc.tokens == old(enc.tokens)
                            + [Token(old(d.strstart - d.matchStart), old(matchLength) - MIN_MATCH)]
      ensures Passed(old(d.ins), d.ins, old(d.base + d.strstart), old(matchLength), old(d.lookahead))
    {
      hide *;
      Sizes();
      EnteredFacts();
      BlockBefore(d.base + d.strstart);
      MatchGives();
      bflush := TallyDist(d.strstart - d.matchStart, matchLength, d.base + d.strstart);
      hashHead := PassMatch(hashHead0);
      matchLength := 0;
    }

    /**
     The strings of a match of `len` bytes at `p` are inserted if it is short enough and there is
     enough ahead, and none of them otherwise.
     */
    ghost predicate Passed(ins0: set<nat>, ins: set<nat>, p: nat, len: nat, lookahead: nat) {
      if len <= config.maxLazy && lookahead >= len + MIN_MATCH
      then ins0 <= ins && AllIn(ins, p + 1, p + len)
      else ins == ins0
    }

    /** Move on past a match, inserting its strings if it is short. */
    method PassMatch(hashHead0: nat) returns (hashHead: nat)
      requires Settings() && enc.level > 0 && d.Entered() && Sending() && Recent()
      requires d.strstart + MIN_LOOKAHEAD <= 2 * d.wsize
      requires HeadOk(hashHead0)
      requires MIN_MATCH <= matchLength <= d.lookahead && matchLength <= MAX_MATCH && origin <= d.base + d.strstart
      modifies d`strstart, d`lookahead, d`insH, d`ins, d.head, d.prev
      ensures d.Valid() && Sending() && Recent() && HeadOk(hashHead)
      ensures d.strstart == old(d.strstart) + matchLength && d.lookahead == old(d.lookahead) - matchLength
      ensures Passed(old(d.ins), d.ins, old(d.base + d.strstart), matchLength, old(d.lookahead))
    {
      hide Encoder.Valid, Queue.Sent, Queue.Valid, Dict.ChainsAt, Dict.RollsAt, Pow2, HashSize, Slot, AllIn, BlockOk,
           SentBits, BytesBits, Marked, Told, Logged, Dict.Valid, Dict.Text, AdlerOf;
      if matchLength <= config.maxLazy && d.lookahead >= matchLength + MIN_MATCH {
        hashHead := d.AdvanceInserting(matchLength, hashHead0);
      } else {
        hashHead := hashHead0;
        d.AdvanceSkipping(matchLength);
      }
    }

    /** No match: a literal. */
    method TakeLiteral(ghost hashHead: nat) returns (bflush: bool)
      requires Settings() && d.Entered() && Sending() && UpTo(d.base + d.strstart) && Room() && d.lookahead >= 1
      requires HeadOk(hashHead) && LitMay(d.base + d.strstart)
      modifies d`strstart, d`lookahead, enc`tokens, enc.lfc, enc.dfc
      ensures d.Valid() && Sending() && UpTo(d.base + d.strstart) && (bflush <==> !Room()) && HeadOk(hashHead)
      ensures d.strstart == old(d.strstart) + 1 && d.lookahead == old(d.lookahead) - 1
      ensures Adds(old(enc.tokens), enc.tokens, 1)
    {
      hide *;
      EnteredFacts();
      ThisByte();
      ghost var ts, t := enc.tokens, Token(0, d.window[d.strstart]);
      bflush := TallyLit(d.window[d.strstart], d.base + d.strstart);
      AddsOne(ts, t);
      d.Advance();
    }

    lemma ThisByte()
      requires d.Entered() && d.lookahead >= 1
      ensures d.strstart < d.window.Length && d.base + d.strstart < |d.s|
      ensures d.window[d.strstart] == d.s[d.base + d.strstart]
    {
    }

    /** One turn of deflate_fast after the window has been filled. */
    method FastTurn(hashHead0: nat) returns (hashHead: nat, bflush: bool)
      requires enc.level > 0 && Turn(0) && d.Shapes() && HeadOk(hashHead0) && d.strstart + MIN_LOOKAHEAD <= 2 * d.wsize
      requires d.lookahead >= 1
      requires matchLength < MIN_MATCH && prevLength == MIN_MATCH - 1 && Eager() && Short()
      modifies this`matchLength, d`strstart, d`lookahead, d`insH, d`ins, d`matchStart, d.head, d.prev, enc`tokens,
               enc.lfc, enc.dfc
      ensures d.Valid() && Sending() && Recent() && UpTo(d.base + d.strstart) && (bflush <==> !Room())
      ensures HeadOk(hashHead)
      ensures matchLength < MIN_MATCH && d.matchStart < UINT && d.strstart < 0x10000 && d.lookahead < old(d.lookahead)
      ensures d.strstart > old(d.strstart) && Adds(old(enc.tokens), enc.tokens, d.strstart - old(d.strstart))
      ensures Eager()
      ensures NoneMissed(old(d.ins), old(d.base + d.strstart), MIN_MATCH - 1, d.strstart - old(d.strstart), 0)
      ensures Inserts(old(d.ins), d.ins, old(d.base + d.strstart), d.strstart - old(d.strstart), old(d.lookahead))
    {
      hide *;
      Sizes();
      TurnFacts(0);
      BlockBefore(d.base + d.strstart);
      ghost var ts, ins0, p, ahead, n := enc.tokens, d.ins, d.base + d.strstart, d.lookahead, |d.s|;
      EagerIs();
      ShortIs();
      NotFirst();
      hashHead := FastFind(hashHead0);
      ghost var k, ins1 := if matchLength >= MIN_MATCH then matchLength else 1, d.ins;
      if matchLength >= MIN_MATCH {
        MatchGives();
        ghost var t := Token(d.strstart - d.matchStart, matchLength - MIN_MATCH);
        hashHead, bflush := TakeMatch(hashHead);
        AddsOne(ts, t);
      } else {
        MayFollow(ins0, p, MIN_MATCH - 1, 1, 0);
        bflush := TakeLiteral(hashHead);
        SeenNext(d.ins, p, ahead, n);
      }
      AddsLast(ts, enc.tokens, k);
      InsertsIs(ins0, ins1, d.ins, p, k, ahead);
      EagerIs();
    }

    /** The part of the turn that looks for a match. */
    method FastFind(hashHead0: nat) returns (hashHead: nat)
      requires Settings() && enc.level > 0 && d.Valid() && HeadOk(hashHead0) && d.strstart < 0x10000 && Recent()
      requires Sending() && d.matchStart < UINT && d.strstart + MIN_LOOKAHEAD <= 2 * d.wsize <= 0x10000
      requires origin <= d.base + d.strstart && matchLength < MIN_MATCH && prevLength == MIN_MATCH - 1
      modifies this`matchLength, d`insH, d`ins, d`matchStart, d.head, d.prev
      ensures d.Entered() && HeadOk(hashHead) && Recent() && Sending() && d.matchStart < UINT
      ensures d.ins == old(d.ins) + if d.lookahead >= MIN_MATCH then {d.base + d.strstart} else {}
      ensures matchLength >= MIN_MATCH ==>
                matchLength <= d.lookahead && matchLength <= MAX_MATCH && GoodMatch(matchLength)
      ensures NoneMissed(old(d.ins), d.base + d.strstart, MIN_MATCH - 1,
          if matchLength >= MIN_MATCH then matchLength else 1, 0)
    {
      hide *;
      Sizes();
      SettingsAre();
      ghost var ins0, p := d.ins, d.base + d.strstart;
      hashHead := EnterString(hashHead0);
      var searched, len := FindMatch(hashHead, prevLength);
      if searched {
        matchLength := len;
      }
      ghost var k := if matchLength >= MIN_MATCH then matchLength else 1;
      NoneMissedFrom(ins0, p, prevLength, if searched then len else 0, k, 0);
    }

    /** What a search has found, as it will be used. */
    lemma NoneMissedFrom(ins0: set<nat>, p: nat, best: nat, len: nat, used: nat, waived: nat)
      requires d.ins == ins0 + (if d.lookahead >= MIN_MATCH then {p} else {}) && config.niceMatch > 5
      requires Thorough(d.bits, d.s, d.ins, d.base, p, Far(), Chain(best), config.niceMatch, len, 0)
      requires used >= len || (len <= waived && waived <= 5) || len < MIN_MATCH
      ensures NoneMissed(ins0, p, best, used, waived)
    {
      hide *;
      Sizes();
      ghost var more := if d.lookahead >= MIN_MATCH then {p} else {};
      ThoroughBefore(d.bits, d.s, ins0, d.base, p, Far(), Chain(best), config.niceMatch, len, 0, more);
      ThoroughMore(d.bits, d.s, ins0, d.base, p, Far(), Chain(best), config.niceMatch, len, used, waived);
      NoneMissedIs(ins0, p, best, used, waived);
    }

    /**
     From position `p` the compressor went on, or has a match, by as many bytes as any of the places it
     must consider repeats.
     */
    ghost predicate NoneMissed(ins: set<nat>, p: nat, best: nat, len: nat, waived: nat)
      reads d`base, d`s
    {
      Thorough(d.bits, d.s, ins, d.base, p, Far(), Chain(best), config.niceMatch, len, waived)
    }

    lemma NoneMissedIs(ins: set<nat>, p: nat, best: nat, len: nat, waived: nat)
      ensures NoneMissed(ins, p, best, len, waived)
              <==> Thorough(d.bits, d.s, ins, d.base, p, Far(), Chain(best), config.niceMatch, len, waived)
    {
      hide Thorough;
    }

    /**
     In full: the `n` bytes at `p` repeat those at `a`, which is inserted, no further back than the
     strategy allows, and among the latest of its bucket, as many as are looked at; as far back as
     MAX_DIST it must be the latest.  Then the compressor has `n` bytes or more, or as many as are good
     enough, but not that when `a` is the latest.
     */
    lemma NoneMissedMeans(ins: set<nat>, p: nat, best: nat, len: nat, waived: nat, a: nat, n: nat)
      requires Settings() && enc.level > 0 && NoneMissed(ins, p, best, len, waived)
      requires a in ins && d.base < a < p && MIN_MATCH <= n <= MAX_MATCH && p + n <= |d.s|
      requires forall k :: p <= k < p + n ==> d.s[k] == d.s[k - (p - a)]
      requires p - a <= if strategy == RLE then 1 else if strategy == HUFFMAN_ONLY then 0 else d.wsize - MIN_LOOKAHEAD
      ensures var later := set x | x in ins && a < x < p && x + 2 < |d.s|
                                   && HashAt(d.bits, d.s, x) == HashAt(d.bits, d.s, p);
              && (later == {} ==> len >= n || n <= waived)
              && (|later| < (if best < config.goodMatch then config.maxChain else config.maxChain / 4)
                  && p - a < d.wsize - MIN_LOOKAHEAD
                  ==> len >= n || n <= waived || len >= config.niceMatch)
    {
      hide HashAt;
      var newer := Newer(d.bits, d.s, ins, p, a, p);
      assert newer
          == set x | x in ins && a < x < p && x + 2 < |d.s| && HashAt(d.bits, d.s, x) == HashAt(d.bits, d.s, p);
      assert Rival(d.s, ins, d.base, p, Far(), a, n);
    }

    /** The string at `p` is inserted if it is whole, and those of a match as far as that is done. */
    ghost predicate Inserts(ins0: set<nat>, ins: set<nat>, p: nat, len: nat, lookahead: nat) {
      && ins0 <= ins && (lookahead >= MIN_MATCH ==> p in ins)
      && (if len > 1 then Passed(ins0 + if lookahead >= MIN_MATCH then {p} else {}, ins, p, len, lookahead)
          else ins == ins0 + if lookahead >= MIN_MATCH then {p} else {})
    }

    /**
     In full, for a turn that passes `len` bytes with `lookahead` ahead: all strings passed are inserted
     if there are at most max_lazy of them and three bytes remain ahead, and otherwise only the first,
     if it is whole.
     */
    lemma InsertsMeans(ins0: set<nat>, ins: set<nat>, p: nat, len: nat, lookahead: nat)
      requires Inserts(ins0, ins, p, len, lookahead) && len <= lookahead
      ensures ins0 <= ins && (lookahead >= 3 ==> p in ins)
      ensures len <= config.maxLazy && lookahead >= len + 3 ==> forall q :: p <= q < p + len ==> q in ins
      ensures len > config.maxLazy || lookahead < len + 3 || len <= 1 ==>
                ins == if lookahead >= 3 then ins0 + {p} else ins0
    {
    }

    lemma InsertsIs(ins0: set<nat>, ins1: set<nat>, ins: set<nat>, p: nat, len: nat, lookahead: nat)
      requires ins1 == ins0 + if lookahead >= MIN_MATCH then {p} else {}
      requires if len > 1 then Passed(ins1, ins, p, len, lookahead) else ins == ins1
      ensures Inserts(ins0, ins, p, len, lookahead)
    {
      hide AllIn;
    }

    /** A turn, and the flush that may follow it. */
    method FastTurnAndFlush(hashHead0: nat) returns (leave: bool, hashHead: nat, out: seq<byte>)
      requires enc.level > 0 && Turn(0) && d.Shapes() && HeadOk(hashHead0) && d.strstart + MIN_LOOKAHEAD <= 2 * d.wsize
      requires d.lookahead >= 1
      requires matchLength < MIN_MATCH && prevLength == MIN_MATCH - 1 && Eager() && Short()
      modifies this`matchLength, this`availOut, this`overrun, this`blocks, this`held, this`slack, this`finished,
               d`strstart, d`lookahead, d`insH, d`ins, d`matchStart, d`blockStart, d.head, d.prev, enc, enc.q,
               enc.lfc, enc.ldl, enc.dfc, enc.ddl, enc.bfc, enc.bdl
      ensures matchLength < MIN_MATCH && enc.q.delivered == old(enc.q.delivered) + out && Eager()
      ensures |out| + availOut == old(availOut) && slack == old(slack)
      ensures if leave
              then Paused(0) && availOut == 0
              else Turn(0) && HeadOk(hashHead) && d.lookahead < old(d.lookahead)
      ensures d.strstart > old(d.strstart)
      ensures NoneMissed(old(d.ins), old(d.base + d.strstart), MIN_MATCH - 1, d.strstart - old(d.strstart), 0)
    {
      hide *;
      TurnFacts(0);
      var bflush;
      hashHead, bflush := FastTurn(hashHead0);
      leave, out := FlushTurn(bflush);
    }

    /** FLUSH_BLOCK at the end of a turn of deflate_fast. */
    method FlushTurn(full: bool) returns (leave: bool, out: seq<byte>)
      requires Settings() && enc.level > 0 && d.Valid() && d.matchStart < UINT && d.strstart < 0x10000 && Sending()
      requires Recent() && UpTo(d.base + d.strstart) && (full <==> !Room()) && Eager()
      requires enc.q.Ready() && enc.q.pending == 0 && availOut > 0
      modifies this`overrun, this`blocks, this`held, this`slack, this`finished, this`availOut, d`blockStart,
               enc`tokens, enc`optLen, enc`staticLen, enc`lastEobLen, enc.q, enc.lfc, enc.ldl, enc.dfc, enc.ddl,
               enc.bfc, enc.bdl
      ensures Eager() && (if leave then Paused(0) && availOut == 0 else Turn(0)) && slack == old(slack)
      ensures enc.q.delivered == old(enc.q.delivered) + out && |out| + availOut == old(availOut)
      ensures forall h: nat :: old(HeadOk(h)) ==> HeadOk(h)
    {
      hide *;
      DictFacts();
      EagerIs();
      out := FlushFull(full);
      EagerIs();
      leave := full && availOut == 0;
      if leave {
        MakePaused(0);
      } else {
        MakeTurn(0);
      }
    }

    /** A turn of the loop of deflate_fast, with the filling before it and the flushing after it. */
    method FastStep(hashHead0: nat, flush: Flush) returns (what: Outcome, hashHead: nat, out: seq<byte>)
      requires enc.level > 0 && Turn(0) && d.Shapes() && HeadOk(hashHead0) && matchLength < MIN_MATCH
      requires prevLength == MIN_MATCH - 1 && Eager()
      modifies this`matchLength, this`availOut, this`overrun, this`blocks, this`held, this`slack, this`ends,
               this`finished, d, d.window, d.head, d.prev, enc, enc.q, enc.lfc, enc.ldl, enc.dfc, enc.ddl, enc.bfc,
                   enc.bdl
      ensures matchLength < MIN_MATCH && enc.q.delivered == old(enc.q.delivered) + out
      ensures |out| + availOut == old(availOut) && slack == old(slack)
      ensures Eager() && Noted(old(ends), flush)
      ensures d.input == old(d.input) && old(d.nextIn) <= d.nextIn <= |d.input|
      ensures d.s == old(d.s) + d.input[old(d.nextIn)..d.nextIn]
      ensures what == GO_ON ==>
                && Turn(0) && HeadOk(hashHead)
                && |d.input| - d.nextIn + d.lookahead < |old(d.input)| - old(d.nextIn) + old(d.lookahead)
      ensures d.base + d.strstart >= old(d.base + d.strstart)
      ensures d.base + d.strstart > old(d.base + d.strstart) ==>
                NoneMissed(old(d.ins), old(d.base + d.strstart), MIN_MATCH - 1,
                    d.base + d.strstart - old(d.base + d.strstart), 0)
      ensures what == LEAVE ==> Paused(0) && (availOut > 0 ==> flush == Z_NO_FLUSH && d.nextIn == |d.input|)
      ensures what == LEAVE && availOut > 0 ==> enc.q.Ready() && enc.q.pending == 0
      ensures what == NO_MORE ==> Turn(0) && d.lookahead == 0 && d.nextIn == |d.input| && d.strstart < 0x10000
    {
      hide *;
      out, hashHead := [], hashHead0;
      if d.lookahead < MIN_LOOKAHEAD {
        what := FastFill(hashHead0, flush);
        if what != GO_ON {
          PauseTurn(0);
          return;
        }
      } else {
        Sizes();
        TurnFacts(0);
        ReadNone(d.s, d.input, d.nextIn);
        ShortIs();
      }
      var leave;
      leave, hashHead, out := FastTurnAndFlush(hashHead0);
      NoteKept(old(ends), flush);
      what := if leave then LEAVE else GO_ON;
    }

    /** The filling, and what to do then. */
    method FastFill(hashHead: nat, flush: Flush) returns (what: Outcome)
      requires Turn(0) && d.Shapes() && d.lookahead < MIN_LOOKAHEAD && HeadOk(hashHead) && Eager()
      modifies this`ends, d.window, d.head, d.prev, d`base, d`strstart, d`lookahead, d`matchStart, d`blockStart,
               d`nextIn, d`s, d`insH, d`adler
      ensures Turn(0) && HeadOk(hashHead) && Eager() && Noted(old(ends), flush)
      ensures d.base + d.strstart == old(d.base + d.strstart) && d.strstart + MIN_LOOKAHEAD <= 2 * d.wsize
      ensures old(d.nextIn) <= d.nextIn <= |d.input| && d.s == old(d.s) + d.input[old(d.nextIn)..d.nextIn]
      ensures d.lookahead == old(d.lookahead) + d.nextIn - old(d.nextIn)
      ensures what == GO_ON ==> d.lookahead >= 1 && Short()
      ensures what == LEAVE ==> flush == Z_NO_FLUSH && d.nextIn == |d.input|
      ensures what == NO_MORE ==> d.lookahead == 0 && d.nextIn == |d.input| && d.strstart < 0x10000
    {
      hide *;
      Sizes();
      TurnFacts(0);
      EagerIs();
      Refill(hashHead, 0);
      EagerIs();
      NotedIs(old(ends), flush);
      what := GO_ON;
      if d.lookahead < MIN_LOOKAHEAD && flush == Z_NO_FLUSH {
        what := LEAVE;
      } else if d.lookahead == 0 {
        what := NO_MORE;
      } else {
        NoteShort(0);
        NotedIs(old(ends), flush);
      }
    }

    lemma MakeTurn(ahead: nat)
      requires Settings() && d.Valid() && d.matchStart < UINT && Sending() && Recent() && d.base + d.strstart >= ahead
      requires UpTo(d.base + d.strstart - ahead)
      requires Room() && enc.q.Ready() && enc.q.pending == 0 && availOut > 0
      ensures Turn(ahead)
    {
      hide Sending, UpTo, Dict.Valid;
    }

    lemma MakePaused(ahead: nat)
      requires Settings() && d.Valid() && d.matchStart < UINT && Sending() && Recent() && d.base + d.strstart >= ahead
      requires UpTo(d.base + d.strstart - ahead) && Room()
      ensures Paused(ahead)
    {
      hide Sending, UpTo, Dict.Valid;
    }

    lemma PauseTurn(ahead: nat)
      requires Turn(ahead)
      ensures Paused(ahead) && enc.q.Ready() && enc.q.pending == 0
    {
      hide Sending, UpTo, Dict.Valid;
    }

    lemma WakeUp(ahead: nat)
      requires Paused(ahead) && enc.q.Ready() && enc.q.pending == 0 && availOut > 0
      ensures Turn(ahead)
    {
      hide Sending, UpTo, Dict.Valid;
    }

    lemma PausedValid(ahead: nat)
      requires Paused(ahead)
      ensures enc.Valid() && d.Valid()
    {
      hide UpTo, Dict.Valid, Encoder.Valid;
    }

    lemma EndedValid()
      requires Ended()
      ensures enc.Valid() && enc.q.Valid()
    {
      hide Dict.Valid, StreamSent, BlocksCover, Told, Logged, Encoder.Valid;
      enc.QueueValid();
    }

    lemma PausedCovers(ahead: nat) returns (n: nat)
      requires Paused(ahead)
      ensures Log() && BlocksCover(d.s, blocks, n) && BlocksWithin(blocks, Far()) && enc.q.Valid()
      ensures Slack(blocks) <= slack && RunsTaken()
      ensures !overrun ==> Told(header, blocks, first, skip, enc.q.Sent())
    {
      hide Dict.Valid, Encoder.Valid, BlocksCover, Covers, Afresh, Slack, BlocksWithin, Told, Logged, RunsTaken,
           Queue.Valid,
           Queue.Sent;
      enc.QueueValid();
      n := d.base + d.blockStart;
    }

    lemma PausedMarked(ahead: nat)
      requires Paused(ahead)
      ensures !overrun ==> Marked(blocks, first, skip)
    {
      hide UpTo, Dict.Valid, Encoder.Valid, Marked, Told, Logged;
      if !overrun {
        enc.QueueValid();
        ToldIs(header, blocks, first, skip, enc.q.Sent());
      }
    }

    lemma NoRoom()
      requires Settings() && !Room() && enc.level > 0
      ensures Cost() == 0
    {
    }

    lemma RoomAgain()
      requires Settings() && enc.tokens == []
      ensures Room()
    {
    }

    /** What the last block of a call may cost. */
    function LastCost(): (r: nat)
      ensures r <= 42 && (enc.level > 0 ==> r == 27)
    {
      if enc.level == 0 then 42 else 27
    }

    lemma MostCost()
      ensures Cost() <= LastCost()
    {
    }

    /** The last flush of a call, which ends the stream when asked to. */
    method LastFlush(flush: Flush) returns (state: BlockState, out: seq<byte>)
      requires Settings() && d.Valid() && d.matchStart < UINT && Sending() && Recent()
      requires d.blockStart <= d.strstart && (d.blockStart >= 0 ==> d.strstart - d.blockStart < 0x10000)
      requires enc.level == 0 ==> d.blockStart >= 0 && enc.tokens == [] && d.strstart - d.blockStart <= MaxBlock()
      requires UpTo(d.base + if enc.level == 0 then d.blockStart else d.strstart) && enc.q.Ready()
      requires enc.q.pending == 0 && availOut > 0 && d.lookahead == 0 && d.nextIn == |d.input|
      modifies this`availOut, this`overrun, this`blocks, this`held, this`slack, this`finished, d`blockStart,
               enc`tokens, enc`optLen, enc`staticLen, enc`lastEobLen, enc.q, enc.lfc, enc.ldl, enc.dfc, enc.ddl,
               enc.bfc, enc.bdl
      ensures if state in {FINISH_STARTED, FINISH_DONE}
              then Ended() && flush == Z_FINISH
              else Paused(0) && flush != Z_FINISH
      ensures (availOut > 0 ==> enc.q.Ready() && enc.q.pending == 0)
      ensures (state in {BLOCK_DONE, FINISH_DONE} ==> availOut > 0 && enc.q.pending == 0)
      ensures (state == BLOCK_DONE ==> enc.tokens == [] && d.blockStart == d.strstart)
      ensures enc.level == 0 ==> enc.q.biValid == 0
      ensures state in {FINISH_STARTED, NEED_MORE} ==> availOut == 0
      ensures enc.q.delivered == old(enc.q.delivered) + out && |out| + availOut == old(availOut)
      ensures slack <= old(slack) + LastCost() && d.blockStart == d.strstart && enc.tokens == []
    {
      hide *;
      DictFacts();
      MostCost();
      out := FlushBlockOnly(flush == Z_FINISH);
      if flush == Z_FINISH {
        MakeEnded();
      } else {
        RoomAgain();
        MakePaused(0);
      }
      if availOut == 0 {
        state := if flush == Z_FINISH then FINISH_STARTED else NEED_MORE;
      } else {
        state := if flush == Z_FINISH then FINISH_DONE else BLOCK_DONE;
      }
    }

    lemma MakeEnded()
      requires Settings() && d.Valid() && d.lookahead == 0 && d.nextIn == |d.input| && enc.Valid() && finished
      requires Log() && (!overrun ==> StreamSent(header, blocks, enc.q.Sent()) && Marked(blocks, first, skip))
      requires Capacity()
      requires enc.q.biValid == 0 && UpTo(d.base + d.strstart) && d.blockStart == d.strstart && enc.tokens == []
      requires first < |blocks|
      ensures Ended()
    {
      hide StreamSent, Encoder.Valid, Queue.Sent, Queue.Valid, UpTo, Marked, Told, Logged, Afresh, Slack, BlocksCover,
           BlocksWithin;
      AllCovered();
    }

    /** deflate_fast. */
    method DeflateFast(flush: Flush) returns (state: BlockState, out: seq<byte>)
      requires enc.level > 0 && Turn(0) && matchLength < MIN_MATCH && prevLength == MIN_MATCH - 1 && Eager()
      modifies this`matchLength, this`availOut, this`overrun, this`blocks, this`held, this`slack, this`ends,
               this`finished, d, d.window, d.head, d.prev, enc, enc.q, enc.lfc, enc.ldl, enc.dfc, enc.ddl, enc.bfc,
                   enc.bdl
      ensures matchLength < MIN_MATCH && Eager() && Noted(old(ends), flush)
      ensures if state in {FINISH_STARTED, FINISH_DONE} then Ended() && flush == Z_FINISH else Paused(0)
      ensures (availOut > 0 ==> enc.q.Ready() && enc.q.pending == 0)
      ensures (state in {BLOCK_DONE, FINISH_DONE} ==> availOut > 0 && enc.q.pending == 0)
      ensures (state == BLOCK_DONE ==> enc.tokens == [] && d.blockStart == d.strstart && flush != Z_FINISH)
      ensures state in {BLOCK_DONE, FINISH_STARTED, FINISH_DONE} ==> d.lookahead == 0 && d.nextIn == |d.input|
      ensures state in {FINISH_STARTED, NEED_MORE} && flush != Z_NO_FLUSH ==> availOut == 0
      ensures availOut > 0 ==> d.nextIn == |d.input|
      ensures enc.q.delivered == old(enc.q.delivered) + out && |out| + availOut == old(availOut)
      ensures slack <= old(slack) + LastCost()
      ensures d.input == old(d.input) && old(d.nextIn) <= d.nextIn <= |d.input|
      ensures d.s == old(d.s) + d.input[old(d.nextIn)..d.nextIn]
    {
      hide *;
      var hashHead: nat := 0;
      out := [];
      TurnFacts(0);
      ghost var s0, n0 := d.s, d.nextIn;
      NotedIs(ends, flush);
      ReadNone(s0, d.input, n0);
      var what := GO_ON;
      while what == GO_ON
        invariant (what == GO_ON ==> Turn(0) && d.Shapes() && HeadOk(hashHead)) && matchLength < MIN_MATCH
        invariant d.input == old(d.input) && prevLength == MIN_MATCH - 1
        invariant what == LEAVE ==> Paused(0) && (availOut > 0 ==> flush == Z_NO_FLUSH && d.nextIn == |d.input|)
        invariant what == LEAVE && availOut > 0 ==> enc.q.Ready() && enc.q.pending == 0
        invariant what == NO_MORE ==> Turn(0) && d.lookahead == 0 && d.nextIn == |d.input| && d.strstart < 0x10000
        invariant n0 <= d.nextIn <= |d.input| && d.s == s0 + d.input[n0..d.nextIn]
        invariant enc.q.delivered == old(enc.q.delivered) + out && |out| + availOut == old(availOut)
        invariant slack == old(slack) && Eager() && Noted(old(ends), flush)
        decreases what == GO_ON, |d.input| - d.nextIn + d.lookahead
      {
        hide *;
        ghost var k := d.nextIn;
        var o;
        ghost var e := ends;
        NotedIs(old(ends), flush);
        what, hashHead, o := FastStep(hashHead, flush);
        NotedIs(e, flush);
        NotedIs(old(ends), flush);
        ReadNone(s0, d.input, d.nextIn);
        ReadOn(s0, d.input, n0, k, d.nextIn);
        PutOn(old(enc.q.delivered), out, o);
        out := out + o;
      }
      if what == LEAVE {
        state := NEED_MORE;
      } else {
        var o;
        TurnFacts(0);
        BlockBefore(d.base + d.strstart);
        NotedIs(old(ends), flush);
        state, o := LastFlush(flush);
        EagerIs();
        NotedIs(old(ends), flush);
        PutOn(old(enc.q.delivered), out, o);
        out := out + o;
      }
    }

    lemma TurnFacts(ahead: nat)
      requires Turn(ahead)
      ensures Settings() && d.Shapes() && HeadOk(0) && d.nextIn <= |d.input|
      ensures |d.s| == d.base + d.strstart + d.lookahead && d.strstart + d.lookahead <= 2 * d.wsize <= 0x10000
      ensures 512 <= d.wsize && d.Valid() && d.Text() && Sending() && Recent() && d.base + d.strstart >= ahead
      ensures UpTo(d.base + d.strstart - ahead) && Room() && enc.q.Ready() && enc.q.pending == 0
      ensures availOut > 0 && d.matchStart < UINT
    {
      hide Sending, UpTo;
    }

    // ---------- around the compressor ----------

    /** The next call's input and room. */
    method Offer(input: seq<byte>, availOut: nat)
      requires d.Valid()
      modifies d`input, d`nextIn, this`availOut
      ensures d.Valid() && d.input == input && d.nextIn == 0 && this.availOut == availOut
      ensures (forall a: nat :: old(Paused(a)) ==> Paused(a))
    {
      hide Dict.ChainsAt, Dict.RollsAt, Dict.Summed, Sending, UpTo, Dict.Shapes;
      d.input, d.nextIn := input, 0;
      this.availOut := availOut;
    }

    /** flush_pending. */
    method FlushPending() returns (out: seq<byte>)
      requires enc.Valid()
      modifies this`availOut, enc.q
      ensures enc.Valid() && enc.q.Sent() == old(enc.q.Sent()) && enc.q.biValid == old(enc.q.biValid)
      ensures |out| == Min(old(enc.q.pending), old(availOut)) == old(enc.q.pending) - enc.q.pending
      ensures enc.q.delivered == old(enc.q.delivered) + out && |out| + availOut == old(availOut)
      ensures (availOut > 0 ==> enc.q.Ready() && enc.q.pending == 0)
      ensures forall a: nat :: old(Paused(a)) ==> Paused(a)
    {
      hide Encoder.Valid, Queue.Sent, Queue.Valid, UpTo, Dict.Valid, BlockOk, SentBits, BytesBits;
      out := enc.Deliver(availOut);
      availOut := availOut - |out|;
    }

    /** Two bytes before the first block. */
    method PutHeader(w: nat)
      requires Paused(0) && enc.q.Ready() && enc.q.biValid == 0 && header == [] && blocks == [] && w < 0x10000
      requires enc.q.pending == 0
      modifies this`header, enc.q
      ensures Paused(0) && header == BigEndian(w) && enc.q.Ready() && enc.q.biValid == 0 && enc.q.pending > 0
      ensures enc.q.delivered == old(enc.q.delivered)
    {
      hide Encoder.Valid, Queue.Sent, Queue.Valid, UpTo, Dict.Valid, BlockOk, BytesBits, BigEndian;
      enc.PutShortMSB(w);
      header := BigEndian(w);
      NoBytesBits();
      assert [] + BytesBits(header) + [] == BytesBits(header) + [];
    }

    /** What has been delivered is whole blocks that give all that has been read. */
    ghost predicate Synced()
      reads this, d, enc.q
    {
      BlocksCover(d.s, blocks, |d.s|) && BytesBits(enc.q.delivered) == BytesBits(header) + SentBits(blocks)
    }

    lemma MakeSynced()
      requires Paused(0) && enc.tokens == [] && d.lookahead == 0 && enc.q.pending == 0 && enc.q.biValid == 0
      requires !overrun
      ensures Synced()
    {
      hide BytesBits, SentBits, BlockOk, BlocksOk, Dict.ChainsAt, Dict.RollsAt, InReach;
      assert enc.q.Waiting() == [];
      NoBits(enc.q.biBuf);
      assert BytesBits(enc.q.delivered + []) + []
             == BytesBits(enc.q.delivered) by { assert enc.q.delivered + [] == enc.q.delivered; }
      NothingCovers(d.s, d.base + d.blockStart, |d.s|);
    }

    /**
     What has been delivered, and fewer than 8 bits more, is blocks that give all that has been read,
     the last of them an empty fixed one.
     */
    ghost predicate PartlySynced()
      reads this, d, enc.q
    {
      && BlocksCover(d.s, blocks, |d.s|) && blocks != [] && blocks[|blocks| - 1] == Fixed([])
      && exists kept: seq<bool> ::
           |kept| < 8 && BytesBits(enc.q.delivered) + kept == BytesBits(header) + SentBits(blocks)
    }

    lemma MakePartlySynced()
      requires Paused(0) && enc.tokens == [] && d.lookahead == 0 && enc.q.pending == 0 && enc.q.biValid < 8
      requires !overrun && blocks != [] && blocks[|blocks| - 1] == Fixed([])
      ensures PartlySynced()
    {
      hide *;
      PausedSent();
      AllSentIs();
      DictFacts();
      SettledIs(header, d.s, blocks, d.base + d.strstart, Far(), origin, first, skip, enc.q.Sent(), !overrun);
      ToldIs(header, blocks, first, skip, enc.q.Sent());
      enc.q.HeldBack();
      KeptIs(BitsOf(enc.q.biBuf, enc.q.biValid));
    }

    lemma KeptIs(kept: seq<bool>)
      requires BlocksCover(d.s, blocks, |d.s|) && blocks != [] && blocks[|blocks| - 1] == Fixed([])
      requires |kept| < 8 && BytesBits(enc.q.delivered) + kept == BytesBits(header) + SentBits(blocks)
      ensures PartlySynced()
    {
      hide BytesBits, SentBits, BlocksOk, AfterAll;
    }

    /** Right after a full flush, what follows starts at the next byte. */
    lemma RestartHere()
      requires Synced() && Marked(blocks, first, skip) && first == |blocks|
      ensures |enc.q.delivered| == |header| + skip
    {
      hide BytesBits, SentBits, BlockOk;
      assert blocks[..first] == blocks;
      assert 8 * |enc.q.delivered| == 8 * |header| + |SentBits(blocks)|;
    }

    // ---------- marking a flush ----------

    /**
     After everything has been sent: an empty block, so that the decoder can output all of it; two
     when one would not be enough.
     */
    method MarkFlush(flush: Flush)
      requires Paused(0) && enc.q.Ready() && enc.tokens == [] && d.lookahead == 0 && flush != Z_FINISH
      requires enc.q.pending == 0 && (enc.level == 0 ==> enc.q.biValid == 0)
      modifies this`blocks, this`held, this`slack, this`origin, this`first, this`skip, d.head, d`ins, enc`lastEobLen,
               enc.q
      ensures Paused(0) && enc.q.Ready() && enc.q.delivered == old(enc.q.delivered) && enc.tokens == []
      ensures flush == Z_PARTIAL_FLUSH ==>
                && enc.q.biValid < 8
                && blocks == old(blocks) + EmptyFixedBlocks(TooFew(old(enc.lastEobLen), |old(enc.q.Sent())|))
      ensures flush != Z_PARTIAL_FLUSH ==> enc.q.biValid == 0 && blocks == old(blocks) + [Stored([])]
      ensures flush == Z_FULL_FLUSH ==>
                origin == |d.s| && first == |blocks| && forall h :: 0 <= h < d.head.Length ==> d.head[h] == 0
      ensures flush != Z_FULL_FLUSH ==> origin == old(origin) && first == old(first) && skip == old(skip)
      ensures slack <= old(slack) + 42
    {
      hide *;
      if flush == Z_PARTIAL_FLUSH {
        AlignBlocks();
      } else {
        SyncBlock();
        if flush == Z_FULL_FLUSH {
          StartAfresh();
        }
      }
    }

    /** Everything tallied has been sent. */
    ghost predicate AllSent()
      reads this`overrun, this`header, this`blocks, this`origin, this`first, this`skip, d, enc.q
    {
      && d.blockStart == d.strstart && enc.q.Valid()
      && Settled(header, d.s, blocks, d.base + d.strstart, Far(), origin, first, skip, enc.q.Sent(),
          !overrun)
    }

    lemma PausedSent()
      requires Paused(0) && enc.tokens == []
      ensures AllSent() && Settings() && d.Valid() && d.matchStart < UINT && Recent() && Room() && enc.Valid()
      ensures !finished && Log() && Capacity() && enc.q.biValid <= BUF_SIZE && enc.litBufsize >= 128
      ensures Slack(blocks) <= slack && RunsTaken()
    {
      hide *;
      PausedParts(0);
      SendingIs();
      UpToIs(d.base + d.strstart);
      NothingCovers(d.s, d.base + d.blockStart, d.base + d.strstart);
      MakeSettled(header, d.s, blocks, d.base + d.strstart, Far(), origin, first, skip, enc.q.Sent(), !overrun);
      enc.Parts();
      AllSentIs();
    }

    lemma PausedParts(ahead: nat)
      requires Paused(ahead)
      ensures Settings() && d.Valid() && d.matchStart < UINT && Sending() && Recent() && d.base + d.strstart >= ahead
      ensures UpTo(d.base + d.strstart - ahead) && Room()
    {
      hide Settings, Sending, UpTo, Dict.Valid, Recent, Room;
    }

    lemma SentPaused()
      requires AllSent() && Settings() && d.Valid() && d.matchStart < UINT && Recent() && Room() && enc.Valid()
      requires !finished && enc.tokens == [] && Log() && Capacity() && Slack(blocks) <= slack && RunsTaken()
      ensures Paused(0)
    {
      hide LitsApart, BlocksApart, Covers, BlocksWithin, SentBits, BytesBits, Encoder.Valid, Queue.Sent, Queue.Valid,
           Dict.Valid, Afresh,
           Slack, Settings, BlockOk, BlocksOk;
      RunsTakenIs();
      NoneApart(d.s, d.base + d.strstart, ends);
      CoversNothing(d.s, d.base + d.strstart);
    }

    lemma AllSentIs()
      ensures AllSent() <==> d.blockStart == d.strstart && enc.q.Valid()
                             && Settled(header, d.s, blocks, d.base + d.strstart, Far(), origin, first, skip,
                                 enc.q.Sent(), !overrun)
    {
      hide Settled, Queue.Sent, Queue.Valid;
    }

    /** _tr_stored_block with nothing in it. */
    method SyncBlock()
      requires Paused(0) && enc.q.Ready() && enc.tokens == [] && enc.q.pending == 0
      requires enc.level == 0 ==> enc.q.biValid == 0
      modifies this`blocks, this`held, this`slack, enc`lastEobLen, enc.q
      ensures Paused(0) && enc.q.Ready() && enc.q.delivered == old(enc.q.delivered) && enc.q.biValid == 0
      ensures blocks == old(blocks) + [Stored([])] && slack == old(slack) + 42
    {
      hide *;
      PausedSent();
      AllSentIs();
      LogIs();
      SettledEmpty(header, d.s, blocks, d.base + d.strstart, Far(), origin, first, skip, enc.q.Sent(), !overrun,
          Stored([]));
      LoggedEmpty(blocks, held, enc.litBufsize, enc.fixedOnly, overrun, Stored([]), enc.q.biValid);
      ghost var h := enc.q.biValid;
      enc.SendEmptyStored();
      enc.QueueValid();
      SlackOfEmpty(blocks);
      RunsTakenIs();
      if Seeks() {
        EmptyApart(d.s, blocks, ends);
      }
      OnlyOne(Stored([]));
      if enc.level == 0 {
        OnlyStoredMore(blocks, [Stored([])]);
      }
      if !enc.fixedOnly {
        EmptyWorth(blocks, MaxDist(), false);
      }
      blocks, held, slack := blocks + [Stored([])], held + [h], slack + 42;
      RunsTakenIs();
      CapacityIs();
      LogIs();
      AllSentIs();
      SentPaused();
    }

    /** _tr_align. */
    method AlignBlocks()
      requires Paused(0) && enc.q.Ready() && enc.tokens == [] && enc.q.pending == 0
      requires enc.level == 0 ==> enc.q.biValid == 0
      modifies this`blocks, this`held, this`slack, enc`lastEobLen, enc.q
      ensures Paused(0) && enc.q.Ready() && enc.q.delivered == old(enc.q.delivered) && enc.q.biValid < 8
      ensures blocks == old(blocks) + EmptyFixedBlocks(TooFew(old(enc.lastEobLen), |old(enc.q.Sent())|))
      ensures slack <= old(slack) + 34
    {
      hide *;
      PausedSent();
      AllSentIs();
      LogIs();
      ghost var sent, h := enc.q.Sent(), enc.q.biValid;
      var two := enc.Align();
      enc.QueueValid();
      SettledAligned(header, d.s, blocks, d.base + d.strstart, Far(), origin, first, skip, sent, !overrun, two);
      LoggedAligned(blocks, held, enc.litBufsize, enc.fixedOnly, overrun, h, |sent|, two);
      SlackOfEmpty(blocks);
      RunsTakenIs();
      if Seeks() {
        EmptyApart(d.s, blocks, ends);
      }
      OnlyOne(Stored([]));
      if enc.level == 0 {
        OnlyStoredMore(blocks, EmptyFixedBlocks(two));
      }
      if !enc.fixedOnly {
        EmptyWorth(blocks, MaxDist(), two);
      }
      blocks, held := blocks + EmptyFixedBlocks(two), held + HeldAligned(h, |sent|, two);
      slack := slack + 34;
      RunsTakenIs();
      CapacityIs();
      LogIs();
      AllSentIs();
      SentPaused();
    }

    lemma LogIs()
      ensures Log() <==> Logged(blocks, held, enc.litBufsize, enc.fixedOnly, overrun)
                         && (enc.level == 0 ==> OnlyStored(blocks))
                         && (!enc.fixedOnly ==> AllWorth(blocks, MaxDist()))
    {
      hide Logged;
    }

    /** A full flush: what comes later stands on its own. */
    method StartAfresh()
      requires Paused(0) && enc.tokens == [] && d.lookahead == 0 && enc.q.biValid == 0
      modifies this`origin, this`first, this`skip, d.head, d`ins
      ensures Paused(0) && origin == |d.s| && first == |blocks| && forall h :: 0 <= h < d.head.Length ==> d.head[h] == 0
    {
      hide *;
      PausedSent();
      DictFacts();
      ApartIs();
      AllSentIs();
      SettledIs(header, d.s, blocks, d.base + d.strstart, Far(), origin, first, skip, enc.q.Sent(), !overrun);
      ghost var n: nat := 0;
      if !overrun {
        n := MarkHere();
      }
      SettledHere(header, d.s, blocks, Far(), origin, first, skip, enc.q.Sent(), !overrun, n);
      d.ClearHash();
      origin, first, skip := |d.s|, |blocks|, n;
      NoneIn();
      AllSentIs();
      SentPaused();
    }

    lemma ApartIs()
      requires Settings()
      ensures d.head != enc.lfc && d.head != enc.ldl && d.head != enc.dfc && d.head != enc.ddl && d.head != enc.bfc
      ensures d.head != enc.bdl
      ensures d.prev != enc.lfc && d.prev != enc.ldl && d.prev != enc.dfc && d.prev != enc.ddl && d.prev != enc.bfc
      ensures d.prev != enc.bdl
    {
    }

    lemma NoneIn()
      requires d.ins == {}
      ensures Recent()
    {
    }

    /** With no bits held back the blocks so far are whole bytes. */
    lemma MarkHere() returns (n: nat)
      requires enc.q.Valid() && Told(header, blocks, first, skip, enc.q.Sent()) && enc.q.biValid == 0
      ensures Told(header, blocks, |blocks|, n, enc.q.Sent())
    {
      hide BlockOk, SentBits, BytesBits, Queue.Bytes;
      NoBits(enc.q.biBuf);
      n := WholeBytes(enc.q.Bytes(), header, SentBits(blocks));
      assert blocks[..|blocks|] == blocks;
    }

    // ---------- deflate_stored ----------

    /** max_block_size: what the count of a stored block and pending_buf can hold. */
    function MaxBlock(): (r: int)
      ensures r <= 0xffff && (128 <= enc.litBufsize ==> r >= 507) && (r == 0xffff || r == 4 * enc.litBufsize - 5)
    {
      if 0xffff > 4 * enc.litBufsize - 5 then 4 * enc.litBufsize - 5 else 0xffff
    }

    lemma MaxBlockIs()
      ensures MaxBlock() <= 4 * enc.litBufsize - 5
    {
    }

    /** How long the current block is at level 0. */
    function Copied(): nat
      reads d`strstart, d`blockStart
    {
      if d.blockStart <= d.strstart then d.strstart - d.blockStart else 0
    }

    /** Nothing is tallied, and the current block is all in the window and need not be sent yet. */
    ghost predicate Storing()
      reads d`strstart, d`blockStart, enc`tokens
    {
      && enc.level == 0 && enc.tokens == [] && 0 <= d.blockStart <= d.strstart
      && Copied() < MaxDist() && Copied() < MaxBlock()
    }

    lemma StoringIs()
      ensures Storing() <==> enc.level == 0 && enc.tokens == [] && 0 <= d.blockStart <= d.strstart
                             && Copied() < MaxDist() && Copied() < MaxBlock()
      ensures d.blockStart <= d.strstart ==> Copied() == d.strstart - d.blockStart
      ensures MaxDist() == d.wsize - MIN_LOOKAHEAD
    {
    }

    /** fill_window keeps the whole of the current block: it would have been sent before it had to be slid out. */
    method RefillStored()
      requires Turn(Copied()) && d.Shapes() && Storing() && d.lookahead <= 1
      modifies d.window, d.head, d.prev, d`base, d`strstart, d`lookahead, d`matchStart, d`blockStart, d`nextIn, d`s,
               d`insH, d`adler
      ensures Turn(Copied()) && Storing() && old(d.nextIn) <= d.nextIn <= |d.input|
      ensures d.s == old(d.s) + d.input[old(d.nextIn)..d.nextIn]
      ensures d.lookahead == old(d.lookahead) + d.nextIn - old(d.nextIn)
      ensures d.lookahead == 0 ==> d.nextIn == |d.input|
    {
      hide *;
      LongestMatch.Sizes();
      TurnFacts(Copied());
      StoringIs();
      Refill(0, Copied());
      StoringIs();
    }

    /** Send the current block, which is not small, and deliver what there is room for. */
    method FlushStored() returns (out: seq<byte>)
      requires Settings() && d.Valid() && d.matchStart < UINT && Sending() && Recent() && enc.level == 0
      requires enc.tokens == [] && 0 <= d.blockStart <= d.strstart && 127 <= Copied() <= MaxBlock()
      requires UpTo(d.base + d.blockStart) && enc.q.Ready() && enc.q.pending == 0 && availOut > 0
      requires 507 <= MaxBlock() < 0x10000 && 0 < MaxDist()
      modifies this`availOut, this`overrun, this`blocks, this`held, this`slack, this`finished, d`blockStart,
               enc`tokens, enc`optLen, enc`staticLen, enc`lastEobLen, enc.q, enc.lfc, enc.ldl, enc.dfc, enc.ddl,
               enc.bfc, enc.bdl
      ensures Storing() && Copied() == 0 && Paused(0) && (availOut > 0 ==> Turn(0))
      ensures enc.q.delivered == old(enc.q.delivered) + out && |out| + availOut == old(availOut)
      ensures slack == old(slack)
    {
      hide *;
      StoringIs();
      DictFacts();
      CostIs();
      NotThin();
      out := FlushBlockOnly(false);
      RoomAgain();
      MakePaused(0);
      if availOut > 0 {
        MakeTurn(0);
      }
      StoringIs();
    }

    lemma NotThin()
      ensures Copied() >= 127 ==> Thin(Copied()) == 0
    {
    }

    /**
     Go on over all that is ahead, but send the block when it would be too long or when it might have
     to be slid out of the window.
     */
    method StoredTurn() returns (out: seq<byte>)
      requires Turn(Copied()) && Storing() && d.lookahead >= 1
      modifies this`availOut, this`overrun, this`blocks, this`held, this`slack, this`finished, d, enc, enc.q, enc.lfc,
               enc.ldl, enc.dfc, enc.ddl, enc.bfc, enc.bdl
      ensures Storing() && Paused(Copied()) && (availOut > 0 ==> Turn(Copied()))
      ensures d.lookahead < old(d.lookahead) && d.s == old(d.s) && d.input == old(d.input) && d.nextIn == old(d.nextIn)
      ensures enc.q.delivered == old(enc.q.delivered) + out && |out| + availOut == old(availOut)
      ensures slack == old(slack)
    {
      hide *;
      LongestMatch.Sizes();
      TurnFacts(Copied());
      SettingsAre();
      StoringIs();
      out := [];
      var cut := d.TakeAll(d.blockStart + MaxBlock());
      StoringIs();
      if cut {
        out := FlushStored();
        if availOut == 0 {
          return;
        }
        StoringIs();
        TurnFacts(0);
      }
      if d.strstart - d.blockStart >= MaxDist() {
        var o := FlushStored();
        out := out + o;
        return;
      }
      StoringIs();
      MakePaused(Copied());
      if availOut > 0 {
        MakeTurn(Copied());
      }
    }

    /** A turn of the loop of deflate_stored, with the filling before it. */
    method StoredStep(flush: Flush) returns (what: Outcome, out: seq<byte>)
      requires Turn(Copied()) && Storing()
      modifies this`availOut, this`overrun, this`blocks, this`held, this`slack, this`finished, d, d.window, d.head,
               d.prev, enc, enc.q, enc.lfc, enc.ldl, enc.dfc, enc.ddl, enc.bfc, enc.bdl
      ensures Storing() && enc.q.delivered == old(enc.q.delivered) + out && |out| + availOut == old(availOut)
      ensures d.input == old(d.input) && old(d.nextIn) <= d.nextIn <= |d.input|
      ensures d.s == old(d.s) + d.input[old(d.nextIn)..d.nextIn]
      ensures what == GO_ON ==>
                && Turn(Copied())
                && |d.input| - d.nextIn + d.lookahead < |old(d.input)| - old(d.nextIn) + old(d.lookahead)
      ensures what == LEAVE ==> Paused(Copied()) && (availOut > 0 ==> flush == Z_NO_FLUSH && d.nextIn == |d.input|)
      ensures what == LEAVE && availOut > 0 ==> enc.q.Ready() && enc.q.pending == 0
      ensures what == NO_MORE ==> Turn(Copied()) && d.lookahead == 0 && d.nextIn == |d.input|
      ensures slack == old(slack)
    {
      hide *;
      TurnFacts(Copied());
      out := [];
      ReadNone(d.s, d.input, d.nextIn);
      if d.lookahead <= 1 {
        RefillStored();
        TurnFacts(Copied());
        if d.lookahead == 0 && flush == Z_NO_FLUSH {
          what := LEAVE;
          PauseTurn(Copied());
          return;
        }
        if d.lookahead == 0 {
          what := NO_MORE;
          return;
        }
      }
      out := StoredTurn();
      what := if availOut == 0 then LEAVE else GO_ON;
    }

    /** deflate_stored. */
    method DeflateStored(flush: Flush) returns (state: BlockState, out: seq<byte>)
      requires Turn(Copied()) && Storing()
      modifies this`availOut, this`overrun, this`blocks, this`held, this`slack, this`finished, d, d.window, d.head,
               d.prev, enc, enc.q, enc.lfc, enc.ldl, enc.dfc, enc.ddl, enc.bfc, enc.bdl
      ensures if state in {FINISH_STARTED, FINISH_DONE}
              then Ended() && flush == Z_FINISH
              else Storing() && Paused(Copied())
      ensures (availOut > 0 ==> enc.q.Ready() && enc.q.pending == 0)
      ensures (state in {BLOCK_DONE, FINISH_DONE} ==> availOut > 0 && enc.q.pending == 0)
      ensures (state == BLOCK_DONE ==> enc.tokens == [] && d.blockStart == d.strstart && flush != Z_FINISH)
      ensures (state == BLOCK_DONE ==> enc.q.biValid == 0)
      ensures state in {BLOCK_DONE, FINISH_STARTED, FINISH_DONE} ==> d.lookahead == 0 && d.nextIn == |d.input|
      ensures state in {FINISH_STARTED, NEED_MORE} && flush != Z_NO_FLUSH ==> availOut == 0
      ensures availOut > 0 ==> d.nextIn == |d.input|
      ensures enc.q.delivered == old(enc.q.delivered) + out && |out| + availOut == old(availOut)
      ensures slack <= old(slack) + LastCost()
      ensures d.input == old(d.input) && old(d.nextIn) <= d.nextIn <= |d.input|
      ensures d.s == old(d.s) + d.input[old(d.nextIn)..d.nextIn]
    {
      hide *;
      out := [];
      TurnFacts(Copied());
      ghost var s0, n0 := d.s, d.nextIn;
      ReadNone(s0, d.input, n0);
      var what := GO_ON;
      while what == GO_ON
        invariant (what == GO_ON ==> Turn(Copied())) && Storing() && d.input == old(d.input)
        invariant what == LEAVE ==> Paused(Copied()) && (availOut > 0 ==> flush == Z_NO_FLUSH && d.nextIn == |d.input|)
        invariant what == LEAVE && availOut > 0 ==> enc.q.Ready() && enc.q.pending == 0
        invariant what == NO_MORE ==> Turn(Copied()) && d.lookahead == 0 && d.nextIn == |d.input|
        invariant n0 <= d.nextIn <= |d.input| && d.s == s0 + d.input[n0..d.nextIn]
        invariant enc.q.delivered == old(enc.q.delivered) + out && |out| + availOut == old(availOut)
        invariant slack == old(slack)
        decreases what == GO_ON, |d.input| - d.nextIn + d.lookahead
      {
        hide *;
        ghost var k := d.nextIn;
        var o;
        what, o := StoredStep(flush);
        ReadOn(s0, d.input, n0, k, d.nextIn);
        PutOn(old(enc.q.delivered), out, o);
        out := out + o;
      }
      if what == LEAVE {
        state := NEED_MORE;
      } else {
        var o;
        state, o := StoredEnd(flush);
        PutOn(old(enc.q.delivered), out, o);
        out := out + o;
      }
    }

    /** The end of deflate_stored. */
    method StoredEnd(flush: Flush) returns (state: BlockState, out: seq<byte>)
      requires Turn(Copied()) && Storing() && d.lookahead == 0 && d.nextIn == |d.input|
      modifies this`availOut, this`overrun, this`blocks, this`held, this`slack, this`finished, d`blockStart,
               enc`tokens, enc`optLen, enc`staticLen, enc`lastEobLen, enc.q, enc.lfc, enc.ldl, enc.dfc, enc.ddl,
               enc.bfc, enc.bdl
      ensures if state in {FINISH_STARTED, FINISH_DONE}
              then Ended() && flush == Z_FINISH
              else Storing() && Copied() == 0 && Paused(0) && flush != Z_FINISH
      ensures (availOut > 0 ==> enc.q.Ready() && enc.q.pending == 0)
      ensures (state in {BLOCK_DONE, FINISH_DONE} ==> availOut > 0 && enc.q.pending == 0)
      ensures (state == BLOCK_DONE ==> enc.tokens == [] && d.blockStart == d.strstart && enc.q.biValid == 0)
      ensures state in {FINISH_STARTED, NEED_MORE} ==> availOut == 0
      ensures enc.q.delivered == old(enc.q.delivered) + out && |out| + availOut == old(availOut)
      ensures slack <= old(slack) + LastCost()
    {
      hide *;
      LongestMatch.Sizes();
      TurnFacts(Copied());
      SettingsAre();
      StoringIs();
      state, out := LastFlush(flush);
      StoringIs();
    }

    // ---------- deflate_slow ----------

    /** The distance of a match that starts one byte before the current one. */
    ghost function Back1(start: nat): nat
      reads d`strstart
    {
      Sub32(d.strstart - 1, start)
    }

    /** A match of `len` bytes at the byte before the current one. */
    ghost predicate Held(start: nat, len: nat)
      reads this`origin, d`strstart, d`base, d`s
    {
      HeldAt(d.s, d.base + d.strstart, Back1(start), len, Far(), origin)
    }

    /** What the lazy evaluation keeps from turn to turn. */
    ghost predicate Lazy()
      reads this`matchLength, this`matchAvailable, this`origin, d`strstart, d`base, d`s, d`matchStart
    {
      && 1 <= matchLength <= MAX_MATCH && (matchAvailable ==> d.strstart >= 1)
      && (matchLength >= MIN_MATCH ==> matchAvailable && Held(d.matchStart, matchLength))
    }

    /** How many bytes are held back. */
    function HeldBack(): nat
      reads this`matchAvailable
    {
      if matchAvailable then 1 else 0
    }

    /** Remember the match of the previous turn and look for a better one here. */
    method LazySearch(hashHead: nat)
      requires Settings() && enc.level > 0 && d.Entered() && d.strstart + MIN_LOOKAHEAD <= 2 * d.wsize
      requires FreshHead(hashHead)
      requires d.lookahead >= 1
      requires 1 <= matchLength <= MAX_MATCH && d.matchStart < UINT
      modifies this`prevLength, this`prevMatch, this`matchLength, d`matchStart
      ensures prevLength == old(matchLength) && prevMatch == old(d.matchStart) && d.Entered() && d.matchStart < UINT
      ensures 1 <= matchLength <= MAX_MATCH
      ensures matchLength >= MIN_MATCH && matchLength > prevLength ==>
                matchLength <= d.lookahead && GoodMatch(matchLength)
      ensures prevLength < config.maxLazy ==>
                Thorough(d.bits, d.s, d.ins, d.base, d.base + d.strstart, Far(), Chain(prevLength), config.niceMatch,
                    matchLength, Waived(d.strstart))
      ensures prevLength >= config.maxLazy ==> matchLength == MIN_MATCH - 1
    {
      hide Dict.Entered, Dict.Text, FreshHead, MatchAt, Settings, Sub32, Thorough, GoodMatch, Waived;
      SettingsAre();
      prevLength, prevMatch := matchLength, d.matchStart;
      matchLength := MIN_MATCH - 1;
      if hashHead != 0 && prevLength < config.maxLazy {
        var searched, len := FindMatch(hashHead, prevLength);
        if searched {
          matchLength := len;
        }
        if matchLength <= 5 && (strategy == FILTERED || (matchLength == MIN_MATCH && Sub32(d.strstart,
            d.matchStart) > TOO_FAR)) {
          matchLength := MIN_MATCH - 1;
        }
        WaivedIs(d.strstart);
        ThoroughMore(d.bits, d.s, d.ins, d.base, d.base + d.strstart, Far(), Chain(prevLength), config.niceMatch,
            if searched then len else 0, matchLength, Waived(d.strstart));
      } else if hashHead == 0 {
        NoHead();
        NoneFound(d, 0, Far(), Chain(prevLength), config.niceMatch, 0);
        ThoroughMore(d.bits, d.s, d.ins, d.base, d.base + d.strstart, Far(), Chain(prevLength), config.niceMatch, 0,
            matchLength, Waived(d.strstart));
      }
    }

    /** Short matches may be dropped: with Z_FILTERED up to 5 bytes, and 3 bytes from far back. */
    ghost function Waived(at: nat): nat
      reads this`matchLength, d`matchStart
    {
      if matchLength >= MIN_MATCH then 0
      else if strategy == FILTERED then 5
      else if Sub32(at, d.matchStart) > TOO_FAR then MIN_MATCH else 0
    }

    lemma WaivedIs(at: nat)
      ensures Waived(at) == if matchLength >= MIN_MATCH then 0 else if strategy == FILTERED then 5
                            else if Sub32(at, d.matchStart) > 4096 then 3 else 0
    {
    }

    lemma NoHead()
      requires d.Entered() && FreshHead(0)
      ensures Searching(d) || d.strstart + MIN_LOOKAHEAD > 2 * d.wsize
      ensures Head(d, 0) && Far() <= d.wsize - MIN_LOOKAHEAD
    {
      hide HashAt, Slot, Dict.ChainsAt, Dict.RollsAt, Dict.Text;
    }

    /** The previous match is at least as good: tally it and move on past it. */
    method TakeHeld(hashHead0: nat) returns (hashHead: nat, bflush: bool)
      requires Settings() && enc.level > 0 && d.Entered() && Sending() && Recent() && d.strstart >= 1
      requires UpTo(d.base + d.strstart - 1)
      requires Room()
      requires MIN_MATCH <= prevLength <= MAX_MATCH && Held(prevMatch, prevLength)
      modifies this`prevLength, this`matchLength, this`matchAvailable, d`strstart, d`lookahead, d`insH, d`ins, d.head,
               d.prev, enc`tokens, enc.lfc, enc.dfc
      ensures d.Valid() && Sending() && Recent() && UpTo(d.base + d.strstart) && !matchAvailable
      ensures matchLength == MIN_MATCH - 1 && (bflush <==> !Room())
      ensures d.lookahead < old(d.lookahead) && d.strstart == old(d.strstart) + old(prevLength) - 1
      ensures (old(HeadOk(hashHead0)) ==> HeadOk(hashHead))
      ensures old(d.ins) <= d.ins && !LastLit(enc.tokens)
      ensures AllWhole(d.ins, d.s, old(d.base + d.strstart) + 1, d.base + d.strstart)
    {
      hide *;
      Sizes();
      EnteredFacts();
      BlockBefore(d.base + d.strstart - 1);
      HeldGives();
      ghost var ts, t := enc.tokens, Token(Sub32(d.strstart - 1, prevMatch), prevLength - MIN_MATCH);
      bflush := TallyDist(Sub32(d.strstart - 1, prevMatch), prevLength, d.base + d.strstart - 1);
      AddsOne(ts, t);
      AddsLast(ts, enc.tokens, prevLength);
      hashHead := PassHeld(prevLength - 1, hashHead0);
      prevLength := 0;
      matchAvailable := false;
      matchLength := MIN_MATCH - 1;
    }

    lemma HeldGives()
      requires d.Entered() && d.strstart >= 1 && prevLength >= MIN_MATCH && Held(prevMatch, prevLength)
      ensures var dist := Sub32(d.strstart - 1, prevMatch);
              && 1 <= dist <= Far() && dist <= d.base + d.strstart - 1 - origin
              && d.base + d.strstart - 1 + prevLength <= |d.s| && prevLength - 1 <= d.lookahead
              && Repeats(d.s, d.base + d.strstart - 1, dist, prevLength)
    {
      hide Repeats, Sub32, Dict.ChainsAt, Dict.RollsAt;
    }

    /** Move on past a match held back, inserting all its strings. */
    method PassHeld(n: nat, hashHead0: nat) returns (hashHead: nat)
      requires Settings() && d.Entered() && Sending() && Recent() && origin <= d.base + d.strstart
      requires 2 <= n <= d.lookahead && d.strstart >= 1
      modifies d`strstart, d`lookahead, d`insH, d`ins, d.head, d.prev
      ensures d.Valid() && Sending() && Recent() && (old(HeadOk(hashHead0)) ==> HeadOk(hashHead))
      ensures d.strstart == old(d.strstart) + n && d.lookahead == old(d.lookahead) - n && old(d.ins) <= d.ins
      ensures AllWhole(d.ins, d.s, old(d.base + d.strstart) + 1, d.base + d.strstart)
    {
      hide Encoder.Valid, Queue.Sent, Queue.Valid, Dict.ChainsAt, Dict.RollsAt, Pow2, HashSize, Slot, BlockOk,
           SentBits, BytesBits, Marked, Told, Logged, Dict.Valid, Dict.Text, AdlerOf;
      hashHead := d.AdvanceLazy(n, hashHead0);
    }

    /** The literal held back is output, because there was no match or a better one follows. */
    method PutHeldLiteral(ghost hashHead: nat) returns (out: seq<byte>)
      requires Settings() && enc.level > 0 && d.Entered() && Sending() && d.strstart >= 1
      requires UpTo(d.base + d.strstart - 1) && Room()
      requires enc.q.Ready() && enc.q.pending == 0 && availOut > 0
      requires LitMay(d.base + d.strstart - 1) && d.lookahead >= 1 && d.strstart + MIN_LOOKAHEAD <= 2 * d.wsize
      requires HeadOk(hashHead)
      modifies this`availOut, this`overrun, this`blocks, this`held, this`slack, this`finished, d`strstart,
               d`lookahead, d`blockStart, enc, enc.q, enc.lfc, enc.ldl, enc.dfc, enc.ddl, enc.bfc, enc.bdl
      ensures d.strstart == old(d.strstart) + 1 && d.lookahead == old(d.lookahead) - 1
      ensures d.Valid() && Sending() && UpTo(d.base + d.strstart - 1) && Room()
      ensures (availOut > 0 ==> enc.q.Ready() && enc.q.pending == 0)
      ensures HeadOk(hashHead)
      ensures enc.q.delivered == old(enc.q.delivered) + out && |out| + availOut == old(availOut)
      ensures slack == old(slack)
    {
      hide *;
      Sizes();
      EnteredFacts();
      var bflush := TallyLit(d.window[d.strstart - 1], d.base + d.strstart - 1);
      EnteredFacts();
      out := FlushFull(bflush);
      d.Advance();
    }

    /** Tally the match held back, and flush if need be. */
    method TakeHeldAndFlush(hashHead0: nat) returns (hashHead: nat, out: seq<byte>)
      requires Settings() && enc.level > 0 && d.Entered() && Sending() && Recent() && d.strstart >= 1
      requires UpTo(d.base + d.strstart - 1)
      requires Room() && enc.q.Ready() && enc.q.pending == 0 && availOut > 0
      requires MIN_MATCH <= prevLength <= MAX_MATCH && Held(prevMatch, prevLength) && HeadOk(hashHead0)
      requires d.strstart + MIN_LOOKAHEAD <= 2 * d.wsize
      modifies this`prevLength, this`matchLength, this`matchAvailable, this`availOut, this`overrun, this`blocks,
               this`held, this`slack, this`finished, d`strstart, d`lookahead, d`insH, d`ins, d`blockStart, d.head,
               d.prev, enc, enc.q, enc.lfc, enc.ldl, enc.dfc, enc.ddl, enc.bfc, enc.bdl
      ensures d.Valid() && Sending() && Recent() && UpTo(d.base + d.strstart) && Room()
      ensures (availOut > 0 ==> enc.q.Ready() && enc.q.pending == 0) && HeadOk(hashHead)
      ensures !matchAvailable && matchLength == MIN_MATCH - 1 && d.lookahead < old(d.lookahead)
      ensures d.strstart == old(d.strstart) + old(prevLength) - 1 && old(d.ins) <= d.ins
      ensures !LastLit(enc.tokens)
      ensures AllWhole(d.ins, d.s, old(d.base + d.strstart) + 1, d.base + d.strstart)
      ensures enc.q.delivered == old(enc.q.delivered) + out && |out| + availOut == old(availOut)
      ensures slack == old(slack)
    {
      hide *;
      Sizes();
      EnteredFacts();
      var bflush;
      hashHead, bflush := TakeHeld(hashHead0);
      DictFacts();
      NoLit();
      out := FlushFull(bflush);
    }

    /** Go on by one byte, holding the current one back; the one held back before is output. */
    method HoldBack(ghost hashHead: nat) returns (out: seq<byte>)
      requires Settings() && enc.level > 0 && d.Entered() && Sending() && Recent() && d.base + d.strstart >= HeldBack()
      requires UpTo(d.base + d.strstart - HeldBack()) && Room() && enc.q.Ready() && enc.q.pending == 0
      requires availOut > 0 && d.lookahead >= 1 && d.strstart + MIN_LOOKAHEAD <= 2 * d.wsize && HeadOk(hashHead)
      requires (matchAvailable ==> d.strstart >= 1) && LitsMay() && Seen(d.ins, d.base + d.strstart + 1)
      requires 1 <= matchLength <= MAX_MATCH
      requires (matchLength >= MIN_MATCH ==> matchLength <= d.lookahead && GoodMatch(matchLength))
      modifies this`matchAvailable, this`availOut, this`overrun, this`blocks, this`held, this`slack, this`finished,
               d`strstart, d`lookahead, d`blockStart, enc, enc.q, enc.lfc, enc.ldl, enc.dfc, enc.ddl, enc.bfc, enc.bdl
      ensures d.strstart == old(d.strstart) + 1 && d.lookahead == old(d.lookahead) - 1 && matchAvailable && Lazy()
      ensures d.Valid() && Sending() && Recent() && UpTo(d.base + d.strstart - 1) && Room()
      ensures (availOut > 0 ==> enc.q.Ready() && enc.q.pending == 0) && HeadOk(hashHead)
      ensures enc.q.delivered == old(enc.q.delivered) + out && |out| + availOut == old(availOut)
      ensures slack == old(slack)
      ensures Steady()
    {
      hide *;
      Sizes();
      EnteredFacts();
      HeldBackIs();
      ghost var p: nat := d.strstart;
      LitsMayIs();
      if matchLength >= MIN_MATCH {
        MatchGives();
      }
      if matchAvailable {
        out := PutHeldLiteral(hashHead);
      } else {
        matchAvailable := true;
        d.Advance();
        out := [];
      }
      if matchLength >= MIN_MATCH {
        MatchIsHeld(d.matchStart, matchLength, p);
      }
      MakeLazy();
      SteadyIs();
    }

    lemma HeldBackIs()
      ensures HeldBack() == if matchAvailable then 1 else 0
    {
    }

    lemma MakeLazy()
      requires 1 <= matchLength <= MAX_MATCH && (matchAvailable ==> d.strstart >= 1)
      requires matchLength >= MIN_MATCH ==> matchAvailable && Held(d.matchStart, matchLength)
      ensures Lazy()
    {
      hide Held;
    }

    lemma MatchGives()
      requires GoodMatch(matchLength)
      ensures d.matchStart < d.strstart && d.strstart - d.matchStart <= Far()
      ensures Recent() ==> origin <= d.base + d.matchStart
      ensures Repeats(d.s, d.base + d.strstart, d.strstart - d.matchStart, matchLength)
    {
      hide Repeats;
    }

    /** One turn of deflate_slow after the window has been filled. */
    method SlowTurn(hashHead0: nat) returns (hashHead: nat, out: seq<byte>)
      requires enc.level > 0 && Turn(HeldBack()) && d.Shapes() && HeadOk(hashHead0) && Lazy()
      requires Steady() && Short()
      requires d.strstart + MIN_LOOKAHEAD <= 2 * d.wsize && d.lookahead >= 1
      modifies this`matchLength, this`prevLength, this`prevMatch, this`matchAvailable, this`availOut, this`overrun,
               this`blocks, this`held, this`slack, this`finished, d`strstart, d`lookahead, d`insH, d`ins,
               d`matchStart, d`blockStart, d.head, d.prev, enc, enc.q, enc.lfc, enc.ldl, enc.dfc, enc.ddl, enc.bfc,
               enc.bdl
      ensures Lazy() && Steady() && Paused(HeldBack()) && HeadOk(hashHead) && (availOut > 0 ==> Turn(HeldBack()))
      ensures d.lookahead < old(d.lookahead) && d.strstart > old(d.strstart)
      ensures LazyTurn(old(d.ins), old(d.base + d.strstart), old(matchLength), d.strstart - old(d.strstart),
          old(d.strstart))
      ensures enc.q.delivered == old(enc.q.delivered) + out && |out| + availOut == old(availOut)
      ensures slack == old(slack)
    {
      hide *;
      Sizes();
      TurnFacts(HeldBack());
      LazyFacts();
      HeldBackIs();
      BlockBefore(d.base + d.strstart - HeldBack());
      hashHead := SlowFind(hashHead0);
      hashHead, out := SlowTake(hashHead, old(d.ins));
      HeldBackIs();
      MakePaused(HeldBack());
      if availOut > 0 {
        MakeTurn(HeldBack());
      }
    }

    /** The part of the turn that takes the match held back or goes on by a byte. */
    method SlowTake(hashHead0: nat, ghost ins0: set<nat>) returns (hashHead: nat, out: seq<byte>)
      requires Settings() && enc.level > 0 && d.Entered() && Sending() && Recent() && d.base + d.strstart >= HeldBack()
      requires UpTo(d.base + d.strstart - HeldBack()) && Room() && enc.q.Ready() && enc.q.pending == 0
      requires availOut > 0 && d.lookahead >= 1 && d.strstart + MIN_LOOKAHEAD <= 2 * d.wsize && HeadOk(hashHead0)
      requires (matchAvailable ==> d.strstart >= 1) && 1 <= matchLength <= MAX_MATCH && prevLength <= MAX_MATCH
      requires d.ins == ins0 + (if d.lookahead >= MIN_MATCH then {d.base + d.strstart} else {}) && d.matchStart < UINT
      requires prevLength >= MIN_MATCH ==> matchAvailable && Held(prevMatch, prevLength)
      requires matchLength >= MIN_MATCH && matchLength > prevLength ==>
                 matchLength <= d.lookahead && GoodMatch(matchLength)
      requires Sought(ins0, d.base + d.strstart, d.strstart) && Seen(d.ins, d.base + d.strstart + 1)
      requires !(prevLength >= MIN_MATCH && matchLength <= prevLength) ==> LitsMay()
      modifies this`matchLength, this`prevLength, this`matchAvailable, this`availOut, this`overrun, this`blocks,
               this`held, this`slack, this`finished, d`strstart, d`lookahead, d`insH, d`ins, d`blockStart, d.head,
               d.prev, enc, enc.q, enc.lfc, enc.ldl, enc.dfc, enc.ddl, enc.bfc, enc.bdl
      ensures Lazy() && Steady() && HeadOk(hashHead) && d.base + d.strstart >= HeldBack()
      ensures d.Valid() && Sending() && Recent() && UpTo(d.base + d.strstart - HeldBack()) && Room()
      ensures (availOut > 0 ==> enc.q.Ready() && enc.q.pending == 0)
      ensures d.lookahead < old(d.lookahead) && d.strstart > old(d.strstart)
      ensures LazyTurn(ins0, old(d.base + d.strstart), old(prevLength), d.strstart - old(d.strstart), old(d.strstart))
      ensures ins0 <= d.ins && AllWhole(d.ins, d.s, old(d.base + d.strstart), d.base + d.strstart)
      ensures enc.q.delivered == old(enc.q.delivered) + out && |out| + availOut == old(availOut)
      ensures slack == old(slack)
    {
      hide *;
      Sizes();
      HeldBackIs();
      EnteredFacts();
      ghost var p, at, m := d.base + d.strstart, d.strstart, prevLength;
      SoughtIs(ins0, p, at);
      if prevLength >= MIN_MATCH && matchLength <= prevLength {
        hashHead, out := TakeHeldAndFlush(hashHead0);
        MakeLazy();
        SteadyIs();
      } else {
        hashHead := hashHead0;
        out := HoldBack(hashHead);
      }
      LazyTurnIs(ins0, p, m, d.strstart - at, at);
      FromHere(d.ins, d.s, p, d.base + d.strstart);
      HeldBackIs();
    }

    /** The part of the turn that looks for a match. */
    method SlowFind(hashHead0: nat) returns (hashHead: nat)
      requires Settings() && enc.level > 0 && d.Valid() && HeadOk(hashHead0) && d.strstart < 0x10000 && Recent()
      requires Sending() && d.matchStart < UINT && d.strstart + MIN_LOOKAHEAD <= 2 * d.wsize && d.lookahead >= 1
      requires origin <= d.base + d.strstart && 1 <= matchLength <= MAX_MATCH
      requires Steady() && Short()
      modifies this`prevLength, this`prevMatch, this`matchLength, d`insH, d`ins, d`matchStart, d.head, d.prev
      ensures d.Entered() && HeadOk(hashHead) && Recent() && Sending() && d.matchStart < UINT
      ensures prevLength == old(matchLength) && prevMatch == old(d.matchStart) && 1 <= matchLength <= MAX_MATCH
      ensures matchLength >= MIN_MATCH && matchLength > prevLength ==>
                matchLength <= d.lookahead && GoodMatch(matchLength)
      ensures d.ins == old(d.ins) + if d.lookahead >= MIN_MATCH then {d.base + d.strstart} else {}
      ensures Sought(old(d.ins), d.base + d.strstart, d.strstart)
      ensures Seen(d.ins, d.base + d.strstart + 1)
      ensures !(prevLength >= MIN_MATCH && matchLength <= prevLength) ==> LitsMay()
    {
      hide *;
      Sizes();
      SettingsAre();
      ghost var ins0, p := d.ins, d.base + d.strstart;
      SteadyIs();
      NotFirst();
      ShortIs();
      hashHead := EnterString(hashHead0);
      SeenNext(d.ins, p, d.lookahead, |d.s|);
      LazySearch(hashHead);
      LazyFound(ins0, p);
      SoughtIs(ins0, p, d.strstart);
      if !(prevLength >= MIN_MATCH && matchLength <= prevLength) {
        MayBoth(ins0, p);
      }
    }

    /** The byte held back may go out as a literal, and the current one may be held back after it. */
    ghost predicate LitsMay()
      reads this`ends, this`matchAvailable, this`matchLength, enc`tokens, d`base, d`strstart, d`s
    {
      if matchAvailable
      then && (d.base + d.strstart >= 1 ==> LitMay(d.base + d.strstart - 1))
           && (Seeks() ==> RunEnds(d.s, d.base + d.strstart, ends) || matchLength == MAX_MATCH)
      else Seeks() ==> !LastLit(enc.tokens)
    }

    lemma LitsMayIs()
      ensures LitsMay() <==>
                if matchAvailable
                then && (d.base + d.strstart >= 1 ==> LitMay(d.base + d.strstart - 1))
                     && (Seeks() ==> RunEnds(d.s, d.base + d.strstart, ends) || matchLength == MAX_MATCH)
                else Seeks() ==> !LastLit(enc.tokens)
    {
      hide LitMay, RunEnds;
    }

    /** After a search that has given nothing as good as what is held back. */
    lemma MayBoth(ins: set<nat>, p: nat)
      requires p == d.base + d.strstart && Settings() && enc.level > 0 && Short() && Sought(ins, p, d.strstart)
      requires !(prevLength >= MIN_MATCH && matchLength <= prevLength) && matchLength <= MAX_MATCH
      requires Seeks() ==>
                 if matchAvailable
                 then && Seen(ins, p)
                      && (LastLit(enc.tokens) && p >= 1 ==> RunEnds(d.s, p - 1, ends) || prevLength == MAX_MATCH)
                 else !LastLit(enc.tokens)
      requires |d.s| == p + d.lookahead && d.lookahead >= 1 && (p >= 2 ==> d.base + 1 < p) && 512 <= d.wsize
      ensures LitsMay()
    {
      hide NoneMissed, RunEnds, Short, Seen, Settings, Waived;
      WaivedIs(d.strstart);
      if Seeks() && matchAvailable && matchLength < MAX_MATCH {
        LiteralEnds(ins, p, prevLength, matchLength, Waived(d.strstart));
      }
    }

    /** What the search of a turn of deflate_slow has given: the match held back is as good, or nothing is missed. */
    ghost predicate Sought(ins: set<nat>, p: nat, at: nat)
      reads this`prevLength, this`matchLength, d`matchStart, d`base, d`s
    {
      if prevLength >= MIN_MATCH && matchLength <= prevLength
      then prevLength < config.maxLazy ==>
             NoneMissed(ins, p, prevLength, prevLength, if strategy == FILTERED then 5 else 0)
      else prevLength < config.maxLazy && NoneMissed(ins, p, prevLength, matchLength, Waived(at))
    }

    lemma SoughtIs(ins: set<nat>, p: nat, at: nat)
      ensures Sought(ins, p, at) <==>
                if prevLength >= MIN_MATCH && matchLength <= prevLength
                then prevLength < config.maxLazy ==>
                       NoneMissed(ins, p, prevLength, prevLength, if strategy == FILTERED then 5 else 0)
                else prevLength < config.maxLazy && NoneMissed(ins, p, prevLength, matchLength, Waived(at))
    {
      hide NoneMissed, Waived;
    }

    lemma LazyTurnIs(ins: set<nat>, p: nat, m: nat, passed: int, at: nat)
      ensures LazyTurn(ins, p, m, passed, at) <==>
                if matchAvailable
                then && passed == 1 && m < config.maxLazy && (m >= MIN_MATCH ==> matchLength > m)
                     && NoneMissed(ins, p, m, matchLength, Waived(at))
                else && m >= MIN_MATCH && passed == m - 1
                     && (m < config.maxLazy ==> NoneMissed(ins, p, m, m, if strategy == FILTERED then 5 else 0))
    {
      hide NoneMissed, Waived;
    }

    /** What the search gives for either outcome. */
    lemma LazyFound(ins0: set<nat>, p: nat)
      requires p == d.base + d.strstart && d.ins == ins0 + (if d.lookahead >= MIN_MATCH then {p} else {})
      requires prevLength < config.maxLazy ==>
                 Thorough(d.bits, d.s, d.ins, d.base, p, Far(), Chain(prevLength), config.niceMatch, matchLength,
                     Waived(d.strstart))
      ensures prevLength < config.maxLazy ==> NoneMissed(ins0, p, prevLength, matchLength, Waived(d.strstart))
      ensures prevLength < config.maxLazy && matchLength <= prevLength && prevLength >= MIN_MATCH ==>
                NoneMissed(ins0, p, prevLength, prevLength, if strategy == FILTERED then 5 else 0)
    {
      hide *;
      Sizes();
      WaivedIs(d.strstart);
      ghost var more := if d.lookahead >= MIN_MATCH then {p} else {};
      if prevLength < config.maxLazy {
        var w := Waived(d.strstart);
        ThoroughBefore(d.bits, d.s, ins0, d.base, p, Far(), Chain(prevLength), config.niceMatch, matchLength, w,
            more);
        NoneMissedIs(ins0, p, prevLength, matchLength, w);
        if matchLength <= prevLength && prevLength >= MIN_MATCH {
          ThoroughUp(d.bits, d.s, ins0, d.base, p, Far(), Chain(prevLength), config.niceMatch, matchLength,
              prevLength, w, if strategy == FILTERED then 5 else 0);
          NoneMissedIs(ins0, p, prevLength, prevLength, if strategy == FILTERED then 5 else 0);
        }
      }
    }

    /**
     What a turn of deflate_slow at `p` did: a match of `m` bytes held back is taken unless a longer one
     has been found here; otherwise a byte is passed.  Either way nothing longer was missed, except
     that short matches may be dropped, and that none is looked for when the one held back is long.
     */
    ghost predicate LazyTurn(ins: set<nat>, p: nat, m: nat, passed: int, at: nat)
      reads this`matchAvailable, this`matchLength, d`matchStart, d`base, d`s
    {
      if matchAvailable
      then && passed == 1 && m < config.maxLazy && (m >= MIN_MATCH ==> matchLength > m)
           && NoneMissed(ins, p, m, matchLength, Waived(at))
      else && m >= MIN_MATCH && passed == m - 1
           && (m < config.maxLazy ==> NoneMissed(ins, p, m, m, if strategy == FILTERED then 5 else 0))
    }

    lemma LazyFacts()
      requires Lazy()
      ensures 1 <= matchLength <= MAX_MATCH && (matchAvailable ==> d.strstart >= 1)
      ensures matchLength >= MIN_MATCH ==> matchAvailable && Held(d.matchStart, matchLength)
    {
      hide Held;
    }

    /** fill_window keeps the match held back, whose start may have gone below the window. */
    method RefillLazy(hashHead: nat)
      requires Turn(HeldBack()) && d.Shapes() && d.lookahead < MIN_LOOKAHEAD && HeadOk(hashHead) && Lazy() && Steady()
      modifies d.window, d.head, d.prev, d`base, d`strstart, d`lookahead, d`matchStart, d`blockStart, d`nextIn, d`s,
               d`insH, d`adler
      ensures Turn(HeldBack()) && HeadOk(hashHead) && Lazy() && Steady()
      ensures d.base + d.strstart == old(d.base + d.strstart)
      ensures old(d.nextIn) <= d.nextIn <= |d.input|
      ensures d.s == old(d.s) + d.input[old(d.nextIn)..d.nextIn]
      ensures d.strstart + MIN_LOOKAHEAD <= 2 * d.wsize && d.lookahead == old(d.lookahead) + d.nextIn - old(d.nextIn)
      ensures d.lookahead >= MIN_LOOKAHEAD || d.nextIn == |d.input|
    {
      hide *;
      Sizes();
      TurnFacts(HeldBack());
      LazyFacts();
      SteadyIs();
      SeenIs(d.base + d.strstart);
      ghost var s0, held: nat := d.s, if d.base + d.strstart >= 1 then d.base + d.strstart - 1 else 0;
      if matchLength >= MIN_MATCH {
        HeldIs();
        Refill(hashHead, HeldBack());
        OneBack(old(d.strstart), old(d.matchStart), d.strstart, d.matchStart);
        HeldMore(old(d.s), d.input[old(d.nextIn)..d.nextIn], d.base + d.strstart, Sub32(d.strstart - 1, d.matchStart),
            matchLength, Far(), origin);
        MakeHeld();
      } else {
        Refill(hashHead, HeldBack());
      }
      if RunEnds(s0, held, ends) {
        EndsMore(s0, d.s, held, ends, ends);
      }
      SeenIs(d.base + d.strstart);
      SteadyIs();
      MakeLazy();
    }

    lemma HeldIs()
      requires Held(d.matchStart, matchLength)
      ensures HeldAt(d.s, d.base + d.strstart, Sub32(d.strstart - 1, d.matchStart), matchLength, Far(), origin)
    {
      hide HeldAt, Sub32;
    }

    lemma MakeHeld()
      requires HeldAt(d.s, d.base + d.strstart, Sub32(d.strstart - 1, d.matchStart), matchLength, Far(), origin)
      ensures Held(d.matchStart, matchLength)
    {
      hide HeldAt, Sub32;
    }

    /** A turn of the loop of deflate_slow, with the filling before it. */
    method SlowStep(hashHead0: nat, flush: Flush) returns (what: Outcome, hashHead: nat, out: seq<byte>)
      requires enc.level > 0 && Turn(HeldBack()) && d.Shapes() && HeadOk(hashHead0) && Lazy() && Steady()
      modifies this`matchLength, this`prevLength, this`prevMatch, this`matchAvailable, this`availOut, this`overrun,
               this`blocks, this`held, this`slack, this`ends, this`finished, d, d.window, d.head, d.prev, enc, enc.q,
               enc.lfc, enc.ldl, enc.dfc, enc.ddl, enc.bfc, enc.bdl
      ensures Lazy() && Steady() && Noted(old(ends), flush)
      ensures enc.q.delivered == old(enc.q.delivered) + out && |out| + availOut == old(availOut)
      ensures d.input == old(d.input) && old(d.nextIn) <= d.nextIn <= |d.input|
      ensures d.s == old(d.s) + d.input[old(d.nextIn)..d.nextIn]
      ensures what == GO_ON ==>
                && Turn(HeldBack()) && HeadOk(hashHead)
                && |d.input| - d.nextIn + d.lookahead < |old(d.input)| - old(d.nextIn) + old(d.lookahead)
      ensures d.base <= old(d.base + d.strstart) <= d.base + d.strstart
      ensures d.base + d.strstart > old(d.base + d.strstart) ==>
                LazyTurn(old(d.ins), old(d.base + d.strstart), old(matchLength),
                    d.base + d.strstart - old(d.base + d.strstart), old(d.base + d.strstart) - d.base)
      ensures what == LEAVE ==> Paused(HeldBack()) && (availOut > 0 ==> flush == Z_NO_FLUSH && d.nextIn == |d.input|)
      ensures what == LEAVE && availOut > 0 ==> enc.q.Ready() && enc.q.pending == 0
      ensures what == NO_MORE ==> Turn(HeldBack()) && d.lookahead == 0 && d.nextIn == |d.input| && d.strstart < 0x10000
      ensures slack == old(slack)
    {
      hide *;
      out, hashHead := [], hashHead0;
      if d.lookahead < MIN_LOOKAHEAD {
        what := SlowFill(hashHead0, flush);
        if what != GO_ON {
          PauseTurn(HeldBack());
          return;
        }
      } else {
        Sizes();
        TurnFacts(HeldBack());
        ReadNone(d.s, d.input, d.nextIn);
        ShortIs();
      }
      hashHead, out := SlowTurn(hashHead0);
      NoteKept(old(ends), flush);
      what := if availOut == 0 then LEAVE else GO_ON;
    }

    /** The filling, and what to do then. */
    method SlowFill(hashHead: nat, flush: Flush) returns (what: Outcome)
      requires Turn(HeldBack()) && d.Shapes() && d.lookahead < MIN_LOOKAHEAD && HeadOk(hashHead) && Lazy() && Steady()
      modifies this`ends, d.window, d.head, d.prev, d`base, d`strstart, d`lookahead, d`matchStart, d`blockStart,
               d`nextIn, d`s, d`insH, d`adler
      ensures Turn(HeldBack()) && HeadOk(hashHead) && Lazy() && Steady() && Noted(old(ends), flush)
      ensures d.base + d.strstart == old(d.base + d.strstart) && d.strstart + MIN_LOOKAHEAD <= 2 * d.wsize
      ensures old(d.nextIn) <= d.nextIn <= |d.input| && d.s == old(d.s) + d.input[old(d.nextIn)..d.nextIn]
      ensures d.lookahead == old(d.lookahead) + d.nextIn - old(d.nextIn)
      ensures what == GO_ON ==> d.lookahead >= 1 && Short()
      ensures what == LEAVE ==> flush == Z_NO_FLUSH && d.nextIn == |d.input|
      ensures what == NO_MORE ==> d.lookahead == 0 && d.nextIn == |d.input| && d.strstart < 0x10000
    {
      hide *;
      Sizes();
      TurnFacts(HeldBack());
      RefillLazy(hashHead);
      NotedIs(old(ends), flush);
      what := GO_ON;
      if d.lookahead < MIN_LOOKAHEAD && flush == Z_NO_FLUSH {
        what := LEAVE;
      } else if d.lookahead == 0 {
        what := NO_MORE;
      } else {
        NoteShort(HeldBack());
        NotedIs(old(ends), flush);
      }
    }

    /** At the end of the input the literal held back goes out. */
    method LastLiteral()
      requires enc.level > 0 && Turn(HeldBack()) && Lazy() && Steady() && d.lookahead == 0 && d.nextIn == |d.input|
      requires d.strstart < 0x10000
      modifies this`matchAvailable, enc`tokens, enc.lfc, enc.dfc
      ensures !matchAvailable && Lazy() && Settings() && d.Valid() && d.matchStart < UINT && Sending() && Recent()
      ensures UpTo(d.base + d.strstart) && enc.q.Ready() && enc.q.pending == 0 && availOut > 0
    {
      hide *;
      Sizes();
      TurnFacts(HeldBack());
      LazyFacts();
      HeldBackIs();
      NoneHeld();
      if matchAvailable {
        BeforeIs();
        SteadyIs();
        LitMayIs(d.base + d.strstart - 1);
        var bflush := TallyLit(d.window[d.strstart - 1], d.base + d.strstart - 1);
        matchAvailable := false;
      }
      MakeLazy();
    }

    lemma BeforeIs()
      requires d.Valid() && d.strstart >= 1
      ensures d.strstart <= d.window.Length && d.base + d.strstart - 1 < |d.s|
      ensures d.window[d.strstart - 1] == d.s[d.base + d.strstart - 1]
    {
    }

    /** No match is held back when there is nothing ahead. */
    lemma NoneHeld()
      requires Lazy() && |d.s| == d.base + d.strstart
      ensures matchLength < MIN_MATCH
    {
      hide Repeats, Sub32;
    }

    /** The end of deflate_slow. */
    method SlowEnd(flush: Flush) returns (state: BlockState, out: seq<byte>)
      requires enc.level > 0 && Turn(HeldBack()) && Lazy() && Steady() && d.lookahead == 0 && d.nextIn == |d.input|
      requires d.strstart < 0x10000
      modifies this`matchAvailable, this`availOut, this`overrun, this`blocks, this`held, this`slack, this`finished,
               d`blockStart, enc`tokens, enc`optLen, enc`staticLen, enc`lastEobLen, enc.q, enc.lfc, enc.ldl, enc.dfc,
               enc.ddl, enc.bfc, enc.bdl
      ensures !matchAvailable && Lazy() && Steady()
      ensures if state in {FINISH_STARTED, FINISH_DONE}
              then Ended() && flush == Z_FINISH
              else Paused(HeldBack()) && flush != Z_FINISH
      ensures (availOut > 0 ==> enc.q.Ready() && enc.q.pending == 0)
      ensures (state in {BLOCK_DONE, FINISH_DONE} ==> availOut > 0 && enc.q.pending == 0)
      ensures (state == BLOCK_DONE ==> enc.tokens == [] && d.blockStart == d.strstart)
      ensures state in {FINISH_STARTED, NEED_MORE} ==> availOut == 0
      ensures enc.q.delivered == old(enc.q.delivered) + out && |out| + availOut == old(availOut)
      ensures slack <= old(slack) + LastCost()
    {
      hide *;
      LastLiteral();
      HeldBackIs();
      BlockBefore(d.base + d.strstart);
      state, out := LastFlush(flush);
      SteadyIs();
    }

    /** deflate_slow. */
    method DeflateSlow(flush: Flush) returns (state: BlockState, out: seq<byte>)
      requires enc.level > 0 && Turn(HeldBack()) && Lazy() && Steady()
      modifies this`matchLength, this`prevLength, this`prevMatch, this`matchAvailable, this`availOut, this`overrun,
               this`blocks, this`held, this`slack, this`ends, this`finished, d, d.window, d.head, d.prev, enc, enc.q,
               enc.lfc, enc.ldl, enc.dfc, enc.ddl, enc.bfc, enc.bdl
      ensures Lazy() && Steady() && Noted(old(ends), flush)
      ensures if state in {FINISH_STARTED, FINISH_DONE} then Ended() && flush == Z_FINISH else Paused(HeldBack())
      ensures (availOut > 0 ==> enc.q.Ready() && enc.q.pending == 0)
      ensures (state in {BLOCK_DONE, FINISH_DONE} ==> availOut > 0 && enc.q.pending == 0)
      ensures (state == BLOCK_DONE ==> enc.tokens == [] && d.blockStart == d.strstart && flush != Z_FINISH)
      ensures state in {BLOCK_DONE, FINISH_STARTED, FINISH_DONE} ==>
                d.lookahead == 0 && d.nextIn == |d.input| && !matchAvailable
      ensures state in {FINISH_STARTED, NEED_MORE} && flush != Z_NO_FLUSH ==> availOut == 0
      ensures availOut > 0 ==> d.nextIn == |d.input|
      ensures enc.q.delivered == old(enc.q.delivered) + out && |out| + availOut == old(availOut)
      ensures slack <= old(slack) + LastCost()
      ensures d.input == old(d.input) && old(d.nextIn) <= d.nextIn <= |d.input|
      ensures d.s == old(d.s) + d.input[old(d.nextIn)..d.nextIn]
    {
      hide *;
      var hashHead: nat := 0;
      out := [];
      TurnFacts(HeldBack());
      ghost var s0, n0 := d.s, d.nextIn;
      NotedIs(ends, flush);
      ReadNone(s0, d.input, n0);
      var what := GO_ON;
      while what == GO_ON
        invariant (what == GO_ON ==> Turn(HeldBack()) && d.Shapes() && HeadOk(hashHead)) && Lazy() && Steady()
        invariant d.input == old(d.input)
        invariant what == LEAVE ==> Paused(HeldBack())
        invariant what == LEAVE && availOut > 0 ==> flush == Z_NO_FLUSH && d.nextIn == |d.input|
        invariant what == LEAVE && availOut > 0 ==> enc.q.Ready() && enc.q.pending == 0
        invariant what == NO_MORE ==>
                    Turn(HeldBack()) && d.lookahead == 0 && d.nextIn == |d.input| && d.strstart < 0x10000
        invariant n0 <= d.nextIn <= |d.input| && d.s == s0 + d.input[n0..d.nextIn]
        invariant enc.q.delivered == old(enc.q.delivered) + out && |out| + availOut == old(availOut)
        invariant slack == old(slack) && Noted(old(ends), flush)
        decreases what == GO_ON, |d.input| - d.nextIn + d.lookahead
      {
        hide *;
        ghost var k := d.nextIn;
        var o;
        ghost var e := ends;
        NotedIs(old(ends), flush);
        what, hashHead, o := SlowStep(hashHead, flush);
        NotedIs(e, flush);
        NotedIs(old(ends), flush);
        ReadNone(s0, d.input, d.nextIn);
        ReadOn(s0, d.input, n0, k, d.nextIn);
        PutOn(old(enc.q.delivered), out, o);
        out := out + o;
      }
      if what == LEAVE {
        state := NEED_MORE;
      } else {
        var o;
        NotedIs(old(ends), flush);
        state, o := SlowEnd(flush);
        NotedIs(old(ends), flush);
        PutOn(old(enc.q.delivered), out, o);
        out := out + o;
      }
    }

    lemma EnteredFacts()
      requires d.Entered()
      ensures d.Shapes() && d.Text() && |d.s| == d.base + d.strstart + d.lookahead
      ensures d.strstart + d.lookahead <= 2 * d.wsize <= 0x10000
      ensures d.strstart >= 1 && d.strstart <= d.window.Length ==>
                d.base + d.strstart - 1 < |d.s| && d.window[d.strstart - 1] == d.s[d.base + d.strstart - 1]
      ensures d.base == 0 || d.strstart >= MaxDist()
    {
    }

    /** A match found here is a match held back at the next turn. */
    lemma MatchIsHeld(start: nat, len: nat, p: nat)
      requires d.Shapes() && d.strstart == p + 1 && p < 0x10000 && start < p && origin <= d.base + start
      requires p - start <= Far() && d.base + p + len <= |d.s|
      requires Repeats(d.s, d.base + p, p - start, len)
      ensures Held(start, len)
    {
      hide Repeats, Pow2, HashSize;
    }
  }

  /** The `len` bytes of `s` from just before `pos` are those `dist` further back, which are not before `origin`. */
  ghost predicate HeldAt(s: seq<byte>, pos: nat, dist: nat, len: nat, far: int, origin: nat) {
    1 <= dist <= far && origin + dist < pos && pos - 1 + len <= |s| && Repeats(s, pos - 1, dist, len)
  }

  lemma HeldMore(s: seq<byte>, t: seq<byte>, pos: nat, dist: nat, len: nat, far: int, origin: nat)
    requires HeldAt(s, pos, dist, len, far, origin)
    ensures HeldAt(s + t, pos, dist, len, far, origin)
  {
  }

  /** Differences that agree still agree one byte back. */
  lemma OneBack(a: int, b: int, c: int, e: int)
    requires Sub32(a, b) == Sub32(c, e)
    ensures Sub32(a - 1, b) == Sub32(c - 1, e)
  {
  }

  lemma WholeBytes(x: seq<byte>, h: seq<byte>, y: seq<bool>) returns (n: nat)
    requires BytesBits(x) + [] == BytesBits(h) + y
    ensures |y| == 8 * n
  {
    hide BytesBits;
    assert 8 * |x| == 8 * |h| + |y|;
    n := |x| - |h|;
  }

  lemma NoBytesBits()
    ensures BytesBits([]) == []
  {
  }

  /** A whole stream has been sent: its blocks, the last marked, padded to a byte. */
  ghost predicate StreamSent(header: seq<byte>, bs: seq<Block>, sent: seq<bool>) {
    && bs != [] && (forall i :: 0 <= i < |bs| ==> BlockOk(bs[i])) && BlocksOk(bs, [])
    && sent == BytesBits(header) + (StreamBits(bs, [], 0) + Padding(|StreamBits(bs, [], 0)|))
  }

  /** What has been sent with one block more. */
  lemma ToldMore(header: seq<byte>, bs: seq<Block>, first: nat, skip: nat, sent: seq<bool>, b: Block, eof: bool,
      s: seq<byte>, n: nat)
    requires Told(header, bs, first, skip, sent) && BlockOk(b) && BlocksCover(s, bs + [b], n)
    ensures Marked(bs + [b], first, skip)
    ensures if eof
            then StreamSent(header, bs + [b], WithBlock(sent, b, eof))
            else Told(header, bs + [b], first, skip, WithBlock(sent, b, eof))
  {
    hide BlockOk, BlocksCover, BytesBits, SentBits, StreamSent, WithBlock;
    MarkedMore(bs, first, skip, b);
    SentOne(header, bs, b, eof, s, n);
  }

  lemma SentOne(header: seq<byte>, bs: seq<Block>, b: Block, eof: bool, s: seq<byte>, n: nat)
    requires (forall i :: 0 <= i < |bs| ==> BlockOk(bs[i])) && BlockOk(b) && BlocksCover(s, bs + [b], n)
    ensures var sent := WithBlock(BytesBits(header) + SentBits(bs), b, eof);
            if eof then StreamSent(header, bs + [b], sent) else sent == BytesBits(header) + SentBits(bs + [b])
  {
    hide BlockOk, BlockBits, Padding, StreamBits, BlocksOk, BytesBits;
    WithBlockAfter(header, SentBits(bs), b, eof);
    SentAppend(bs, b);
    if eof {
      FinishedStream(bs, b);
    }
  }

  /** Where the bytes do not vary they repeat each other. */
  lemma Unvaried(s: seq<byte>, p: nat)
    requires 1 <= p && p + MAX_MATCH <= |s| && !Varies(s, p)
    ensures Repeats(s, p, 1, MAX_MATCH)
  {
    assert forall k :: p <= k < p + MAX_MATCH ==> s[k] == s[p - 1];
  }

  lemma IsRival(s: seq<byte>, ins: set<nat>, base: nat, p: nat, far: int)
    requires 2 <= p && base + 1 < p && p - 1 in ins && p + MAX_MATCH <= |s| && Repeats(s, p, 1, MAX_MATCH) && far >= 1
    ensures Rival(s, ins, base, p, far, p - 1, MAX_MATCH)
  {
    hide Repeats;
  }

  /** The byte before is the latest place. */
  lemma ThoroughLatest(bits: nat, s: seq<byte>, ins: set<nat>, base: nat, p: nat, far: int, chain: nat, nice: nat,
      len: nat, waived: nat)
    requires p >= 1 && Thorough(bits, s, ins, base, p, far, chain, nice, len, waived) && chain >= 1
    requires Rival(s, ins, base, p, far, p - 1, MAX_MATCH)
    ensures len >= MAX_MATCH || waived >= MAX_MATCH
  {
    hide Rival, InBucket;
    assert Newer(bits, s, ins, p, p - 1, p) == {};
  }

  /** All whole strings of `s` from `p` up to `to` are inserted. */
  ghost predicate AllWhole(ins: set<nat>, s: seq<byte>, p: nat, to: nat) {
    forall q: nat :: p <= q < to && q + 2 < |s| ==> q in ins
  }

  lemma FromHere(ins: set<nat>, s: seq<byte>, p: nat, to: nat)
    requires p + 2 < |s| ==> p in ins
    requires to > p + 1 ==> AllWhole(ins, s, p + 1, to)
    ensures AllWhole(ins, s, p, to)
  {
  }

  lemma NoLit()
    ensures !LastLit([])
  {
  }

  /** One token more, for `n` bytes, is a literal or a match. */
  ghost predicate Adds(ts: seq<Token>, ts': seq<Token>, n: nat) {
    && |ts'| == |ts| + 1 && ts'[..|ts|] == ts && TokenLength(ts'[|ts|]) == n && (ts'[|ts|].dist == 0 <==> n == 1)
  }

  lemma AddsLast(ts: seq<Token>, ts': seq<Token>, n: nat)
    requires Adds(ts, ts', n)
    ensures LastLit(ts') <==> n == 1
  {
  }

  lemma AddsOne(ts: seq<Token>, t: Token)
    ensures Adds(ts, ts + [t], TokenLength(t)) && TokenLength(t) == if t.dist == 0 then 1 else t.lc + MIN_MATCH
  {
  }

  lemma SubIs(a: nat, b: nat)
    requires b <= a < UINT
    ensures Sub32(a, b) == a - b
  {
  }

  /** A small unsigned difference is a difference. */
  lemma Near(a: nat, b: nat, m: nat)
    requires a < UINT && b < 0x10000 && m < 0x10000 && Sub32(a, b) <= m
    ensures b <= a && a - b <= m
  {
  }
}
