/** How much longer than the input what is sent can get. */
module Expansion {
  import opened Bits
  import opened CodeTables
  import opened InfTrees
  import opened CanonicalCode
  import opened Tokens
  import opened FixedCode
  import opened InflateSpec
  import opened HeaderDecode
  import opened DataDecode
  import opened StreamDecode
  import opened BitQueue
  import opened FixedWidth
  import opened FlushBlock
  import opened Coverage
  import opened Overrun

  /** How many bytes a block stands for. */
  function ByteCount(b: Block): nat {
    if b.Stored? then |b.data| else TokensLength(b.tokens)
  }

  lemma AfterLength(out: seq<byte>, b: Block)
    ensures |After(out, b)| == |out| + ByteCount(b)
  {
    hide Expand, TokensLength;
    if !b.Stored? {
      ExpandLength(out, b.tokens);
    }
  }

  /** What a small block costs beyond 9 bits a byte and 10 for every 127 bytes, in bits. */
  function Extra(b: Block): (r: nat)
    ensures ByteCount(b) < 127 ==> r >= 17
  {
    if b.Stored? && |b.data| < 25 then 42 - |b.data| else if ByteCount(b) < 127 then 17 else 0
  }

  function Slack(bs: seq<Block>): nat {
    if bs == [] then 0 else Slack(bs[..|bs| - 1]) + Extra(bs[|bs| - 1])
  }

  /** What padding may cost after the last block, in bits. */
  function LastPad(b: Block): nat {
    if b.Stored? || ByteCount(b) < 127 then 0 else 7
  }

  /** At most 9 bits for each byte of a block and 10 for every 127, unless it is small. */
  lemma BlockWidth(b: Block, last: bool, pos: nat, size: nat, fixedOnly: bool)
    requires Fair(b, size, fixedOnly) && BlockOk(b)
    ensures 127 * |BlockBits(b, last, pos)| <= 1153 * ByteCount(b) + 127 * Extra(b)
    ensures 127 * (|BlockBits(b, last, pos)| + |Padding(pos + |BlockBits(b, last, pos)|)|)
            <= 1153 * ByteCount(b) + 127 * (Extra(b) + LastPad(b))
  {
    hide FixedLens, FixedDists, EncodeTokens, CodedTokens, ValidTokens, HeaderBits, HeaderOk, IsSymbol, CodeBits,
         BytesBits, BitsOf, TokensLength;
    if b.Stored? {
      StoredIs(b.data, last, pos);
      PaddingLength(pos + 3);
      PaddingLength(pos + |BlockBits(b, last, pos)|);
    } else {
      FixedCoded(b.tokens);
      BitsPerByte(b.tokens);
      EndWidth();
      assert 8 * NBytes(Fixed(b.tokens)) <= 9 * TokensLength(b.tokens) + 17;
      PaddingLength(pos + |BlockBits(b, last, pos)|);
    }
  }

  /** And so for many blocks. */
  lemma {:induction false} SentWidth(bs: seq<Block>, size: nat, fixedOnly: bool)
    requires forall i :: 0 <= i < |bs| ==> Fair(bs[i], size, fixedOnly) && BlockOk(bs[i])
    requires BlocksOk(bs, [])
    ensures 127 * |SentBits(bs)| <= 1153 * |AfterAll([], bs)| + 127 * Slack(bs)
    decreases |bs|
  {
    hide Fair, BlockOk, BlockBits, BlocksOk, After, Extra, ByteCount;
    if bs == [] {
      return;
    }
    var front, b := bs[..|bs| - 1], bs[|bs| - 1];
    assert bs == front + [b];
    BlocksAppend([], front, b);
    AfterLength(AfterAll([], front), b);
    SentWidth(front, size, fixedOnly);
    SentAppend(front, b);
    BlockWidth(b, false, |SentBits(front)|, size, fixedOnly);
  }

  /** A finished stream has at most 7 bits more, and none if its last block is stored or small. */
  lemma StreamWidth(bs: seq<Block>, size: nat, fixedOnly: bool)
    requires bs != [] && BlocksOk(bs, [])
    requires forall i :: 0 <= i < |bs| ==> Fair(bs[i], size, fixedOnly) && BlockOk(bs[i])
    ensures 127 * |StreamBits(bs, [], 0) + Padding(|StreamBits(bs, [], 0)|)|
            <= 1153 * |AfterAll([], bs)| + 127 * (Slack(bs) + LastPad(bs[|bs| - 1]))
  {
    hide Fair, BlockOk, BlockBits, BlocksOk, After, Padding, StreamBits, SentBits, AfterAll, Extra, ByteCount,
         LastPad;
    var front, b := bs[..|bs| - 1], bs[|bs| - 1];
    assert bs == front + [b];
    BlocksAppend([], front, b);
    AfterLength(AfterAll([], front), b);
    SentWidth(front, size, fixedOnly);
    StreamOf(front, b);
    BlockWidth(b, true, |SentBits(front)|, size, fixedOnly);
  }

  /** Blocks that are not small stand for 127 bytes each. */
  lemma {:induction false} FewBlocks(bs: seq<Block>)
    requires BlocksOk(bs, [])
    ensures 17 * 127 * |bs| <= 17 * |AfterAll([], bs)| + 127 * Slack(bs)
    decreases |bs|
  {
    hide BlockOk, BlocksOk, After, ByteCount, Extra;
    if bs != [] {
      var front, b := bs[..|bs| - 1], bs[|bs| - 1];
      assert bs == front + [b];
      BlocksAppend([], front, b);
      AfterLength(AfterAll([], front), b);
      FewBlocks(front);
    }
  }

  lemma SlackAppend(bs: seq<Block>, b: Block)
    ensures Slack(bs + [b]) == Slack(bs) + Extra(b)
  {
    hide Extra;
    assert (bs + [b])[..|bs|] == bs;
  }

  lemma NoSlack()
    ensures Slack([]) == 0
  {
  }

  lemma SlackOfEmpty(bs: seq<Block>)
    ensures Slack(bs + [Stored([])]) == Slack(bs) + 42
    ensures forall two :: Slack(bs + EmptyFixedBlocks(two)) <= Slack(bs) + 34
  {
    SlackAppend(bs, Stored([]));
    SlackAppend(bs, Fixed([]));
    SlackAppend(bs + [Fixed([])], Fixed([]));
    assert bs + [Fixed([])] + [Fixed([])] == bs + EmptyFixedBlocks(true);
  }

  /** A block made of the tokens or of the bytes they stand for counts as many bytes. */
  lemma CountIs(b: Block, ts: seq<Token>)
    requires if b.Stored? then |b.data| == TokensLength(ts) else b.tokens == ts
    ensures ByteCount(b) == TokensLength(ts) >= |ts|
  {
    hide TokensLength;
    ExpandLength([], ts);
  }

  /** A block of so many tokens is not small if they are many. */
  lemma ManyTokens(b: Block, n: nat)
    requires ByteCount(b) >= n && (b.Stored? ==> |b.data| >= 15)
    ensures Extra(b) <= Scanty(n)
  {
  }

  /** Nor is a stored one if it is long. */
  lemma ManyBytes(data: seq<byte>)
    ensures Extra(Stored(data)) <= Thin(|data|)
  {
  }

  /** What a stored block may cost more. */
  function Thin(n: nat): (r: nat)
    ensures r <= 42
  {
    if n < 127 then 42 else 0
  }

  /** What a block of so many tokens may cost more. */
  function Scanty(tokens: nat): (r: nat)
    ensures r <= 27
  {
    if tokens < 127 then 27 else 0
  }
}
