/** Blocks whose bytes could be stored are only coded where that is shorter. */
module WorthCoding {
  import opened Bits
  import opened CodeTables
  import opened Tokens
  import opened FixedCode
  import opened InflateSpec
  import opened HeaderDecode
  import opened DataDecode
  import opened StreamDecode
  import opened FlushBlock
  import opened Expansion
  import opened Coverage

  /** Stored, or shorter than that, or of more than `far` bytes. */
  ghost predicate Worth(b: Block, far: int) {
    BlockOk(b) && (b.Stored? || ByteCount(b) > far || NBytes(b) < ByteCount(b) + 4)
  }

  ghost predicate AllWorth(bs: seq<Block>, far: int) {
    forall i :: 0 <= i < |bs| ==> Worth(bs[i], far)
  }

  /** In full: the bits of the block, in bytes, against its bytes and the four of two counts. */
  lemma WorthMeans(bs: seq<Block>, far: int, i: nat)
    requires AllWorth(bs, far) && i < |bs| && !bs[i].Stored? && TokensLength(bs[i].tokens) <= far
    ensures BlockOk(bs[i]) && (|BlockBits(bs[i], false, 0)| + 7) / 8 < TokensLength(bs[i].tokens) + 4
  {
    hide DataBits, HeaderBits, FixedLens, FixedDists, CodedTokens, HeaderOk, ValidTokens, TokensLength;
    assert Worth(bs[i], far);
  }

  lemma NoneWorth(far: int)
    ensures AllWorth([], far)
  {
  }

  lemma WorthMore(bs: seq<Block>, b: Block, far: int)
    requires AllWorth(bs, far) && Worth(b, far)
    ensures AllWorth(bs + [b], far)
  {
    hide Worth;
  }

  /** The blocks of a flush. */
  lemma EmptyWorth(bs: seq<Block>, far: int, two: bool)
    requires AllWorth(bs, far)
    ensures AllWorth(bs + [Stored([])], far) && AllWorth(bs + EmptyFixedBlocks(two), far)
  {
    hide Worth, AllWorth;
    assert Worth(Stored([]), far) by { StoredWorth([], far); }
    WorthMore(bs, Stored([]), far);
    EmptyFixedWorth(far);
    WorthMore(bs, Fixed([]), far);
    WorthMore(bs + [Fixed([])], Fixed([]), far);
    assert bs + EmptyFixedBlocks(two) == if two then bs + [Fixed([])] + [Fixed([])] else bs + [Fixed([])];
  }

  lemma StoredWorth(data: seq<byte>, far: int)
    requires |data| < 0x10000
    ensures Worth(Stored(data), far)
  {
  }

  lemma EmptyFixedWorth(far: int)
    ensures Worth(Fixed([]), far)
  {
    EmptyFixedLength([]);
  }

  /** A block that was tried against its bytes, if they were there. */
  lemma TriedWorth(b: Block, n: nat, there: bool, far: int)
    requires BlockOk(b) && ByteCount(b) == n && (!there ==> n > far)
    requires there && !b.Stored? ==> NBytes(b) < n + 4
    ensures Worth(b, far)
  {
    hide BlockOk, NBytes;
  }
}
