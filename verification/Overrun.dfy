/** Which blocks lose tokens to the output that is put over them, and which inputs can make them. */
module Overrun {
  import opened Bits
  import opened CanonicalCode
  import opened CodeTables
  import opened InfTrees
  import opened Tokens
  import opened FixedCode
  import opened InflateSpec
  import opened HeaderDecode
  import opened DataDecode
  import opened StreamDecode
  import opened BitQueue
  import opened CompressBlock
  import opened Overlay
  import opened FixedWidth
  import opened FlushBlock
  import opened Coverage

  // ---------- the blocks of a stream ----------

  /** What every block that is sent is like: smaller than the fixed one if it is not that itself. */
  ghost predicate Fair(b: Block, size: nat, fixedOnly: bool) {
    && BlockOk(b)
    && (!b.Stored? ==> |b.tokens| < size && BlockOk(Fixed(b.tokens)))
    && (b.Dynamic? ==> NBytes(b) < NBytes(Fixed(b.tokens)) && !fixedOnly)
  }

  /** When block `i` was sent, `held[i]` bits were held back and nothing was pending; `overrun` if any lost tokens. */
  ghost predicate Logged(bs: seq<Block>, held: seq<nat>, size: nat, fixedOnly: bool, overrun: bool) {
    && |held| == |bs| && (forall i :: 0 <= i < |bs| ==> Fair(bs[i], size, fixedOnly) && held[i] <= BUF_SIZE)
    && (overrun <==> exists i :: 0 <= i < |bs| && !Clear(bs[i], 0, held[i], size))
  }

  /** From `s` on, with `h` bits held back and nothing pending, the block is sent unless it loses tokens. */
  ghost predicate Sends(s: seq<bool>, t: seq<bool>, b: Block, h: nat, size: nat, eof: bool, ok: bool) {
    BlockOk(b) && (ok <==> Clear(b, 0, h, size)) && (ok ==> t == WithBlock(s, b, eof))
  }

  lemma SendsIs(s: seq<bool>, t: seq<bool>, b: Block, h: nat, size: nat, eof: bool, ok: bool)
    ensures Sends(s, t, b, h, size, eof, ok)
            <==> BlockOk(b) && (ok <==> Clear(b, 0, h, size)) && (ok ==> t == WithBlock(s, b, eof))
  {
    hide BlockOk, Clear, WithBlock;
  }

  lemma LoggedNone(size: nat, fixedOnly: bool)
    ensures Logged([], [], size, fixedOnly, false)
  {
  }

  lemma LoggedMore(bs: seq<Block>, held: seq<nat>, size: nat, fixedOnly: bool, overrun: bool, b: Block, h: nat,
      ok: bool)
    requires Logged(bs, held, size, fixedOnly, overrun) && Fair(b, size, fixedOnly) && h <= BUF_SIZE
    requires ok <==> Clear(b, 0, h, size)
    ensures Logged(bs + [b], held + [h], size, fixedOnly, overrun || !ok)
  {
    hide Fair, Clear;
    assert forall i :: 0 <= i < |bs| ==> (bs + [b])[i] == bs[i] && (held + [h])[i] == held[i];
    assert (bs + [b])[|bs|] == b && (held + [h])[|bs|] == h;
  }

  /** The blocks of a stream that is only stored. */
  ghost predicate OnlyStored(bs: seq<Block>) {
    forall i :: 0 <= i < |bs| ==> bs[i].Stored? || bs[i] == Fixed([])
  }

  lemma OnlyStoredMore(bs: seq<Block>, more: seq<Block>)
    requires OnlyStored(bs) && OnlyStored(more)
    ensures OnlyStored(bs + more)
  {
  }

  lemma OnlyOne(b: Block)
    ensures b.Stored? ==> OnlyStored([b])
    ensures forall two :: OnlyStored(EmptyFixedBlocks(two))
  {
  }

  lemma StoredIsFair(b: Block, fixedOnly: bool, size: nat)
    requires BlockOk(b) && b.Stored?
    ensures Fair(b, size, fixedOnly)
  {
  }

  /** Blocks without tokens lose none. */
  lemma NothingToLose(bs: seq<Block>, held: seq<nat>, size: nat, fixedOnly: bool, overrun: bool)
    requires Logged(bs, held, size, fixedOnly, overrun) && OnlyStored(bs)
    ensures !overrun
  {
    hide Fair;
  }

  lemma AllFair(bs: seq<Block>, held: seq<nat>, size: nat, fixedOnly: bool, overrun: bool)
    requires Logged(bs, held, size, fixedOnly, overrun)
    ensures forall i :: 0 <= i < |bs| ==> Fair(bs[i], size, fixedOnly) && BlockOk(bs[i])
  {
    hide Clear, NBytes, BlockOk;
  }

  /** A block that is sent because it is the cheapest. */
  lemma CheapIsFair(b: Block, dyn: Block, ts: seq<Token>, buf: Option<seq<byte>>, fixedOnly: bool, size: nat)
    requires BlockOk(b) && Cheapest(b, dyn, ts, buf, fixedOnly) && (fixedOnly ==> !b.Dynamic?)
    requires if b.Stored? then |b.data| == TokensLength(ts) else b.tokens == ts
    requires |ts| < size
    ensures Fair(b, size, fixedOnly) && (b.Stored? ==> |b.data| >= 15)
  {
    hide FixedLens, FixedDists, EncodeTokens, CodeBits, CodedTokens, ValidTokens, HeaderBits, HeaderOk, IsSymbol;
    if b.Stored? {
      FixedCoded(ts);
      BitsPerByte(ts);
      EndWidth();
    }
  }

  /** An empty block has no tokens to lose. */
  lemma LoggedEmpty(bs: seq<Block>, held: seq<nat>, size: nat, fixedOnly: bool, overrun: bool, b: Block, h: nat)
    requires Logged(bs, held, size, fixedOnly, overrun) && b in {Stored([]), Fixed([])} && h <= BUF_SIZE && size > 0
    ensures Logged(bs + [b], held + [h], size, fixedOnly, overrun)
  {
    hide Logged, NBytes, FixedLens, FixedDists;
    assert BlockOk(b);
    FixedCoded([]);
    LoggedMore(bs, held, size, fixedOnly, overrun, b, h, true);
  }

  /** The bits held back before the empty fixed blocks that follow `n` bits, `h` of which are held back. */
  function HeldAligned(h: nat, n: nat, two: bool): seq<nat> {
    if two then [h, (n + 10) % 8] else [h]
  }

  lemma LoggedAligned(bs: seq<Block>, held: seq<nat>, size: nat, fixedOnly: bool, overrun: bool, h: nat, n: nat,
      two: bool)
    requires Logged(bs, held, size, fixedOnly, overrun) && h <= BUF_SIZE && size > 0
    ensures Logged(bs + EmptyFixedBlocks(two), held + HeldAligned(h, n, two), size, fixedOnly, overrun)
  {
    hide Logged;
    LoggedEmpty(bs, held, size, fixedOnly, overrun, Fixed([]), h);
    if two {
      LoggedEmpty(bs + [Fixed([])], held + [h], size, fixedOnly, overrun, Fixed([]), (n + 10) % 8);
      assert bs + [Fixed([])] + [Fixed([])] == bs + EmptyFixedBlocks(true);
      assert held + [h] + [(n + 10) % 8] == held + HeldAligned(h, n, true);
    }
  }

  // ---------- the inputs that can do it ----------

  /** The block stands for some of the bytes of `s` and loses tokens. */
  ghost predicate Spoils(s: seq<byte>, b: Block, from: nat, to: nat, held: nat, size: nat, far: int, fixedOnly: bool) {
    && Fair(b, size, fixedOnly) && !b.Stored? && Covers(s, from, b.tokens, to) && Within(b.tokens, far)
    && held <= BUF_SIZE && !Clear(b, 0, held, size)
  }

  /** Some stretch of the input can be made a block that loses tokens. */
  ghost predicate Overrunnable(s: seq<byte>, size: nat, far: int, fixedOnly: bool) {
    exists b: Block, from: nat, to: nat, held: nat :: Spoils(s, b, from, to, held, size, far, fixedOnly)
  }

  /** Each block of tokens is a stretch of the input. */
  lemma {:induction false} Stretch(s: seq<byte>, bs: seq<Block>, n: nat, i: nat) returns (from: nat, to: nat)
    requires BlocksCover(s, bs, n) && i < |bs| && !bs[i].Stored? && ValidTokens(bs[i].tokens)
    ensures Covers(s, from, bs[i].tokens, to)
    decreases |bs|
  {
    hide BlockOk, ValidTokens, InReach, Expand, BlocksOk, AfterAll;
    var front, b := bs[..|bs| - 1], bs[|bs| - 1];
    assert bs == front + [b];
    BlocksAppend([], front, b);
    var m := |AfterAll([], front)|;
    assert AfterAll([], front) == s[..m];
    if i == |front| {
      from, to := m, n;
    } else {
      from, to := Stretch(s, front, m, i);
    }
  }

  /** Tokens are only lost on inputs that can make such a block. */
  lemma OverrunComesFrom(s: seq<byte>, bs: seq<Block>, n: nat, held: seq<nat>, size: nat, far: int, fixedOnly: bool)
    requires BlocksCover(s, bs, n) && BlocksWithin(bs, far) && Logged(bs, held, size, fixedOnly, true)
    ensures Overrunnable(s, size, far, fixedOnly)
  {
    hide Clear, BlocksOk, AfterAll, Covers, Within, NBytes, ValidTokens, Overrunnable;
    var i :| 0 <= i < |bs| && !Clear(bs[i], 0, held[i], size);
    assert Fair(bs[i], size, fixedOnly) && BlockWithin(bs[i], far);
    StoredClear(bs[i], held[i], size);
    var from, to := Stretch(s, bs, n, i);
    assert Spoils(s, bs[i], from, to, held[i], size, far, fixedOnly);
    Spoilt(s, bs[i], from, to, held[i], size, far, fixedOnly);
  }

  lemma Spoilt(s: seq<byte>, b: Block, from: nat, to: nat, held: nat, size: nat, far: int, fixedOnly: bool)
    requires Spoils(s, b, from, to, held, size, far, fixedOnly)
    ensures Overrunnable(s, size, far, fixedOnly)
  {
    hide Spoils;
  }

  lemma StoredClear(b: Block, held: nat, size: nat)
    requires BlockOk(b)
    ensures b.Stored? ==> Clear(b, 0, held, size)
  {
    hide TokensClear, HeaderBits;
  }

  /** More input does not make it safe. */
  lemma MoreOverrunnable(s: seq<byte>, n: nat, size: nat, far: int, fixedOnly: bool)
    requires n <= |s| && Overrunnable(s[..n], size, far, fixedOnly)
    ensures Overrunnable(s, size, far, fixedOnly)
  {
    hide Clear, Covers, Fair, Within;
    var b: Block, from: nat, to: nat, held: nat :| Spoils(s[..n], b, from, to, held, size, far, fixedOnly);
    CoversMore(s[..n], s[n..], from, b.tokens, to);
    assert s[..n] + s[n..] == s;
    assert Spoils(s, b, from, to, held, size, far, fixedOnly);
  }

  // ---------- inputs that cannot ----------

  lemma {:induction false} EncodePrefix(ll: seq<nat>, dd: seq<nat>, ts: seq<Token>, n: nat)
    requires CodedTokens(ll, dd, ts) && n <= |ts|
    ensures |EncodeTokens(ll, dd, ts[..n])| <= |EncodeTokens(ll, dd, ts)|
    decreases |ts| - n
  {
    hide CodedToken, EncodeToken, EncodeTokens;
    if n < |ts| {
      EncodeSnoc(ll, dd, ts, n);
      EncodePrefix(ll, dd, ts, n + 1);
    } else {
      assert ts[..n] == ts;
    }
  }

  /** The bytes put before the last token is read are no more than those of the whole block. */
  lemma ClearIfShort(b: Block, held: nat, size: nat)
    requires BlockOk(b) && held <= BUF_SIZE && !b.Stored? && 8 * NBytes(b) + held <= 8 * size
    ensures Clear(b, 0, held, size)
  {
    hide CodedTokens, EncodeTokens, HeaderBits, FixedLens, FixedDists, HeaderOk, IsSymbol, CodeBits, ValidTokens,
         PutBytes;
    if b.Fixed? {
      FixedCoded(b.tokens);
      ShortTokens(FixedLens(), FixedDists(), b.tokens, 3, held, size);
    } else {
      DynamicSize(b);
      ShortTokens(b.ll, b.dd, b.tokens, 3 + |HeaderBits(b.ll, b.dd, b.bl, b.blcodes)|, held, size);
    }
  }

  lemma ShortTokens(ll: seq<nat>, dd: seq<nat>, ts: seq<Token>, before: nat, held: nat, size: nat)
    requires CodedTokens(ll, dd, ts) && before + |EncodeTokens(ll, dd, ts)| + held <= 8 * size
    ensures TokensClear(ll, dd, ts, before, 0, held, size)
  {
    hide CodedToken, EncodeTokens, PutBytes;
    forall lx | 0 <= lx < |ts| ensures PutBefore(ll, dd, ts, lx, before, held) <= size {
      EncodePrefix(ll, dd, ts, lx);
      PutBytesAdd(held, before + |EncodeTokens(ll, dd, ts[..lx])|, 0);
    }
  }

  /** An input of at most four fifths of lit_bufsize is safe, whatever its blocks. */
  lemma ShortInput(s: seq<byte>, size: nat, far: int, fixedOnly: bool)
    requires 5 * |s| <= 4 * size && 128 <= size
    ensures !Overrunnable(s, size, far, fixedOnly)
  {
    hide Clear, Fair, Covers, Within;
    forall b: Block, from: nat, to: nat, held: nat ensures !Spoils(s, b, from, to, held, size, far, fixedOnly) {
      if Fair(b, size, fixedOnly) && !b.Stored? && Covers(s, from, b.tokens, to) && held <= BUF_SIZE {
        ShortStretch(s, b, from, to, held, size, fixedOnly);
      }
    }
  }

  lemma ShortStretch(s: seq<byte>, b: Block, from: nat, to: nat, held: nat, size: nat, fixedOnly: bool)
    requires Fair(b, size, fixedOnly) && !b.Stored? && Covers(s, from, b.tokens, to) && held <= BUF_SIZE
    requires 5 * |s| <= 4 * size && 128 <= size
    ensures Clear(b, 0, held, size)
  {
    hide Clear, FixedLens, FixedDists, EncodeTokens, CodeBits, CodedTokens, ValidTokens, HeaderBits, InReach,
         Within, HeaderOk, IsSymbol;
    FixedCoded(b.tokens);
    BitsPerByte(b.tokens);
    CoversLength(s, from, b.tokens, to);
    EndWidth();
    assert 8 * NBytes(Fixed(b.tokens)) <= 9 * |s| + 17;
    ClearIfShort(b, held, size);
  }

  /** With near matches only the fixed code is safe: that is a window of 512 bytes and Z_FIXED. */
  lemma NearInput(s: seq<byte>, size: nat, far: int)
    requires far <= NEAR
    ensures !Overrunnable(s, size, far, true)
  {
    hide Clear, Fair, Covers;
    forall b: Block, from: nat, to: nat, held: nat ensures !Spoils(s, b, from, to, held, size, far, true) {
      if Fair(b, size, true) && !b.Stored? && Within(b.tokens, far) && held <= BUF_SIZE {
        NearBlock(b, held, size);
      }
    }
  }

  lemma NearBlock(b: Block, held: nat, size: nat)
    requires Fair(b, size, true) && !b.Stored? && AllNear(b.tokens) && held <= BUF_SIZE
    ensures Clear(b, 0, held, size)
  {
    hide FixedLens, FixedDists, EncodeTokens, CodedToken, HeaderBits, InReach, NBytes, TokensClear, EncodeToken;
    FixedCoded(b.tokens);
    forall lx | 0 <= lx < |b.tokens| ensures |EncodeTokens(FixedLens(), FixedDists(), b.tokens[..lx])| <= 24 * lx {
      TokensWidth(b.tokens[..lx]);
    }
    AverageClear(FixedLens(), FixedDists(), b.tokens, held, size);
  }
}
