/** Tokens and blocks that stand for a stretch of the input. */
module Coverage {
  import opened Bits
  import opened Tokens
  import opened OutWindow
  import opened InflateSpec
  import opened LongestMatch
  import opened BitQueue
  import opened StreamDecode
  import opened FlushBlock

  // ---------- tokens ----------

  /** After the first `from` bytes of `s` the tokens give the bytes up to `to`. */
  ghost predicate Covers(s: seq<byte>, from: nat, ts: seq<Token>, to: nat) {
    from <= to <= |s| && ValidTokens(ts) && InReach(s[..from], ts) && Expand(s[..from], ts) == s[..to]
  }

  lemma CoversNothing(s: seq<byte>, n: nat)
    requires n <= |s|
    ensures Covers(s, n, [], n)
  {
  }

  lemma NothingCovers(s: seq<byte>, from: nat, to: nat)
    requires Covers(s, from, [], to)
    ensures from == to
  {
    assert |s[..from]| == |s[..to]|;
  }

  /** The tokens stand for as many bytes, and each of them for at least one. */
  lemma CoversLength(s: seq<byte>, from: nat, ts: seq<Token>, to: nat)
    requires Covers(s, from, ts, to)
    ensures from + |ts| <= from + TokensLength(ts) == to
  {
    hide InReach, ValidTokens, TokensLength;
    ExpandLength(s[..from], ts);
  }

  /** More input does not matter. */
  lemma CoversMore(s: seq<byte>, more: seq<byte>, from: nat, ts: seq<Token>, to: nat)
    requires Covers(s, from, ts, to)
    ensures Covers(s + more, from, ts, to)
  {
    assert (s + more)[..from] == s[..from] && (s + more)[..to] == s[..to];
  }

  lemma {:induction false} CopyRepeats(s: seq<byte>, a: nat, dist: nat, n: nat)
    requires 1 <= dist <= a && a + n <= |s| && Repeats(s, a, dist, n)
    ensures CopyMatch(s[..a], dist, n) == s[..a + n]
    decreases n
  {
    if n > 0 {
      assert Back(s[..a], dist) == s[a - dist] == s[a];
      assert s[..a] + [s[a]] == s[..a + 1];
      assert Repeats(s, a + 1, dist, n - 1);
      CopyRepeats(s, a + 1, dist, n - 1);
    }
  }

  lemma OneToken(out: seq<byte>, t: Token)
    ensures Expand(out, [t]) == ExpandOne(out, t) && (InReach(out, [t]) <==> t.dist <= |out|)
  {
    assert [t][1..] == [];
    assert Expand(ExpandOne(out, t), []) == ExpandOne(out, t);
  }

  lemma CoversToken(s: seq<byte>, from: nat, ts: seq<Token>, n: nat, t: Token, to: nat)
    requires Covers(s, from, ts, n) && ValidToken(t) && n <= to <= |s| && t.dist <= n && ExpandOne(s[..n], t) == s[..to]
    ensures Covers(s, from, ts + [t], to)
  {
    hide ExpandOne;
    ExpandAppend(s[..from], ts, [t]);
    OneToken(s[..n], t);
  }

  lemma CoversLiteral(s: seq<byte>, from: nat, ts: seq<Token>, n: nat)
    requires Covers(s, from, ts, n) && n < |s|
    ensures ValidToken(Token(0, s[n])) && Covers(s, from, ts + [Token(0, s[n])], n + 1)
  {
    assert s[..n] + [s[n]] == s[..n + 1];
    CoversToken(s, from, ts, n, Token(0, s[n]), n + 1);
  }

  lemma CoversMatch(s: seq<byte>, from: nat, ts: seq<Token>, n: nat, dist: nat, len: nat)
    requires Covers(s, from, ts, n) && 1 <= dist <= n && dist <= WSIZE && MIN_MATCH <= len <= MAX_MATCH
    requires n + len <= |s| && Repeats(s, n, dist, len)
    ensures ValidToken(Token(dist, len - MIN_MATCH)) && Covers(s, from, ts + [Token(dist, len - MIN_MATCH)], n + len)
  {
    hide CopyMatch, Repeats;
    CopyRepeats(s, n, dist, len);
    CoversToken(s, from, ts, n, Token(dist, len - MIN_MATCH), n + len);
  }

  // ---------- blocks ----------

  /** Everything sent for blocks none of which is the last. */
  ghost function SentBits(bs: seq<Block>): seq<bool>
    requires forall i :: 0 <= i < |bs| ==> BlockOk(bs[i])
  {
    if bs == [] then []
    else
      var s := SentBits(bs[..|bs| - 1]);
      s + BlockBits(bs[|bs| - 1], false, |s|)
  }

  /** The blocks give the first `n` bytes of the input. */
  ghost predicate BlocksCover(s: seq<byte>, bs: seq<Block>, n: nat) {
    && n <= |s| && (forall i :: 0 <= i < |bs| ==> BlockOk(bs[i])) && BlocksOk(bs, []) && AfterAll([], bs) == s[..n]
  }

  lemma NoBlocks(s: seq<byte>)
    ensures BlocksCover(s, [], 0) && SentBits([]) == []
  {
  }

  lemma BlocksMore(s: seq<byte>, more: seq<byte>, bs: seq<Block>, n: nat)
    requires BlocksCover(s, bs, n)
    ensures BlocksCover(s + more, bs, n)
  {
    assert (s + more)[..n] == s[..n];
  }

  lemma {:induction false} BlocksAppend(out: seq<byte>, bs: seq<Block>, b: Block)
    ensures BlocksOk(bs + [b], out) <==> BlocksOk(bs, out) && BlockOk(b) && BlockInReach(AfterAll(out, bs), b)
    ensures AfterAll(out, bs + [b]) == After(AfterAll(out, bs), b)
    decreases |bs|
  {
    hide BlockOk, BlockInReach, After;
    if bs == [] {
      assert bs + [b] == [b] && [b][1..] == [];
    } else {
      assert (bs + [b])[1..] == bs[1..] + [b];
      BlocksAppend(After(out, bs[0]), bs[1..], b);
    }
  }

  /** A block made of the tokens, or of the bytes themselves, gives the same bytes. */
  lemma BlockCovers(s: seq<byte>, bs: seq<Block>, from: nat, ts: seq<Token>, to: nat, b: Block)
    requires BlocksCover(s, bs, from) && Covers(s, from, ts, to) && BlockOk(b)
    requires if b.Stored? then b.data == s[from..to] else b.tokens == ts
    ensures BlocksCover(s, bs + [b], to)
  {
    hide BlockOk, InReach, Expand, BlocksOk, AfterAll;
    BlocksAppend([], bs, b);
    assert s[..from] + s[from..to] == s[..to];
  }

  lemma SentAppend(bs: seq<Block>, b: Block)
    requires (forall i :: 0 <= i < |bs| ==> BlockOk(bs[i])) && BlockOk(b)
    ensures SentBits(bs + [b]) == SentBits(bs) + BlockBits(b, false, |SentBits(bs)|)
  {
    hide BlockOk, BlockBits;
    assert (bs + [b])[..|bs|] == bs;
  }

  /** All but the last block, then the last, is the stream of all. */
  lemma {:induction false} StreamIs(bs: seq<Block>, b: Block, out: seq<byte>, before: seq<bool>)
    requires BlocksOk(bs + [b], out) && (forall i :: 0 <= i < |bs| ==> BlockOk(bs[i])) && BlockOk(b)
    ensures before + StreamBits(bs + [b], out, |before|)
            == SentAfter(before, bs) + BlockBits(b, true, |SentAfter(before, bs)|)
    decreases |bs|
  {
    hide BlockOk, BlockBits, BlockInReach, After;
    if bs == [] {
      assert bs + [b] == [b] && [b][1..] == [];
      assert StreamBits([], After(out, b), |before| + |BlockBits(b, true, |before|)|) == [];
      assert BlockBits(b, true, |before|) + [] == BlockBits(b, true, |before|);
    } else {
      var x := BlockBits(bs[0], false, |before|);
      assert (bs + [b])[1..] == bs[1..] + [b];
      StreamIs(bs[1..], b, After(out, bs[0]), before + x);
      assert before + (x + StreamBits(bs[1..] + [b], After(out, bs[0]),
          |before| + |x|)) == (before + x) + StreamBits(bs[1..] + [b], After(out, bs[0]), |before + x|);
    }
  }

  /** What has been sent when `bs` follow `before`. */
  ghost function SentAfter(before: seq<bool>, bs: seq<Block>): seq<bool>
    requires forall i :: 0 <= i < |bs| ==> BlockOk(bs[i])
    decreases |bs|
  {
    if bs == [] then before else SentAfter(before + BlockBits(bs[0], false, |before|), bs[1..])
  }

  lemma {:induction false} SentAfterSnoc(before: seq<bool>, bs: seq<Block>, b: Block)
    requires (forall i :: 0 <= i < |bs| ==> BlockOk(bs[i])) && BlockOk(b)
    ensures SentAfter(before, bs + [b]) == SentAfter(before, bs) + BlockBits(b, false, |SentAfter(before, bs)|)
    decreases |bs|
  {
    hide BlockOk, BlockBits;
    if bs == [] {
      assert bs + [b] == [b] && [b][1..] == [];
    } else {
      assert (bs + [b])[1..] == bs[1..] + [b];
      SentAfterSnoc(before + BlockBits(bs[0], false, |before|), bs[1..], b);
    }
  }

  lemma {:induction false} SentSame(bs: seq<Block>)
    requires forall i :: 0 <= i < |bs| ==> BlockOk(bs[i])
    ensures SentBits(bs) == SentAfter([], bs)
    decreases |bs|
  {
    hide BlockOk, BlockBits;
    if bs != [] {
      var n := |bs| - 1;
      SentSame(bs[..n]);
      assert bs == bs[..n] + [bs[n]];
      SentAfterSnoc([], bs[..n], bs[n]);
    }
  }

  /** A finished stream: its blocks in order, the last one marked, padded to a byte. */
  lemma FinishedStream(bs: seq<Block>, b: Block)
    requires (forall i :: 0 <= i < |bs| ==> BlockOk(bs[i])) && BlockOk(b) && BlocksOk(bs + [b], [])
    ensures WithBlock(SentBits(bs), b, true) == StreamBits(bs + [b], [], 0) + Padding(|StreamBits(bs + [b], [], 0)|)
  {
    hide BlockOk, BlockBits, Padding, StreamBits, SentBits, BlocksOk;
    StreamOf(bs, b);
  }

  // ---------- after a header ----------

  lemma PadShift(k: nat, n: nat)
    ensures Padding(8 * k + n) == Padding(n)
  {
    hide BitsOf;
    assert (8 * k + n) % 8 == n % 8;
  }

  /** Whole bytes in front do not change a block. */
  lemma BlockShift(b: Block, last: bool, k: nat, pos: nat)
    requires BlockOk(b)
    ensures BlockBits(b, last, 8 * k + pos) == BlockBits(b, last, pos)
  {
    hide Padding, BitsOf, BytesBits;
    PadShift(k, pos + 3);
  }

  lemma WithBlockAfter(header: seq<byte>, s: seq<bool>, b: Block, eof: bool)
    requires BlockOk(b)
    ensures WithBlock(BytesBits(header) + s, b, eof) == BytesBits(header) + WithBlock(s, b, eof)
  {
    hide Padding, BlockBits, BytesBits, BlockOk;
    var h, x := BytesBits(header), BlockBits(b, eof, |s|);
    BlockShift(b, eof, |header|, |s|);
    assert h + s + x == h + (s + x);
    PadShift(|header|, |s + x|);
    var p := Padding(|s + x|);
    assert h + (s + x) + p == h + (s + x + p);
  }

  // ---------- distances ----------

  /** No match reaches further back than `far`. */
  ghost predicate Within(ts: seq<Token>, far: int) {
    forall i :: 0 <= i < |ts| ==> ts[i].dist == 0 || ts[i].dist <= far
  }

  ghost predicate BlockWithin(b: Block, far: int) {
    b.Stored? || Within(b.tokens, far)
  }

  ghost predicate BlocksWithin(bs: seq<Block>, far: int) {
    forall i :: 0 <= i < |bs| ==> BlockWithin(bs[i], far)
  }

  lemma WithinMore(bs: seq<Block>, b: Block, ts: seq<Token>, far: int)
    requires BlocksWithin(bs, far) && Within(ts, far) && (b.Stored? || b.tokens == ts)
    ensures BlocksWithin(bs + [b], far) && Within([], far)
  {
    hide Within;
    NoneWithin(far);
  }

  lemma NoneWithin(far: int)
    ensures Within([], far)
  {
  }

  // ---------- empty blocks ----------

  /** An empty block changes nothing but the bits sent. */
  lemma EmptyBlock(header: seq<byte>, s: seq<byte>, bs: seq<Block>, n: nat, far: int, b: Block)
    requires BlocksCover(s, bs, n) && BlocksWithin(bs, far) && b in {Stored([]), Fixed([])}
    ensures BlockOk(b) && BlocksCover(s, bs + [b], n) && BlocksWithin(bs + [b], far)
    ensures WithBlock(BytesBits(header) + SentBits(bs), b, false) == BytesBits(header) + SentBits(bs + [b])
  {
    hide AfterAll, BlocksOk, BlockBits, BytesBits, SentBits, WithBlock;
    assert BlockOk(b);
    CoversNothing(s, n);
    assert s[n..n] == [];
    BlockCovers(s, bs, n, [], n, b);
    WithBlockAfter(header, SentBits(bs), b, false);
    SentAppend(bs, b);
    WithBlockIs(SentBits(bs), b);
  }

  lemma WithBlockIs(s: seq<bool>, b: Block)
    requires BlockOk(b)
    ensures WithBlock(s, b, false) == s + BlockBits(b, false, |s|)
  {
  }

  // ---------- starting afresh ----------

  /** On their own, the blocks from `first` on and the tokens give the bytes from `origin` up to `n`. */
  ghost predicate Afresh(s: seq<byte>, origin: nat, bs: seq<Block>, first: nat, from: nat, ts: seq<Token>, n: nat) {
    && origin <= from <= n <= |s| && first <= |bs|
    && BlocksCover(s[origin..], bs[first..], from - origin) && Covers(s[origin..], from - origin, ts, n - origin)
  }

  lemma AfreshHere(s: seq<byte>, bs: seq<Block>, n: nat)
    requires n <= |s|
    ensures Afresh(s, n, bs, |bs|, n, [], n)
  {
    hide BlocksCover, Covers;
    assert bs[|bs|..] == [];
    NoBlocks(s[n..]);
    CoversNothing(s[n..], 0);
  }

  lemma AfreshLiteral(s: seq<byte>, origin: nat, bs: seq<Block>, first: nat, from: nat, ts: seq<Token>, n: nat)
    requires Afresh(s, origin, bs, first, from, ts, n) && n < |s|
    ensures Afresh(s, origin, bs, first, from, ts + [Token(0, s[n])], n + 1)
  {
    hide BlocksCover, Covers;
    assert s[origin..][n - origin] == s[n];
    CoversLiteral(s[origin..], from - origin, ts, n - origin);
  }

  /** Bytes not yet tallied could be, as literals. */
  lemma {:induction false} AsLiterals(s: seq<byte>, origin: nat, bs: seq<Block>, first: nat, from: nat, n: nat,
      far: int)
      returns (ts: seq<Token>)
    requires from <= n <= |s| && Covers(s, from, [], from) && Afresh(s, origin, bs, first, from, [], from)
    ensures Covers(s, from, ts, n) && Afresh(s, origin, bs, first, from, ts, n) && Within(ts, far)
    decreases n
  {
    hide Covers, Afresh;
    if n == from {
      ts := [];
    } else {
      ts := AsLiterals(s, origin, bs, first, from, n - 1, far);
      CoversLiteral(s, from, ts, n - 1);
      AfreshLiteral(s, origin, bs, first, from, ts, n - 1);
      ts := ts + [Token(0, s[n - 1])];
    }
  }

  lemma AfreshMatch(s: seq<byte>, origin: nat, bs: seq<Block>, first: nat, from: nat, ts: seq<Token>, n: nat, dist: nat,
      len: nat)
    requires Afresh(s, origin, bs, first, from, ts, n) && 1 <= dist <= n - origin && dist <= WSIZE
    requires MIN_MATCH <= len <= MAX_MATCH
    requires n + len <= |s| && Repeats(s, n, dist, len)
    ensures Afresh(s, origin, bs, first, from, ts + [Token(dist, len - MIN_MATCH)], n + len)
  {
    hide BlocksCover, Covers;
    var t := s[origin..];
    forall k | n - origin <= k < n - origin + len && k < |t| ensures t[k] == t[k - dist] {
      assert t[k] == s[origin + k] && t[k - dist] == s[origin + k - dist];
    }
    CoversMatch(t, from - origin, ts, n - origin, dist, len);
  }

  lemma AfreshBlock(s: seq<byte>, origin: nat, bs: seq<Block>, first: nat, from: nat, ts: seq<Token>, n: nat, b: Block)
    requires Afresh(s, origin, bs, first, from, ts, n) && BlockOk(b)
    requires if b.Stored? then b.data == s[from..n] else b.tokens == ts
    ensures Afresh(s, origin, bs + [b], first, n, [], n)
  {
    hide BlocksCover, Covers, BlockOk;
    assert s[origin..][from - origin..n - origin] == s[from..n];
    assert (bs + [b])[first..] == bs[first..] + [b];
    BlockCovers(s[origin..], bs[first..], from - origin, ts, n - origin, b);
    CoversNothing(s[origin..], n - origin);
  }

  /** What holds of the bytes up to `n` when they are made a block. */
  lemma BlockStands(s: seq<byte>, origin: nat, bs: seq<Block>, first: nat, from: nat, ts: seq<Token>, n: nat, far: int,
      b: Block)
    requires BlocksCover(s, bs, from) && Covers(s, from, ts, n) && Afresh(s, origin, bs, first, from, ts, n)
    requires BlocksWithin(bs, far) && Within(ts, far) && BlockOk(b)
    requires if b.Stored? then b.data == s[from..n] else b.tokens == ts
    ensures BlocksCover(s, bs + [b], n) && Covers(s, n, [], n) && Afresh(s, origin, bs + [b], first, n, [], n)
    ensures BlocksWithin(bs + [b], far) && Within([], far) && first <= |bs|
  {
    hide BlocksCover, BlockOk, BlocksWithin, Within, InReach, Expand, ValidTokens;
    BlockCovers(s, bs, from, ts, n, b);
    AfreshBlock(s, origin, bs, first, from, ts, n, b);
    CoversNothing(s, n);
    WithinMore(bs, b, ts, far);
  }

  lemma AfreshMore(s: seq<byte>, more: seq<byte>, origin: nat, bs: seq<Block>, first: nat, from: nat, ts: seq<Token>,
      n: nat)
    requires Afresh(s, origin, bs, first, from, ts, n)
    ensures Afresh(s + more, origin, bs, first, from, ts, n)
  {
    hide BlocksCover, Covers;
    assert (s + more)[origin..] == s[origin..] + more;
    CoversMore(s[origin..], more, from - origin, ts, n - origin);
    BlocksMore(s[origin..], more, bs[first..], from - origin);
  }

  /** The blocks before `first` are `skip` whole bytes. */
  ghost predicate Marked(bs: seq<Block>, first: nat, skip: nat) {
    first <= |bs| && (forall i :: 0 <= i < |bs| ==> BlockOk(bs[i])) && |SentBits(bs[..first])| == 8 * skip
  }

  lemma MarkedMore(bs: seq<Block>, first: nat, skip: nat, b: Block)
    requires Marked(bs, first, skip) && BlockOk(b)
    ensures Marked(bs + [b], first, skip) && first < |bs + [b]|
  {
    hide SentBits, BlockOk;
    assert (bs + [b])[..first] == bs[..first];
  }

  /** The blocks, marked as said, are what has been sent after the header. */
  ghost predicate Told(header: seq<byte>, bs: seq<Block>, first: nat, skip: nat, sent: seq<bool>) {
    Marked(bs, first, skip) && sent == BytesBits(header) + SentBits(bs)
  }

  lemma ToldIs(header: seq<byte>, bs: seq<Block>, first: nat, skip: nat, sent: seq<bool>)
    ensures Told(header, bs, first, skip, sent)
            <==> Marked(bs, first, skip) && (forall i :: 0 <= i < |bs| ==> BlockOk(bs[i]))
                 && sent == BytesBits(header) + SentBits(bs)
  {
    hide BlockOk, SentBits, BytesBits;
  }

  lemma ToldNothing()
    ensures Told([], [], 0, 0, [])
  {
  }

  /** The blocks give the first `n` bytes, from a mark on do so on their own, and, if `told`, are what has been sent. */
  ghost predicate Settled(header: seq<byte>, s: seq<byte>, bs: seq<Block>, n: nat, far: int, origin: nat, first: nat,
      skip: nat, sent: seq<bool>, told: bool) {
    && first <= |bs| && (told ==> Told(header, bs, first, skip, sent))
    && BlocksCover(s, bs, n) && BlocksWithin(bs, far) && Afresh(s, origin, bs, first, n, [], n)
  }

  lemma SettledIs(header: seq<byte>, s: seq<byte>, bs: seq<Block>, n: nat, far: int, origin: nat, first: nat,
      skip: nat, sent: seq<bool>, told: bool)
    requires Settled(header, s, bs, n, far, origin, first, skip, sent, told)
    ensures first <= |bs| && (told ==> Told(header, bs, first, skip, sent)) && BlocksCover(s, bs, n)
  {
    hide Told, BlocksCover, BlocksWithin, Afresh;
  }

  lemma MakeSettled(header: seq<byte>, s: seq<byte>, bs: seq<Block>, n: nat, far: int, origin: nat, first: nat,
      skip: nat, sent: seq<bool>, told: bool)
    requires first <= |bs| && (told ==> Told(header, bs, first, skip, sent)) && BlocksCover(s, bs, n)
    requires BlocksWithin(bs, far) && Afresh(s, origin, bs, first, n, [], n)
    ensures Settled(header, s, bs, n, far, origin, first, skip, sent, told)
  {
    hide Told, BlocksCover, BlocksWithin, Afresh;
  }

  /** A new mark at the end of what has been sent. */
  lemma SettledHere(header: seq<byte>, s: seq<byte>, bs: seq<Block>, far: int, origin: nat, first: nat, skip: nat,
      sent: seq<bool>, told: bool, n: nat)
    requires Settled(header, s, bs, |s|, far, origin, first, skip, sent, told)
    requires told ==> Told(header, bs, |bs|, n, sent)
    ensures Settled(header, s, bs, |s|, far, |s|, |bs|, n, sent, told)
  {
    hide BlocksCover, BlocksWithin, Told, Afresh;
    AfreshHere(s, bs, |s|);
  }

  /** An empty block more. */
  lemma SettledEmpty(header: seq<byte>, s: seq<byte>, bs: seq<Block>, n: nat, far: int, origin: nat, first: nat,
      skip: nat, sent: seq<bool>, told: bool, b: Block)
    requires Settled(header, s, bs, n, far, origin, first, skip, sent, told) && b in {Stored([]), Fixed([])}
    ensures BlockOk(b) && Settled(header, s, bs + [b], n, far, origin, first, skip, WithBlock(sent, b, false), told)
  {
    hide BlocksCover, BlocksWithin, SentBits, BytesBits, WithBlock, Afresh, BlockOk, Marked;
    EmptyBlock(header, s, bs, n, far, b);
    if told {
      MarkedMore(bs, first, skip, b);
    }
    NoneBetween(s, bs, n);
    AfreshBlock(s, origin, bs, first, n, [], n, b);
  }

  lemma NoneBetween(s: seq<byte>, bs: seq<Block>, n: nat)
    requires BlocksCover(s, bs, n)
    ensures n <= |s| && s[n..n] == []
  {
  }

  /** The empty blocks of _tr_align. */
  function EmptyFixedBlocks(two: bool): seq<Block> {
    if two then [Fixed([]), Fixed([])] else [Fixed([])]
  }

  lemma SettledAligned(header: seq<byte>, s: seq<byte>, bs: seq<Block>, n: nat, far: int, origin: nat, first: nat,
      skip: nat, sent: seq<bool>, told: bool, two: bool)
    requires Settled(header, s, bs, n, far, origin, first, skip, sent, told)
    ensures Settled(header, s, bs + EmptyFixedBlocks(two), n, far, origin, first, skip, Aligned(sent, two), told)
  {
    hide Settled, WithBlock, BlockOk;
    SettledEmpty(header, s, bs, n, far, origin, first, skip, sent, told, Fixed([]));
    if two {
      var t := WithBlock(sent, Fixed([]), false);
      SettledEmpty(header, s, bs + [Fixed([])], n, far, origin, first, skip, t, told, Fixed([]));
      assert bs + [Fixed([])] + [Fixed([])] == bs + EmptyFixedBlocks(true);
    }
  }

  /** Blocks after whole bytes are the same bits. */
  lemma {:induction false} SentSplit(bs: seq<Block>, first: nat, skip: nat)
    requires Marked(bs, first, skip)
    ensures SentBits(bs) == SentBits(bs[..first]) + SentBits(bs[first..])
    decreases |bs|
  {
    hide BlockOk, BlockBits;
    if first == |bs| {
      assert bs[..first] == bs && bs[first..] == [];
      assert SentBits(bs) + [] == SentBits(bs);
    } else {
      var n := |bs| - 1;
      var front, b := bs[..n], bs[n];
      assert front[..first] == bs[..first] && front[first..] == bs[first..][..n - first];
      SentSplit(front, first, skip);
      var x, y := SentBits(bs[..first]), SentBits(front[first..]);
      assert |x + y| == 8 * skip + |y|;
      BlockShift(b, false, skip, |y|);
      assert bs[first..][|bs| - first - 1] == b;
      assert x + y + BlockBits(b, false, |y|) == x + (y + BlockBits(b, false, |y|));
    }
  }

  /** The bits of a finished stream after a mark are those of the stream of the blocks after it. */
  lemma StreamSplit(bs: seq<Block>, first: nat, skip: nat)
    requires Marked(bs, first, skip) && first < |bs| && BlocksOk(bs, []) && BlocksOk(bs[first..], [])
    ensures StreamBits(bs, [], 0) == SentBits(bs[..first]) + StreamBits(bs[first..], [], 0)
  {
    hide BlockOk, BlockBits, BlocksOk, StreamBits, SentBits;
    var n := |bs| - 1;
    var front, b := bs[..n], bs[n];
    var tail := front[first..];
    assert bs == front + [b] && bs[first..] == tail + [b] && front[..first] == bs[..first];
    SentSplit(front, first, skip);
    StreamOf(front, b);
    StreamOf(tail, b);
    var x, y := SentBits(bs[..first]), SentBits(tail);
    BlockShift(b, true, skip, |y|);
    Regroup(x, y, BlockBits(b, true, |y|));
  }

  /** A stream is all its blocks but the last, and the last. */
  lemma StreamOf(bs: seq<Block>, b: Block)
    requires (forall i :: 0 <= i < |bs| ==> BlockOk(bs[i])) && BlockOk(b) && BlocksOk(bs + [b], [])
    ensures StreamBits(bs + [b], [], 0) == SentBits(bs) + BlockBits(b, true, |SentBits(bs)|)
  {
    hide BlockOk, BlockBits, BlocksOk, StreamBits, SentBits, SentAfter;
    SentSame(bs);
    StreamIs(bs, b, [], []);
    assert [] + StreamBits(bs + [b], [], 0) == StreamBits(bs + [b], [], 0);
  }

  lemma Regroup(x: seq<bool>, y: seq<bool>, z: seq<bool>)
    ensures x + y + z == x + (y + z)
  {
  }
}
