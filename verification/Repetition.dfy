/**
 What whole runs of the matcher cannot miss: a byte that repeats the one before it for as long as a match
 can get is not sent as a literal after a literal.
 */
module Repetition {
  import opened Bits
  import opened Tokens
  import opened StreamDecode
  import opened Coverage

  /** The bytes from `p` on do not all repeat the one before `p`, as far as a match can reach. */
  ghost predicate Varies(s: seq<byte>, p: nat) {
    1 <= p && p + MAX_MATCH <= |s| && exists k :: p <= k < p + MAX_MATCH && s[k] != s[p - 1]
  }

  /**
   They do not; or they were not all there when the compressor had to go on, as it had with as many bytes
   as are listed; or this is the second byte of all, since the first cannot be found.
   */
  ghost predicate RunEnds(s: seq<byte>, p: nat, ends: set<nat>) {
    p < 2 || (exists e :: e in ends && p <= e < p + MAX_MATCH) || Varies(s, p)
  }

  /** After `from` bytes of `s`, where a literal follows a literal no long run is missed. */
  ghost predicate LitsApart(s: seq<byte>, from: nat, ts: seq<Token>, ends: set<nat>) {
    forall i: nat :: i < |ts| ==> ApartAt(s, from, ts, i, ends)
  }

  ghost predicate ApartAt(s: seq<byte>, from: nat, ts: seq<Token>, i: nat, ends: set<nat>)
    requires i < |ts|
  {
    i > 0 && ts[i].dist == 0 && ts[i - 1].dist == 0 ==> RunEnds(s, from + TokensLength(ts[..i]), ends)
  }

  /** And so in all blocks of tokens. */
  ghost predicate BlocksApart(s: seq<byte>, bs: seq<Block>, ends: set<nat>) {
    forall i :: 0 <= i < |bs| && !bs[i].Stored? ==> LitsApart(s, |AfterAll([], bs[..i])|, bs[i].tokens, ends)
  }

  /** The last token is a literal. */
  predicate LastLit(ts: seq<Token>) {
    ts != [] && ts[|ts| - 1].dist == 0
  }

  /** In full: two literals in a row, the second for the byte at `p`. */
  lemma ApartMeans(s: seq<byte>, bs: seq<Block>, ends: set<nat>, i: nat, j: nat)
    requires BlocksApart(s, bs, ends) && i < |bs| && !bs[i].Stored? && 1 <= j < |bs[i].tokens|
    requires bs[i].tokens[j - 1].dist == 0 && bs[i].tokens[j].dist == 0
    ensures var p := |AfterAll([], bs[..i])| + TokensLength(bs[i].tokens[..j]);
            || p < 2
            || (exists e :: e in ends && p <= e < p + 258)
            || (p + 258 <= |s| && exists k :: p <= k < p + 258 && s[k] != s[p - 1])
  {
    hide AfterAll, TokensLength;
    assert ApartAt(s, |AfterAll([], bs[..i])|, bs[i].tokens, j, ends);
  }

  lemma EndsMore(s: seq<byte>, s': seq<byte>, p: nat, ends: set<nat>, ends': set<nat>)
    requires RunEnds(s, p, ends) && s <= s' && ends <= ends'
    ensures RunEnds(s', p, ends')
  {
    if Varies(s, p) {
      var k :| p <= k < p + MAX_MATCH && s[k] != s[p - 1];
      assert s'[k] != s'[p - 1];
    } else if p >= 2 {
      var e :| e in ends && p <= e < p + MAX_MATCH;
      assert e in ends';
    }
  }

  lemma ApartMore(s: seq<byte>, s': seq<byte>, from: nat, ts: seq<Token>, ends: set<nat>, ends': set<nat>)
    requires LitsApart(s, from, ts, ends) && s <= s' && ends <= ends'
    ensures LitsApart(s', from, ts, ends')
  {
    hide RunEnds, TokensLength;
    forall i: nat | i < |ts| ensures ApartAt(s', from, ts, i, ends') {
      assert ApartAt(s, from, ts, i, ends);
      if i > 0 && ts[i].dist == 0 && ts[i - 1].dist == 0 {
        EndsMore(s, s', from + TokensLength(ts[..i]), ends, ends');
      }
    }
  }

  lemma BlocksApartMore(s: seq<byte>, s': seq<byte>, bs: seq<Block>, ends: set<nat>, ends': set<nat>)
    requires BlocksApart(s, bs, ends) && s <= s' && ends <= ends'
    ensures BlocksApart(s', bs, ends')
  {
    hide LitsApart, AfterAll;
    forall i | 0 <= i < |bs| && !bs[i].Stored?
      ensures LitsApart(s', |AfterAll([], bs[..i])|, bs[i].tokens, ends')
    {
      ApartMore(s, s', |AfterAll([], bs[..i])|, bs[i].tokens, ends, ends');
    }
  }

  lemma NoneApart(s: seq<byte>, from: nat, ends: set<nat>)
    ensures LitsApart(s, from, [], ends) && BlocksApart(s, [], ends)
  {
  }

  /** A token more: a literal after a literal must not miss a run. */
  lemma ApartAdd(s: seq<byte>, from: nat, ts: seq<Token>, ends: set<nat>, t: Token)
    requires LitsApart(s, from, ts, ends)
    requires t.dist == 0 && LastLit(ts) ==> RunEnds(s, from + TokensLength(ts), ends)
    ensures LitsApart(s, from, ts + [t], ends)
  {
    hide RunEnds, TokensLength;
    var all := ts + [t];
    forall i: nat | i < |all| ensures ApartAt(s, from, all, i, ends) {
      if i < |ts| {
        assert all[..i] == ts[..i] && ApartAt(s, from, ts, i, ends);
      } else {
        assert all[..i] == ts;
      }
    }
  }

  /** A block more: of these tokens, or without any. */
  lemma BlocksApartAdd(s: seq<byte>, bs: seq<Block>, ends: set<nat>, b: Block)
    requires BlocksApart(s, bs, ends)
    requires b.Stored? || LitsApart(s, |AfterAll([], bs)|, b.tokens, ends)
    ensures BlocksApart(s, bs + [b], ends)
  {
    hide LitsApart, AfterAll;
    var all := bs + [b];
    forall i | 0 <= i < |all| && !all[i].Stored?
      ensures LitsApart(s, |AfterAll([], all[..i])|, all[i].tokens, ends)
    {
      assert all[..i] == bs[..i];
      if i == |bs| {
        assert bs[..i] == bs;
      }
    }
  }

  /** The same for the bytes that the blocks so far stand for. */
  lemma BlockApart(s: seq<byte>, bs: seq<Block>, ends: set<nat>, from: nat, ts: seq<Token>, b: Block)
    requires BlocksApart(s, bs, ends) && BlocksCover(s, bs, from) && LitsApart(s, from, ts, ends)
    requires b.Stored? || b.tokens == ts
    ensures BlocksApart(s, bs + [b], ends)
  {
    hide LitsApart, AfterAll, BlockOk, BlocksOk, BlocksApart;
    assert |s[..from]| == from;
    BlocksApartAdd(s, bs, ends, b);
  }

  lemma EmptyApart(s: seq<byte>, bs: seq<Block>, ends: set<nat>)
    requires BlocksApart(s, bs, ends)
    ensures BlocksApart(s, bs + [Stored([])], ends)
    ensures forall two :: BlocksApart(s, bs + EmptyFixedBlocks(two), ends)
  {
    hide AfterAll, LitsApart, BlocksApart;
    NoneApart(s, |AfterAll([], bs)|, ends);
    NoneApart(s, |AfterAll([], bs + [Fixed([])])|, ends);
    BlocksApartAdd(s, bs, ends, Stored([]));
    BlocksApartAdd(s, bs, ends, Fixed([]));
    BlocksApartAdd(s, bs + [Fixed([])], ends, Fixed([]));
    assert bs + [Fixed([])] + [Fixed([])] == bs + EmptyFixedBlocks(true);
  }
}
