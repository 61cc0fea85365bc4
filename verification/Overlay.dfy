/**
 pending_buf shares its memory with d_buf and l_buf: the output of a block is put over the tokens
 that have been read.  When the output runs ahead of the reading, tokens are lost.
 */
module Overlay {
  import opened Bits
  import opened CodeTables
  import opened InfTrees
  import opened Tokens
  import opened FixedCode
  import opened InflateSpec
  import opened HeaderDecode
  import opened DataDecode
  import opened StreamDecode
  import opened BitQueue

  // ---------- the memory ----------

  /** A 16-bit number in memory, in either byte order. */
  function Short(w: nat, big: bool): seq<byte>
    requires w < 0x10000
  {
    if big then [(w / 256) as byte, (w % 256) as byte] else [(w % 256) as byte, (w / 256) as byte]
  }

  /** Entry `lx` of d_buf, which starts at byte `size`, and of l_buf, which starts at byte 3 * `size`. */
  predicate Holds(mem: seq<byte>, size: nat, lx: nat, t: Token, big: bool)
    requires |mem| == 4 * size && lx < size && ValidToken(t)
  {
    mem[size + 2 * lx..size + 2 * lx + 2] == Short(t.dist, big) && mem[3 * size + lx] == t.lc as byte
  }

  /** The memory after `out` has been put from its start on. */
  function Put(mem: seq<byte>, out: seq<byte>): (r: seq<byte>)
    ensures |r| == |mem|
  {
    if |out| <= |mem| then out + mem[|out|..] else out[..|mem|]
  }

  /** Whatever the bytes are, `n` of them leave an entry alone exactly when they end before it. */
  lemma EntryKept(mem: seq<byte>, size: nat, lx: nat, t: Token, big: bool, n: nat)
    requires |mem| == 4 * size && lx < size && ValidToken(t) && Holds(mem, size, lx, t, big)
    ensures n <= size + 2 * lx <==> forall out :: |out| == n ==> Holds(Put(mem, out), size, lx, t, big)
  {
    var at := size + 2 * lx;
    if n <= at {
      forall out: seq<byte> | |out| == n ensures Holds(Put(mem, out), size, lx, t, big) {
        assert Put(mem, out)[at..at + 2] == mem[at..at + 2];
      }
    } else {
      var other: byte := if mem[at] == 0 then 1 else 0;
      var out := seq(n, _ => other);
      assert Put(mem, out)[at..at + 2][0] == other && mem[at..at + 2][0] == mem[at];
      assert !Holds(Put(mem, out), size, lx, t, big);
    }
  }

  // ---------- when the tokens are read in time ----------

  /** Bytes put before token `lx` is read, with `before` bits sent before the first. */
  ghost function PutBefore(ll: seq<nat>, dd: seq<nat>, ts: seq<Token>, lx: nat, before: nat, held: nat): nat
    requires CodedTokens(ll, dd, ts) && lx <= |ts|
  {
    PutBytes(held, before + |EncodeTokens(ll, dd, ts[..lx])|)
  }

  /** With `p` bytes pending and `held` bits held back, no token is reached before it is read. */
  ghost predicate TokensClear(ll: seq<nat>, dd: seq<nat>, ts: seq<Token>, before: nat, p: nat, held: nat, size: nat) {
    && CodedTokens(ll, dd, ts)
    && forall lx :: 0 <= lx < |ts| ==> p + PutBefore(ll, dd, ts, lx, before, held) <= size + 2 * lx
  }

  /** Every token is read back as it was tallied, whatever is sent, if and only if the tokens are clear. */
  lemma ReadBack(mem: seq<byte>, size: nat, big: bool, ll: seq<nat>, dd: seq<nat>, ts: seq<Token>, p: nat, held: nat)
    requires |mem| == 4 * size && |ts| <= size && CodedTokens(ll, dd, ts) && ValidTokens(ts)
    requires forall lx :: 0 <= lx < |ts| ==> Holds(mem, size, lx, ts[lx], big)
    ensures TokensClear(ll, dd, ts, 0, p, held, size)
            <==> forall lx, out :: 0 <= lx < |ts| && |out| == p + PutBefore(ll, dd, ts, lx, 0, held) ==>
                                     Holds(Put(mem, out), size, lx, ts[lx], big)
  {
    hide CodedTokens, PutBefore, Holds, Put;
    forall lx | 0 <= lx < |ts|
      ensures p + PutBefore(ll, dd, ts, lx, 0, held) <= size + 2 * lx
              <==> forall out :: |out| == p + PutBefore(ll, dd, ts, lx, 0, held) ==>
                                   Holds(Put(mem, out), size, lx, ts[lx], big)
    {
      EntryKept(mem, size, lx, ts[lx], big, p + PutBefore(ll, dd, ts, lx, 0, held));
    }
  }

  /** Bits sent before the tokens count like bytes pending and bits held back. */
  lemma ClearAfter(ll: seq<nat>, dd: seq<nat>, ts: seq<Token>, before: nat, p: nat, held: nat, size: nat)
    ensures var k := PutBytes(held, before);
            8 * k <= held + before
            && (TokensClear(ll, dd, ts, before, p, held, size)
                <==> TokensClear(ll, dd, ts, 0, p + k, held + before - 8 * k, size))
  {
    hide CodedToken, EncodeTokens, PutBytes;
    PutBytesAdd(held, before, 0);
    var k := PutBytes(held, before);
    var held' := held + before - 8 * k;
    if CodedTokens(ll, dd, ts) {
      forall lx | 0 <= lx < |ts|
        ensures p + PutBefore(ll, dd, ts, lx, before, held) <= size + 2 * lx
                <==> p + k + PutBefore(ll, dd, ts, lx, 0, held') <= size + 2 * lx
      {
        PutBytesAdd(held, before, |EncodeTokens(ll, dd, ts[..lx])|);
      }
    }
  }

  /** No token of the block is overwritten before it is read. */
  ghost predicate Clear(b: Block, p: nat, held: nat, size: nat)
    requires BlockOk(b)
  {
    match b
    case Stored(_) => true
    case Fixed(ts) => TokensClear(FixedLens(), FixedDists(), ts, 3, p, held, size)
    case Dynamic(ts, ll, dd, bl, n) => TokensClear(ll, dd, ts, 3 + |HeaderBits(ll, dd, bl, n)|, p, held, size)
  }

  // ---------- where it is enough ----------

  /** Tokens of 24 bits on average, as they come, are always read in time. */
  lemma AverageClear(ll: seq<nat>, dd: seq<nat>, ts: seq<Token>, held: nat, size: nat)
    requires CodedTokens(ll, dd, ts) && |ts| < size && held <= BUF_SIZE
    requires forall lx :: 0 <= lx < |ts| ==> |EncodeTokens(ll, dd, ts[..lx])| <= 24 * lx
    ensures TokensClear(ll, dd, ts, 3, 0, held, size)
  {
    hide CodedTokens, EncodeTokens;
  }
}
