/** compress_block and send_all_trees: sending a block's data and its header. */
module CompressBlock {
  import opened Bits
  import opened CanonicalCode
  import opened CodeTables
  import opened InfTrees
  import opened Tokens
  import opened FixedCode
  import opened InflateSpec
  import opened RunCoding
  import opened SendTree
  import opened HeaderDecode
  import opened DataDecode
  import opened StaticTables
  import opened BitQueue
  import opened Overlay

  /** The constant tables of tr_static_init. */
  datatype Tables = Tables(lengthCode: seq<nat>, baseLength: seq<nat>, distCode: seq<nat>, baseDist: seq<nat>)

  ghost predicate TablesOk(t: Tables) {
    && |t.lengthCode| == 256 && |t.baseLength| == LENGTH_CODES && |t.distCode| == 512 && |t.baseDist| == D_CODES
    && (forall lc :: 0 <= lc < 256 ==> t.lengthCode[lc] == LengthCode(lc))
    && (forall c :: 0 <= c < LENGTH_CODES - 1 ==> t.baseLength[c] == LenBase(c) - MIN_MATCH)
    && (forall d :: 0 <= d < WSIZE ==> DCode(t.distCode, d) == DistanceCode(d + 1))
    && (forall c :: 0 <= c < D_CODES ==> t.baseDist[c] == DistBase(c) - 1)
  }

  method MakeTables() returns (t: Tables)
    ensures TablesOk(t)
  {
    hide LengthCode, DistanceCode, LenBase, DistBase, DCode;
    var lengthCode, baseLength := LengthTables();
    var distCode, baseDist := DistanceTables();
    t := Tables(lengthCode[..], baseLength[..], distCode[..], baseDist[..]);
  }

  /** The length half of a match. */
  method SendLength(q: Queue, tables: Tables, lc0: nat, fc: seq<nat>, dl: seq<nat>, ghost ll: seq<nat>)
    requires q.Valid() && q.Ready() && TablesOk(tables) && CodesIn(fc, dl, ll)
    requires lc0 < 256 && IsSymbol(ll, 257 + LengthCode(lc0))
    modifies q`pendingBuf, q`pending, q`biBuf, q`biValid
    ensures q.Valid() && q.Ready() && q.delivered == old(q.delivered) && q.Sent() == old(q.Sent()) + LengthBits(ll, lc0)
  {
    hide CodesIn, LengthCode, DistanceCode, LenBase, LenExtra, DistBase, BitsOf, Pow2, CodeBits, DCode;
    LengthCodeFits(lc0);
    LastLength();
    ghost var s := q.Sent();
    var lc, code := lc0, tables.lengthCode[lc0];
    SendCode(q, code + 257, fc, dl, ll);
    var extra := LenExtra(code);
    LengthShape(ll, lc0);
    if extra != 0 {
      lc := lc - tables.baseLength[code];
      ExtraAtMost(code);
      q.SendBits(lc, extra);
      assert s + CodeBits(ll, 257 + code) + BitsOf(lc, extra) == s + LengthBits(ll, lc0);
    }
  }

  lemma ExtraAtMost(c: nat)
    ensures c < LENGTH_CODES ==> LenExtra(c) <= 5
    ensures c < D_CODES ==> DistExtra(c) <= 13
  {
  }

  lemma LengthShape(ll: seq<nat>, lc: nat)
    requires lc < 256 && IsSymbol(ll, 257 + LengthCode(lc))
    ensures LenBase(LengthCode(lc)) <= lc + MIN_MATCH
    ensures LengthBits(ll, lc) == CodeBits(ll, 257 + LengthCode(lc)) + BitsOf(lc + MIN_MATCH - LenBase(LengthCode(lc)),
            LenExtra(LengthCode(lc)))
    ensures LenExtra(LengthCode(lc)) == 0 ==> LengthBits(ll, lc) == CodeBits(ll, 257 + LengthCode(lc))
  {
    hide LengthCode, LenBase, LenExtra, CodeBits;
    LengthCodeFits(lc);
  }

  lemma DistanceShape(dd: seq<nat>, dist: nat)
    requires 1 <= dist <= WSIZE && IsSymbol(dd, DistanceCode(dist))
    ensures DistBase(DistanceCode(dist)) <= dist
    ensures DistanceBits(dd, dist) == CodeBits(dd, DistanceCode(dist)) + BitsOf(dist - DistBase(DistanceCode(dist)),
            DistExtra(DistanceCode(dist)))
    ensures DistExtra(DistanceCode(dist)) == 0 ==> DistanceBits(dd, dist) == CodeBits(dd, DistanceCode(dist))
  {
    hide DistanceCode, DistBase, DistExtra, CodeBits;
    DistanceCodeFits(dist);
  }

  /** The distance half of a match. */
  method SendDistance(q: Queue, tables: Tables, dist0: nat, fc: seq<nat>, dl: seq<nat>, ghost dd: seq<nat>)
    requires q.Valid() && q.Ready() && TablesOk(tables) && CodesIn(fc, dl, dd)
    requires 1 <= dist0 <= WSIZE && IsSymbol(dd, DistanceCode(dist0))
    modifies q`pendingBuf, q`pending, q`biBuf, q`biValid
    ensures q.Valid() && q.Ready() && q.delivered == old(q.delivered)
    ensures q.Sent() == old(q.Sent()) + DistanceBits(dd, dist0)
  {
    hide CodesIn, LengthCode, DistanceCode, LenBase, DistExtra, DistBase, BitsOf, Pow2, CodeBits, DCode;
    DistanceCodeFits(dist0);
    ghost var s := q.Sent();
    var dist := dist0 - 1;
    var code := DCode(tables.distCode, dist);
    SendCode(q, code, fc, dl, dd);
    var extra := DistExtra(code);
    DistanceShape(dd, dist0);
    if extra != 0 {
      dist := dist - tables.baseDist[code];
      ExtraAtMost(code);
      q.SendBits(dist, extra);
      assert s + CodeBits(dd, code) + BitsOf(dist, extra) == s + DistanceBits(dd, dist0);
    }
  }

  method SendToken(q: Queue, tables: Tables, t: Token, lfc: seq<nat>, ldl: seq<nat>, dfc: seq<nat>, ddl: seq<nat>,
                   ghost ll: seq<nat>, ghost dd: seq<nat>)
    requires q.Valid() && q.Ready() && TablesOk(tables) && CodesIn(lfc, ldl, ll) && CodesIn(dfc, ddl, dd)
    requires CodedToken(ll, dd, t)
    modifies q`pendingBuf, q`pending, q`biBuf, q`biValid
    ensures q.Valid() && q.Ready() && q.delivered == old(q.delivered)
    ensures q.Sent() == old(q.Sent()) + EncodeToken(ll, dd, t)
  {
    hide CodesIn, TablesOk, LengthBits, DistanceBits, CodeBits, LengthCode, DistanceCode;
    if t.dist == 0 {
      SendCode(q, t.lc, lfc, ldl, ll);
    } else {
      ghost var s := q.Sent();
      SendLength(q, tables, t.lc, lfc, ldl, ll);
      SendDistance(q, tables, t.dist, dfc, ddl, dd);
      assert s + LengthBits(ll, t.lc) + DistanceBits(dd,
          t.dist) == s + (LengthBits(ll, t.lc) + DistanceBits(dd, t.dist));
    }
  }

  lemma {:induction false} EncodeSnoc(ll: seq<nat>, dd: seq<nat>, ts: seq<Token>, n: nat)
    requires CodedTokens(ll, dd, ts) && n < |ts|
    ensures EncodeTokens(ll, dd, ts[..n + 1]) == EncodeTokens(ll, dd, ts[..n]) + EncodeToken(ll, dd, ts[n])
  {
    hide CodedToken, EncodeToken;
    var a, b := ts[..n + 1], ts[..n];
    if n == 0 {
      assert a == [ts[0]] && b == [];
      assert a[1..] == [];
      assert EncodeTokens(ll, dd, a) == EncodeToken(ll, dd, a[0]) + EncodeTokens(ll, dd, a[1..]);
      assert EncodeToken(ll, dd, ts[0]) + [] == [] + EncodeToken(ll, dd, ts[0]);
    } else {
      EncodeSnoc(ll, dd, ts[1..], n - 1);
      assert a[1..] == ts[1..][..n] && b[1..] == ts[1..][..n - 1];
      var x, y, z := EncodeToken(ll, dd, ts[0]), EncodeTokens(ll, dd, b[1..]), EncodeToken(ll, dd, ts[n]);
      assert x + (y + z) == (x + y) + z;
    }
  }

  /**
   compress_block: the tokens in order, then the end-of-block code.  It ends early when it comes to
   an entry that has been overwritten, where the source reads something else instead.
   */
  method CompressBlock(q: Queue, tables: Tables, tokens: seq<Token>, size: nat, lfc: seq<nat>, ldl: seq<nat>,
      dfc: seq<nat>, ddl: seq<nat>, ghost ll: seq<nat>, ghost dd: seq<nat>) returns (ok: bool, lastEobLen: nat)
    requires q.Valid() && q.Ready() && TablesOk(tables) && CodesIn(lfc, ldl, ll) && CodesIn(dfc, ddl, dd)
    requires CodedTokens(ll, dd, tokens) && IsSymbol(ll, END_BLOCK)
    modifies q`pendingBuf, q`pending, q`biBuf, q`biValid
    ensures q.Valid() && q.Ready()
    ensures ok <==> TokensClear(ll, dd, tokens, 0, old(q.pending), old(q.biValid), size)
    ensures ok ==> q.Sent() == old(q.Sent()) + DataBits(ll, dd, tokens)
    ensures lastEobLen == ll[END_BLOCK]
  {
    hide TablesOk, CodedToken, EncodeToken, EncodeTokens, CodeBits, IsSymbol, Huff, Fits, Queue.Sent, Queue.Valid,
         Queue.Ready, PutBytes;
    ghost var s, p, held := q.Sent(), q.pending, q.biValid;
    EndSymbol(ll);
    lastEobLen := ldl[END_BLOCK];
    assert EncodeTokens(ll, dd, tokens[..0]) == [] by { NoTokens(ll, dd, tokens[..0]); }
    q.Start();
    var lx := 0;
    if |tokens| != 0 {
      while lx < |tokens|
        invariant 0 <= lx <= |tokens| && q.Valid() && q.Ready()
        invariant q.Sent() == s + EncodeTokens(ll, dd, tokens[..lx])
        invariant forall i :: 0 <= i < lx ==> p + PutBefore(ll, dd, tokens, i, 0, held) <= size + 2 * i
      {
        q.PutSince(p, held, |EncodeTokens(ll, dd, tokens[..lx])|);
        assert q.pending == p + PutBefore(ll, dd, tokens, lx, 0, held);
        if q.pending > size + 2 * lx {
          return false, lastEobLen;
        }
        SendToken(q, tables, tokens[lx], lfc, ldl, dfc, ddl, ll, dd);
        EncodeSnoc(ll, dd, tokens, lx);
        assert s + EncodeTokens(ll, dd, tokens[..lx]) + EncodeToken(ll, dd, tokens[lx])
            == s + (EncodeTokens(ll, dd, tokens[..lx]) + EncodeToken(ll, dd, tokens[lx]));
        lx := lx + 1;
      }
    }
    assert tokens[..lx] == tokens;
    SendCode(q, END_BLOCK, lfc, ldl, ll);
    ok := true;
    assert s + EncodeTokens(ll, dd, tokens) + CodeBits(ll,
        END_BLOCK) == s + (EncodeTokens(ll, dd, tokens) + CodeBits(ll, END_BLOCK));
  }

  lemma EndSymbol(ll: seq<nat>)
    requires IsSymbol(ll, END_BLOCK)
    ensures END_BLOCK < |ll| && ll[END_BLOCK] > 0
  {
  }

  lemma NoTokens(ll: seq<nat>, dd: seq<nat>, ts: seq<Token>)
    requires ts == []
    ensures CodedTokens(ll, dd, ts) && EncodeTokens(ll, dd, ts) == []
  {
  }

  // ---------- the header ----------

  /** send_all_trees: the counts, the lengths of the code-length code, and both trees. */
  method SendAllTrees(q: Queue, lcodes: nat, dcodes: nat, blcodes: nat, ltree: seq<nat>, dtree: seq<nat>, bfc: seq<nat>,
      bdl: seq<nat>,
                      ghost bl: seq<nat>)
    requires q.Valid() && q.Ready() && CodesIn(bfc, bdl, bl) && |bdl| >= 19 && bl == bdl[..19]
    requires lcodes < |ltree| && dcodes < |dtree| && ltree[lcodes] == 0xffff && dtree[dcodes] == 0xffff
    requires HeaderOk(ltree[..lcodes], dtree[..dcodes], bl, blcodes)
    modifies q`pendingBuf, q`pending, q`biBuf, q`biValid
    ensures q.Valid() && q.Ready() && q.delivered == old(q.delivered)
    ensures q.Sent() == old(q.Sent()) + HeaderBits(ltree[..lcodes], dtree[..dcodes], bl, blcodes)
    ensures |q.Sent()| >= |old(q.Sent())| + 14 + 3 * blcodes
    ensures forall k :: 0 <= k < blcodes && k < 19 ==>
              q.Sent()[|old(q.Sent())| + 14 + 3 * k..|old(q.Sent())| + 17 + 3 * k] == BitsOf(bdl[HeaderSymbol(k)], 3)
  {
    hide CodesIn, BitsOf, Pow2, LensBits, SentLens, EncodeRuns, Coded, Acceptable, Complete, Runs, ThreeBit, ShortLens,
         OrderOf, HeaderOk;
    ghost var s := q.Sent();
    ghost var ll, dd := ltree[..lcodes], dtree[..dcodes];
    HeaderFacts(ll, dd, bl, blcodes);
    SendCounts(q, lcodes, dcodes, blcodes);
    SendLensOfLens(q, blcodes, bdl, bl);
    SendTree.SendTree(q, ltree, lcodes - 1, bfc, bdl, bl);
    SendTree.SendTree(q, dtree, dcodes - 1, bfc, bdl, bl);
    HeaderParts(s, ll, dd, bl, blcodes);
    HeaderOrder(s, ll, dd, bl, blcodes);
  }

  /** Which symbol of the code-length code each three bits after the counts are for. */
  lemma HeaderOrder(s: seq<bool>, ll: seq<nat>, dd: seq<nat>, bl: seq<nat>, n: nat)
    requires |ll| >= 257 && |dd| >= 1 && 4 <= n <= 19 && |bl| == 19
    ensures var t := s + HeaderBits(ll, dd, bl, n);
            && |t| >= |s| + 14 + 3 * n
            && forall k :: 0 <= k < n ==> t[|s| + 14 + 3 * k..|s| + 17 + 3 * k] == BitsOf(bl[HeaderSymbol(k)], 3)
  {
    hide BitsOf, LensBits, SentLens, EncodeRuns, Runs, OrderOf, HeaderSymbol;
    var t := s + HeaderBits(ll, dd, bl, n);
    var lens := SentLens(bl, n);
    var counts := BitsOf(|ll| - 257, 5) + BitsOf(|dd| - 1, 5) + BitsOf(n - 4, 4);
    LensBitsAt(lens, 0);
    forall k | 0 <= k < n ensures t[|s| + 14 + 3 * k..|s| + 17 + 3 * k] == BitsOf(bl[HeaderSymbol(k)], 3) {
      LensBitsAt(lens, k);
      OrderIs(k);
      assert t == s + counts + LensBits(lens) + (EncodeRuns(bl, Runs(ll)) + EncodeRuns(bl, Runs(dd)));
      assert t[|s| + 14 + 3 * k..|s| + 17 + 3 * k] == LensBits(lens)[3 * k..3 * k + 3];
    }
  }

  lemma {:induction false} LensBitsAt(lens: seq<nat>, k: nat)
    ensures |LensBits(lens)| == 3 * |lens|
    ensures k < |lens| ==> LensBits(lens)[3 * k..3 * k + 3] == BitsOf(lens[k], 3)
    decreases |lens|
  {
    hide BitsOf;
    if lens != [] {
      LensBitsAt(lens[..|lens| - 1], k);
    }
  }

  method SendCounts(q: Queue, lcodes: nat, dcodes: nat, blcodes: nat)
    requires q.Valid() && q.Ready() && 257 <= lcodes <= 286 && 1 <= dcodes <= 30 && 4 <= blcodes <= 19
    modifies q`pendingBuf, q`pending, q`biBuf, q`biValid
    ensures q.Valid() && q.Ready() && q.delivered == old(q.delivered)
    ensures q.Sent() == old(q.Sent()) + (BitsOf(lcodes - 257, 5) + BitsOf(dcodes - 1, 5) + BitsOf(blcodes - 4, 4))
  {
    hide BitsOf, Pow2;
    Pow2Values();
    q.SendBits(lcodes - 257, 5);
    q.SendBits(dcodes - 1, 5);
    q.SendBits(blcodes - 4, 4);
  }

  lemma HeaderFacts(ll: seq<nat>, dd: seq<nat>, bl: seq<nat>, n: nat)
    requires HeaderOk(ll, dd, bl, n)
    ensures 257 <= |ll| <= 286 && 1 <= |dd| <= 30 && 4 <= n <= 19 && ThreeBit(bl)
    ensures ShortLens(ll) && ShortLens(dd) && Coded(bl, Runs(ll)) && Coded(bl, Runs(dd))
  {
    hide Coded, Acceptable, Complete, Runs, ThreeBit;
    ValidIsShort(ll);
    ValidIsShort(dd);
  }

  lemma HeaderParts(s: seq<bool>, ll: seq<nat>, dd: seq<nat>, bl: seq<nat>, n: nat)
    requires |ll| >= 257 && |dd| >= 1 && 4 <= n <= 19 && |bl| == 19
    ensures s + (BitsOf(|ll| - 257, 5) + BitsOf(|dd| - 1, 5) + BitsOf(n - 4, 4)) + LensBits(SentLens(bl, n))
              + EncodeRuns(bl, Runs(ll)) + EncodeRuns(bl, Runs(dd))
         == s + HeaderBits(ll, dd, bl, n)
  {
    hide BitsOf, LensBits, SentLens, EncodeRuns, Runs;
  }

  lemma ValidIsShort(lens: seq<nat>)
    requires ValidLens(lens)
    ensures ShortLens(lens)
  {
  }

  method SendLensOfLens(q: Queue, blcodes: nat, bdl: seq<nat>, ghost bl: seq<nat>)
    requires q.Valid() && q.Ready() && |bdl| >= 19 && bl == bdl[..19] && blcodes <= 19 && ThreeBit(bl)
    modifies q`pendingBuf, q`pending, q`biBuf, q`biValid
    ensures q.Valid() && q.Ready() && q.delivered == old(q.delivered)
    ensures q.Sent() == old(q.Sent()) + LensBits(SentLens(bl, blcodes))
  {
    hide BitsOf, Pow2, OrderOf, LensBits, SentLens, ThreeBit, Queue.Valid, Queue.Sent, Queue.Ready;
    ghost var s := q.Sent();
    NoLens(bl);
    var rank := 0;
    while rank < blcodes
      invariant 0 <= rank <= blcodes && q.Valid() && q.Ready() && q.delivered == old(q.delivered)
      invariant q.Sent() == s + LensBits(SentLens(bl, rank))
    {
      NextLen(bl, rank);
      q.SendBits(bdl[OrderOf()[rank]], 3);
      rank := rank + 1;
    }
  }

  lemma NoLens(bl: seq<nat>)
    requires |bl| == 19
    ensures LensBits(SentLens(bl, 0)) == []
  {
  }

  lemma NextLen(bl: seq<nat>, rank: nat)
    requires |bl| == 19 && rank < 19 && ThreeBit(bl)
    ensures bl[OrderOf()[rank]] < Pow2(3)
    ensures LensBits(SentLens(bl, rank + 1)) == LensBits(SentLens(bl, rank)) + BitsOf(bl[OrderOf()[rank]], 3)
  {
    hide BitsOf, OrderOf;
    assert SentLens(bl, rank + 1)[..rank] == SentLens(bl, rank);
  }
}
