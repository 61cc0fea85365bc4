/** _tr_tally and _tr_flush_block: collect tokens, then send them as the cheapest kind of block. */
module FlushBlock {
  import opened Bits
  import opened CanonicalCode
  import opened CodeTables
  import opened InfTrees
  import opened Tokens
  import opened FixedCode
  import opened Costs
  import opened InflateSpec
  import opened InflateRuns
  import opened RunCoding
  import opened SendTree
  import opened HeaderDecode
  import opened DataDecode
  import opened StreamDecode
  import opened StaticTables
  import opened CompressBlock
  import opened BlockTrees
  import opened BlockCosts
  import opened BitQueue
  import opened Overlay
  import opened FixedWidth

  // ---------- all three trees ----------

  /** Trees and sizes as they are when the block is about to be sent. */
  ghost predicate TreesOk(ts: seq<Token>, lfc: seq<nat>, ldl: seq<nat>, dfc: seq<nat>, ddl: seq<nat>, bfc: seq<nat>,
      bdl: seq<nat>,
                          lmax: nat, dmax: nat, n: nat) {
    && lmax + 1 < |ldl| && dmax + 1 < |ddl| && |bdl| == HEAP_SIZE && n <= 19
    && HeaderOk(ldl[..lmax + 1], ddl[..dmax + 1], bdl[..19], n) && ldl[lmax + 1] == 0xffff && ddl[dmax + 1] == 0xffff
    && CodesIn(lfc, ldl, ldl[..lmax + 1]) && CodesIn(dfc, ddl, ddl[..dmax + 1]) && CodesIn(bfc, bdl, bdl[..19])
    && CodedTokens(ldl[..lmax + 1], ddl[..dmax + 1], ts) && IsSymbol(ldl[..lmax + 1], END_BLOCK)
  }

  lemma LensFacts(f0: seq<nat>, fc: seq<nat>, dl: seq<nat>, elems: nat, maxCode: nat)
    requires GoodTree(f0, fc, dl, elems, MAX_BITS, maxCode)
    ensures maxCode < elems <= |dl| && Complete(dl[..maxCode + 1]) && ShortLens(dl[..maxCode + 1])
    ensures ValidLens(dl[..maxCode + 1])
    ensures CodesIn(fc, dl, dl[..maxCode + 1])
  {
    hide CodesIn, Kraft;
  }

  lemma GuardKeepsCodes(fc: seq<nat>, dl: seq<nat>, dl': seq<nat>, n: nat)
    requires n < |dl| && dl' == dl[n := 0xffff] && CodesIn(fc, dl, dl[..n])
    ensures dl'[..n] == dl[..n] && CodesIn(fc, dl', dl'[..n])
  {
    hide Huff, Fits;
    assert dl'[..n] == dl[..n];
  }

  /** build_tree for both data trees, then build_bl_tree; opt_len and static_len come out exact. */
  method BuildTrees(lfc: array<nat>, ldl: array<nat>, dfc: array<nat>, ddl: array<nat>, bfc: array<nat>,
      bdl: array<nat>, ghost ts: seq<Token>)
    returns (lmax: nat, dmax: nat, maxBlindex: nat, opt: int, stat: int)
    requires lfc != ldl && lfc != dfc && lfc != ddl && ldl != dfc && ldl != ddl && dfc != ddl
    requires bfc != lfc && bfc != ldl && bfc != dfc && bfc != ddl && bdl != lfc && bdl != ldl && bdl != dfc
    requires bdl != ddl && bdl != bfc
    requires ldl.Length == ddl.Length == bdl.Length == HEAP_SIZE && Tallied(lfc[..], dfc[..], bfc[..], ts)
    requires ValidTokens(ts) && |ts| < 0xFFFD
    modifies lfc, ldl, dfc, ddl, bfc, bdl
    ensures TreesOk(ts, lfc[..], ldl[..], dfc[..], ddl[..], bfc[..], bdl[..], lmax, dmax, maxBlindex + 1)
    ensures opt == |HeaderBits(ldl[..lmax + 1], ddl[..dmax + 1], bdl[..19],
            maxBlindex + 1)| + |DataBits(ldl[..lmax + 1], ddl[..dmax + 1], ts)|
    ensures CodedTokens(FixedLens(), FixedDists(), ts) && IsSymbol(FixedLens(), END_BLOCK)
    ensures stat == |DataBits(FixedLens(), FixedDists(), ts)|
  {
    hide Hist, Freqs, LitSyms, DistSyms, GoodTree, SymCost, FixedLens, FixedDists, StaticLit, StaticDist, Complete,
         CodesIn, Agree, HeaderBits, DataBits, CodedTokens, IsSymbol, BlOk, ValidTokens, TreesOk, ShortLens, Fits;
    BfZero(lfc[..], dfc[..], bfc[..], ts);
    var opt1, opt2;
    lmax, dmax, opt1, stat := DataTrees(lfc, ldl, dfc, ddl, ts, bfc[..]);
    ghost var l, d: seq<nat> := ldl[..], ddl[..];
    TokensCoded(ts, lfc[..], l, lmax, dfc[..], d, dmax);
    LensFacts(Freqs(LitSyms(ts), HEAP_SIZE), lfc[..], l, L_CODES, lmax);
    LensFacts(Freqs(DistSyms(ts), HEAP_SIZE), dfc[..], d, D_CODES, dmax);
    DataSizes(ts, l, lmax, d, dmax);
    assert ldl[..lmax + 1] == l[..lmax + 1] && ddl[..dmax + 1] == d[..dmax + 1];
    maxBlindex, opt2 := BuildBlTree(ldl, lmax, ddl, dmax, bfc, bdl);
    opt := opt1 + opt2;
    GuardKeepsCodes(lfc[..], l, ldl[..], lmax + 1);
    GuardKeepsCodes(dfc[..], d, ddl[..], dmax + 1);
    assert ldl[..lmax + 1] == ldl[..][..lmax + 1] && ddl[..dmax + 1] == ddl[..][..dmax + 1]
           && bdl[..19] == bdl[..][..19];
    AllTrees(ts, lfc[..], ldl[..], dfc[..], ddl[..], bfc[..], bdl[..], lmax, dmax, maxBlindex + 1);
  }

  lemma BfZero(lf: seq<nat>, df: seq<nat>, bf: seq<nat>, ts: seq<Token>)
    requires Tallied(lf, df, bf, ts)
    ensures |bf| == HEAP_SIZE && forall s :: 0 <= s < BL_CODES ==> bf[s] == 0
  {
  }

  lemma AllTrees(ts: seq<Token>, lfc: seq<nat>, ldl: seq<nat>, dfc: seq<nat>, ddl: seq<nat>, bfc: seq<nat>,
      bdl: seq<nat>, lmax: nat, dmax: nat, n: nat)
    requires 256 <= lmax < 286 && dmax < 30 && lmax + 1 < |ldl| && dmax + 1 < |ddl| && |bdl| == HEAP_SIZE
    requires ldl[lmax + 1] == 0xffff && ddl[dmax + 1] == 0xffff && BlOk(bfc, bdl, ldl[..lmax + 1], ddl[..dmax + 1], n)
    requires CodesIn(lfc, ldl, ldl[..lmax + 1]) && CodesIn(dfc, ddl, ddl[..dmax + 1])
    requires Complete(ldl[..lmax + 1]) && Complete(ddl[..dmax + 1])
    requires CodedTokens(ldl[..lmax + 1], ddl[..dmax + 1], ts) && IsSymbol(ldl[..lmax + 1], END_BLOCK)
    ensures TreesOk(ts, lfc, ldl, dfc, ddl, bfc, bdl, lmax, dmax, n)
  {
    hide CodesIn, CodedTokens, IsSymbol, Kraft, Coded, ThreeBit, RestUnsent, Runs;
  }

  lemma DataSizes(ts: seq<Token>, ldl: seq<nat>, lmax: nat, ddl: seq<nat>, dmax: nat)
    requires ValidTokens(ts) && |ldl| == |ddl| == HEAP_SIZE && lmax < L_CODES && dmax < D_CODES
    requires IsSymbol(ldl[..lmax + 1], END_BLOCK) && CodedTokens(ldl[..lmax + 1], ddl[..dmax + 1], ts)
    ensures forall i :: 0 <= i < |LitSyms(ts)| ==> LitSyms(ts)[i] < HEAP_SIZE
    ensures forall i :: 0 <= i < |DistSyms(ts)| ==> DistSyms(ts)[i] < HEAP_SIZE
    ensures SymCost(LitSyms(ts), ldl, LitExtras()) + SymCost(DistSyms(ts), ddl, DistExtras())
            == |DataBits(ldl[..lmax + 1], ddl[..dmax + 1], ts)|
    ensures CodedTokens(FixedLens(), FixedDists(), ts) && IsSymbol(FixedLens(), END_BLOCK)
    ensures SymCost(LitSyms(ts), StaticLit(), LitExtras()) + SymCost(DistSyms(ts), StaticDist(), DistExtras())
            == |DataBits(FixedLens(), FixedDists(), ts)|
  {
    hide LitSyms, DistSyms, SymCost, DataBits, CodedTokens, IsSymbol, FixedLens, FixedDists, ValidTokens, StaticLit,
         StaticDist;
    DataSize(ldl[..lmax + 1], ddl[..dmax + 1], ldl, ddl, ts);
    FixedCoded(ts);
    DataSize(FixedLens(), FixedDists(), StaticLit(), StaticDist(), ts);
  }

  // ---------- the thirty distance codes that exist ----------

  lemma ThirtySame(s: nat)
    requires s < D_CODES
    ensures CodeBits(FixedDists()[..D_CODES], s) == CodeBits(FixedDists(), s)
  {
    hide Code;
    FlatCodes(D_CODES, s);
    FlatCodes(32, s);
    assert FixedDists()[..32] == FixedDists();
  }

  lemma ThirtyCoded(ts: seq<Token>)
    requires ValidTokens(ts)
    ensures CodedTokens(FixedLens(), FixedDists()[..D_CODES], ts)
  {
    hide LengthCode, DistanceCode;
    FixedCoded(ts);
    forall i | 0 <= i < |ts| ensures CodedToken(FixedLens(), FixedDists()[..D_CODES], ts[i]) {
      assert CodedToken(FixedLens(), FixedDists(), ts[i]);
      LitSymBound(ts[i]);
    }
  }

  lemma {:induction false} ThirtyTokens(ts: seq<Token>)
    requires ValidTokens(ts) && CodedTokens(FixedLens(), FixedDists()[..D_CODES], ts)
    requires CodedTokens(FixedLens(), FixedDists(), ts)
    ensures EncodeTokens(FixedLens(), FixedDists()[..D_CODES], ts) == EncodeTokens(FixedLens(), FixedDists(), ts)
  {
    hide FixedLens, FixedDists, CodeBits, LengthCode, DistanceCode, LengthBits;
    if ts != [] {
      ThirtyTokens(ts[1..]);
      LitSymBound(ts[0]);
      if ts[0].dist != 0 {
        ThirtySame(DistanceCode(ts[0].dist));
      }
    }
  }

  // ---------- the encoder ----------

  lemma KindBits(kind: nat, eof: bool)
    requires kind < 3
    ensures 2 * kind + B(eof) < Pow2(3) && BitsOf(2 * kind + B(eof), 3) == [eof, kind == 1, kind == 2]
  {
    Pow2Values();
    var v := 2 * kind + B(eof);
    assert v / 2 == kind && BitsOf(kind / 2 / 2, 0) == [];
    assert BitsOf(kind / 2, 1) == [kind == 2];
    assert BitsOf(kind, 2) == [kind == 1] + BitsOf(kind / 2, 1);
  }

  /** How many bits end a block, or 8 when it ends at a byte. */
  function EobLen(b: Block): nat {
    match b
    case Stored(_) => 8
    case Fixed(_) => 7
    case Dynamic(_, ll, _, _, _) => if END_BLOCK < |ll| then ll[END_BLOCK] else 0
  }

  lemma FixedEob()
    ensures FixedLens()[END_BLOCK] == 7
  {
  }

  /** Bytes a block is counted at when the kinds are compared; a stored one without its first 3 bits and padding. */
  ghost function NBytes(b: Block): nat
    requires BlockOk(b)
  {
    match b
    case Stored(data) => |data| + 4
    case Fixed(ts) => FixedCoded(ts); (3 + |DataBits(FixedLens(), FixedDists(), ts)| + 7) / 8
    case Dynamic(ts, ll, dd, bl, n) => (3 + |HeaderBits(ll, dd, bl, n)| + |DataBits(ll, dd, ts)| + 7) / 8
  }

  lemma {:induction false} LitSnoc(ts: seq<Token>, t: Token, s: nat)
    ensures Hist(LitSyms(ts + [t]), s) == Hist(LitSyms(ts), s) + if s == LitSym(t) then 1 else 0
    ensures Hist(DistSyms(ts + [t]), s) == Hist(DistSyms(ts), s) + if t.dist != 0
            && s == DistanceCode(t.dist) then 1 else 0
    decreases |ts|
  {
    hide LitSym, DistanceCode;
    if ts == [] {
      assert ts + [t] == [t] && [t][1..] == [];
      HistAppend([LitSym(t)], [END_BLOCK], s);
      HistOne(LitSym(t), s);
      HistOne(DistanceCode(t.dist), s);
      assert [DistanceCode(t.dist)] + [] == [DistanceCode(t.dist)];
    } else {
      assert (ts + [t])[1..] == ts[1..] + [t];
      LitSnoc(ts[1..], t, s);
      HistAppend([LitSym(ts[0])], LitSyms(ts[1..] + [t]), s);
      HistAppend([LitSym(ts[0])], LitSyms(ts[1..]), s);
      if ts[0].dist != 0 {
        HistAppend([DistanceCode(ts[0].dist)], DistSyms(ts[1..] + [t]), s);
        HistAppend([DistanceCode(ts[0].dist)], DistSyms(ts[1..]), s);
      }
    }
  }

  lemma TallyMore(lf: seq<nat>, df: seq<nat>, bf: seq<nat>, ts: seq<Token>, t: Token)
    requires Tallied(lf, df, bf, ts) && ValidToken(t)
    ensures LitSym(t) < L_CODES && (t.dist != 0 ==> DistanceCode(t.dist) < D_CODES)
    ensures Tallied(lf[LitSym(t) := lf[LitSym(t)] + 1],
            if t.dist == 0 then df else df[DistanceCode(t.dist) := df[DistanceCode(t.dist)] + 1], bf, ts + [t])
  {
    hide Hist, LitSyms, DistSyms, LitSym, DistanceCode;
    LitSymBound(t);
    forall s: nat
      ensures Hist(LitSyms(ts + [t]), s) == Hist(LitSyms(ts), s) + if s == LitSym(t) then 1 else 0
      ensures Hist(DistSyms(ts + [t]), s) == Hist(DistSyms(ts), s) + if t.dist != 0
              && s == DistanceCode(t.dist) then 1 else 0
    {
      LitSnoc(ts, t, s);
    }
  }

  lemma TallyNone(lf: seq<nat>, df: seq<nat>, bf: seq<nat>)
    requires |lf| == |df| == |bf| == HEAP_SIZE
    requires forall s :: 0 <= s < L_CODES ==> lf[s] == if s == END_BLOCK then 1 else 0
    requires (forall s :: 0 <= s < D_CODES ==> df[s] == 0) && forall s :: 0 <= s < BL_CODES ==> bf[s] == 0
    ensures Tallied(lf, df, bf, [])
  {
    hide Hist;
    forall s: nat ensures Hist([END_BLOCK], s) == (if s == END_BLOCK then 1 else 0) && Hist([], s) == 0 {
      HistOne(END_BLOCK, s);
      NoHist(s);
    }
  }

  lemma NoHist(s: nat)
    ensures Hist([], s) == 0
  {
  }

  method FixedTrees() returns (a: seq<nat>, b: seq<nat>, c: seq<nat>, d: seq<nat>)
    ensures CodesIn(a, b, FixedLens()) && CodesIn(c, d, FixedDists()[..D_CODES])
  {
    hide CodesIn;
    var lfc, ldl, dfc, ddl := StaticTrees();
    a, b, c, d := lfc[..], ldl[..], dfc[..], ddl[..];
  }

  method FirstFreqs() returns (lf: array<nat>, df: array<nat>, bf: array<nat>)
    ensures fresh(lf) && fresh(df) && fresh(bf) && lf != df && lf != bf && df != bf
    ensures Tallied(lf[..], df[..], bf[..], [])
    ensures lf.Length == df.Length == bf.Length == HEAP_SIZE
  {
    hide Tallied;
    lf := new nat[HEAP_SIZE](i => if i == END_BLOCK then 1 else 0);
    df := new nat[HEAP_SIZE](_ => 0);
    bf := new nat[HEAP_SIZE](_ => 0);
    TallyNone(lf[..], df[..], bf[..]);
  }

  lemma LookUp(tables: Tables, t: Token)
    requires TablesOk(tables) && ValidToken(t)
    ensures |tables.lengthCode| == 256 && |tables.distCode| == 512
    ensures t.dist != 0 ==>
              tables.lengthCode[t.lc] == LengthCode(t.lc) && DCode(tables.distCode, t.dist - 1) == DistanceCode(t.dist)
  {
  }

  method ZeroFreqs(f: array<nat>, n: nat)
    requires n <= f.Length
    modifies f
    ensures forall s :: 0 <= s < f.Length ==> f[s] == if s < n then 0 else old(f[s])
  {
    var i := 0;
    while i < n
      invariant 0 <= i <= n && forall s :: 0 <= s < f.Length ==> f[s] == if s < i then 0 else old(f[s])
    {
      f[i] := 0;
      i := i + 1;
    }
  }

  /** The part of deflate_state that trees.c works on. */
  class Encoder {
    const q: Queue
    const lfc: array<nat>
    const ldl: array<nat>
    const dfc: array<nat>
    const ddl: array<nat>
    const bfc: array<nat>
    const bdl: array<nat>
    const tables: Tables
    const slfc: seq<nat>
    const sldl: seq<nat>
    const sdfc: seq<nat>
    const sddl: seq<nat>
    const litBufsize: nat
    const level: nat
    const fixedOnly: bool      // strategy Z_FIXED
    var tokens: seq<Token>     // d_buf and l_buf, up to last_lit
    var optLen: int
    var staticLen: int
    var lastEobLen: nat

    /** The trees are separate objects. */
    ghost predicate Separate() {
      && lfc != ldl && lfc != dfc && lfc != ddl && ldl != dfc && ldl != ddl && dfc != ddl
      && bfc != lfc && bfc != ldl && bfc != dfc && bfc != ddl && bdl != lfc && bdl != ldl && bdl != dfc && bdl != ddl
      && bdl != bfc
      && lfc.Length == ldl.Length == dfc.Length == ddl.Length == bfc.Length == bdl.Length == HEAP_SIZE
    }

    ghost predicate Constants() {
      && TablesOk(tables) && CodesIn(slfc, sldl, FixedLens()) && CodesIn(sdfc, sddl, FixedDists()[..D_CODES])
      && 128 <= litBufsize <= 0x8000
    }

    ghost predicate Valid()
      reads this, q, lfc, ldl, dfc, ddl, bfc, bdl
    {
      && Separate() && Constants() && q.Valid() && Tallied(lfc[..], dfc[..], bfc[..], tokens) && ValidTokens(tokens)
      && |tokens| < litBufsize && optLen == 0 && staticLen == 0
    }

    lemma QueueValid()
      requires Valid()
      ensures q.Valid()
    {
    }

    /** _tr_init. */
    constructor (litBufsize: nat, level: nat, fixedOnly: bool)
      requires 128 <= litBufsize <= 0x8000
      ensures Valid() && q.Ready() && q.biValid == 0 && q.pending == 0 && q.Sent() == [] && q.delivered == []
      ensures tokens == [] && fresh(q)
      ensures fresh(lfc) && fresh(ldl) && fresh(dfc) && fresh(ddl) && fresh(bfc) && fresh(bdl)
      ensures this.litBufsize == litBufsize && this.level == level && this.fixedOnly == fixedOnly
    {
      hide TablesOk, CodesIn, FixedLens, FixedDists, Tallied;
      this.q := new Queue();
      var t := MakeTables();
      this.tables := t;
      var a, b, c, d := FixedTrees();
      this.slfc, this.sldl, this.sdfc, this.sddl := a, b, c, d;
      this.litBufsize, this.level, this.fixedOnly := litBufsize, level, fixedOnly;
      var lf, df, bf := FirstFreqs();
      this.lfc, this.dfc, this.bfc := lf, df, bf;
      this.ldl := new nat[HEAP_SIZE];
      this.ddl := new nat[HEAP_SIZE];
      this.bdl := new nat[HEAP_SIZE];
      this.tokens, this.optLen, this.staticLen, this.lastEobLen := [], 0, 0, 8;
    }

    /** init_block: no tokens, and one end of block. */
    method InitBlock()
      requires Separate() && Constants() && q.Valid()
      modifies this`tokens, this`optLen, this`staticLen, lfc, dfc, bfc
      ensures Valid() && tokens == []
    {
      hide TablesOk, CodesIn, FixedLens, FixedDists, Tallied;
      ZeroFreqs(lfc, L_CODES);
      ZeroFreqs(dfc, D_CODES);
      ZeroFreqs(bfc, BL_CODES);
      lfc[END_BLOCK] := 1;
      optLen, staticLen, tokens := 0, 0, [];
      TallyNone(lfc[..], dfc[..], bfc[..]);
    }

    /** _tr_tally: record a token; true when the block must be flushed. */
    method Tally(dist: nat, lc: nat) returns (flush: bool)
      requires Valid() && ValidToken(Token(dist, lc)) && |tokens| < litBufsize - 1
      modifies this`tokens, lfc, dfc
      ensures Valid() && tokens == old(tokens) + [Token(dist, lc)] && (flush <==> |tokens| == litBufsize - 1)
    {
      hide TablesOk, CodesIn, FixedLens, FixedDists, Tallied, LengthCode, DistanceCode, DCode, LenBase, DistBase;
      ghost var t := Token(dist, lc);
      ghost var lf: seq<nat>, df: seq<nat> := lfc[..], dfc[..];
      TallyMore(lf, df, bfc[..], tokens, t);
      LookUp(tables, t);
      tokens := tokens + [Token(dist, lc)];
      if dist == 0 {
        lfc[lc] := lfc[lc] + 1;
        assert lfc[..] == lf[LitSym(t) := lf[LitSym(t)] + 1];
      } else {
        var d := dist - 1;
        var a, b := tables.lengthCode[lc] + 256 + 1, DCode(tables.distCode, d);
        lfc[a] := lfc[a] + 1;
        dfc[b] := dfc[b] + 1;
        assert lfc[..] == lf[LitSym(t) := lf[LitSym(t)] + 1];
        assert dfc[..] == df[DistanceCode(t.dist) := df[DistanceCode(t.dist)] + 1];
      }
      flush := |tokens| == litBufsize - 1;
    }

    /** A block with the fixed trees; not `ok` when tokens are overwritten before they are read. */
    method SendFixed(eof: bool) returns (ok: bool)
      requires Constants() && q.Valid() && q.Ready() && ValidTokens(tokens)
      modifies q, this`lastEobLen
      ensures q.Valid() && q.Ready() && q.delivered == old(q.delivered)
      ensures ok <==> Clear(Fixed(tokens), old(q.pending), old(q.biValid), litBufsize)
      ensures (ok ==> AddsBlock(old(q.Sent()), q.Sent(), Fixed(tokens), eof)) && lastEobLen == 7
    {
      hide TablesOk, CodesIn, FixedLens, FixedDists, CodedTokens, DataBits, ValidTokens, IsSymbol, BitsOf, Pow2,
           AddsBlock, TokensClear, Queue.Sent, Queue.Valid, Queue.Ready, PutBytes, Paired;
      ghost var s, p, held := q.Sent(), q.pending, q.biValid;
      FixedEob();
      KindBits(1, eof);
      ThirtyData(tokens);
      ThirtyClear(tokens, p, held, litBufsize);
      q.Start();
      q.SendBits(2 * 1 + (if eof then 1 else 0), 3);
      q.PutSince(p, held, 3);
      q.SentLength();
      ClearAfter(FixedLens(), FixedDists()[..D_CODES], tokens, 3, p, held, litBufsize);
      ok, lastEobLen := CompressBlock.CompressBlock(q, tables, tokens, litBufsize, slfc, sldl, sdfc, sddl, FixedLens(),
          FixedDists()[..D_CODES]);
      FixedParts(s, tokens, eof);
    }

    /** A block with its own trees; not `ok` when tokens are overwritten before they are read. */
    method SendDynamic(lmax: nat, dmax: nat, blcodes: nat, eof: bool) returns (ok: bool)
      requires Constants() && q.Valid() && q.Ready() && lmax < ldl.Length && dmax < ddl.Length
      requires bdl.Length == HEAP_SIZE
      requires TreesOk(tokens, lfc[..], ldl[..], dfc[..], ddl[..], bfc[..], bdl[..], lmax, dmax, blcodes)
      modifies q, this`lastEobLen
      ensures q.Valid() && q.Ready() && q.delivered == old(q.delivered)
      ensures BlockOk(TreeBlock(tokens, ldl[..], ddl[..], bdl[..], lmax, dmax, blcodes))
      ensures lastEobLen == EobLen(TreeBlock(tokens, ldl[..], ddl[..], bdl[..], lmax, dmax, blcodes))
      ensures ok <==> Clear(TreeBlock(tokens, ldl[..], ddl[..], bdl[..], lmax, dmax, blcodes), old(q.pending),
                          old(q.biValid), litBufsize)
      ensures ok ==>
                AddsBlock(old(q.Sent()), q.Sent(), TreeBlock(tokens, ldl[..], ddl[..], bdl[..], lmax, dmax, blcodes),
                    eof)
    {
      hide TablesOk, CodesIn, FixedLens, FixedDists, CodedTokens, DataBits, IsSymbol, BitsOf, Pow2, HeaderOk,
           HeaderBits, AddsBlock, TokensClear, Queue.Sent, Queue.Valid, Queue.Ready, PutBytes, Paired;
      ghost var s, p, held := q.Sent(), q.pending, q.biValid;
      ghost var ll, dd, bl := ldl[..][..lmax + 1], ddl[..][..dmax + 1], bdl[..][..19];
      KindBits(2, eof);
      HeaderFacts(ll, dd, bl, blcodes);
      q.Start();
      q.SendBits(2 * 2 + (if eof then 1 else 0), 3);
      SendAllTrees(q, lmax + 1, dmax + 1, blcodes, ldl[..], ddl[..], bfc[..], bdl[..], bl);
      ghost var before := 3 + |HeaderBits(ll, dd, bl, blcodes)|;
      q.PutSince(p, held, before);
      q.SentLength();
      ClearAfter(ll, dd, tokens, before, p, held, litBufsize);
      ok, lastEobLen := CompressBlock.CompressBlock(q, tables, tokens, litBufsize, lfc[..], ldl[..], dfc[..], ddl[..],
          ll, dd);
      DynamicParts(s, TreeBlock(tokens, ldl[..], ddl[..], bdl[..], lmax, dmax, blcodes), eof);
    }

    /** _tr_stored_block. */
    method SendStored(data: seq<byte>, eof: bool)
      requires q.Valid() && q.Ready() && |data| < 0x10000
      modifies q, this`lastEobLen
      ensures q.Valid() && q.Ready() && q.biValid == 0 && q.delivered == old(q.delivered)
      ensures AddsBlock(old(q.Sent()), q.Sent(), Stored(data), eof) && lastEobLen == 8
    {
      hide BitsOf, Pow2, Padding, BytesBits, AddsBlock;
      ghost var s := q.Sent();
      KindBits(0, eof);
      q.SendBits(if eof then 1 else 0, 3);
      q.CopyBlock(data, true);
      lastEobLen := 8;
      StoredParts(s, data, eof);
    }

    /** Build the trees and compute the sizes of the two compressed forms in bytes. */
    method PrepareBlock() returns (lmax: nat, dmax: nat, maxBlindex: nat, optLenb: int, staticLenb: int)
      requires Valid()
      modifies this`optLen, this`staticLen, lfc, ldl, dfc, ddl, bfc, bdl
      ensures lmax < ldl.Length && dmax < ddl.Length
      ensures TreesOk(tokens, lfc[..], ldl[..], dfc[..], ddl[..], bfc[..], bdl[..], lmax, dmax, maxBlindex + 1)
      ensures IsSize(TreeBlock(tokens, ldl[..], ddl[..], bdl[..], lmax, dmax, maxBlindex + 1), optLenb)
      ensures IsSize(Fixed(tokens), staticLenb)
    {
      hide TablesOk, CodesIn, FixedLens, FixedDists, Tallied, DataBits, HeaderBits, TreesOk, ValidTokens,
           CodedTokens, IsSymbol, IsSize, BlockOk, HeaderOk, BlockBits, NBytes;
      var opt, stat;
      lmax, dmax, maxBlindex, opt, stat := BuildTrees(lfc, ldl, dfc, ddl, bfc, bdl, tokens);
      optLen, staticLen := optLen + opt, staticLen + stat;
      assert optLen == opt && staticLen == stat;
      optLenb, staticLenb := (optLen + 3 + 7) / 8, (staticLen + 3 + 7) / 8;
      FixedSize(tokens);
      TreesBound(tokens, lfc[..], ldl[..], dfc[..], ddl[..], bfc[..], bdl[..], lmax, dmax, maxBlindex + 1);
      assert ldl[..lmax + 1] == ldl[..][..lmax + 1] && ddl[..dmax + 1] == ddl[..][..dmax + 1]
             && bdl[..19] == bdl[..][..19];
      DynamicSize(TreeBlock(tokens, ldl[..], ddl[..], bdl[..], lmax, dmax, maxBlindex + 1));
    }

    /** The kind of block that is cheapest, given the sizes of the compressed ones. */
    method SendKind(buf: Option<seq<byte>>, optLenb: int, staticLenb: int, lmax: nat, dmax: nat, blcodes: nat,
        eof: bool) returns (ok: bool, ghost b: Block)
      requires Constants() && q.Valid() && q.Ready() && ValidTokens(tokens) && (buf.Some? ==> |buf.value| < 0x10000)
      requires lmax < ldl.Length && dmax < ddl.Length && bdl.Length == HEAP_SIZE
      requires || (buf.Some? && |buf.value| + 4 <= optLenb)
               || TreesOk(tokens, lfc[..], ldl[..], dfc[..], ddl[..], bfc[..], bdl[..], lmax, dmax, blcodes)
      modifies q, this`lastEobLen
      ensures q.Valid() && q.Ready() && q.delivered == old(q.delivered)
      ensures b == if buf.Some? && |buf.value| + 4 <= optLenb then Stored(buf.value)
                   else if fixedOnly || staticLenb == optLenb then Fixed(tokens)
                   else TreeBlock(tokens, ldl[..], ddl[..], bdl[..], lmax, dmax, blcodes)
      ensures BlockOk(b) && (ok <==> Clear(b, old(q.pending), old(q.biValid), litBufsize)) && lastEobLen == EobLen(b)
      ensures (ok ==> AddsBlock(old(q.Sent()), q.Sent(), b, eof)) && (b.Stored? ==> ok && q.biValid == 0)
    {
      hide TablesOk, CodesIn, FixedLens, FixedDists, Padding, TreesOk, ValidTokens, AddsBlock, TokensClear,
           HeaderOk, CodedTokens, Queue.Sent, Queue.Valid;
      if buf.Some? && |buf.value| + 4 <= optLenb {
        SendStored(buf.value, eof);
        ok, b := true, Stored(buf.value);
      } else if fixedOnly || staticLenb == optLenb {
        ok := SendFixed(eof);
        b := Fixed(tokens);
      } else {
        ok := SendDynamic(lmax, dmax, blcodes, eof);
        b := TreeBlock(tokens, ldl[..], ddl[..], bdl[..], lmax, dmax, blcodes);
      }
    }

    /**
     _tr_flush_block: send the tokens as the cheapest kind of block; `buf` is the same
     data uncompressed, if it is still in the window.  It is sent as it should be, `ok`, exactly when
     none of its tokens is overwritten before it is read.
     */
    method FlushBlock(buf: Option<seq<byte>>, storedLen: nat, eof: bool)
      returns (ok: bool, ghost b: Block, ghost dyn: Block)
      requires Valid() && q.Ready() && (buf.Some? ==> |buf.value| == storedLen < 0x10000) && (level == 0 ==> buf.Some?)
      modifies this`tokens, this`optLen, this`staticLen, this`lastEobLen, q, lfc, ldl, dfc, ddl, bfc, bdl
      ensures Valid() && q.Ready() && tokens == [] && q.delivered == old(q.delivered)
      ensures BlockOk(b) && (if b.Stored? then buf == Some(b.data) else b.tokens == old(tokens))
      ensures ok <==> Clear(b, old(q.pending), old(q.biValid), litBufsize)
      ensures ok ==> q.Sent() == WithBlock(old(q.Sent()), b, eof)
      ensures ok && level > 0 && old(q.pending) == 0 ==> q.pending <= 4 * litBufsize
      ensures level > 0 && fixedOnly ==> !b.Dynamic?
      ensures level > 0 ==>
                && IsTreeBlock(dyn, old(tokens), ldl[..], ddl[..], bdl[..])
                && Cheapest(b, dyn, old(tokens), buf, fixedOnly)
      ensures level == 0 ==> b == Stored(buf.value) && ok && q.biValid == 0
      ensures lastEobLen == EobLen(b)
      ensures level == 0 && old(q.pending) == 0 && old(q.biValid) <= 5 ==> q.pending == |buf.value| + 5
      ensures eof ==> q.biValid == 0
    {
      hide *;
      var optLenb, staticLenb: int;
      var lmax: nat, dmax: nat, maxBlindex: nat := 0, 0, 0;
      Parts();
      ghost var s, ts := q.Sent(), tokens;
      q.Start();
      q.SentLength();
      dyn := Fixed(ts);
      if level > 0 {
        lmax, dmax, maxBlindex, optLenb, staticLenb := PrepareBlock();
        dyn := TreeBlock(tokens, ldl[..], ddl[..], bdl[..], lmax, dmax, maxBlindex + 1);
        TreeBlockIs(ts, ldl[..], ddl[..], bdl[..], lmax, dmax, maxBlindex + 1);
        Choice(dyn, optLenb, staticLenb, ts, buf, fixedOnly);
        if staticLenb <= optLenb {
          optLenb := staticLenb;
        }
      } else {
        optLenb, staticLenb := storedLen + 5, storedLen + 5;
      }
      ok, b := SendKind(buf, optLenb, staticLenb, lmax, dmax, maxBlindex + 1, eof);
      ghost var t := q.Sent();
      InitBlock();
      if eof {
        Windup();
      }
      Parts();
      if ok {
        AddsIs(s, t, b, eof);
        q.SentLength();
        if level > 0 {
          BlockLength(s, b, dyn, ts, buf, fixedOnly, eof, litBufsize);
        } else {
          StoredLength(s, buf.value, eof);
        }
      }
    }

    /** bi_windup at the end of the stream. */
    method Windup()
      requires Valid() && q.Ready()
      modifies q
      ensures Valid() && q.Ready() && q.biValid == 0 && q.delivered == old(q.delivered)
      ensures q.Sent() == old(q.Sent()) + Padding(|old(q.Sent())|)
    {
      hide TablesOk, CodesIn, FixedLens, FixedDists, Tallied, ValidTokens, Queue.Valid, Queue.Sent, Padding;
      q.BiWindup();
    }

    lemma Parts()
      requires Valid()
      ensures Separate() && Constants() && q.Valid() && ValidTokens(tokens) && |tokens| < litBufsize
      ensures 128 <= litBufsize
      ensures ldl != lfc && ldl != dfc && ldl != bfc && ddl != lfc && ddl != dfc && ddl != bfc
      ensures bdl != lfc && bdl != dfc && bdl != bfc
      ensures lfc.Length == ldl.Length == dfc.Length == ddl.Length == bfc.Length == bdl.Length == HEAP_SIZE > 0
    {
      hide TablesOk, CodesIn, FixedLens, FixedDists, Tallied, ValidTokens, Queue.Valid;
    }

    /** The empty stored block of a full or sync flush. */
    method SendEmptyStored()
      requires Valid() && q.Ready()
      modifies this`lastEobLen, q
      ensures Valid() && q.Ready() && q.biValid == 0 && q.delivered == old(q.delivered)
      ensures q.Sent() == WithBlock(old(q.Sent()), Stored([]), false)
      ensures old(q.pending) == 0 ==> q.pending <= 8
    {
      hide TablesOk, CodesIn, FixedLens, FixedDists, Tallied, ValidTokens, BlockBits, AddsBlock, WithBlock;
      ghost var s := q.Sent();
      q.Start();
      SendStored([], false);
      q.SentLength();
      EmptyStoredLength(s);
      AddsIs(s, q.Sent(), Stored([]), false);
    }

    /** An empty fixed block, of which at most 7 bits are kept back. */
    method SendEmptyFixed()
      requires Valid() && q.Ready()
      modifies q
      ensures Valid() && q.Ready() && q.biValid < 8 && q.delivered == old(q.delivered)
      ensures q.Sent() == WithBlock(old(q.Sent()), Fixed([]), false)
    {
      hide TablesOk, CodesIn, FixedLens, FixedDists, Tallied, ValidTokens, BlockBits, AddsBlock, WithBlock,
           CodeBits, DataBits, IsSymbol, BitsOf, Pow2, BlockOk;
      ghost var s := q.Sent();
      KindBits(1, false);
      EmptyFixed(s);
      q.SendBits(2, 3);
      SendCode(q, END_BLOCK, slfc, sldl, FixedLens());
      q.BiFlush();
    }

    /**
     _tr_align: one empty fixed block, or two if the last code before it, at least one bit, and its
     end of block leave inflate too few bits to look ahead.
     */
    method Align() returns (two: bool)
      requires Valid() && q.Ready()
      modifies this`lastEobLen, q
      ensures Valid() && q.Ready() && q.delivered == old(q.delivered)
      ensures q.Sent() == Aligned(old(q.Sent()), two)
      ensures two == TooFew(old(lastEobLen), |old(q.Sent())|) && q.biValid < 8
      ensures two <==> 1 + old(lastEobLen) + 10 - (|old(q.Sent())| + 10) % 8 < 9
      ensures old(q.pending) == 0 ==> q.pending <= 8 && (old(q.biValid) == 0 ==> q.biValid <= 4)
    {
      hide TablesOk, CodesIn, FixedLens, FixedDists, Tallied, ValidTokens, WithBlock;
      EmptyFixedLength(q.Sent());
      q.Start();
      SendEmptyFixed();
      q.HeldIs();
      two := 1 + lastEobLen + 10 - q.biValid < 9;
      if two {
        EmptyFixedLength(q.Sent());
        SendEmptyFixed();
      }
      q.SentLength();
      lastEobLen := 7;
    }

    /** A 16-bit number of the zlib header or trailer. */
    method PutShortMSB(w: nat)
      requires Valid() && q.Ready() && q.biValid == 0 && w < 0x10000
      modifies q
      ensures Valid() && q.Ready() && q.biValid == 0 && q.pending == old(q.pending) + 2
      ensures q.delivered == old(q.delivered)
      ensures q.Sent() == old(q.Sent()) + BytesBits(BigEndian(w))
    {
      hide TablesOk, CodesIn, Tallied, ValidTokens, FixedLens, FixedDists, BytesBits;
      q.PutShortMSB(w);
    }

    /** flush_pending on the encoder's queue. */
    method Deliver(availOut: nat) returns (out: seq<byte>)
      requires Valid()
      modifies q
      ensures Valid() && q.Sent() == old(q.Sent()) && q.delivered == old(q.delivered) + out && |out| <= availOut
      ensures |out| < availOut ==> q.Ready() && q.pending == 0
      ensures q.biValid == old(q.biValid) && |out| == Min(old(q.pending), availOut) == old(q.pending) - q.pending
    {
      hide TablesOk, CodesIn, Tallied, ValidTokens, FixedLens, FixedDists;
      out := q.FlushPending(availOut);
    }
  }

  lemma EmptyStoredLength(s: seq<bool>)
    ensures |WithBlock(s, Stored([]), false)| <= |s| + 42
  {
    hide Padding, BitsOf, BytesBits;
    StoredIs([], false, |s|);
    PaddingLength(|s| + 3);
    assert |BytesBits([])| == 0;
  }

  lemma EmptyFixedLength(s: seq<bool>)
    ensures |WithBlock(s, Fixed([]), false)| == |s| + 10
  {
    hide WithBlock, CodeBits;
    EmptyFixed(s);
  }

  /** After `n` bits and one empty fixed block more, inflate may not look ahead far enough. */
  function TooFew(lastEobLen: nat, n: nat): bool {
    1 + lastEobLen + 10 - (n + 10) % 8 < 9
  }

  /** With one empty fixed block, or two. */
  ghost function Aligned(s: seq<bool>, two: bool): seq<bool> {
    var t := WithBlock(s, Fixed([]), false);
    if two then WithBlock(t, Fixed([]), false) else t
  }

  lemma EmptyFixed(s: seq<bool>)
    ensures IsSymbol(FixedLens(), END_BLOCK) && BlockOk(Fixed([]))
    ensures s + [false, true, false] + CodeBits(FixedLens(), END_BLOCK) == WithBlock(s, Fixed([]), false)
  {
    hide CodeBits, FixedLens, FixedDists, IsSymbol;
    FixedCoded([]);
    FixedParts(s, [], false);
    NoTokens(FixedLens(), FixedDists(), []);
    var c := CodeBits(FixedLens(), END_BLOCK);
    assert [] + c == c;
    assert s + [false, true, false] + c == s + ([false, true, false] + c);
  }

  /** The dynamic block of built trees. */
  ghost function TreeBlock(ts: seq<Token>, ldl: seq<nat>, ddl: seq<nat>, bdl: seq<nat>, lmax: nat, dmax: nat,
      n: nat): Block
    requires lmax < |ldl| && dmax < |ddl| && |bdl| == HEAP_SIZE
  {
    Dynamic(ts, ldl[..lmax + 1], ddl[..dmax + 1], bdl[..19], n)
  }

  /** A dynamic block of the trees in the three arrays. */
  ghost predicate IsTreeBlock(b: Block, ts: seq<Token>, ldl: seq<nat>, ddl: seq<nat>, bdl: seq<nat>) {
    && b.Dynamic? && b.tokens == ts && b.ll <= ldl && b.dd <= ddl && b.bl <= bdl
  }

  lemma TreeBlockIs(ts: seq<Token>, ldl: seq<nat>, ddl: seq<nat>, bdl: seq<nat>, lmax: nat, dmax: nat, n: nat)
    requires lmax < |ldl| && dmax < |ddl| && |bdl| == HEAP_SIZE
    ensures IsTreeBlock(TreeBlock(ts, ldl, ddl, bdl, lmax, dmax, n), ts, ldl, ddl, bdl)
    ensures var b := TreeBlock(ts, ldl, ddl, bdl, lmax, dmax, n); b.Dynamic? && b.tokens == ts
  {
  }

  ghost predicate AddsBlock(s: seq<bool>, t: seq<bool>, b: Block, eof: bool) {
    BlockOk(b) && t == s + BlockBits(b, eof, |s|)
  }

  lemma AddsIs(s: seq<bool>, t: seq<bool>, b: Block, eof: bool)
    requires AddsBlock(s, t, b, eof)
    ensures BlockOk(b) && WithBlock(s, b, eof) == if eof then t + Padding(|t|) else t
  {
    hide BlockBits, Padding, BlockOk;
  }

  /** A block counts as so many bytes. */
  ghost predicate IsSize(b: Block, n: int) {
    BlockOk(b) && n == NBytes(b)
  }

  lemma TreesBound(ts: seq<Token>, lfc: seq<nat>, ldl: seq<nat>, dfc: seq<nat>, ddl: seq<nat>, bfc: seq<nat>,
      bdl: seq<nat>, lmax: nat, dmax: nat, n: nat)
    requires TreesOk(ts, lfc, ldl, dfc, ddl, bfc, bdl, lmax, dmax, n)
    ensures lmax < |ldl| && dmax < |ddl| && |bdl| == HEAP_SIZE && BlockOk(TreeBlock(ts, ldl, ddl, bdl, lmax, dmax, n))
  {
    hide HeaderOk, CodesIn, CodedTokens, IsSymbol;
  }

  /** Each of the three choices is the cheapest where it is made. */
  lemma Choice(dyn: Block, optLenb: int, staticLenb: int, ts: seq<Token>, buf: Option<seq<byte>>, fixedOnly: bool)
    requires IsSize(dyn, optLenb) && IsSize(Fixed(ts), staticLenb) && (buf.Some? ==> |buf.value| < 0x10000)
    requires !dyn.Stored?
    ensures buf.Some? && |buf.value| + 4 <= optLenb && |buf.value| + 4 <= staticLenb ==>
              Cheapest(Stored(buf.value), dyn, ts, buf, fixedOnly)
    ensures (buf.Some? ==> |buf.value| + 4 > staticLenb || |buf.value| + 4 > optLenb)
            && (fixedOnly || staticLenb <= optLenb) ==>
              Cheapest(Fixed(ts), dyn, ts, buf, fixedOnly)
    ensures optLenb < staticLenb && (buf.Some? ==> |buf.value| + 4 > optLenb) ==> Cheapest(dyn, dyn, ts, buf, fixedOnly)
  {
    if buf.Some? {
      StoredIs(buf.value, false, 0);
    }
  }

  lemma ThirtyData(ts: seq<Token>)
    requires ValidTokens(ts)
    ensures CodedTokens(FixedLens(), FixedDists(), ts) && CodedTokens(FixedLens(), FixedDists()[..D_CODES], ts)
    ensures IsSymbol(FixedLens(), END_BLOCK)
    ensures DataBits(FixedLens(), FixedDists()[..D_CODES], ts) == DataBits(FixedLens(), FixedDists(), ts)
  {
    hide CodedTokens, FixedLens, FixedDists, EncodeTokens, IsSymbol;
    FixedCoded(ts);
    ThirtyCoded(ts);
    ThirtyTokens(ts);
  }

  /** The thirty distance codes that exist are sent like those of the fixed code. */
  lemma ThirtyClear(ts: seq<Token>, p: nat, held: nat, size: nat)
    requires ValidTokens(ts)
    ensures TokensClear(FixedLens(), FixedDists()[..D_CODES], ts, 3, p, held, size)
            <==> TokensClear(FixedLens(), FixedDists(), ts, 3, p, held, size)
  {
    hide CodedToken, FixedLens, FixedDists, EncodeTokens, PutBytes;
    FixedCoded(ts);
    ThirtyCoded(ts);
    forall lx | 0 <= lx < |ts|
      ensures PutBefore(FixedLens(), FixedDists()[..D_CODES], ts, lx, 3, held)
              == PutBefore(FixedLens(), FixedDists(), ts, lx, 3, held)
    {
      ThirtyTokens(ts[..lx]);
    }
  }

  lemma FixedParts(s: seq<bool>, ts: seq<Token>, eof: bool)
    requires ValidTokens(ts) && CodedTokens(FixedLens(), FixedDists(), ts) && IsSymbol(FixedLens(), END_BLOCK)
    ensures AddsBlock(s, s + [eof, true, false] + DataBits(FixedLens(), FixedDists(), ts), Fixed(ts), eof)
  {
    hide DataBits, FixedLens, FixedDists, CodedTokens, IsSymbol;
  }

  lemma DynamicParts(s: seq<bool>, b: Block, eof: bool)
    requires b.Dynamic? && BlockOk(b)
    ensures AddsBlock(s,
            s + [eof, false, true] + HeaderBits(b.ll, b.dd, b.bl, b.blcodes) + DataBits(b.ll, b.dd, b.tokens), b, eof)
  {
    hide HeaderBits, DataBits, HeaderOk, CodedTokens;
  }

  lemma StoredParts(s: seq<bool>, data: seq<byte>, eof: bool)
    requires |data| < 0x10000
    ensures AddsBlock(s, s + [eof, false, false] + Padding(|s + [eof, false, false]|) + (BitsOf(|data|,
            16) + BitsOf(0xffff - |data|, 16)) + BytesBits(data),
                      Stored(data), eof)
  {
    hide Padding, BitsOf, BytesBits, BlockBits, BlockOk;
    StoredIs(data, eof, |s|);
    assert |s + [eof, false, false]| == |s| + 3;
    Assoc(s, [eof, false, false], Padding(|s| + 3), BitsOf(|data|, 16) + BitsOf(0xffff - |data|, 16), BytesBits(data));
  }

  lemma Assoc(s: seq<bool>, a: seq<bool>, b: seq<bool>, c: seq<bool>, d: seq<bool>)
    ensures s + a + b + c + d == s + (a + b + c + d)
  {
  }

  /** Everything sent before, the block, and at the end of the stream padding to a byte. */
  ghost function WithBlock(s: seq<bool>, b: Block, eof: bool): seq<bool>
    requires BlockOk(b)
  {
    var t := s + BlockBits(b, eof, |s|);
    if eof then t + Padding(|t|) else t
  }

  /**
   Stored exactly when it could have been and is no larger than either of the other forms.  Otherwise
   no larger than the fixed block, and smaller if dynamic; and, unless the fixed block was forced, no
   larger than the dynamic one, and smaller than the stored one if that could have been sent.
   */
  ghost predicate Cheapest(b: Block, dyn: Block, ts: seq<Token>, buf: Option<seq<byte>>, fixedOnly: bool)
    requires BlockOk(b)
  {
    && BlockOk(Fixed(ts)) && NBytes(b) <= NBytes(Fixed(ts)) && (b.Dynamic? ==> NBytes(b) < NBytes(Fixed(ts)))
    && BlockOk(dyn) && (!fixedOnly ==> NBytes(b) <= NBytes(dyn))
    && (b.Stored? <==> buf.Some? && |buf.value| + 4 <= NBytes(dyn) && |buf.value| + 4 <= NBytes(Fixed(ts)))
    && (buf.Some? && !fixedOnly && !b.Stored? ==> NBytes(b) < |buf.value| + 4)
  }

  /** In full, with the sizes in bytes. */
  lemma CheapestMeans(b: Block, dyn: Block, ts: seq<Token>, buf: Option<seq<byte>>, fixedOnly: bool)
    requires BlockOk(b) && Cheapest(b, dyn, ts, buf, fixedOnly) && dyn.Dynamic? && dyn.tokens == ts
    requires if b.Stored? then buf == Some(b.data) else b.tokens == ts
    ensures var d, f := (|BlockBits(dyn, false, 0)| + 7) / 8, (|BlockBits(Fixed(ts), false, 0)| + 7) / 8;
            && (b.Stored? <==> buf.Some? && |buf.value| + 4 <= d && |buf.value| + 4 <= f)
            && (b.Dynamic? ==> (|BlockBits(b, false, 0)| + 7) / 8 < f)
            && (b.Fixed? && !fixedOnly ==> f <= d)
  {
    hide DataBits, HeaderBits, FixedLens, FixedDists, CodedTokens, IsSymbol, HeaderOk, ValidTokens;
  }

  lemma FixedLength(ts: seq<Token>, size: nat)
    requires ValidTokens(ts) && |ts| < size
    ensures BlockOk(Fixed(ts)) && 8 * NBytes(Fixed(ts)) <= 31 * size - 14
  {
    hide FixedLens, FixedDists, CodedTokens, EncodeTokens, CodeBits, IsSymbol, ValidTokens;
    FixedCoded(ts);
    TokensWidth(ts);
    EndWidth();
  }

  /** A block no larger than the fixed one goes into the four bytes for each token that pending_buf has. */
  lemma BlockLength(s: seq<bool>, b: Block, dyn: Block, ts: seq<Token>, buf: Option<seq<byte>>, fixedOnly: bool,
      eof: bool, size: nat)
    requires BlockOk(b) && Cheapest(b, dyn, ts, buf, fixedOnly) && ValidTokens(ts) && |ts| < size && 128 <= size
    ensures |WithBlock(s, b, eof)| <= |s| + 32 * size - 24
  {
    hide DataBits, HeaderBits, FixedLens, FixedDists, BytesBits, BitsOf, ValidTokens, CodedTokens, IsSymbol, HeaderOk;
    FixedLength(ts, size);
    PaddingLength(|s| + 3);
    PaddingLength(|s + BlockBits(b, eof, |s|)|);
    if b.Stored? {
      StoredIs(b.data, eof, |s|);
    }
  }

  /** After less than a byte a stored block is five bytes longer than its data. */
  lemma StoredLength(s: seq<bool>, data: seq<byte>, eof: bool)
    requires |data| < 0x10000
    ensures BlockOk(Stored(data)) && |WithBlock(s, Stored(data), eof)| % 8 == 0
    ensures |s| % 8 <= 5 ==> |WithBlock(s, Stored(data), eof)| == |s| - |s| % 8 + 8 * (|data| + 5)
  {
    hide BytesBits, BitsOf, Padding;
    StoredIs(data, eof, |s|);
    PaddingLength(|s| + 3);
    assert |BytesBits(data)| == 8 * |data|;
    var t := s + BlockBits(Stored(data), eof, |s|);
    var k := (|s| + 3 + |Padding(|s| + 3)|) / 8;
    assert |t| == 8 * (k + 4 + |data|);
    PaddingLength(|t|);
  }

  lemma FixedSize(ts: seq<Token>)
    requires ValidTokens(ts) && CodedTokens(FixedLens(), FixedDists(), ts) && IsSymbol(FixedLens(), END_BLOCK)
    ensures IsSize(Fixed(ts), (|DataBits(FixedLens(), FixedDists(), ts)| + 3 + 7) / 8)
  {
    hide DataBits, FixedLens, FixedDists, CodedTokens, IsSymbol;
  }

  lemma DynamicSize(b: Block)
    requires b.Dynamic? && BlockOk(b)
    ensures |b.ll| >= 257 && |b.dd| >= 1 && 4 <= b.blcodes <= 19 && |b.bl| == 19 && CodedTokens(b.ll, b.dd, b.tokens)
    ensures IsSymbol(b.ll, END_BLOCK)
    ensures IsSize(b, (|HeaderBits(b.ll, b.dd, b.bl, b.blcodes)| + |DataBits(b.ll, b.dd, b.tokens)| + 3 + 7) / 8)
  {
    hide DataBits, HeaderBits, CodedTokens, IsSymbol;
  }
}
