/** From the tallied tokens to the trees, with opt_len and static_len exact. */
module BlockCosts {
  import opened Bits
  import opened CanonicalCode
  import opened CodeTables
  import opened InfTrees
  import opened Tokens
  import opened FixedCode
  import opened Costs
  import opened InflateSpec
  import opened RunCoding
  import opened SendTree
  import opened HeaderDecode
  import opened DataDecode
  import opened StreamDecode
  import opened BlockTrees

  /** The literal/length symbol of a token. */
  function LitSym(t: Token): nat {
    if t.dist == 0 then t.lc else 257 + LengthCode(t.lc)
  }

  /** The literal/length symbols of a block, with its end. */
  function LitSyms(ts: seq<Token>): seq<nat> {
    if ts == [] then [END_BLOCK] else [LitSym(ts[0])] + LitSyms(ts[1..])
  }

  /** The distance symbols of a block. */
  function DistSyms(ts: seq<Token>): seq<nat> {
    if ts == [] then []
    else if ts[0].dist == 0 then DistSyms(ts[1..])
    else [DistanceCode(ts[0].dist)] + DistSyms(ts[1..])
  }

  lemma LitSymBound(t: Token)
    requires ValidToken(t)
    ensures LitSym(t) < L_CODES && (t.dist != 0 ==> DistanceCode(t.dist) < D_CODES)
  {
    hide LengthCode, DistanceCode;
    LengthCodeFits(t.lc);
    if t.dist != 0 {
      DistanceCodeFits(t.dist);
    }
  }

  lemma {:induction false} SymsBound(ts: seq<Token>)
    requires ValidTokens(ts)
    ensures forall i :: 0 <= i < |LitSyms(ts)| ==> LitSyms(ts)[i] < L_CODES
    ensures forall i :: 0 <= i < |DistSyms(ts)| ==> DistSyms(ts)[i] < D_CODES
    ensures |LitSyms(ts)| == |ts| + 1 && |DistSyms(ts)| <= |ts|
  {
    hide LitSym, DistanceCode;
    if ts != [] {
      LitSymBound(ts[0]);
      SymsBound(ts[1..]);
    }
  }

  /** Extra bits by symbol. */
  function LitExtras(): (r: seq<nat>)
    ensures |r| == HEAP_SIZE && forall s :: 0 <= s < |r| ==> r[s] == if s >= 257 then LenExtra(s - 257) else 0
  {
    seq(HEAP_SIZE, s requires 0 <= s => if s >= 257 then LenExtra(s - 257) else 0)
  }

  function DistExtras(): (r: seq<nat>)
    ensures |r| == HEAP_SIZE && forall s :: 0 <= s < |r| ==> r[s] == DistExtra(s)
  {
    seq(HEAP_SIZE, s requires 0 <= s => DistExtra(s))
  }

  lemma LitSize(ll: seq<nat>, dd: seq<nat>, t: Token)
    requires CodedToken(ll, dd, t)
    ensures LitSym(t) < |ll| && LitSym(t) < L_CODES
    ensures (t.dist != 0 ==> DistanceCode(t.dist) < |dd| && DistanceCode(t.dist) < D_CODES)
    ensures |EncodeToken(ll, dd, t)| == ll[LitSym(t)] + LitExtras()[LitSym(t)]
      + if t.dist == 0 then 0 else dd[DistanceCode(t.dist)] + DistExtras()[DistanceCode(t.dist)]
  {
    hide LengthCode, DistanceCode, LenBase, LenExtra, DistBase, DistExtra, Pow2, CodeBits, BitsOf;
    LitSymBound(t);
    if t.dist != 0 {
      LengthCodeFits(t.lc);
      DistanceCodeFits(t.dist);
    }
  }

  /** Two lists of lengths that agree on the shorter. */
  ghost predicate Agree(lens: seq<nat>, dl: seq<nat>) {
    |dl| == HEAP_SIZE && forall s :: 0 <= s < |lens| && s < L_CODES ==> dl[s] == lens[s]
  }

  lemma SymCostCons(x: nat, syms: seq<nat>, len: seq<nat>, xb: seq<nat>)
    requires x < |len| && x < |xb| && forall i :: 0 <= i < |syms| ==> syms[i] < |len| && syms[i] < |xb|
    ensures forall i :: 0 <= i < |[x] + syms| ==> ([x] + syms)[i] < |len| && ([x] + syms)[i] < |xb|
    ensures SymCost([x] + syms, len, xb) == len[x] + xb[x] + SymCost(syms, len, xb)
  {
    assert ([x] + syms)[1..] == syms;
  }

  /** The size of a block's data is what its symbols cost. */
  lemma {:induction false} DataSize(ll: seq<nat>, dd: seq<nat>, ldl: seq<nat>, ddl: seq<nat>, ts: seq<Token>)
    requires CodedTokens(ll, dd, ts) && IsSymbol(ll, END_BLOCK) && Agree(ll, ldl) && Agree(dd, ddl) && ValidTokens(ts)
    ensures forall i :: 0 <= i < |LitSyms(ts)| ==> LitSyms(ts)[i] < HEAP_SIZE
    ensures forall i :: 0 <= i < |DistSyms(ts)| ==> DistSyms(ts)[i] < HEAP_SIZE
    ensures |DataBits(ll, dd, ts)| == SymCost(LitSyms(ts), ldl, LitExtras()) + SymCost(DistSyms(ts), ddl, DistExtras())
    decreases |ts|
  {
    hide CodedToken, EncodeToken, LitSym, DistanceCode, LenExtra, DistExtra, CodeBits, SymCost;
    SymsBound(ts);
    if ts == [] {
      EndCost(ldl, ddl);
    } else {
      DataSize(ll, dd, ldl, ddl, ts[1..]);
      LitSize(ll, dd, ts[0]);
      SymsBound(ts[1..]);
      SymCostCons(LitSym(ts[0]), LitSyms(ts[1..]), ldl, LitExtras());
      if ts[0].dist != 0 {
        SymCostCons(DistanceCode(ts[0].dist), DistSyms(ts[1..]), ddl, DistExtras());
      }
    }
  }

  lemma EndCost(ldl: seq<nat>, ddl: seq<nat>)
    requires |ldl| == |ddl| == HEAP_SIZE
    ensures SymCost([END_BLOCK], ldl, LitExtras()) == ldl[END_BLOCK]
    ensures SymCost([], ddl, DistExtras()) == 0
  {
    assert [END_BLOCK][1..] == [];
    assert SymCost([], ldl, LitExtras()) == 0;
  }

  /** Symbols of the tokens occur in the lists. */
  lemma {:induction false} TokenSyms(ts: seq<Token>, i: nat)
    requires i < |ts|
    ensures Hist(LitSyms(ts), LitSym(ts[i])) > 0
    ensures ts[i].dist != 0 ==> Hist(DistSyms(ts), DistanceCode(ts[i].dist)) > 0
  {
    hide LitSym, DistanceCode;
    if i == 0 {
      HistMember(LitSyms(ts), 0);
      if ts[0].dist != 0 {
        HistMember(DistSyms(ts), 0);
      }
    } else {
      TokenSyms(ts[1..], i - 1);
      HistAppend([LitSym(ts[0])], LitSyms(ts[1..]), LitSym(ts[i]));
      if ts[i].dist != 0 && ts[0].dist != 0 {
        HistAppend([DistanceCode(ts[0].dist)], DistSyms(ts[1..]), DistanceCode(ts[i].dist));
      }
    }
  }

  lemma {:induction false} EndOccurs(ts: seq<Token>)
    ensures Hist(LitSyms(ts), END_BLOCK) > 0
  {
    hide LitSym;
    if ts == [] {
      HistOne(END_BLOCK, END_BLOCK);
    } else {
      EndOccurs(ts[1..]);
      HistAppend([LitSym(ts[0])], LitSyms(ts[1..]), END_BLOCK);
    }
  }

  /** Trees built from the tokens' frequencies have codes for all the tokens. */
  lemma TokensCoded(ts: seq<Token>, lfc: seq<nat>, ldl: seq<nat>, lmax: nat, dfc: seq<nat>, ddl: seq<nat>, dmax: nat)
    requires ValidTokens(ts)
    requires GoodTree(Freqs(LitSyms(ts), HEAP_SIZE), lfc, ldl, L_CODES, MAX_BITS, lmax)
    requires GoodTree(Freqs(DistSyms(ts), HEAP_SIZE), dfc, ddl, D_CODES, MAX_BITS, dmax)
    ensures lmax >= END_BLOCK && IsSymbol(ldl[..lmax + 1], END_BLOCK)
    ensures CodedTokens(ldl[..lmax + 1], ddl[..dmax + 1], ts)
  {
    hide Hist, Freqs, LitSyms, DistSyms, Complete, CodesIn, LengthCode, DistanceCode;
    EndOccurs(ts);
    forall i | 0 <= i < |ts| ensures CodedToken(ldl[..lmax + 1], ddl[..dmax + 1], ts[i]) {
      TokenSyms(ts, i);
      LitSymBound(ts[i]);
    }
  }

  /** Static lengths by symbol. */
  function StaticLit(): (r: seq<nat>)
    ensures |r| == HEAP_SIZE && Agree(FixedLens(), r)
  {
    FixedLens() + seq(HEAP_SIZE - 288, _ => 0)
  }

  function StaticDist(): (r: seq<nat>)
    ensures |r| == HEAP_SIZE && Agree(FixedDists(), r)
  {
    FixedDists() + seq(HEAP_SIZE - 32, _ => 0)
  }

  /** The frequencies in the trees are those of the tokens. */
  ghost predicate Tallied(lf: seq<nat>, df: seq<nat>, bf: seq<nat>, ts: seq<Token>) {
    && |lf| == |df| == |bf| == HEAP_SIZE
    && (forall s :: 0 <= s < L_CODES ==> lf[s] == Hist(LitSyms(ts), s))
    && (forall s :: 0 <= s < D_CODES ==> df[s] == Hist(DistSyms(ts), s))
    && forall s :: 0 <= s < BL_CODES ==> bf[s] == 0
  }

  /** The literal and distance trees of a block. */
  method DataTrees(lfc: array<nat>, ldl: array<nat>, dfc: array<nat>, ddl: array<nat>, ghost ts: seq<Token>,
      ghost bf: seq<nat>)
    returns (lmax: nat, dmax: nat, opt: int, stat: int)
    requires lfc != ldl && lfc != dfc && lfc != ddl && ldl != dfc && ldl != ddl && dfc != ddl
    requires ldl.Length == ddl.Length == HEAP_SIZE && Tallied(lfc[..], dfc[..], bf, ts) && ValidTokens(ts)
    requires |ts| < 0xFFFD
    modifies lfc, ldl, dfc, ddl
    ensures GoodTree(Freqs(LitSyms(ts), HEAP_SIZE), lfc[..], ldl[..], L_CODES, MAX_BITS, lmax)
    ensures GoodTree(Freqs(DistSyms(ts), HEAP_SIZE), dfc[..], ddl[..], D_CODES, MAX_BITS, dmax)
    ensures (forall i :: 0 <= i < |LitSyms(ts)| ==> LitSyms(ts)[i] < HEAP_SIZE)
    ensures forall i :: 0 <= i < |DistSyms(ts)| ==> DistSyms(ts)[i] < HEAP_SIZE
    ensures opt == SymCost(LitSyms(ts), ldl[..], LitExtras()) + SymCost(DistSyms(ts), ddl[..], DistExtras())
    ensures stat == SymCost(LitSyms(ts), StaticLit(), LitExtras()) + SymCost(DistSyms(ts), StaticDist(), DistExtras())
  {
    hide Hist, Freqs, LitSyms, DistSyms, GoodTree, SymCost, Agree, Pow2, FixedLens, FixedDists;
    SymsBound(ts);
    Pow2Values();
    var opt1, stat1, opt2, stat2;
    assert forall s :: 0 <= s < L_CODES ==> lfc[s] == lfc[..][s] == Hist(LitSyms(ts), s);
    assert forall s :: 0 <= s < D_CODES ==> dfc[s] == dfc[..][s] == Hist(DistSyms(ts), s);
    lmax, opt1, stat1 := TreeFor(lfc, ldl, L_CODES, MAX_BITS, LitExtras(), StaticLit(), LitSyms(ts));
    dmax, opt2, stat2 := TreeFor(dfc, ddl, D_CODES, MAX_BITS, DistExtras(), StaticDist(), DistSyms(ts));
    opt, stat := opt1 + opt2, stat1 + stat2;
  }
}
