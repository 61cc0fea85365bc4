/** The three trees of a block: what build_tree and build_bl_tree leave for the header and the data. */
module BlockTrees {
  import opened Bits
  import opened CanonicalCode
  import opened CodeTables
  import opened Sums
  import opened InfTrees
  import opened HuffmanForest
  import opened LengthFacts
  import opened GenBitLen
  import opened BitLengths
  import opened HuffmanTree
  import opened Costs
  import opened InflateSpec
  import opened RunCoding
  import opened SendTree
  import opened HeaderDecode

  const HEAP_SIZE := 573

  // ---------- what a built tree offers ----------

  /** A tree whose used symbols all have codes. */
  ghost predicate GoodTree(f0: seq<nat>, fc: seq<nat>, dl: seq<nat>, elems: nat, max: nat, maxCode: nat) {
    && maxCode < elems <= |f0| && elems <= |dl| && Complete(dl[..maxCode + 1]) && CodesIn(fc, dl, dl[..maxCode + 1])
    && (forall s :: 0 <= s <= maxCode ==> dl[s] <= max)
    && (forall s :: 0 <= s < elems && f0[s] > 0 ==> s <= maxCode && dl[s] > 0)
    && (forall s :: maxCode < s < elems ==> dl[s] == 0)
  }

  lemma BuiltIsGood(f0: seq<nat>, f: seq<nat>, leaves: seq<nat>, fc: seq<nat>, dl: seq<nat>, elems: nat, max: nat,
      maxCode: nat)
    requires Built(f0, f, leaves, dl, elems, max, maxCode) && |fc| == |dl|
    requires forall s :: 0 <= s <= maxCode && dl[s] > 0 ==> fc[s] == Huff(dl[..maxCode + 1], s)
    ensures GoodTree(f0, fc, dl, elems, max, maxCode)
  {
    hide Huff, Complete, ByFrequency, Distinct;
    var lens := dl[..maxCode + 1];
    forall s | 0 <= s < elems && s !in leaves ensures dl[s] == 0 {
    }
    forall s | 0 <= s <= maxCode ensures dl[s] <= max {
      if s in leaves {
        var i :| 0 <= i < |leaves| && leaves[i] == s;
        assert leaves[i] < |dl| && 1 <= dl[leaves[i]] <= max;
      }
    }
    forall s | 0 <= s < elems && f0[s] > 0 ensures s <= maxCode && dl[s] > 0 {
      assert s in leaves;
      var i :| 0 <= i < |leaves| && leaves[i] == s;
      assert leaves[i] < |dl| && 1 <= dl[leaves[i]] <= max;
    }
    assert forall i :: 0 <= i < |leaves| ==> leaves[i] < |lens|;
    assert Fits(lens) by { CompleteFits(lens); }
    assert CodesIn(fc, dl, lens);
  }

  lemma BuiltBound(f0: seq<nat>, f: seq<nat>, leaves: seq<nat>, dl: seq<nat>, elems: nat, max: nat, maxCode: nat)
    requires Built(f0, f, leaves, dl, elems, max, maxCode)
    ensures maxCode < elems <= |dl|
  {
  }

  lemma CompleteFits(lens: seq<nat>)
    requires Complete(lens)
    ensures Fits(lens)
  {
  }

  /** build_tree on the frequencies of a list of symbols. */
  method TreeFor(fc: array<nat>, dl: array<nat>, elems: nat, max: nat, xb: seq<nat>, sl: seq<nat>, ghost syms: seq<nat>)
    returns (maxCode: nat, opt: int, stat: int)
    requires fc != dl && fc.Length == dl.Length == |sl| == |xb| == HEAP_SIZE && 3 <= elems <= L_CODES
    requires 1 <= max <= MAX_BITS && elems <= Pow2(max) && xb[0] == xb[1] == xb[2] == 0
    requires (forall i :: 0 <= i < |syms| ==> syms[i] < elems) && |syms| < 0xFFFE
    requires forall s :: 0 <= s < elems ==> fc[s] == Hist(syms, s)
    modifies fc, dl
    ensures GoodTree(Freqs(syms, HEAP_SIZE), fc[..], dl[..], elems, max, maxCode)
    ensures opt == SymCost(syms, dl[..], xb) && stat == SymCost(syms, sl, xb)
  {
    hide Hist, Freqs, Sum, Range, Used, Built, Optimal, GoodTree, SymCost, Huff, Pow2;
    ghost var f0: seq<nat>, h := fc[..], Freqs(syms, HEAP_SIZE);
    HistTotal(syms, HEAP_SIZE, elems);
    SumAgree(Range(0, elems), h, f0);
    ghost var overflow: nat, leaves: seq<nat>, f: seq<nat>, order: seq<nat>, dads: seq<nat>;
    maxCode, opt, stat, overflow, leaves, f, order, dads := HuffmanTree.BuildTree(fc, dl, elems, max, xb, sl);
    assert maxCode < elems by { BuiltBound(f0, f, leaves, dl[..], elems, max, maxCode); }
    assert dl[..][..maxCode + 1] == dl[..maxCode + 1];
    BuiltIsGood(f0, f, leaves, fc[..], dl[..], elems, max, maxCode);
    SameFreqs(f0, h, fc[..], dl[..], elems, max, maxCode);
    CostAgree(f0, h, dl[..], xb, elems);
    CostAgree(f0, h, sl, xb, elems);
    HistCost(syms, dl[..], xb, HEAP_SIZE, elems);
    HistCost(syms, sl, xb, HEAP_SIZE, elems);
  }

  lemma SameFreqs(f0: seq<nat>, h: seq<nat>, fc: seq<nat>, dl: seq<nat>, elems: nat, max: nat, maxCode: nat)
    requires GoodTree(f0, fc, dl, elems, max, maxCode) && elems <= |h| && forall s :: 0 <= s < elems ==> h[s] == f0[s]
    ensures GoodTree(h, fc, dl, elems, max, maxCode)
  {
    hide Complete, CodesIn;
  }

  lemma CostAgree(f0: seq<nat>, h: seq<nat>, len: seq<nat>, xb: seq<nat>, elems: nat)
    requires |f0| == |h| == |len| == |xb| && elems <= |h| && forall s :: 0 <= s < elems ==> h[s] == f0[s]
    ensures Sum(Range(0, elems), Used(f0, len, xb)) == Sum(Range(0, elems), Used(h, len, xb))
  {
    hide Sum;
    SumAgree(Range(0, elems), Used(f0, len, xb), Used(h, len, xb));
  }

  // ---------- the code-length code ----------

  ghost function Syms(rs: seq<Run>): (r: seq<nat>)
    ensures |r| == |rs| && forall i :: 0 <= i < |r| ==> r[i] == rs[i].sym
  {
    seq(|rs|, i requires 0 <= i < |rs| => rs[i].sym)
  }

  lemma {:induction false} OccIsHist(rs: seq<Run>, s: nat)
    ensures Occ(rs, s) == Hist(Syms(rs), s)
  {
    if rs != [] {
      assert Syms(rs)[1..] == Syms(rs[1..]);
      OccIsHist(rs[1..], s);
    }
  }

  /** Extra bits of the code-length code by symbol. */
  function BlExtras(): (r: seq<nat>)
    ensures |r| == HEAP_SIZE && forall s :: 0 <= s < |r| ==> r[s] == BlExtra(s)
  {
    seq(HEAP_SIZE, s requires 0 <= s => BlExtra(s))
  }

  lemma {:induction false} RunsCost(bl: seq<nat>, dl: seq<nat>, rs: seq<Run>)
    requires |bl| == 19 && |dl| == HEAP_SIZE && bl == dl[..19] && ValidRuns(rs)
    ensures |EncodeRuns(bl, rs)| == SymCost(Syms(rs), dl, BlExtras())
  {
    hide ValidRun;
    if rs != [] {
      RunSize(bl, rs[0]);
      assert Syms(rs)[1..] == Syms(rs[1..]);
      RunsCost(bl, dl, rs[1..]);
    }
  }

  lemma RunSize(bl: seq<nat>, r: Run)
    requires |bl| == 19 && ValidRun(r)
    ensures r.sym < 19 && |EncodeRun(bl, r)| == bl[r.sym] + BlExtra(r.sym)
  {
    hide CodeBits, BitsOf, Pow2;
  }

  lemma {:induction false} RunsFewer(have: seq<nat>, rs: seq<Run>)
    requires ValidRuns(rs)
    ensures |have| + |rs| <= |ExpandRuns(have, rs)|
    decreases |rs|
  {
    if rs != [] {
      assert rs[0].count >= 1 by { assert ValidRun(rs[0]); }
      RunsFewer(ExpandRun(have, rs[0]), rs[1..]);
    }
  }

  /** The runs of both trees. */
  ghost function BothSyms(ll: seq<nat>, dd: seq<nat>): seq<nat> {
    Syms(Runs(ll)) + Syms(Runs(dd))
  }

  lemma BothFacts(ll: seq<nat>, dd: seq<nat>)
    requires ShortLens(ll) && ShortLens(dd)
    ensures |BothSyms(ll, dd)| <= |ll| + |dd| && ValidRuns(Runs(ll)) && ValidRuns(Runs(dd))
    ensures forall i :: 0 <= i < |BothSyms(ll, dd)| ==> BothSyms(ll, dd)[i] < 19
    ensures forall s: nat :: Hist(BothSyms(ll, dd), s) == Occ(Runs(ll), s) + Occ(Runs(dd), s)
  {
    hide Runs, ExpandRuns, Repeatable, Hist, Occ;
    RunsExpand(ll, []);
    RunsExpand(dd, []);
    RunsFewer([], Runs(ll));
    RunsFewer([], Runs(dd));
    forall i | 0 <= i < |Runs(ll)| ensures Runs(ll)[i].sym < 19 { assert ValidRun(Runs(ll)[i]); }
    forall i | 0 <= i < |Runs(dd)| ensures Runs(dd)[i].sym < 19 { assert ValidRun(Runs(dd)[i]); }
    forall s: nat ensures Hist(BothSyms(ll, dd), s) == Occ(Runs(ll), s) + Occ(Runs(dd), s) {
      HistAppend(Syms(Runs(ll)), Syms(Runs(dd)), s);
      OccIsHist(Runs(ll), s);
      OccIsHist(Runs(dd), s);
    }
  }

  /** What build_bl_tree leaves behind. */
  ghost predicate BlOk(bfc: seq<nat>, bdl: seq<nat>, ll: seq<nat>, dd: seq<nat>, n: nat) {
    && |bdl| == HEAP_SIZE && 4 <= n <= 19 && RestUnsent(bdl[..19], n) && ThreeBit(bdl[..19]) && Complete(bdl[..19])
    && CodesIn(bfc, bdl, bdl[..19]) && Coded(bdl[..19], Runs(ll)) && Coded(bdl[..19], Runs(dd))
  }

  lemma BlIsGood(bfc: seq<nat>, bdl: seq<nat>, ll: seq<nat>, dd: seq<nat>, maxCode: nat)
    requires ShortLens(ll) && ShortLens(dd) && |bdl| == |bfc| == HEAP_SIZE
    requires GoodTree(Freqs(BothSyms(ll, dd), HEAP_SIZE), bfc, bdl, 19, 7, maxCode)
    ensures ThreeBit(bdl[..19]) && Complete(bdl[..19]) && CodesIn(bfc, bdl, bdl[..19])
    ensures Coded(bdl[..19], Runs(ll)) && Coded(bdl[..19], Runs(dd))
  {
    hide Complete, Hist, Occ, Runs, BothSyms, Huff, Freqs;
    var a, b := bdl[..maxCode + 1], bdl[..19];
    assert ZeroExtended(a, b);
    ExtendCode(a, b);
    CompleteFits(b);
    forall s | 0 <= s < 19 && b[s] > 0 ensures bfc[s] == Huff(b, s) {
      assert Code(b, s) == Code(a, s);
      SameHuff(a, b, s);
    }
    BothFacts(ll, dd);
    forall i | 0 <= i < |Runs(ll)| ensures IsSymbol(b, Runs(ll)[i].sym) {
      SymbolUsed(ll, dd, i);
    }
    forall i | 0 <= i < |Runs(dd)| ensures IsSymbol(b, Runs(dd)[i].sym) {
      SymbolUsed(ll, dd, |Runs(ll)| + i);
    }
  }

  lemma SameHuff(a: seq<nat>, b: seq<nat>, s: nat)
    requires a <= b && s < |a| && Code(b, s) == Code(a, s)
    ensures Huff(b, s) == Huff(a, s)
  {
  }

  lemma SymbolUsed(ll: seq<nat>, dd: seq<nat>, i: nat)
    requires i < |Runs(ll)| + |Runs(dd)|
    ensures Hist(BothSyms(ll, dd), if i < |Runs(ll)| then Runs(ll)[i].sym else Runs(dd)[i - |Runs(ll)|].sym) > 0
  {
    hide Runs, Hist;
    HistMember(BothSyms(ll, dd), i);
  }

  // ---------- build_bl_tree ----------

  lemma {:induction false} LensBitsSize(ls: seq<nat>)
    ensures |LensBits(ls)| == 3 * |ls|
  {
    if ls != [] {
      LensBitsSize(ls[..|ls| - 1]);
    }
  }

  lemma HeaderSize(ll: seq<nat>, dd: seq<nat>, bdl: seq<nat>, n: nat)
    requires |ll| >= 257 && |dd| >= 1 && 4 <= n <= 19 && |bdl| == HEAP_SIZE && ShortLens(ll) && ShortLens(dd)
    ensures forall i :: 0 <= i < |BothSyms(ll, dd)| ==> BothSyms(ll, dd)[i] < HEAP_SIZE
    ensures |HeaderBits(ll, dd, bdl[..19], n)| == 14 + 3 * n + SymCost(BothSyms(ll, dd), bdl, BlExtras())
  {
    hide Runs, Hist, Occ, EncodeRuns, LensBits, SymCost;
    var bl := bdl[..19];
    BothFacts(ll, dd);
    LensBitsSize(SentLens(bl, n));
    RunsCost(bl, bdl, Runs(ll));
    RunsCost(bl, bdl, Runs(dd));
    SymsSmall(Runs(ll));
    SymsSmall(Runs(dd));
    SymCostAppend(Syms(Runs(ll)), Syms(Runs(dd)), bdl, BlExtras());
  }

  lemma SymsSmall(rs: seq<Run>)
    requires ValidRuns(rs)
    ensures forall i :: 0 <= i < |Syms(rs)| ==> Syms(rs)[i] < 19
  {
    forall i | 0 <= i < |rs| ensures rs[i].sym < 19 { assert ValidRun(rs[i]); }
  }

  /** The last code length that must be sent. */
  method LastBlIndex(bdl: array<nat>) returns (maxBlindex: nat)
    requires bdl.Length == HEAP_SIZE
    ensures 3 <= maxBlindex <= 18 && RestUnsent(bdl[..19], maxBlindex + 1)
    ensures maxBlindex > 3 ==> bdl[HeaderSymbol(maxBlindex)] != 0
  {
    hide OrderOf;
    maxBlindex := 18;
    while maxBlindex > 3 && bdl[OrderOf()[maxBlindex]] == 0
      invariant 3 <= maxBlindex <= 18
      invariant forall i :: maxBlindex < i < 19 ==> bdl[OrderOf()[i]] == 0
    {
      maxBlindex := maxBlindex - 1;
    }
    OrderIs(maxBlindex);
  }

  method ScanBoth(ldl: array<nat>, lmax: nat, ddl: array<nat>, dmax: nat, bfc: array<nat>)
    requires ldl != ddl && ldl != bfc && ddl != bfc && bfc.Length == HEAP_SIZE && lmax + 1 < ldl.Length
    requires dmax + 1 < ddl.Length
    requires ShortLens(ldl[..lmax + 1]) && ShortLens(ddl[..dmax + 1]) && forall s :: 0 <= s < 19 ==> bfc[s] == 0
    modifies ldl, ddl, bfc
    ensures ldl[..] == old(ldl[..])[lmax + 1 := 0xffff] && ddl[..] == old(ddl[..])[dmax + 1 := 0xffff]
    ensures forall s :: 0 <= s < 19 ==> bfc[s] == Hist(BothSyms(old(ldl[..lmax + 1]), old(ddl[..dmax + 1])), s)
  {
    hide Occ, Hist, Runs, BothSyms;
    ghost var ll, dd := ldl[..lmax + 1], ddl[..dmax + 1];
    BothFacts(ll, dd);
    ScanTree(ldl, lmax, bfc);
    assert ddl[..dmax + 1] == dd;
    ScanTree(ddl, dmax, bfc);
  }

  /** build_bl_tree: `opt` is what it adds to opt_len, the exact size of the header. */
  method BuildBlTree(ldl: array<nat>, lmax: nat, ddl: array<nat>, dmax: nat, bfc: array<nat>, bdl: array<nat>)
    returns (maxBlindex: nat, opt: int)
    requires ldl != ddl && ldl != bfc && ddl != bfc && bdl != ldl && bdl != ddl && bdl != bfc
    requires bfc.Length == bdl.Length == HEAP_SIZE && 256 <= lmax < 286 && dmax < 30 && lmax + 1 < ldl.Length
    requires dmax + 1 < ddl.Length
    requires ShortLens(ldl[..lmax + 1]) && ShortLens(ddl[..dmax + 1]) && forall s :: 0 <= s < 19 ==> bfc[s] == 0
    modifies ldl, ddl, bfc, bdl
    ensures ldl[..] == old(ldl[..])[lmax + 1 := 0xffff] && ddl[..] == old(ddl[..])[dmax + 1 := 0xffff]
    ensures 3 <= maxBlindex <= 18 && BlOk(bfc[..], bdl[..], old(ldl[..lmax + 1]), old(ddl[..dmax + 1]), maxBlindex + 1)
    ensures opt == |HeaderBits(old(ldl[..lmax + 1]), old(ddl[..dmax + 1]), bdl[..19], maxBlindex + 1)|
    ensures maxBlindex > 3 ==> bdl[HeaderSymbol(maxBlindex)] != 0
  {
    hide Occ, Hist, Runs, BothSyms, Freqs, GoodTree, SymCost, Complete, CodesIn, Coded, ThreeBit, RestUnsent,
         HeaderBits, BlExtra, ShortLens;
    ghost var ll, dd := ldl[..lmax + 1], ddl[..dmax + 1];
    BothFacts(ll, dd);
    ScanBoth(ldl, lmax, ddl, dmax, bfc);
    var none := seq(HEAP_SIZE, _ => 0);
    Pow2Values();
    FirstExtras();
    var maxCode, cost, unused := TreeFor(bfc, bdl, BL_CODES, 7, BlExtras(), none, BothSyms(ll, dd));
    BlIsGood(bfc[..], bdl[..], ll, dd, maxCode);
    maxBlindex := LastBlIndex(bdl);
    assert bdl[..19] == bdl[..][..19];
    HeaderSize(ll, dd, bdl[..], maxBlindex + 1);
    opt := cost + 3 * (maxBlindex + 1) + 5 + 5 + 4;
  }

  lemma FirstExtras()
    ensures BlExtra(0) == 0 && BlExtra(1) == 0 && BlExtra(2) == 0
  {
  }
}
