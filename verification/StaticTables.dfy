/** tr_static_init: the tables that map lengths and distances to codes, and the fixed trees. */
module StaticTables {
  import opened Bits
  import opened CanonicalCode
  import opened CodeTables
  import opened InfTrees
  import opened Tokens
  import opened FixedCode
  import opened BitLengths
  import opened GenCodes
  import opened SendTree

  /** The mapping from length (0..255) to length code, with the best code for the longest match. */
  method LengthTables() returns (lengthCode: array<nat>, baseLength: array<nat>)
    ensures fresh(lengthCode) && fresh(baseLength) && lengthCode.Length == 256 && baseLength.Length == LENGTH_CODES
    ensures forall lc :: 0 <= lc < 256 ==> lengthCode[lc] == LengthCode(lc)
    ensures forall c :: 0 <= c < LENGTH_CODES - 1 ==> baseLength[c] == LenBase(c) - MIN_MATCH
  {
    hide LenBase, LenExtra, Pow2, LengthCode;
    lengthCode := new nat[256](_ => 0);
    baseLength := new nat[LENGTH_CODES](_ => 0);
    var length, code := 0, 0;
    FirstLength();
    while code < LENGTH_CODES - 1
      invariant 0 <= code <= LENGTH_CODES - 1
      invariant length == if code < LENGTH_CODES - 1 then LenBase(code) - MIN_MATCH else 256
      invariant length <= 256
      invariant forall lc :: 0 <= lc < length && lc < 255 ==> lengthCode[lc] == LengthCode(lc)
      invariant forall c :: 0 <= c < code ==> baseLength[c] == LenBase(c) - MIN_MATCH
    {
      baseLength[code] := length;
      LenBases(code);
      LengthRoom(code);
      length := FillLengths(lengthCode, code, length);
      code := code + 1;
    }
    lengthCode[length - 1] := code;
    assert LengthCode(255) == 28 by { LastLength(); LengthIs(255, 28); }
  }

  lemma LengthRoom(code: nat)
    requires code < LENGTH_CODES - 1
    ensures LenBase(code) >= 3 && LenBase(code) + Pow2(LenExtra(code)) <= 259
  {
    hide LenBase, Pow2, LenExtra;
    LenBases(code);
    FirstLength();
    LastLength();
    if code > 0 {
      LenBaseOrder(0, code);
    }
    if code < 27 {
      LenBaseOrder(code + 1, 28);
    }
  }

  lemma LengthIs(lc: nat, code: nat)
    requires code < LENGTH_CODES && LenBase(code) <= lc + MIN_MATCH
    requires (code < LENGTH_CODES - 1 ==> lc + MIN_MATCH < LenBase(code + 1))
    ensures LengthCode(lc) == code
  {
    LenCodeIs(lc + MIN_MATCH, code, LENGTH_CODES - 1);
  }

  /** The inner loop: one code for as many lengths as its extra bits tell apart. */
  method FillLengths(lengthCode: array<nat>, code: nat, length0: nat) returns (length: nat)
    requires lengthCode.Length == 256 && code < LENGTH_CODES - 1 && length0 == LenBase(code) - MIN_MATCH
    requires length0 + Pow2(LenExtra(code)) <= 256
    requires forall lc :: 0 <= lc < length0 ==> lengthCode[lc] == LengthCode(lc)
    modifies lengthCode
    ensures length == length0 + Pow2(LenExtra(code))
    ensures forall lc :: 0 <= lc < length && lc < 255 ==> lengthCode[lc] == LengthCode(lc)
  {
    hide LenBase, LenExtra, Pow2, LengthCode;
    length := length0;
    LenBases(code);
    LastLength();
    var n := 0;
    while n < Pow2(LenExtra(code))
      invariant 0 <= n <= Pow2(LenExtra(code)) && length == length0 + n
      invariant forall lc :: 0 <= lc < length && lc < 255 ==> lengthCode[lc] == LengthCode(lc)
    {
      if length < 255 {
        LengthIs(length, code);
      }
      lengthCode[length] := code;
      length := length + 1;
      n := n + 1;
    }
  }

  // ---------- distances ----------

  /** d_code: the code of a distance less one. */
  function DCode(distCode: seq<nat>, d: nat): nat
    requires |distCode| == 512 && d < WSIZE
  {
    if d < 256 then distCode[d] else distCode[256 + d / 128]
  }

  /** The table is right for distances up to n, less one. */
  ghost predicate DistFilled(distCode: seq<nat>, n: nat) {
    |distCode| == 512 && forall d :: 0 <= d < n && d < WSIZE ==> DCode(distCode, d) == DistanceCode(d + 1)
  }

  lemma DistIs(d: nat, code: nat)
    requires code < D_CODES && DistBase(code) <= d + 1 < DistBase(code) + Pow2(DistExtra(code)) && d < WSIZE
    ensures DistanceCode(d + 1) == code
  {
    hide DistBase, Pow2, DistExtra;
    if code < D_CODES - 1 {
      DistBases(code);
    }
    DistCodeIs(d + 1, code, D_CODES - 1);
  }

  lemma FillNear(distCode: seq<nat>, n: nat, code: nat)
    requires DistFilled(distCode, n) && n < 256 && DistanceCode(n + 1) == code
    ensures DistFilled(distCode[n := code], n + 1)
  {
    hide DistanceCode;
    var t := distCode[n := code];
    forall d | 0 <= d < n + 1 && d < WSIZE ensures DCode(t, d) == DistanceCode(d + 1) {
      if d < n {
        assert DCode(distCode, d) == DistanceCode(d + 1);
      }
    }
  }

  /** The distance one more than `d` has code `code`. */
  ghost predicate HasCode(d: nat, code: nat) {
    DistanceCode(d + 1) == code
  }

  lemma FillFar(distCode: seq<nat>, k: nat, code: nat)
    requires 2 <= k < 256 && DistFilled(distCode, 128 * k)
    requires forall d :: 128 * k <= d < 128 * k + 128 ==> HasCode(d, code)
    ensures DistFilled(distCode[256 + k := code], 128 * (k + 1))
  {
    hide DistanceCode;
    var t := distCode[256 + k := code];
    forall d | 0 <= d < 128 * (k + 1) && d < WSIZE ensures DCode(t, d) == DistanceCode(d + 1) {
      if d >= 128 * k {
        assert d / 128 == k && HasCode(d, code);
      } else {
        assert DCode(distCode, d) == DistanceCode(d + 1);
      }
    }
  }

  method DistanceTables() returns (distCode: array<nat>, baseDist: array<nat>)
    ensures fresh(distCode) && fresh(baseDist) && distCode.Length == 512 && baseDist.Length == D_CODES
    ensures forall d :: 0 <= d < WSIZE ==> DCode(distCode[..], d) == DistanceCode(d + 1)
    ensures forall c :: 0 <= c < D_CODES ==> baseDist[c] == DistBase(c) - 1
  {
    hide DistBase, DistExtra, Pow2, DistanceCode, DistFilled;
    distCode := new nat[512](_ => 0);
    baseDist := new nat[D_CODES](_ => 0);
    var dist, code := 0, 0;
    FirstLength();
    assert DistFilled(distCode[..], 0) by { NoneFilled(distCode[..]); }
    while code < 16
      invariant 0 <= code <= 16 && dist == DistBase(code) - 1 && DistFilled(distCode[..], dist)
      invariant forall c :: 0 <= c < code ==> baseDist[c] == DistBase(c) - 1
    {
      baseDist[code] := dist;
      DistRange(code);
      DistBases(code);
      dist := FillNears(distCode, code, dist);
      code := code + 1;
    }
    DistRange(16);
    dist := dist / 128;
    while code < D_CODES
      invariant 16 <= code <= D_CODES && 128 * dist == (if code < D_CODES then DistBase(code) - 1 else WSIZE)
      invariant DistFilled(distCode[..], 128 * dist)
      invariant 2 <= dist && forall c :: 0 <= c < code ==> baseDist[c] == DistBase(c) - 1
    {
      baseDist[code] := 128 * dist;
      DistRange(code);
      if code < D_CODES - 1 {
        DistBases(code);
      } else {
        LastLength();
      }
      dist := FillFars(distCode, code, dist);
      code := code + 1;
    }
    FilledAll(distCode[..], 128 * dist);
  }

  lemma NoneFilled(distCode: seq<nat>)
    requires |distCode| == 512
    ensures DistFilled(distCode, 0)
  {
  }

  lemma FilledAll(distCode: seq<nat>, n: nat)
    requires DistFilled(distCode, n) && n == WSIZE
    ensures |distCode| == 512 && forall d :: 0 <= d < WSIZE ==> DCode(distCode, d) == DistanceCode(d + 1)
  {
  }

  /** Sizes of the distance ranges: near ones within 256, far ones multiples of 128. */
  lemma DistRange(code: nat)
    requires code < D_CODES
    ensures DistBase(16) == 257 && (code < 16 ==> DistBase(code) + Pow2(DistExtra(code)) <= 257)
    ensures code >= 16 ==> DistExtra(code) >= 7 && Pow2(DistExtra(code)) == 128 * Pow2(DistExtra(code) - 7)
    ensures code >= 16 ==> DistBase(code) + Pow2(DistExtra(code)) <= WSIZE + 1
  {
    hide DistBase, Pow2;
    assert DistBase(16) == 257 by { ShlValue(); }
    if code < 16 {
      DistBases(code);
      if code < 15 {
        DistBaseOrder(code + 1, 16);
      }
    } else {
      Pow2Split(DistExtra(code) - 7);
      LastLength();
      if code < 29 {
        DistBases(code);
        if code < 28 {
          DistBaseOrder(code + 1, 29);
        }
      }
    }
  }

  lemma Pow2Split(n: nat)
    ensures Pow2(n + 7) == 128 * Pow2(n)
  {
    assert Pow2(n + 2) == 4 * Pow2(n);
    assert Pow2(n + 4) == 16 * Pow2(n);
    assert Pow2(n + 6) == 64 * Pow2(n);
  }

  lemma ShlValue()
    ensures DistBase(16) == 257
  {
    assert Shl(2, 3) == 16;
    assert Shl(2, 7) == 256;
  }

  method FillNears(distCode: array<nat>, code: nat, dist0: nat) returns (dist: nat)
    requires distCode.Length == 512 && code < 16 && dist0 == DistBase(code) - 1 && dist0 + Pow2(DistExtra(code)) <= 256
    requires DistFilled(distCode[..], dist0)
    modifies distCode
    ensures dist == dist0 + Pow2(DistExtra(code)) && DistFilled(distCode[..], dist)
  {
    hide DistBase, DistExtra, Pow2, DistanceCode, DistFilled;
    dist := dist0;
    var n := 0;
    while n < Pow2(DistExtra(code))
      invariant 0 <= n <= Pow2(DistExtra(code)) && dist == dist0 + n && DistFilled(distCode[..], dist)
    {
      DistIs(dist, code);
      FillNear(distCode[..], dist, code);
      ghost var t := distCode[..];
      distCode[dist] := code;
      assert distCode[..] == t[dist := code];
      dist := dist + 1;
      n := n + 1;
    }
  }

  method FillFars(distCode: array<nat>, code: nat, dist0: nat) returns (dist: nat)
    requires distCode.Length == 512 && 16 <= code < D_CODES && 2 <= dist0 && 128 * dist0 == DistBase(code) - 1
    requires DistExtra(code) >= 7 && Pow2(DistExtra(code)) == 128 * Pow2(DistExtra(code) - 7)
    requires DistBase(code) + Pow2(DistExtra(code)) <= WSIZE + 1
    requires DistFilled(distCode[..], 128 * dist0)
    modifies distCode
    ensures dist == dist0 + Pow2(DistExtra(code) - 7) && DistFilled(distCode[..], 128 * dist)
  {
    hide DistBase, DistExtra, Pow2, DistanceCode, DistFilled;
    dist := dist0;
    var n := 0;
    while n < Pow2(DistExtra(code) - 7)
      invariant 0 <= n <= Pow2(DistExtra(code) - 7) && dist == dist0 + n && DistFilled(distCode[..], 128 * dist)
    {
      forall d | 128 * dist <= d < 128 * dist + 128 ensures HasCode(d, code) {
        DistIs(d, code);
      }
      FillFar(distCode[..], dist, code);
      ghost var t := distCode[..];
      distCode[256 + dist] := code;
      assert distCode[..] == t[256 + dist := code];
      dist := dist + 1;
      n := n + 1;
    }
  }

  // ---------- the fixed trees ----------

  /** One of the loops that give a range of symbols the same length. */
  method GiveLength(dl: array<nat>, bl: array<nat>, from: nat, to: nat, len: nat)
    requires dl != bl && from <= to <= dl.Length && bl.Length == MAX_BITS + 1 && len <= MAX_BITS
    modifies dl, bl
    ensures forall i :: 0 <= i < dl.Length ==> dl[i] == if from <= i < to then len else old(dl[i])
    ensures forall b :: 0 <= b <= MAX_BITS ==> bl[b] == old(bl[b]) + if b == len then to - from else 0
  {
    var n := from;
    while n < to
      invariant from <= n <= to
      invariant forall i :: 0 <= i < dl.Length ==> dl[i] == if from <= i < n then len else old(dl[i])
      invariant forall b :: 0 <= b <= MAX_BITS ==> bl[b] == old(bl[b]) + if b == len then n - from else 0
    {
      dl[n] := len;
      bl[len] := bl[len] + 1;
      n := n + 1;
    }
  }

  method FixedLengths() returns (dl: array<nat>, bl: array<nat>)
    ensures fresh(dl) && fresh(bl) && dl != bl && dl[..] == FixedLens() && bl.Length == MAX_BITS + 1
    ensures CountsOk(bl[..], FixedLens())
  {
    hide Total;
    bl := new nat[MAX_BITS + 1](_ => 0);
    dl := new nat[L_CODES + 2](_ => 0);
    GiveLength(dl, bl, 0, 144, 8);
    GiveLength(dl, bl, 144, 256, 9);
    GiveLength(dl, bl, 256, 280, 7);
    GiveLength(dl, bl, 280, 288, 8);
    forall b | 1 <= b <= MAX_BITS ensures bl[..][b] == Total(FixedLens(), b) {
      FixedTotal(b);
    }
  }

  /** The trees of tr_static_init hold the fixed code; only 30 of its distance codes are used. */
  method StaticTrees() returns (lfc: array<nat>, ldl: array<nat>, dfc: array<nat>, ddl: array<nat>)
    ensures fresh(lfc) && fresh(ldl) && fresh(dfc) && fresh(ddl)
    ensures ldl[..] == FixedLens() && CodesIn(lfc[..], ldl[..], FixedLens())
    ensures lfc.Length == ldl.Length == 288
    ensures forall s :: 0 <= s < 288 ==> ldl[s] == |FixedWord(s)| && lfc[s] == Val(FixedWord(s))
    ensures dfc.Length == ddl.Length == D_CODES
    ensures forall d :: 0 <= d < D_CODES ==> ddl[d] == 5 && dfc[d] == Val(MBits(d, 5))
    ensures CodesIn(dfc[..], ddl[..], FixedDists()[..D_CODES])
  {
    hide CodesIn, CountsOk, Huff, FixedLens, FixedDists, Fits, Val, MBits, FixedWord;
    var bl;
    ldl, bl := FixedLengths();
    lfc := new nat[L_CODES + 2](_ => 0);
    FixedLensFit();
    GenerateCodes(lfc, ldl[..], bl);
    assert CodesIn(lfc[..], ldl[..], FixedLens()) by { HaveCodes(lfc[..], ldl[..], FixedLens()); }
    forall s | 0 <= s < 288 ensures ldl[s] == |FixedWord(s)| && lfc[s] == Val(FixedWord(s)) {
      FixedHuff(s);
    }
    dfc, ddl := StaticDistances();
  }

  lemma FixedHuff(s: nat)
    requires s < 288
    ensures FixedLens()[s] == |FixedWord(s)| > 0 && Huff(FixedLens(), s) == Val(FixedWord(s))
  {
    hide CodeBits, FixedLens, FixedWord;
    FixedWords(s);
    FixedUsed(s);
  }

  lemma FixedUsed(s: nat)
    requires s < 288
    ensures FixedLens()[s] == |FixedWord(s)| > 0
  {
  }

  lemma FixedLensFit()
    ensures Fits(FixedLens())
  {
    FixedComplete();
  }

  lemma HaveCodes(fc: seq<nat>, dl: seq<nat>, lens: seq<nat>)
    requires Fits(lens) && |lens| <= |fc| && dl == lens
    requires forall s :: 0 <= s < |lens| && lens[s] > 0 ==> fc[s] == Huff(lens, s)
    ensures CodesIn(fc, dl, lens)
  {
  }

  lemma FlatCodes(n: nat, s: nat)
    requires s < n <= 32
    ensures Code(FixedDists()[..n], s) == s
  {
    hide Count;
    var lens := FixedDists()[..n];
    CountEqual(lens, 0, s, 5, 5);
    NoneCounted(lens);
    forall l: nat | l != 5 ensures Total(lens, l) == 0 {
      CountEqual(lens, 0, n, 5, l);
    }
    NoneBefore(lens, 5);
  }

  method StaticDistances() returns (dfc: array<nat>, ddl: array<nat>)
    ensures fresh(dfc) && fresh(ddl) && CodesIn(dfc[..], ddl[..], FixedDists()[..D_CODES])
    ensures dfc.Length == ddl.Length == D_CODES
    ensures forall d :: 0 <= d < D_CODES ==> ddl[d] == 5 && dfc[d] == Val(MBits(d, 5))
  {
    hide Code, Fits, Pow2, CodesIn, Val, MBits;
    dfc := new nat[D_CODES](_ => 0);
    ddl := new nat[D_CODES](_ => 0);
    ghost var lens := FixedDists()[..D_CODES];
    var n := 0;
    while n < D_CODES
      invariant 0 <= n <= D_CODES
      invariant forall s :: 0 <= s < n ==> ddl[s] == 5 && dfc[s] == Huff(lens, s) == Val(MBits(s, 5))
    {
      ddl[n] := 5;
      Pow2Values();
      FlatCodes(D_CODES, n);
      HuffIs(lens, n);
      dfc[n] := BiReverse(n, 5);
      n := n + 1;
    }
    ThirtyFit();
    assert CodesIn(dfc[..], ddl[..], lens) by { HaveThem(dfc[..], ddl[..], lens); }
  }

  lemma HaveThem(fc: seq<nat>, dl: seq<nat>, lens: seq<nat>)
    requires Fits(lens) && |lens| <= |fc| && |lens| <= |dl|
    requires forall s :: 0 <= s < |lens| ==> dl[s] == lens[s] && fc[s] == Huff(lens, s)
    ensures CodesIn(fc, dl, lens)
  {
  }

  lemma ThirtyFit()
    ensures Fits(FixedDists()[..D_CODES])
  {
    hide Total, LenSum, Shl, Pow2, Count;
    var d := FixedDists()[..D_CODES];
    NoneCounted(d);
    forall l: nat ensures Total(d, l) == if l == 5 then 30 else 0 {
      CountEqual(d, 0, 30, 5, l);
      assert Total(d, l) == Count(d, 30, l) by { TotalIs(d, l); }
    }
    LenSumFlat(d, 1, 5);
    LenSumNext(d, 5);
    LenSumFlat(d, 6, 16);
    ShlTimes(30, 10);
    Pow2Values();
    Pow2Next(9);
  }

  lemma TotalIs(d: seq<nat>, l: nat)
    ensures Total(d, l) == Count(d, |d|, l)
  {
  }
}
