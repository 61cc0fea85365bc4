/** How the fields of inflate_state stand for a state of the decoding machine. */
module InflateState {
  import opened Bits
  import opened CanonicalCode
  import opened CodeTables
  import opened InfTrees
  import opened InflateTable
  import opened Tokens
  import opened FixedCode
  import opened InflateSpec
  import opened InflateRuns
  import opened GetCode
  import opened TableDecode
  import opened RunCoding

  /** The scalar fields. */
  datatype Regs = Regs(mode: Mode, last: bool, length: nat, offset: nat, extra: nat, nlen: nat, ndist: nat, ncode: nat,
      have: nat,
                       lenbits: nat, distbits: nat)

  /** Both tables decode the codes of the block. */
  ghost predicate TablesFor(r: Regs, lt: seq<Entry>, dt: seq<Entry>, a: State) {
    TableOk(LENS, a.lencode, lt, r.lenbits) && TableOk(DISTS, a.distcode, dt, r.distbits)
  }

  /** The counts of a dynamic header. */
  ghost predicate CountsFor(r: Regs, a: State) {
    && r.nlen == a.nlen && r.ndist == a.ndist && r.ncode == a.ncode && r.have == |a.lens|
    && 257 <= r.nlen <= 286 && 1 <= r.ndist <= 30 && 4 <= r.ncode <= 19
  }

  /** The lengths read so far, in the order of the header or of the symbols. */
  ghost predicate LensFor(r: Regs, lens: seq<nat>, a: State) {
    && |lens| == 320
    && (r.mode == LENLENS ==>
          && r.have <= r.ncode <= 19
          && forall i :: 0 <= i < r.have && i < 19 && i < |a.lens| ==> lens[OrderOf()[i]] == a.lens[i])
    && (r.mode == CODELENS ==> r.have <= r.nlen + r.ndist <= 320 && lens[..r.have] == a.lens)
  }

  ghost predicate Rel(r: Regs, lens: seq<nat>, lt: seq<Entry>, dt: seq<Entry>, a: State) {
    && r.mode == a.mode && r.last == a.last && CodesFit(a) && |lens| == 320
    && match r.mode
       case COPY => r.length == a.length
       case LENLENS => CountsFor(r, a) && LensFor(r, lens, a) && ThreeBit(a.lens)
       case CODELENS => |a.lencode| == 19 && CountsFor(r, a) && LensFor(r, lens, a) && TableOk(CODES, a.lencode, lt,
           r.lenbits) && AllUpTo(a.lencode, r.lenbits)
       case LEN => TablesFor(r, lt, dt, a)
       case LENEXT => TablesFor(r, lt, dt,
           a) && r.length == a.length && r.extra == a.extra <= 5 && 3 <= r.length && r.length + Pow2(r.extra) <= 259
       case DIST => TablesFor(r, lt, dt, a) && r.length == a.length && 3 <= r.length <= 258
       case DISTEXT => TablesFor(r, lt, dt,
           a) && r.length == a.length && 3 <= r.length <= 258 && r.offset == a.offset && r.extra == a.extra <= 13
                       && 1 <= r.offset && r.offset + Pow2(r.extra) <= WSIZE + 1
       case MATCH => TablesFor(r, lt, dt, a) && r.length == a.length && 1 <= r.length <= 258 && r.offset == a.offset
                     && 1 <= r.offset <= WSIZE && r.offset <= |a.out|
       case LIT => TablesFor(r, lt, dt, a) && r.length == a.length < 256
       case _ => true
  }

  /** Fewer than eight bits are held back, or they are not enough for a step. */
  ghost predicate HeldOk(held: seq<bool>, a: State) {
    a.mode in {DONE, BAD} || |held| < 8 || Step(a.(bits := held)) == None
  }

  /** The next step strictly gets nearer the end. */
  ghost predicate Closer(a: State, m: Mode, b: State, n: Mode) {
    || |b.bits| < |a.bits|
    || (|b.bits| == |a.bits| && RankOfMode(n) < RankOfMode(m))
    || (|b.bits| == |a.bits| && RankOfMode(n) == RankOfMode(m) && b.length < a.length)
  }

  lemma StepCloser(a: State)
    requires Step(a).Some?
    ensures Closer(a, a.mode, Step(a).value, Step(a).value.mode)
  {
    hide Step;
    StepProgress(a);
  }

  // ---------- how many bits a blocked state holds ----------

  lemma TypeHeld(held: seq<bool>, a: State)
    requires HeldOk(held, a) && a.mode == TYPE
    ensures |held| < 8
  {
  }

  lemma StoredHeld(held: seq<bool>, a: State)
    requires HeldOk(held, a) && a.mode == STORED
    ensures |held| < 8 || (|held| % 8 == 0 && |held| < 32)
  {
    hide Val;
  }

  lemma TableHeld(held: seq<bool>, a: State)
    requires HeldOk(held, a) && a.mode == TABLE
    ensures |held| < 14
  {
    hide Val;
  }

  lemma LenLensHeld(held: seq<bool>, a: State)
    requires HeldOk(held, a) && a.mode == LENLENS
    ensures |held| < 8
  {
    hide Val, Acceptable, CodeLens;
  }

  lemma ExtraHeld(held: seq<bool>, a: State)
    requires HeldOk(held, a) && a.mode in {LENEXT, DISTEXT}
    ensures |held| < 8 || |held| < a.extra
  {
    hide Val;
  }

  lemma LenHeld(held: seq<bool>, a: State)
    requires HeldOk(held, a) && a.mode == LEN
    ensures Slack(a.lencode, held)
  {
    hide Val, Decode, LenBase, LenExtra;
  }

  lemma LenNeeds(a: State)
    requires a.mode == LEN && Step(a) == None
    ensures Decode(a.lencode, a.bits) == Need
  {
    hide Decode, LenBase, LenExtra;
  }

  lemma DistHeld(held: seq<bool>, a: State)
    requires HeldOk(held, a) && a.mode == DIST
    ensures Slack(a.distcode, held)
  {
    hide Val, Decode, DistBase, DistExtra;
  }

  lemma OutHeld(held: seq<bool>, a: State)
    requires HeldOk(held, a) && a.mode in {MATCH, LIT}
    ensures |held| < 8
  {
    hide Back;
  }

  // ---------- sizes of lengths and distances ----------

  lemma LengthRange(s: nat)
    requires 257 <= s < 286
    ensures LenExtra(s - 257) <= 5 && 3 <= LenBase(s - 257) && LenBase(s - 257) + Pow2(LenExtra(s - 257)) <= 259
  {
    hide Pow2, LenBase, LenExtra;
    var c := s - 257;
    Tokens.FirstLength();
    LastLength();
    if c > 0 {
      LenBaseOrder(0, c);
    }
    if c < 28 {
      LenBases(c);
      if c < 27 {
        LenBaseOrder(c + 1, 28);
      }
    }
  }

  lemma DistanceRange(s: nat)
    requires s < 30
    ensures DistExtra(s) <= 13 && 1 <= DistBase(s) && DistBase(s) + Pow2(DistExtra(s)) <= WSIZE + 1
  {
    hide Pow2, DistBase, DistExtra;
    Tokens.FirstLength();
    LastLength();
    if s > 0 {
      DistBaseOrder(0, s);
    }
    if s < 29 {
      DistBases(s);
      if s < 28 {
        DistBaseOrder(s + 1, 29);
      }
    }
  }

  // ---------- the effect of each mode on the fields ----------

  lemma StepCases(a: State)
    ensures a.mode == TYPE ==> Step(a) == TypeStep(a)
    ensures a.mode == STORED ==> Step(a) == StoredStep(a)
    ensures a.mode == COPY ==> Step(a) == CopyStep(a)
    ensures a.mode == TABLE ==> Step(a) == TableStep(a)
    ensures a.mode == LENLENS ==> Step(a) == LenLensStep(a)
    ensures a.mode == CODELENS ==> Step(a) == CodeLensStep(a)
    ensures a.mode == LEN ==> Step(a) == LenStep(a)
    ensures a.mode == LENEXT ==> Step(a) == LenExtStep(a)
    ensures a.mode == DIST ==> Step(a) == DistStep(a)
    ensures a.mode == DISTEXT ==> Step(a) == DistExtStep(a)
    ensures a.mode == MATCH ==> Step(a) == Some(MatchStep(a))
    ensures a.mode == LIT ==> Step(a) == Some(a.(mode := LEN, out := a.out + [(a.length % 256) as byte]))
    ensures a.mode in {DONE, BAD} ==> Step(a) == None
  {
    hide TypeStep, StoredStep, CopyStep, TableStep, LenLensStep, CodeLensStep, LenStep, LenExtStep, DistStep,
         DistExtStep, MatchStep;
  }

  /** The bits of the block type. */
  lemma TypeReads(a: State, x: nat, y: nat)
    requires a.mode == TYPE && !a.last && |a.bits| >= 3 && x == Val(a.bits[..1]) && y == Val(a.bits[1..][..2])
    ensures Step(a) == Some(a.(bits := a.bits[3..], last := x == 1,
                               mode := if y == 0 then STORED else if y == 1 then LEN else if y == 2 then TABLE else BAD,
                               lencode := if y == 1 then FixedLens() else a.lencode,
                                   distcode := if y == 1 then FixedDists() else a.distcode))
    ensures y < 4
  {
    hide FixedLens, FixedDists, Step, Val;
    StepCases(a);
    OneBit(a.bits[0]);
    assert a.bits[..1] == [a.bits[0]];
    assert a.bits[1..][..2] == a.bits[1..3];
    ValBound(a.bits[1..3]);
    Pow2Values();
  }

  lemma OneBit(b: bool)
    ensures Val([b]) == B(b)
  {
    assert [b][1..] == [];
  }

  /** Modes whose fields mean nothing yet. */
  lemma PlainRel(r: Regs, lens: seq<nat>, lt: seq<Entry>, dt: seq<Entry>, a: State)
    requires a.mode in {TYPE, STORED, TABLE, DONE, BAD} && r.mode == a.mode && r.last == a.last && CodesFit(a)
    requires |lens| == 320
    ensures Rel(r, lens, lt, dt, a)
  {
    hide CodesFit;
  }

  lemma CopyRel(r: Regs, lens: seq<nat>, lt: seq<Entry>, dt: seq<Entry>, a: State)
    requires a.mode == COPY == r.mode && r.last == a.last && r.length == a.length && CodesFit(a) && |lens| == 320
    ensures Rel(r, lens, lt, dt, a)
  {
    hide CodesFit;
  }

  lemma LenRel(r: Regs, lens: seq<nat>, lt: seq<Entry>, dt: seq<Entry>, a: State)
    requires a.mode == LEN == r.mode && r.last == a.last && CodesFit(a) && |lens| == 320 && TablesFor(r, lt, dt, a)
    ensures Rel(r, lens, lt, dt, a)
  {
    hide CodesFit, TablesFor;
  }

  lemma RelFacts(r: Regs, lens: seq<nat>, lt: seq<Entry>, dt: seq<Entry>, a: State)
    requires Rel(r, lens, lt, dt, a)
    ensures r.mode == a.mode && r.last == a.last && CodesFit(a) && |lens| == 320
    ensures r.mode == COPY ==> r.length == a.length
    ensures r.mode in {LEN, LENEXT, DIST, DISTEXT, MATCH, LIT} ==> TablesFor(r, lt, dt, a)
  {
    hide CodesFit, TablesFor, CountsFor, LensFor, TableOk;
  }

  lemma HeldFew(held: seq<bool>, a: State)
    requires |held| < 8
    ensures HeldOk(held, a)
  {
    hide Step;
  }

  lemma LastBlock(a: State)
    requires a.mode == TYPE && a.last
    ensures Step(a) == Some(a.(mode := DONE, bits := a.bits[|a.bits| % 8..]))
  {
    StepCases(a);
  }

  lemma TypeOut(a: State)
    requires a.mode in {TYPE, STORED, TABLE, LENLENS, CODELENS, LEN, LENEXT, DIST, DISTEXT} && Step(a).Some?
    ensures Step(a).value.out == a.out
  {
    hide Step, Val, Decode, Acceptable, CodeLens, LenBase, LenExtra, DistBase, DistExtra, Repeat;
    StepCases(a);
  }

  /** Dropping the bits up to a byte boundary is a step, or none. */
  lemma Aligned(a: State)
    requires a.mode == STORED
    ensures Leads(a, a.(bits := a.bits[|a.bits| % 8..]))
  {
    hide Leads, Steps, Val;
    if |a.bits| % 8 == 0 {
      assert a.(bits := a.bits[0..]) == a;
      LeadsSelf(a);
    } else {
      LeadsStep(a, a.(bits := a.bits[|a.bits| % 8..]));
    }
  }

  /** The step out of STORED. */
  ghost predicate StoredGoes(a: State, b: State, length: nat) {
    && Step(a) == Some(b) && |b.bits| < |a.bits| && b.out == a.out && b.last == a.last
    && b.length == (if b.mode == COPY then length else b.length)
  }

  lemma StoredStops(a0: State, a: State)
    requires a.mode == STORED && a == a0.(bits := a.bits) && |a.bits| % 8 == 0
    ensures |a.bits| < 32 ==> Step(a) == None
    ensures |a.bits| >= 32 ==>
      var len, check := Val(a.bits[..16]), Val(a.bits[16..32]);
      && Step(a).Some? && StoredGoes(a, Step(a).value, len) && Step(a).value.bits == a.bits[32..]
      && Step(a).value.mode == if len != 0xffff - check then BAD else COPY
  {
    hide Val;
  }

  /** The upper half of 32 bits. */
  lemma HighHalf(hold: nat)
    ensures Low(Shr(hold, 16), 16) == Val(BitsOf(hold, 32)[16..32])
  {
    hide Val, BitsOf, Low, Shr;
    BitsOfSplit(hold, 16, 16);
    ValBitsOf(Shr(hold, 16), 16);
    assert BitsOf(hold, 32)[16..32] == BitsOf(Shr(hold, 16), 16);
  }

  lemma SameFits(a: State, b: State)
    requires CodesFit(a) && b.lencode == a.lencode && b.distcode == a.distcode && b.lens == a.lens
    ensures CodesFit(b)
  {
  }

  lemma StepCopy(a: State)
    requires a.mode == COPY
    ensures Step(a) == CopyStep(a)
  {
    hide CopyStep;
  }

  /** One stored byte, or the end of the block. */
  lemma CopyReads(a: State, b: byte, rest: seq<bool>)
    requires a.mode == COPY && a.length > 0 && a.bits == BitsOf(b, 8) + rest
    ensures Step(a) == Some(a.(bits := rest, length := a.length - 1, out := a.out + [b]))
  {
    hide Step, BitsOf, Val, Low, Pow2;
    StepCopy(a);
    assert a.bits[..8] == BitsOf(b, 8) && a.bits[8..] == rest;
    ValBitsOf(b, 8);
    Pow2Values();
    LowSmall(b, 8);
  }

  lemma CopyStops(a: State)
    requires a.mode == COPY
    ensures a.length == 0 ==> Step(a) == Some(a.(mode := TYPE))
    ensures a.length > 0 && |a.bits| < 8 ==> Step(a) == None
  {
    hide Val;
  }

  lemma Nearer(a: State, m: Mode, b: State, n: Mode)
    requires |b.bits| < |a.bits|
    ensures Closer(a, m, b, n)
  {
  }

  // ---------- the dynamic header ----------

  lemma TableReads(a: State, x: nat, y: nat, z: nat)
    requires a.mode == TABLE && |a.bits| >= 14 && x == Val(a.bits[..5]) && y == Val(a.bits[5..][..5])
    requires z == Val(a.bits[5..][5..][..4])
    ensures Step(a)
            == Some(a.(bits := a.bits[5..][5..][4..], nlen := x + 257, ndist := y + 1, ncode := z + 4, lens := [],
                               mode := if x + 257 > 286 || y + 1 > 30 then BAD else LENLENS))
    ensures z < 16
  {
    hide Val, Pow2;
    assert a.bits[5..][..5] == a.bits[5..10] && a.bits[5..][5..][..4] == a.bits[10..14]
           && a.bits[5..][5..][4..] == a.bits[14..];
    ValBound(a.bits[10..14]);
    Pow2Values();
  }

  lemma TableStops(a: State)
    requires a.mode == TABLE && |a.bits| < 14
    ensures Step(a) == None
  {
  }

  lemma TableRel(r: Regs, lens: seq<nat>, lt: seq<Entry>, dt: seq<Entry>, a: State)
    requires a.mode == LENLENS == r.mode && r.last == a.last && CodesFit(a) && |lens| == 320 && a.lens == []
    requires r.have == 0
    requires r.nlen == a.nlen && r.ndist == a.ndist && r.ncode == a.ncode && 257 <= r.nlen <= 286 && 1 <= r.ndist <= 30
    requires 4 <= r.ncode <= 19
    ensures Rel(r, lens, lt, dt, a)
  {
    hide CodesFit;
  }

  lemma LenLensFacts(r: Regs, lens: seq<nat>, lt: seq<Entry>, dt: seq<Entry>, a: State)
    requires Rel(r, lens, lt, dt, a) && r.mode == LENLENS
    ensures r.have == |a.lens| <= r.ncode == a.ncode <= 19 && CountsFor(r, a) && ThreeBit(a.lens) && a.mode == LENLENS
    ensures forall i :: 0 <= i < r.have ==> lens[OrderOf()[i]] == a.lens[i]
  {
    hide CodesFit;
  }

  lemma BothTables(r: Regs, lt: seq<Entry>, dt: seq<Entry>, a: State)
    requires TableOk(LENS, a.lencode, lt, r.lenbits) && TableOk(DISTS, a.distcode, dt, r.distbits)
    ensures TablesFor(r, lt, dt, a)
  {
    hide TableOk;
  }

  lemma CountsAre(r: Regs, a: State)
    requires CountsFor(r, a)
    ensures r.nlen == a.nlen && r.ndist == a.ndist && r.ncode == a.ncode && r.have == |a.lens|
    ensures 257 <= r.nlen <= 286 && 1 <= r.ndist <= 30 && 4 <= r.ncode <= 19
  {
  }

  /** The counts stay while lengths are read. */
  lemma CountsAgain(r: Regs, a: State, r': Regs, b: State)
    requires CountsFor(r, a)
    requires r'.nlen == r.nlen && r'.ndist == r.ndist && r'.ncode == r.ncode && b.nlen == a.nlen && b.ndist == a.ndist
    requires b.ncode == a.ncode
    ensures r'.have == |b.lens| ==> CountsFor(r', b)
  {
  }

  /** One more length of the code-length code. */
  lemma LenLensMore(r: Regs, lens: seq<nat>, lt: seq<Entry>, dt: seq<Entry>, a: State, v: nat)
    requires Rel(r, lens, lt, dt, a) && r.mode == LENLENS && r.have < r.ncode && |a.bits| >= 3 && v == Val(a.bits[..3])
    ensures r.have < 19 && v < 8 && Step(a) == Some(a.(bits := a.bits[3..], lens := a.lens + [v]))
    ensures Rel(r.(have := r.have + 1), lens[OrderOf()[r.have] := v], lt, dt,
            a.(bits := a.bits[3..], lens := a.lens + [v]))
  {
    hide Val, Pow2, OrderOf;
    LenLensFacts(r, lens, lt, dt, a);
    ValBound(a.bits[..3]);
    Pow2Values();
    OrderInjective();
    assert ValidLens(a.lens + [v]);
  }

  lemma RankBack(i: nat)
    requires i < 19
    ensures RankOf(OrderOf()[i]) == i
  {
    var s := OrderOf()[i];
    if i < 10 {
      assert s == if i == 0 then 16 else if i == 1 then 17 else if i == 2 then 18 else if i == 3 then 0
                  else if i == 4 then 8 else if i == 5 then 7 else if i == 6 then 9 else if i == 7 then 6
                  else if i == 8 then 10 else 5;
    } else {
      assert s == if i == 10 then 11 else if i == 11 then 4 else if i == 12 then 12 else if i == 13 then 3
                  else if i == 14 then 13 else if i == 15 then 2 else if i == 16 then 14 else if i == 17 then 1 else 15;
    }
  }

  lemma OrderInjective()
    ensures forall i, j :: 0 <= i < j < 19 ==> OrderOf()[i] != OrderOf()[j]
  {
    hide OrderOf, RankOf;
    forall i, j | 0 <= i < j < 19 ensures OrderOf()[i] != OrderOf()[j] {
      RankBack(i);
      RankBack(j);
    }
  }

  lemma LenLensStops(a: State)
    requires a.mode == LENLENS && |a.lens| < a.ncode && |a.bits| < 3
    ensures Step(a) == None
  {
  }

  /** All lengths are there: those not sent are 0. */
  lemma LenLensAll(r: Regs, lens: seq<nat>, lens': seq<nat>, lt: seq<Entry>, dt: seq<Entry>, a: State)
    requires Rel(r, lens, lt, dt, a) && r.mode == LENLENS && r.have == r.ncode && |lens'| == 320
    requires forall i :: 0 <= i < 19 ==> lens'[OrderOf()[i]] == if i < r.have then lens[OrderOf()[i]] else 0
    ensures lens'[..19] == CodeLens(a.lens) && ValidLens(lens'[..19]) && AllUpTo(lens'[..19], 7) && |a.lens| == a.ncode
  {
    hide OrderOf, RankOf;
    LenLensFacts(r, lens, lt, dt, a);
    forall s | 0 <= s < 19 ensures lens'[s] == CodeLens(a.lens)[s] && lens'[s] <= 7 {
      assert OrderOf()[RankOf(s)] == s;
    }
  }

  lemma LenLensEnds(a: State)
    requires a.mode == LENLENS && |a.lens| == a.ncode
    ensures Step(a) == Some(if Acceptable(CODES, CodeLens(a.lens)) then a.(mode := CODELENS,
            lencode := CodeLens(a.lens), lens := []) else a.(mode := BAD))
  {
    hide Acceptable, CodeLens;
  }

  lemma CodeLensRel(r: Regs, lens: seq<nat>, lt: seq<Entry>, dt: seq<Entry>, a: State)
    requires |a.lencode| == 19 && a.mode == CODELENS == r.mode && r.last == a.last && CodesFit(a) && |lens| == 320
    requires a.lens == [] && r.have == 0 && CountsFor(r, a)
    requires TableOk(CODES, a.lencode, lt, r.lenbits) && AllUpTo(a.lencode, r.lenbits)
    ensures Rel(r, lens, lt, dt, a)
  {
    hide CodesFit, TableOk, AllUpTo;
    assert lens[..0] == [];
  }

  lemma CloserTrans(a: State, b: State, m: Mode, c: State, n: Mode)
    requires |b.bits| < |a.bits| || (|b.bits| == |a.bits| && b.length == a.length)
    requires Closer(b, m, c, n)
    ensures Closer(a, m, c, n)
  {
  }

  // ---------- CODELENS ----------

  /** The entry found is for the next symbol. */
  ghost predicate Peeked(a: State, e: Entry) {
    && e.bits <= |a.bits|
    && match Decode(a.lencode, a.bits)
       case Need => false
       case Symbol(s) => s < |a.lencode| && e.bits == a.lencode[s] && e.val == s
       case Invalid => e == INVALID
  }

  lemma PeekedIs(a: State, held: seq<bool>, more: seq<bool>, e: Entry)
    requires Fits(a.lencode) && a.bits == held + more && e.bits <= |held|
    requires Agrees(CODES, a.lencode, Decode(a.lencode, held), Found(e, e.bits), |held|)
    ensures Peeked(a, e) && Peeked(a.(bits := held), e)
  {
    hide Fits, Decode;
    DecodeFeed(a.lencode, held, more);
  }

  lemma PeekPlain(a: State, e: Entry)
    requires a.mode == CODELENS && |a.lens| < a.nlen + a.ndist && Peeked(a, e) && e.val < 16
    ensures Step(a) == Some(a.(bits := a.bits[e.bits..], lens := a.lens + [e.val]))
  {
    hide Step, Decode, Acceptable, RepeatStep, Val;
    StepCodeLens(a);
  }

  /** The step for a repeat code, once its extra bits are there. */
  ghost function AfterRepeat(a: State, e: Entry): State
    requires e.bits + BlExtra(e.val) <= |a.bits|
  {
    var n := BlExtra(e.val);
    var count := RunBase(e.val) + Val(a.bits[e.bits..][..n]);
    var b := a.(bits := a.bits[e.bits..][n..]);
    if (e.val == 16 && a.lens == []) || |a.lens| + count > a.nlen + a.ndist then b.(mode := BAD)
    else b.(lens := a.lens + Repeat(if e.val == 16 then a.lens[|a.lens| - 1] else 0, count))
  }

  lemma StepCodeLens(a: State)
    requires a.mode == CODELENS
    ensures Step(a) == CodeLensStep(a)
  {
    hide CodeLensStep;
  }

  lemma RepeatIs(a: State, e: Entry, v: nat)
    requires a.mode == CODELENS && 16 <= e.val <= 18 && e.bits <= |a.bits| && (e.val == 16 ==> a.lens != [])
    requires v == if e.val == 16 then a.lens[|a.lens| - 1] else 0
    ensures |a.bits| < e.bits + BlExtra(e.val) ==> RepeatStep(a, e.bits, BlExtra(e.val), RunBase(e.val), v) == None
    ensures |a.bits| >= e.bits + BlExtra(e.val) ==>
              RepeatStep(a, e.bits, BlExtra(e.val), RunBase(e.val), v) == Some(AfterRepeat(a, e))
  {
    hide Val, Repeat;
    var n := BlExtra(e.val);
    if |a.bits| >= e.bits + n {
      assert a.bits[e.bits..][..n] == a.bits[e.bits..e.bits + n] && a.bits[e.bits..][n..] == a.bits[e.bits + n..];
    }
  }

  lemma PeekRepeat(a: State, e: Entry)
    requires a.mode == CODELENS && |a.lens| < a.nlen + a.ndist && Peeked(a, e) && 16 <= e.val <= 18
    ensures |a.bits| < e.bits + BlExtra(e.val) ==> Step(a) == None
    ensures |a.bits| >= e.bits + BlExtra(e.val) ==> Step(a) == Some(AfterRepeat(a, e))
  {
    hide Step, Decode, Acceptable, Val, RepeatStep, Repeat;
    StepCodeLens(a);
    if e.val == 16 && a.lens == [] {
      assert |a.bits| >= e.bits + 2 ==> a.bits[e.bits..][2..] == a.bits[e.bits + 2..];
    } else {
      hide AfterRepeat;
      RepeatIs(a, e, if e.val == 16 then a.lens[|a.lens| - 1] else 0);
    }
  }

  lemma CodeLensStops(a: State)
    requires a.mode == CODELENS && |a.lens| < a.nlen + a.ndist && Decode(a.lencode, a.bits) == Need
    ensures Step(a) == None
  {
    hide Step, Decode, Acceptable, Val, Repeat;
    StepCodeLens(a);
  }

  lemma CodeLensFacts(r: Regs, lens: seq<nat>, lt: seq<Entry>, dt: seq<Entry>, a: State)
    requires Rel(r, lens, lt, dt, a) && r.mode == CODELENS
    ensures |a.lencode| == 19 && CountsFor(r, a) && r.have <= r.nlen + r.ndist <= 316 && lens[..r.have] == a.lens
    ensures a.mode == CODELENS && Fits(a.lencode)
    ensures TableOk(CODES, a.lencode, lt, r.lenbits) && AllUpTo(a.lencode, r.lenbits) && ValidLens(a.lens)
  {
    hide TableOk, AllUpTo, Fits, ValidLens;
  }

  /** Lengths added at the end. */
  lemma CodeLensMore(r: Regs, lens: seq<nat>, lens': seq<nat>, lt: seq<Entry>, dt: seq<Entry>, a: State, b: State,
      v: nat, n: nat)
    requires Rel(r, lens, lt, dt, a) && r.mode == CODELENS && r.have + n <= r.nlen + r.ndist && CodesFit(b)
    requires b == a.(bits := b.bits, lens := a.lens + Repeat(v, n)) && |lens'| == 320
    requires forall i :: 0 <= i < r.have + n ==> lens'[i] == if i < r.have then lens[i] else v
    ensures Rel(r.(have := r.have + n), lens', lt, dt, b)
  {
    hide CodesFit, TableOk, AllUpTo;
    assert lens'[..r.have + n] == lens[..r.have] + Repeat(v, n);
  }

  /** Whether what is held has been more than a byte all along. */
  lemma PlainHeld(a: State, held: seq<bool>, e: Entry)
    requires HeldOk(held, a) && a.mode == CODELENS && |a.lens| < a.nlen + a.ndist && Peeked(a.(bits := held), e)
    requires e.val <= 18
    ensures |held| < 8 || (e.val >= 16 && |held| < e.bits + BlExtra(e.val))
  {
    hide Step, Peeked;
    if e.val < 16 {
      PeekPlain(a.(bits := held), e);
    } else {
      PeekRepeat(a.(bits := held), e);
    }
  }

  /** The entry's symbol is one of the nineteen. */
  lemma PeekedVal(a: State, e: Entry)
    requires Peeked(a, e) && |a.lencode| == 19
    ensures e.val <= 18 && e.bits >= 1
  {
    hide Decode;
  }

  /** One more plain length. */
  lemma PlainMore(r: Regs, lens: seq<nat>, lt: seq<Entry>, dt: seq<Entry>, a: State, e: Entry)
    requires Rel(r, lens, lt, dt, a) && r.mode == CODELENS && r.have < r.nlen + r.ndist && Peeked(a, e) && e.val < 16
    ensures Step(a).Some? && Step(a).value.bits == a.bits[e.bits..] && Step(a).value.mode == CODELENS
    ensures Step(a).value.out == a.out
    ensures Rel(r.(have := r.have + 1), lens[r.have := e.val], lt, dt, Step(a).value)
  {
    hide Step, CodesFit, TableOk, AllUpTo, Peeked, Rel;
    CodeLensFacts(r, lens, lt, dt, a);
    RelFacts(r, lens, lt, dt, a);
    PeekPlain(a, e);
    StepFits(a);
    assert [e.val] == Repeat(e.val, 1);
    CodeLensMore(r, lens, lens[r.have := e.val], lt, dt, a, Step(a).value, e.val, 1);
  }

  /** A repeat that fits. */
  lemma RepeatMore(r: Regs, lens: seq<nat>, lens': seq<nat>, lt: seq<Entry>, dt: seq<Entry>, a: State, e: Entry, v: nat,
      copy: nat)
    requires Rel(r, lens, lt, dt, a) && r.mode == CODELENS && r.have < r.nlen + r.ndist && Peeked(a, e)
    requires 16 <= e.val <= 18
    requires |a.bits| >= e.bits + BlExtra(e.val) && copy == RunBase(e.val) + Val(a.bits[e.bits..][..BlExtra(e.val)])
    requires r.have + copy <= r.nlen + r.ndist && (e.val == 16 ==> r.have > 0)
    requires v == (if e.val == 16 && r.have > 0 then lens[r.have - 1] else 0)
    requires |lens'| == 320 && forall i :: 0 <= i < r.have + copy ==> lens'[i] == if i < r.have then lens[i] else v
    ensures Step(a) == Some(AfterRepeat(a, e)) && AfterRepeat(a, e).mode == CODELENS
    ensures Rel(r.(have := r.have + copy), lens', lt, dt, AfterRepeat(a, e))
    ensures AfterRepeat(a, e).bits == a.bits[e.bits..][BlExtra(e.val)..]
  {
    hide Step, CodesFit, TableOk, AllUpTo, Peeked, Rel, Val;
    CodeLensFacts(r, lens, lt, dt, a);
    RelFacts(r, lens, lt, dt, a);
    PeekRepeat(a, e);
    StepFits(a);
    assert e.val == 16 ==> a.lens[|a.lens| - 1] == lens[r.have - 1];
    CodeLensMore(r, lens, lens', lt, dt, a, AfterRepeat(a, e), v, copy);
  }

  /** All lengths are there: the two codes, if they are codes. */
  lemma CodeLensEnds(r: Regs, lens: seq<nat>, lt: seq<Entry>, dt: seq<Entry>, a: State)
    requires Rel(r, lens, lt, dt, a) && r.mode == CODELENS && r.have == r.nlen + r.ndist
    ensures r.nlen <= 286 && r.ndist <= 30 && r.nlen + r.ndist <= 320
    ensures var l, d := lens[..r.nlen], lens[r.nlen..r.nlen + r.ndist];
            && ValidLens(l) && ValidLens(d)
            && Step(a) == Some(if Acceptable(LENS, l) && Acceptable(DISTS, d) then a.(mode := LEN, lencode := l,
                distcode := d) else a.(mode := BAD))
  {
    hide Step, CodesFit, TableOk, AllUpTo, Acceptable, Rel, Decode;
    CodeLensFacts(r, lens, lt, dt, a);
    RelFacts(r, lens, lt, dt, a);
    StepCodeLens(a);
    assert a.lens[..r.nlen] == lens[..r.nlen] && a.lens[r.nlen..] == lens[r.nlen..r.nlen + r.ndist];
    assert forall i :: 0 <= i < r.have ==> lens[i] == a.lens[i];
  }

  lemma CodeLensFullHeld(held: seq<bool>, a: State)
    requires HeldOk(held, a) && a.mode == CODELENS && |a.lens| >= a.nlen + a.ndist
    ensures |held| < 8
  {
    hide Step, Decode, Acceptable;
    StepCodeLens(a.(bits := held));
  }

  // ---------- literals, lengths and distances ----------

  /** `op & mask` for a one-bit mask. */
  predicate HasBit(op: nat, mask: nat)
    requires mask > 0
  {
    op / mask % 2 == 1
  }

  lemma LenOps(s: nat)
    ensures OpOf(LENS, s) == 0 <==> s < 256
    ensures HasBit(OpOf(LENS, s), 32) <==> s == 256
    ensures HasBit(OpOf(LENS, s), 64) <==> s == 256 || s >= 286
    ensures 257 <= s < 286 ==> OpOf(LENS, s) % 16 == LenExtra(s - 257) && OpOf(LENS, s) == 16 + LenExtra(s - 257)
    ensures HasBit(OpOf(LENS, s), 16) <==> 257 <= s < 286
  {
    assert 257 <= s < 286 ==> LenExtra(s - 257) <= 5;
  }

  lemma DistOps(s: nat)
    ensures HasBit(OpOf(DISTS, s), 64) <==> s >= 30
    ensures s < 30 ==> OpOf(DISTS, s) % 16 == DistExtra(s) && HasBit(OpOf(DISTS, s), 16)
    ensures s >= 30 ==> !HasBit(OpOf(DISTS, s), 16)
  {
    assert s < 30 ==> DistExtra(s) <= 13;
  }

  /** Where LEN goes, by the entry found. */
  function LenGoes(op: nat): Mode {
    if op == 0 then LIT else if HasBit(op, 32) then TYPE else if HasBit(op, 64) then BAD else LENEXT
  }

  lemma StepLen(a: State)
    requires a.mode == LEN
    ensures Step(a) == LenStep(a)
  {
    hide LenStep;
  }

  lemma StepDist(a: State)
    requires a.mode == DIST
    ensures Step(a) == DistStep(a)
  {
    hide DistStep;
  }

  lemma LenReads(a: State, rest: seq<bool>, e: Entry)
    requires a.mode == LEN && Got(LENS, a.lencode, a.bits, rest, e)
    ensures Step(a).Some?
    ensures Step(a).value
            == a.(mode := LenGoes(e.op), bits := rest, length := Step(a).value.length, extra := Step(a).value.extra)
    ensures LenGoes(e.op) in {LIT, LENEXT} ==> Step(a).value.length == e.val
    ensures LenGoes(e.op) == LIT ==> e.val < 256
    ensures LenGoes(e.op) == LENEXT ==>
              Step(a).value.extra == e.op % 16 <= 5 && 3 <= e.val && e.val + Pow2(e.op % 16) <= 259
    ensures HasBit(e.op, 16) <==> LenGoes(e.op) == LENEXT
  {
    hide Step, Decode, Pow2, OpOf, LenBase, LenExtra;
    StepLen(a);
    match Decode(a.lencode, a.bits)
    case Need => assert false;
    case Invalid =>
    case Symbol(s) =>
      LenOps(s);
      if 257 <= s < 286 {
        LengthRange(s);
      }
  }

  lemma DistReads(a: State, rest: seq<bool>, e: Entry)
    requires a.mode == DIST && Got(DISTS, a.distcode, a.bits, rest, e)
    ensures Step(a).Some?
    ensures Step(a).value == a.(mode := if HasBit(e.op, 64) then BAD else DISTEXT, bits := rest,
            offset := Step(a).value.offset, extra := Step(a).value.extra)
    ensures !HasBit(e.op, 64) ==>
              && Step(a).value.offset == e.val && Step(a).value.extra == e.op % 16 <= 13 && 1 <= e.val
              && e.val + Pow2(e.op % 16) <= WSIZE + 1
    ensures HasBit(e.op, 16) <==> !HasBit(e.op, 64)
  {
    hide Step, Decode, Pow2, OpOf, DistBase, DistExtra;
    StepDist(a);
    match Decode(a.distcode, a.bits)
    case Need => assert false;
    case Invalid =>
    case Symbol(s) =>
      DistOps(s);
      if s < 30 {
        DistanceRange(s);
      }
  }

  lemma LenStops(a: State)
    requires (a.mode == LEN && Decode(a.lencode, a.bits) == Need)
             || (a.mode == DIST && Decode(a.distcode, a.bits) == Need)
    ensures Step(a) == None
  {
    hide Decode;
  }

  lemma ExtraReads(a: State)
    requires a.mode in {LENEXT, DISTEXT}
    ensures |a.bits| < a.extra ==> Step(a) == None
    ensures |a.bits| >= a.extra && a.mode == LENEXT ==>
              Step(a) == Some(a.(mode := DIST, bits := a.bits[a.extra..], length := a.length + Val(a.bits[..a.extra])))
    ensures |a.bits| >= a.extra && a.mode == DISTEXT ==>
      var off := a.offset + Val(a.bits[..a.extra]);
      Step(a) == Some(a.(mode := if off > |a.out| then BAD else MATCH, bits := a.bits[a.extra..], offset := off))
  {
    hide Val;
  }

  /** The relation in the data modes. */
  lemma DataRel(r: Regs, lens: seq<nat>, lt: seq<Entry>, dt: seq<Entry>, a: State)
    requires r.mode == a.mode && r.last == a.last && CodesFit(a) && |lens| == 320 && TablesFor(r, lt, dt, a)
    requires a.mode in {LEN, LENEXT, DIST, DISTEXT, MATCH, LIT}
    requires a.mode in {LENEXT, DIST, DISTEXT, MATCH, LIT} ==> r.length == a.length
    requires a.mode == LENEXT ==> r.extra == a.extra <= 5 && 3 <= r.length && r.length + Pow2(r.extra) <= 259
    requires a.mode in {DIST, DISTEXT} ==> 3 <= r.length <= 258
    requires a.mode == DISTEXT ==>
               && r.offset == a.offset && r.extra == a.extra <= 13 && 1 <= r.offset
               && r.offset + Pow2(r.extra) <= WSIZE + 1
    requires a.mode == MATCH ==>
               1 <= r.length <= 258 && r.offset == a.offset && 1 <= r.offset <= WSIZE && r.offset <= |a.out|
    requires a.mode == LIT ==> r.length < 256
    ensures Rel(r, lens, lt, dt, a)
  {
    hide CodesFit, TablesFor, Pow2;
  }

  lemma DataFacts(r: Regs, lens: seq<nat>, lt: seq<Entry>, dt: seq<Entry>, a: State)
    requires Rel(r, lens, lt, dt, a) && a.mode in {LEN, LENEXT, DIST, DISTEXT, MATCH, LIT}
    ensures r.mode == a.mode && TablesFor(r, lt, dt, a)
    ensures a.mode in {LENEXT, DIST, DISTEXT, MATCH, LIT} ==> r.length == a.length
    ensures a.mode == LENEXT ==> r.extra == a.extra <= 5 && 3 <= r.length && r.length + Pow2(r.extra) <= 259
    ensures a.mode in {DIST, DISTEXT} ==> 3 <= r.length <= 258
    ensures a.mode == DISTEXT ==>
              r.offset == a.offset && r.extra == a.extra <= 13 && 1 <= r.offset && r.offset + Pow2(r.extra) <= WSIZE + 1
    ensures a.mode == MATCH ==>
              1 <= r.length <= 258 && r.offset == a.offset && 1 <= r.offset <= WSIZE && r.offset <= |a.out|
    ensures a.mode == LIT ==> r.length < 256
  {
    hide CodesFit, TablesFor, Pow2;
  }

  /** The machine after `n` bytes of a match. */
  ghost function Matched(a: State, n: nat): State
    requires n <= a.length
  {
    a.(out := CopyMatch(a.out, a.offset, n), length := a.length - n, mode := if n == a.length then LEN else MATCH)
  }

  lemma {:induction false} MatchSteps(a: State, n: nat)
    requires a.mode == MATCH && 1 <= n <= a.length
    ensures Leads(a, Matched(a, n))
    decreases n
  {
    hide Leads, Steps, Step, Back;
    var b := MatchStep(a);
    assert Step(a) == Some(b) by { StepCases(a); }
    LeadsStep(a, b);
    if n == 1 {
      assert CopyMatch(b.out, a.offset, 0) == b.out;
      assert Matched(a, 1) == b;
    } else {
      MatchSteps(b, n - 1);
      assert Matched(b, n - 1) == Matched(a, n);
      LeadsTrans(a, b, Matched(a, n));
    }
  }

  lemma MatchedFits(a: State, n: nat)
    requires a.mode == MATCH && CodesFit(a) && 1 <= n <= a.length
    ensures CodesFit(Matched(a, n)) && Closer(a, MATCH, Matched(a, n), Matched(a, n).mode)
    ensures |Matched(a, n).out| == |a.out| + n
  {
    hide CopyMatch, Fits;
  }

  lemma LitSteps(a: State)
    requires a.mode == LIT && CodesFit(a) && a.length < 256
    ensures Step(a) == Some(a.(mode := LEN, out := a.out + [a.length as byte]))
    ensures CodesFit(a.(mode := LEN, out := a.out + [a.length as byte]))
  {
    hide Step, Fits;
    StepCases(a);
  }
}
