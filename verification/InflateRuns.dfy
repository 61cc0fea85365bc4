/**
 Whole runs of the decoding machine.  More input never changes what has been decided:
 decoding a stream in pieces is decoding it at once.
 */
module InflateRuns {
  import opened Bits
  import opened CanonicalCode
  import opened CodeTables
  import opened InfTrees
  import opened Tokens
  import opened InflateSpec
  import opened FixedCode

  // ---------- termination ----------

  /** Steps that consume nothing go down in rank, or shorten a match. */
  function RankOfMode(m: Mode): nat {
    match m
    case DONE => 0 case BAD => 0
    case TYPE => 1 case STORED => 1 case TABLE => 1 case LEN => 1 case DIST => 1
    case COPY => 2 case CODELENS => 2 case LENEXT => 2 case LIT => 2 case MATCH => 2
    case LENLENS => 3 case DISTEXT => 3
  }

  ghost predicate Shrinks(s: State, t: State) {
    || |t.bits| < |s.bits|
    || (|t.bits| == |s.bits| && RankOfMode(t.mode) < RankOfMode(s.mode))
    || (|t.bits| == |s.bits| && RankOfMode(t.mode) == RankOfMode(s.mode) && t.length < s.length)
  }

  /** Every step gets nearer the end and only appends to the output. */
  ghost predicate Progress(s: State, t: State) {
    Shrinks(s, t) && s.out <= t.out
  }

  lemma BlockSteps(s: State)
    requires s.mode in {TYPE, STORED, COPY, TABLE} && Step(s).Some?
    ensures Progress(s, Step(s).value)
  {
    hide Val;
  }

  lemma RepeatProgress(s: State, used: nat, n: nat, base: nat, v: nat)
    requires 0 < used <= |s.bits| && RepeatStep(s, used, n, base, v).Some?
    ensures Progress(s, RepeatStep(s, used, n, base, v).value)
  {
    hide Val;
  }

  lemma HeaderSteps(s: State)
    requires s.mode in {LENLENS, CODELENS} && Step(s).Some?
    ensures Progress(s, Step(s).value)
  {
    hide Val, Acceptable, CodeLens, Decode, RepeatStep;
    if s.mode == CODELENS && |s.lens| < s.nlen + s.ndist && Decode(s.lencode, s.bits).Symbol? {
      var v := Decode(s.lencode, s.bits).sym;
      var used := s.lencode[v];
      if v == 16 && |s.bits| >= used + 2 && s.lens != [] {
        RepeatProgress(s, used, 2, 3, s.lens[|s.lens| - 1]);
      } else if v == 17 {
        RepeatProgress(s, used, 3, 3, 0);
      } else if v > 17 {
        RepeatProgress(s, used, 7, 11, 0);
      }
    }
  }

  lemma DataSteps(s: State)
    requires s.mode in {LEN, LENEXT, DIST, DISTEXT, MATCH, LIT} && Step(s).Some?
    ensures Progress(s, Step(s).value)
  {
    hide Val, Decode, LenBase, LenExtra, DistBase, DistExtra, Back;
  }

  lemma StepProgress(s: State)
    requires Step(s).Some?
    ensures Progress(s, Step(s).value)
  {
    hide TypeStep, StoredStep, CopyStep, TableStep, LenLensStep, CodeLensStep, LenStep, LenExtStep, DistStep,
         DistExtStep, MatchStep, Progress;
    if s.mode in {TYPE, STORED, COPY, TABLE} {
      BlockSteps(s);
    } else if s.mode in {LENLENS, CODELENS} {
      HeaderSteps(s);
    } else {
      DataSteps(s);
    }
  }

  /** Run until blocked or stopped. */
  ghost function Finish(s: State): State
    decreases |s.bits|, RankOfMode(s.mode), s.length
  {
    match Step(s)
    case None => s
    case Some(t) => StepProgress(s); Finish(t)
  }

  /** n steps from s. */
  ghost function Steps(s: State, n: nat): Option<State>
    decreases n
  {
    if n == 0 then Some(s)
    else match Step(s) case None => None case Some(t) => Steps(t, n - 1)
  }

  ghost predicate Leads(s: State, t: State) {
    exists n: nat :: Steps(s, n) == Some(t)
  }

  lemma LeadsSelf(s: State)
    ensures Leads(s, s)
  {
    assert Steps(s, 0) == Some(s);
  }

  lemma LeadsStep(s: State, t: State)
    requires Step(s) == Some(t)
    ensures Leads(s, t)
  {
    assert Steps(t, 0) == Some(t);
    assert Steps(s, 1) == Some(t);
  }

  lemma {:induction false} StepsAdd(s: State, m: nat, t: State, n: nat)
    requires Steps(s, m) == Some(t)
    ensures Steps(s, m + n) == Steps(t, n)
    decreases m
  {
    hide Step;
    if m > 0 {
      StepsAdd(Step(s).value, m - 1, t, n);
    }
  }

  lemma LeadsTrans(s: State, t: State, u: State)
    requires Leads(s, t) && Leads(t, u)
    ensures Leads(s, u)
  {
    hide Step, Steps;
    var m: nat :| Steps(s, m) == Some(t);
    var n: nat :| Steps(t, n) == Some(u);
    StepsAdd(s, m, t, n);
  }

  lemma {:induction false} StepsFinish(s: State, n: nat, t: State)
    requires Steps(s, n) == Some(t)
    ensures Finish(s) == Finish(t)
    decreases n
  {
    hide Step;
    if n > 0 {
      StepsFinish(Step(s).value, n - 1, t);
    }
  }

  /** A state on the way finishes where the run finishes. */
  lemma LeadsFinish(s: State, t: State)
    requires Leads(s, t)
    ensures Finish(s) == Finish(t)
  {
    var n: nat :| Steps(s, n) == Some(t);
    StepsFinish(s, n, t);
  }

  lemma {:induction false} FinishLeads(s: State)
    ensures Leads(s, Finish(s)) && Step(Finish(s)) == None
    decreases |s.bits|, RankOfMode(s.mode), s.length
  {
    hide Step;
    match Step(s)
    case None => LeadsSelf(s);
    case Some(t) =>
      StepProgress(s);
      FinishLeads(t);
      LeadsStep(s, t);
      LeadsTrans(s, t, Finish(t));
  }

  // ---------- output only grows ----------

  lemma {:induction false} StepsOut(s: State, n: nat, t: State)
    requires Steps(s, n) == Some(t)
    ensures s.out <= t.out
    decreases n
  {
    hide Step;
    if n > 0 {
      StepProgress(s);
      StepsOut(Step(s).value, n - 1, t);
    }
  }

  lemma LeadsOut(s: State, t: State)
    requires Leads(s, t)
    ensures s.out <= t.out
  {
    var n: nat :| Steps(s, n) == Some(t);
    StepsOut(s, n, t);
  }

  // ---------- more input ----------

  /** The codes in use are codes at all. */
  ghost predicate CodesFit(s: State) {
    Fits(s.lencode) && Fits(s.distcode) && ValidLens(s.lens)
  }

  lemma DecodeFeed(lens: seq<nat>, bits: seq<bool>, more: seq<bool>)
    requires Fits(lens) && Decode(lens, bits) != Need
    ensures Decode(lens, bits + more) == Decode(lens, bits)
  {
    hide Fits, NoCode;
    match Decode(lens, bits)
    case Symbol(s) =>
      assert CodeBits(lens, s) <= bits + more;
      DecodeIs(lens, bits + more, s);
    case Invalid =>
      forall s: nat ensures !Matches(lens, s, bits + more) {
        NoMatch(lens, bits + more, s);
      }
  }

  lemma NoMatch(lens: seq<nat>, bits: seq<bool>, s: nat)
    requires bits != [] && NoCode(lens, bits[0])
    ensures !Matches(lens, s, bits)
  {
  }

  lemma SliceFeed(bits: seq<bool>, more: seq<bool>, a: nat, b: nat)
    requires a <= b <= |bits|
    ensures (bits + more)[a..b] == bits[a..b] && (bits + more)[b..] == bits[b..] + more
  {
  }

  lemma PeekFeed(s: State, more: seq<bool>, n: nat)
    requires n <= |s.bits|
    ensures Peek(Feed(s, more), n) == Peek(s, n) && Drop(Feed(s, more), n) == Feed(Drop(s, n), more)
  {
    SliceFeed(s.bits, more, 0, n);
    assert s.bits[..n] == s.bits[0..n] && (s.bits + more)[..n] == (s.bits + more)[0..n];
  }

  /** The machine's step on more input. */
  ghost predicate Feeds(s: State, more: seq<bool>) {
    Step(s).Some? ==> Step(Feed(s, more)) == Some(Feed(Step(s).value, more))
  }

  lemma AlignFeed(b: seq<bool>, more: seq<bool>)
    requires |more| % 8 == 0
    ensures |b + more| % 8 == |b| % 8 && (b + more)[|b| % 8..] == b[|b| % 8..] + more
  {
    assert (|b| + |more|) % 8 == |b| % 8;
    SliceFeed(b, more, 0, |b| % 8);
  }

  lemma TypeFeed(s: State, more: seq<bool>)
    requires s.mode in {TYPE, STORED} && |more| % 8 == 0
    ensures Feeds(s, more)
  {
    hide Val, FixedLens, FixedDists;
    var b, n := s.bits, |s.bits|;
    AlignFeed(b, more);
    if s.mode == TYPE && n >= 3 {
      SliceFeed(b, more, 1, 3);
    } else if s.mode == STORED && n >= 32 {
      SliceFeed(b, more, 16, 32);
      assert (b + more)[..16] == b[..16];
    }
  }

  lemma TableFeed(s: State, more: seq<bool>)
    requires s.mode in {COPY, TABLE}
    ensures Feeds(s, more)
  {
    hide Val;
    var b, n := s.bits, |s.bits|;
    if s.mode == COPY && n >= 8 {
      PeekFeed(s, more, 8);
    } else if s.mode == TABLE && n >= 14 {
      SliceFeed(b, more, 5, 10);
      SliceFeed(b, more, 10, 14);
      assert (b + more)[..5] == b[..5];
    }
  }

  lemma RepeatFeed(s: State, more: seq<bool>, used: nat, n: nat, base: nat, v: nat)
    requires used + n <= |s.bits|
    ensures RepeatStep(Feed(s, more), used, n, base, v) == Some(Feed(RepeatStep(s, used, n, base, v).value, more))
  {
    hide Val, Repeat;
    SliceFeed(s.bits, more, used, used + n);
  }

  lemma HeaderFeed(s: State, more: seq<bool>)
    requires s.mode in {LENLENS, CODELENS} && CodesFit(s)
    ensures Feeds(s, more)
  {
    hide Val, Acceptable, CodeLens, Decode, RepeatStep, Fits;
    if s.mode == LENLENS {
      if |s.bits| >= 3 {
        PeekFeed(s, more, 3);
      }
    } else if |s.lens| < s.nlen + s.ndist && Decode(s.lencode, s.bits) != Need {
      DecodeFeed(s.lencode, s.bits, more);
      CodeLensFeed(s, more);
    }
  }

  lemma CodeLensFeed(s: State, more: seq<bool>)
    requires s.mode == CODELENS && |s.lens| < s.nlen + s.ndist
    requires Decode(s.lencode, s.bits) != Need && Decode(s.lencode, s.bits + more) == Decode(s.lencode, s.bits)
    ensures Feeds(s, more)
  {
    hide Val, Acceptable, CodeLens, Decode, RepeatStep;
    match Decode(s.lencode, s.bits)
    case Invalid => PeekFeed(s, more, 1);
    case Symbol(v) =>
      var used := s.lencode[v];
      PeekFeed(s, more, used);
      if v == 16 && |s.bits| >= used + 2 {
        PeekFeed(s, more, used + 2);
        if s.lens != [] {
          RepeatFeed(s, more, used, 2, 3, s.lens[|s.lens| - 1]);
        }
      } else if v == 17 {
        RepeatNone(s, used, 3, 3, 0);
        if |s.bits| >= used + 3 {
          RepeatFeed(s, more, used, 3, 3, 0);
        }
      } else if v > 17 {
        RepeatNone(s, used, 7, 11, 0);
        if |s.bits| >= used + 7 {
          RepeatFeed(s, more, used, 7, 11, 0);
        }
      }
  }

  lemma RepeatNone(s: State, used: nat, n: nat, base: nat, v: nat)
    requires used <= |s.bits|
    ensures RepeatStep(s, used, n, base, v).Some? <==> used + n <= |s.bits|
  {
    hide Val, Repeat;
  }

  lemma SymbolFeed(s: State, more: seq<bool>)
    requires s.mode in {LEN, DIST} && CodesFit(s)
    ensures Feeds(s, more)
  {
    hide Val, Decode, LenBase, LenExtra, DistBase, DistExtra, Fits, Peek, ValidLens;
    if s.mode == LEN && Decode(s.lencode, s.bits) != Need {
      DecodeFeed(s.lencode, s.bits, more);
      var d := Decode(s.lencode, s.bits);
      PeekFeed(s, more, if d.Symbol? then s.lencode[d.sym] else 1);
    } else if s.mode == DIST && Decode(s.distcode, s.bits) != Need {
      DecodeFeed(s.distcode, s.bits, more);
      var d := Decode(s.distcode, s.bits);
      PeekFeed(s, more, if d.Symbol? then s.distcode[d.sym] else 1);
    }
  }

  lemma ExtraFeed(s: State, more: seq<bool>)
    requires s.mode in {LENEXT, DISTEXT, MATCH, LIT}
    ensures Feeds(s, more)
  {
    hide Val, Back, Peek;
    if s.mode in {LENEXT, DISTEXT} && s.extra <= |s.bits| {
      PeekFeed(s, more, s.extra);
    }
  }

  lemma StepFeed(s: State, more: seq<bool>)
    requires CodesFit(s) && |more| % 8 == 0
    ensures Feeds(s, more)
  {
    hide TypeStep, StoredStep, CopyStep, TableStep, LenLensStep, CodeLensStep, LenStep, LenExtStep, DistStep,
         DistExtStep, MatchStep, CodesFit;
    if s.mode in {TYPE, STORED} {
      TypeFeed(s, more);
    } else if s.mode in {COPY, TABLE} {
      TableFeed(s, more);
    } else if s.mode in {LENLENS, CODELENS} {
      HeaderFeed(s, more);
    } else if s.mode in {LEN, DIST} {
      SymbolFeed(s, more);
    } else if s.mode != DONE && s.mode != BAD {
      ExtraFeed(s, more);
    }
  }

  // ---------- the codes in use stay codes ----------

  lemma AcceptableFits(kind: CodeType, lens: seq<nat>)
    requires Acceptable(kind, lens) && ValidLens(lens)
    ensures Fits(lens)
  {
  }

  lemma RepeatFits(s: State, used: nat, n: nat, base: nat, v: nat)
    requires used <= |s.bits| && RepeatStep(s, used, n, base, v).Some? && CodesFit(s) && v <= MAX_BITS
    ensures CodesFit(RepeatStep(s, used, n, base, v).value)
  {
    hide Val, Fits;
  }

  lemma CodeLensValid(sent: seq<nat>)
    requires ValidLens(sent)
    ensures ValidLens(CodeLens(sent))
  {
  }

  lemma HeaderFits(s: State)
    requires s.mode in {LENLENS, CODELENS} && CodesFit(s) && Step(s).Some?
    ensures CodesFit(Step(s).value)
  {
    hide Val, Acceptable, CodeLens, Decode, RepeatStep, Fits;
    if s.mode == LENLENS {
      if |s.lens| < s.ncode {
        ValBound(s.bits[..3]);
        Pow2Values();
      } else if Acceptable(CODES, CodeLens(s.lens)) {
        CodeLensValid(s.lens);
        AcceptableFits(CODES, CodeLens(s.lens));
      }
    } else if |s.lens| < s.nlen + s.ndist {
      if Decode(s.lencode, s.bits).Symbol? {
        CodeLensFits(s);
      }
    } else {
      var m := Min(s.nlen, |s.lens|);
      if Acceptable(LENS, s.lens[..m]) && Acceptable(DISTS, s.lens[m..]) {
        AcceptableFits(LENS, s.lens[..m]);
        AcceptableFits(DISTS, s.lens[m..]);
      }
    }
  }

  lemma CodeLensFits(s: State)
    requires s.mode == CODELENS && CodesFit(s) && Step(s).Some? && |s.lens| < s.nlen + s.ndist
    requires Decode(s.lencode, s.bits).Symbol?
    ensures CodesFit(Step(s).value)
  {
    hide Val, Acceptable, CodeLens, Decode, RepeatStep, Fits;
    var v := Decode(s.lencode, s.bits).sym;
    var used := s.lencode[v];
    if v == 16 && |s.bits| >= used + 2 && s.lens != [] {
      RepeatFits(s, used, 2, 3, s.lens[|s.lens| - 1]);
    } else if v == 17 {
      RepeatFits(s, used, 3, 3, 0);
    } else if v > 17 {
      RepeatFits(s, used, 7, 11, 0);
    }
  }

  lemma StepFits(s: State)
    requires CodesFit(s) && Step(s).Some?
    ensures CodesFit(Step(s).value)
  {
    hide StoredStep, LenLensStep, CodeLensStep, LenStep, DistStep, Fits, FixedLens, FixedDists, Val;
    if s.mode in {LENLENS, CODELENS} {
      HeaderFits(s);
    } else if s.mode == TYPE {
      FixedFits();
    } else {
      OtherFits(s);
    }
  }

  lemma FixedFits()
    ensures Fits(FixedLens()) && Fits(FixedDists())
  {
    FixedComplete();
  }

  lemma OtherFits(s: State)
    requires CodesFit(s) && Step(s).Some? && s.mode !in {TYPE, LENLENS, CODELENS}
    ensures CodesFit(Step(s).value)
  {
    hide Fits, Val, Decode, Back, LenBase, LenExtra, DistBase, DistExtra, LenStep, DistStep, LenExtStep, DistExtStep,
         MatchStep;
    if s.mode in {LEN, DIST, LENEXT, DISTEXT, MATCH} {
      DataFits(s);
    }
  }

  lemma DataFits(s: State)
    requires s.mode in {LEN, DIST, LENEXT, DISTEXT, MATCH} && CodesFit(s) && Step(s).Some?
    ensures CodesFit(Step(s).value)
  {
    hide Fits, ValidLens, Val, Decode, Back, LenBase, LenExtra, DistBase, DistExtra;
  }

  // ---------- resumption ----------

  /** Feeding more before or after a step makes no difference. */
  lemma {:induction false} StepsFeed(s: State, n: nat, t: State, more: seq<bool>)
    requires CodesFit(s) && |more| % 8 == 0 && Steps(s, n) == Some(t)
    ensures CodesFit(t) && Steps(Feed(s, more), n) == Some(Feed(t, more))
    decreases n
  {
    hide Step, CodesFit;
    if n > 0 {
      StepFeed(s, more);
      StepFits(s);
      StepsFeed(Step(s).value, n - 1, t, more);
    }
  }

  lemma LeadsFeed(s: State, t: State, more: seq<bool>)
    requires CodesFit(s) && |more| % 8 == 0 && Leads(s, t)
    ensures CodesFit(t) && Leads(Feed(s, more), Feed(t, more))
  {
    hide Step, CodesFit, Steps;
    var n: nat :| Steps(s, n) == Some(t);
    StepsFeed(s, n, t, more);
  }

  /** Finishing on part of the input and then on the rest is finishing on all of it. */
  lemma FinishFeed(s: State, a: seq<bool>, b: seq<bool>)
    requires CodesFit(s) && |a| % 8 == 0 && |b| % 8 == 0
    ensures Finish(Feed(s, a + b)) == Finish(Feed(Finish(Feed(s, a)), b))
    ensures Finish(Feed(s, a)).out <= Finish(Feed(s, a + b)).out
  {
    hide Step, Steps, Finish, Leads;
    var t := Feed(s, a);
    assert CodesFit(t);
    FinishLeads(t);
    LeadsFeed(t, Finish(t), b);
    assert Feed(t, b) == Feed(s, a + b) by { assert s.bits + a + b == s.bits + (a + b); }
    LeadsFinish(Feed(t, b), Feed(Finish(t), b));
    FinishLeads(Feed(Finish(t), b));
    LeadsOut(Feed(Finish(t), b), Finish(Feed(Finish(t), b)));
  }

  // ---------- input that was not used ----------

  /** A step that leaves the added input alone does not need it. */
  ghost predicate Unfeeds(s: State, more: seq<bool>) {
    Step(Feed(s, more)).Some? && |Step(Feed(s, more)).value.bits| >= |more| ==> Step(s).Some?
  }

  lemma DecodeUnfeed(lens: seq<nat>, bits: seq<bool>, more: seq<bool>)
    requires Fits(lens)
    ensures Decode(lens, bits + more).Symbol? && lens[Decode(lens, bits + more).sym] <= |bits| ==>
              Decode(lens, bits) != Need
    ensures Decode(lens, bits + more) == Invalid && |bits| >= 1 ==> Decode(lens, bits) != Need
  {
    hide Fits, NoCode, CodeBits;
    match Decode(lens, bits + more)
    case Need =>
    case Symbol(s) =>
      if lens[s] <= |bits| {
        assert CodeBits(lens, s) <= bits;
        assert Matches(lens, s, bits);
      }
    case Invalid =>
  }

  lemma SymbolUnfeed(s: State, more: seq<bool>)
    requires s.mode in {LEN, DIST} && CodesFit(s)
    ensures Unfeeds(s, more)
  {
    hide Val, Decode, LenBase, LenExtra, DistBase, DistExtra, Fits, Peek, ValidLens;
    if s.mode == LEN {
      DecodeUnfeed(s.lencode, s.bits, more);
    } else {
      DecodeUnfeed(s.distcode, s.bits, more);
    }
  }

  lemma HeaderUnfeed(s: State, more: seq<bool>)
    requires s.mode in {LENLENS, CODELENS} && CodesFit(s)
    ensures Unfeeds(s, more)
  {
    hide Val, Acceptable, CodeLens, Decode, RepeatStep, Fits, Repeat;
    if s.mode == CODELENS && |s.lens| < s.nlen + s.ndist {
      DecodeUnfeed(s.lencode, s.bits, more);
      if Decode(s.lencode, s.bits + more).Symbol? {
        CodeLensUnfeed(s, more);
      } else if Decode(s.lencode, s.bits) != Need {
        DecodeFeed(s.lencode, s.bits, more);
      }
    }
  }

  lemma RepeatDrops(s: State, used: nat, n: nat, base: nat, v: nat)
    requires used <= |s.bits| && RepeatStep(s, used, n, base, v).Some?
    ensures used + n <= |s.bits| && |RepeatStep(s, used, n, base, v).value.bits| == |s.bits| - used - n
  {
    hide Val, Repeat;
  }

  lemma CodeLensUnfeed(s: State, more: seq<bool>)
    requires s.mode == CODELENS && CodesFit(s) && |s.lens| < s.nlen + s.ndist
    requires Decode(s.lencode, s.bits + more).Symbol?
    ensures Unfeeds(s, more)
  {
    hide Val, Acceptable, CodeLens, Decode, RepeatStep, Fits, Repeat;
    DecodeUnfeed(s.lencode, s.bits, more);
    var f := Feed(s, more);
    if Step(f).Some? && |Step(f).value.bits| >= |more| {
      var v := Decode(s.lencode, s.bits + more).sym;
      var used := s.lencode[v];
      if v == 16 && s.lens != [] {
        RepeatDrops(f, used, 2, 3, s.lens[|s.lens| - 1]);
      } else if v == 17 {
        RepeatDrops(f, used, 3, 3, 0);
      } else if v > 17 {
        RepeatDrops(f, used, 7, 11, 0);
      }
      assert used <= |s.bits|;
      DecodeFeed(s.lencode, s.bits, more);
      if v == 16 && s.lens != [] {
        RepeatNone(s, used, 2, 3, s.lens[|s.lens| - 1]);
      } else if v == 17 {
        RepeatNone(s, used, 3, 3, 0);
      } else if v > 17 {
        RepeatNone(s, used, 7, 11, 0);
      }
    }
  }

  lemma OtherUnfeed(s: State, more: seq<bool>)
    requires s.mode !in {LEN, DIST, LENLENS, CODELENS} && |more| % 8 == 0
    ensures Unfeeds(s, more)
  {
    hide Val, Back;
    AlignFeed(s.bits, more);
  }

  lemma StepUnfeed(s: State, more: seq<bool>)
    requires CodesFit(s) && |more| % 8 == 0
    ensures Unfeeds(s, more)
  {
    hide Step, CodesFit, Unfeeds;
    if s.mode in {LEN, DIST} {
      SymbolUnfeed(s, more);
    } else if s.mode in {LENLENS, CODELENS} {
      HeaderUnfeed(s, more);
    } else {
      OtherUnfeed(s, more);
    }
  }

  /** A run that leaves the added input alone is a run without it. */
  lemma {:induction false} StepsUnfeed(s: State, more: seq<bool>, n: nat, t: State)
    requires CodesFit(s) && |more| % 8 == 0 && Steps(Feed(s, more), n) == Some(t) && |t.bits| >= |more|
    ensures exists u :: Steps(s, n) == Some(u) && t == Feed(u, more)
    decreases n
  {
    hide Step, CodesFit;
    if n == 0 {
      assert Steps(s, n) == Some(s) && t == Feed(s, more);
    } else {
      var f1 := Step(Feed(s, more)).value;
      StepsShrink(f1, n - 1, t);
      StepUnfeed(s, more);
      StepFeed(s, more);
      StepFits(s);
      var s1 := Step(s).value;
      StepsUnfeed(s1, more, n - 1, t);
      var u :| Steps(s1, n - 1) == Some(u) && t == Feed(u, more);
      assert Steps(s, n) == Some(u);
    }
  }

  lemma {:induction false} StepsShrink(s: State, n: nat, t: State)
    requires Steps(s, n) == Some(t)
    ensures |t.bits| <= |s.bits|
    decreases n
  {
    hide Step;
    if n > 0 {
      StepProgress(s);
      StepsShrink(Step(s).value, n - 1, t);
    }
  }

  lemma LeadsUnfeed(s: State, more: seq<bool>, u: State)
    requires CodesFit(s) && |more| % 8 == 0 && Leads(Feed(s, more), Feed(u, more))
    ensures Leads(s, u)
  {
    hide Step, CodesFit, Steps;
    var n: nat :| Steps(Feed(s, more), n) == Some(Feed(u, more));
    StepsUnfeed(s, more, n, Feed(u, more));
    var v :| Steps(s, n) == Some(v) && Feed(u, more) == Feed(v, more);
    FeedInjective(u, v, more);
  }

  lemma FeedInjective(u: State, v: State, more: seq<bool>)
    requires Feed(u, more) == Feed(v, more)
    ensures u == v
  {
    var a, b := u.bits + more, v.bits + more;
    assert a == b && |u.bits| == |v.bits|;
    assert u.bits == a[..|u.bits|] && v.bits == b[..|v.bits|];
    assert u == Feed(u, more).(bits := u.bits) && v == Feed(v, more).(bits := v.bits);
  }

  // ---------- bits are used in order ----------

  ghost predicate Suffix(t: seq<bool>, s: seq<bool>) {
    |t| <= |s| && t == s[|s| - |t|..]
  }

  lemma SuffixTrans(u: seq<bool>, t: seq<bool>, s: seq<bool>)
    requires Suffix(u, t) && Suffix(t, s)
    ensures Suffix(u, s)
  {
    assert u == t[|t| - |u|..] == s[|s| - |t|..][|t| - |u|..] == s[|s| - |u|..];
  }

  lemma StepSuffix(s: State)
    requires Step(s).Some?
    ensures Suffix(Step(s).value.bits, s.bits)
  {
    hide TypeStep, StoredStep, CopyStep, TableStep, LenLensStep, CodeLensStep, LenStep, LenExtStep, DistStep,
         DistExtStep, MatchStep, Suffix;
    if s.mode in {TYPE, STORED, COPY, TABLE} {
      BlockSuffix(s);
    } else if s.mode in {LENLENS, CODELENS} {
      HeaderSuffix(s);
    } else {
      DataSuffix(s);
    }
  }

  lemma AllDrops(bits: seq<bool>)
    ensures Suffix(bits, bits) && forall n :: 0 <= n <= |bits| ==> Suffix(bits[n..], bits)
  {
  }

  lemma BlockSuffix(s: State)
    requires s.mode in {TYPE, STORED, COPY, TABLE} && Step(s).Some?
    ensures Suffix(Step(s).value.bits, s.bits)
  {
    hide Val, FixedLens, FixedDists, Suffix;
    AllDrops(s.bits);
  }

  lemma HeaderSuffix(s: State)
    requires s.mode in {LENLENS, CODELENS} && Step(s).Some?
    ensures Suffix(Step(s).value.bits, s.bits)
  {
    hide Val, Acceptable, CodeLens, Decode, Repeat, Suffix;
    AllDrops(s.bits);
  }

  lemma DataSuffix(s: State)
    requires s.mode !in {TYPE, STORED, COPY, TABLE, LENLENS, CODELENS} && Step(s).Some?
    ensures Suffix(Step(s).value.bits, s.bits)
  {
    hide Val, Decode, LenBase, LenExtra, DistBase, DistExtra, Back, Suffix;
    AllDrops(s.bits);
  }

  lemma {:induction false} StepsSuffix(s: State, n: nat, t: State)
    requires Steps(s, n) == Some(t)
    ensures Suffix(t.bits, s.bits)
    decreases n
  {
    hide Step;
    if n > 0 {
      StepSuffix(s);
      StepsSuffix(Step(s).value, n - 1, t);
      SuffixTrans(t.bits, Step(s).value.bits, s.bits);
    }
  }

  lemma LeadsSuffix(s: State, t: State)
    requires Leads(s, t)
    ensures Suffix(t.bits, s.bits)
  {
    var n: nat :| Steps(s, n) == Some(t);
    StepsSuffix(s, n, t);
  }

  /** Only the input that was used matters. */
  lemma UsedInput(a: State, input: seq<byte>, n: nat, b: State, u: seq<bool>)
    requires CodesFit(a) && n <= |input| && Leads(Feed(a, BytesBits(input)), b) && b.bits == u + BytesBits(input[n..])
    ensures Leads(Feed(a, BytesBits(input[..n])), b.(bits := u))
  {
    hide Leads, CodesFit, BytesBits, Feed;
    var x, y := BytesBits(input[..n]), BytesBits(input[n..]);
    BytesBitsAppend(input[..n], input[n..]);
    assert input == input[..n] + input[n..];
    FeedFeed(a, x, y);
    FeedBack(b, u, y);
    FedFits(a, x);
    assert |y| % 8 == 0;
    LeadsUnfeed(Feed(a, x), y, b.(bits := u));
  }

  lemma FeedFeed(a: State, x: seq<bool>, y: seq<bool>)
    ensures Feed(Feed(a, x), y) == Feed(a, x + y)
  {
    assert a.bits + x + y == a.bits + (x + y);
  }

  lemma FeedBack(b: State, u: seq<bool>, y: seq<bool>)
    requires b.bits == u + y
    ensures Feed(b.(bits := u), y) == b
  {
  }

  lemma FedFits(a: State, x: seq<bool>)
    requires CodesFit(a)
    ensures CodesFit(Feed(a, x))
  {
  }
}
