/** The data of a block: tokens, as sent, decode to their expansion. */
module DataDecode {
  import opened Bits
  import opened CanonicalCode
  import opened CodeTables
  import opened InfTrees
  import opened Tokens
  import opened InflateSpec
  import opened InflateRuns
  import opened HeaderDecode

  /** Every symbol the token needs has a code. */
  ghost predicate CodedToken(ll: seq<nat>, dd: seq<nat>, t: Token) {
    && ValidToken(t)
    && if t.dist == 0 then IsSymbol(ll, t.lc)
       else IsSymbol(ll, 257 + LengthCode(t.lc)) && IsSymbol(dd, DistanceCode(t.dist))
  }

  ghost predicate CodedTokens(ll: seq<nat>, dd: seq<nat>, ts: seq<Token>) {
    forall i :: 0 <= i < |ts| ==> CodedToken(ll, dd, ts[i])
  }

  /** The extra bits of a value above its code's base. */
  ghost function ExtraBits(v: nat, base: nat, extra: nat): seq<bool> {
    if v >= base then BitsOf(v - base, extra) else []
  }

  ghost function LengthBits(ll: seq<nat>, lc: nat): seq<bool>
    requires 257 + LengthCode(lc) < |ll|
  {
    CodeBits(ll, 257 + LengthCode(lc)) + ExtraBits(lc + MIN_MATCH, LenBase(LengthCode(lc)), LenExtra(LengthCode(lc)))
  }

  ghost function DistanceBits(dd: seq<nat>, dist: nat): seq<bool>
    requires DistanceCode(dist) < |dd|
  {
    CodeBits(dd, DistanceCode(dist)) + ExtraBits(dist, DistBase(DistanceCode(dist)), DistExtra(DistanceCode(dist)))
  }

  ghost function EncodeToken(ll: seq<nat>, dd: seq<nat>, t: Token): seq<bool>
    requires CodedToken(ll, dd, t)
  {
    if t.dist == 0 then CodeBits(ll, t.lc) else LengthBits(ll, t.lc) + DistanceBits(dd, t.dist)
  }

  ghost function EncodeTokens(ll: seq<nat>, dd: seq<nat>, ts: seq<Token>): seq<bool>
    requires CodedTokens(ll, dd, ts)
  {
    if ts == [] then [] else EncodeToken(ll, dd, ts[0]) + EncodeTokens(ll, dd, ts[1..])
  }

  // ---------- decoding ----------

  /** The machine is in the same block with the same codes. */
  ghost predicate SameBlock(s: State, t: State) {
    t == s.(mode := t.mode, bits := t.bits, out := t.out, length := t.length, offset := t.offset, extra := t.extra)
  }

  lemma LiteralDecodes(s: State, lc: nat, rest: seq<bool>) returns (t: State)
    requires s.mode == LEN && Fits(s.lencode) && IsSymbol(s.lencode, lc) && lc < 256
    requires s.bits == CodeBits(s.lencode, lc) + rest
    ensures Leads(s, t) && SameBlock(s, t) && t.mode == LEN && t.bits == rest && t.out == s.out + [lc as byte]
  {
    hide Fits, CodeBits, Decode, Leads, Steps;
    CodeRead(s.lencode, lc, rest);
    var s1 := s.(mode := LIT, bits := rest, length := lc);
    LeadsStep(s, s1);
    t := s1.(mode := LEN, out := s.out + [lc as byte]);
    LeadsStep(s1, t);
    LeadsTrans(s, s1, t);
  }

  lemma {:induction false} CopyDecodes(s: State) returns (t: State)
    requires s.mode == MATCH && s.length >= 1
    ensures Leads(s, t) && SameBlock(s, t) && t.mode == LEN && t.bits == s.bits
    ensures t.out == CopyMatch(s.out, s.offset, s.length)
    decreases s.length
  {
    hide Back, Leads, Steps;
    var s1 := MatchStep(s);
    LeadsStep(s, s1);
    if s.length == 1 {
      t := s1;
      assert CopyMatch(s1.out, s.offset, 0) == s1.out;
    } else {
      t := CopyDecodes(s1);
      LeadsTrans(s, s1, t);
    }
  }

  lemma LengthDecodes(s: State, lc: nat, rest: seq<bool>) returns (t: State)
    requires s.mode == LEN && Fits(s.lencode) && lc < 256 && IsSymbol(s.lencode, 257 + LengthCode(lc))
    requires s.bits == LengthBits(s.lencode, lc) + rest
    ensures Leads(s, t) && SameBlock(s, t) && t.mode == DIST && t.bits == rest && t.out == s.out
    ensures t.length == lc + MIN_MATCH
  {
    hide Fits, CodeBits, Decode, Leads, Steps, LenBase, LenExtra, Val, BitsOf, Pow2, LenCodeUpTo;
    LengthCodeFits(lc);
    var c := LengthCode(lc);
    var x := ExtraBits(lc + MIN_MATCH, LenBase(c), LenExtra(c));
    assert s.bits == CodeBits(s.lencode, 257 + c) + (x + rest);
    CodeRead(s.lencode, 257 + c, x + rest);
    var s1 := s.(mode := LENEXT, bits := x + rest, length := LenBase(c), extra := LenExtra(c));
    LeadsStep(s, s1);
    FieldRead(lc + MIN_MATCH - LenBase(c), LenExtra(c), rest);
    t := s1.(mode := DIST, bits := rest, length := lc + MIN_MATCH);
    LeadsStep(s1, t);
    LeadsTrans(s, s1, t);
  }

  lemma DistanceDecodes(s: State, dist: nat, rest: seq<bool>) returns (t: State)
    requires s.mode == DIST && Fits(s.distcode) && 1 <= dist <= WSIZE && IsSymbol(s.distcode, DistanceCode(dist))
    requires dist <= |s.out|
    requires s.bits == DistanceBits(s.distcode, dist) + rest
    ensures Leads(s, t) && SameBlock(s, t) && t.mode == MATCH && t.bits == rest && t.out == s.out
    ensures t.length == s.length && t.offset == dist
  {
    hide Fits, CodeBits, Decode, Leads, Steps, DistBase, DistExtra, Val, BitsOf, Pow2, DistCodeUpTo;
    DistanceCodeFits(dist);
    var c := DistanceCode(dist);
    var x := ExtraBits(dist, DistBase(c), DistExtra(c));
    assert s.bits == CodeBits(s.distcode, c) + (x + rest);
    CodeRead(s.distcode, c, x + rest);
    var s1 := s.(mode := DISTEXT, bits := x + rest, offset := DistBase(c), extra := DistExtra(c));
    LeadsStep(s, s1);
    FieldRead(dist - DistBase(c), DistExtra(c), rest);
    t := s1.(mode := MATCH, bits := rest, offset := dist);
    LeadsStep(s1, t);
    LeadsTrans(s, s1, t);
  }

  lemma TokenDecodes(s: State, k: Token, rest: seq<bool>) returns (t: State)
    requires s.mode == LEN && Fits(s.lencode) && Fits(s.distcode) && CodedToken(s.lencode, s.distcode, k)
    requires k.dist <= |s.out|
    requires s.bits == EncodeToken(s.lencode, s.distcode, k) + rest
    ensures Leads(s, t) && SameBlock(s, t) && t.mode == LEN && t.bits == rest && t.out == ExpandOne(s.out, k)
  {
    hide Fits, CodeBits, Leads, LengthBits, DistanceBits, LengthCode, DistanceCode;
    if k.dist == 0 {
      t := LiteralDecodes(s, k.lc, rest);
    } else {
      var b := DistanceBits(s.distcode, k.dist) + rest;
      assert s.bits == LengthBits(s.lencode, k.lc) + b;
      var s1 := LengthDecodes(s, k.lc, b);
      var s2 := DistanceDecodes(s1, k.dist, rest);
      t := CopyDecodes(s2);
      LeadsTrans(s, s1, s2);
      LeadsTrans(s, s2, t);
    }
  }

  lemma {:induction false} TokensDecode(s: State, ts: seq<Token>, rest: seq<bool>) returns (t: State)
    requires s.mode == LEN && Fits(s.lencode) && Fits(s.distcode) && CodedTokens(s.lencode, s.distcode, ts)
    requires InReach(s.out, ts)
    requires s.bits == EncodeTokens(s.lencode, s.distcode, ts) + rest
    ensures Leads(s, t) && SameBlock(s, t) && t.mode == LEN && t.bits == rest && t.out == Expand(s.out, ts)
    decreases |ts|
  {
    hide Fits, CodedToken, Leads, EncodeToken, ExpandOne;
    if ts == [] {
      t := s;
      assert s.bits == rest;
      LeadsSelf(s);
    } else {
      var b := EncodeTokens(s.lencode, s.distcode, ts[1..]) + rest;
      assert s.bits == EncodeToken(s.lencode, s.distcode, ts[0]) + b;
      var s1 := TokenDecodes(s, ts[0], b);
      t := TokensDecode(s1, ts[1..], rest);
      LeadsTrans(s, s1, t);
    }
  }

  /** The data of a block and its end. */
  ghost function DataBits(ll: seq<nat>, dd: seq<nat>, ts: seq<Token>): seq<bool>
    requires CodedTokens(ll, dd, ts) && IsSymbol(ll, END_BLOCK)
  {
    EncodeTokens(ll, dd, ts) + CodeBits(ll, END_BLOCK)
  }

  /** The data decodes to the expansion of its tokens, ending right after the end-of-block code. */
  lemma DataDecodes(s: State, ts: seq<Token>, rest: seq<bool>) returns (t: State)
    requires s.mode == LEN && Fits(s.lencode) && Fits(s.distcode) && CodedTokens(s.lencode, s.distcode, ts)
    requires InReach(s.out, ts)
    requires IsSymbol(s.lencode, END_BLOCK) && s.bits == DataBits(s.lencode, s.distcode, ts) + rest
    ensures Leads(s, t) && SameBlock(s, t) && t.mode == TYPE && t.bits == rest && t.out == Expand(s.out, ts)
  {
    hide Fits, CodedTokens, Leads, EncodeTokens, Expand, InReach, CodeBits, Decode, Steps;
    var b := CodeBits(s.lencode, END_BLOCK) + rest;
    assert s.bits == EncodeTokens(s.lencode, s.distcode, ts) + b;
    var s1 := TokensDecode(s, ts, b);
    CodeRead(s.lencode, END_BLOCK, rest);
    t := s1.(mode := TYPE, bits := rest);
    LeadsStep(s1, t);
    LeadsTrans(s, s1, t);
  }
}
