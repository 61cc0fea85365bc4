/** The header of a dynamic block, as sent, decodes to the code lengths it was made from. */
module HeaderDecode {
  import opened Bits
  import opened CanonicalCode
  import opened CodeTables
  import opened InfTrees
  import opened Tokens
  import opened InflateSpec
  import opened InflateRuns
  import opened RunCoding
  import opened SendTree

  // ---------- fields at the front of the stream ----------

  /** A number sent in n bits reads back. */
  lemma FieldRead(v: nat, n: nat, rest: seq<bool>)
    requires v < Pow2(n)
    ensures Val((BitsOf(v, n) + rest)[..n]) == v && (BitsOf(v, n) + rest)[n..] == rest
  {
    assert (BitsOf(v, n) + rest)[..n] == BitsOf(v, n);
    ValBitsOf(v, n);
    LowSmall(v, n);
  }

  /** A code sent decodes to its symbol. */
  lemma CodeRead(lens: seq<nat>, c: nat, rest: seq<bool>)
    requires Fits(lens) && IsSymbol(lens, c)
    ensures Decode(lens, CodeBits(lens, c) + rest) == Symbol(c)
    ensures (CodeBits(lens, c) + rest)[lens[c]..] == rest
  {
    assert CodeBits(lens, c) <= CodeBits(lens, c) + rest;
    DecodeIs(lens, CodeBits(lens, c) + rest, c);
  }

  // ---------- runs ----------

  lemma PlainDecodes(s: State, r: Run, rest: seq<bool>)
    requires s.mode == CODELENS && Fits(s.lencode) && IsSymbol(s.lencode, r.sym) && ValidRun(r) && r.sym < REP_3_6
    requires |s.lens| + r.count <= s.nlen + s.ndist && s.bits == CodeBits(s.lencode, r.sym) + rest
    ensures Step(s) == Some(s.(bits := rest, lens := ExpandRun(s.lens, r)))
  {
    hide CodeBits, Fits, Decode, Acceptable, RepeatStep;
    assert r.count == 1 by { Pow2Values(); }
    CodeRead(s.lencode, r.sym, rest);
    assert Repeat(r.sym, 1) == [r.sym];
  }

  lemma RepeatDecodes(s: State, r: Run, rest: seq<bool>)
    requires s.mode == CODELENS && Fits(s.lencode) && IsSymbol(s.lencode, r.sym) && ValidRun(r) && r.sym >= REP_3_6
    requires (r.sym == REP_3_6 ==> s.lens != []) && |s.lens| + r.count <= s.nlen + s.ndist
    requires s.bits == CodeBits(s.lencode, r.sym) + (BitsOf(r.count - RunBase(r.sym), BlExtra(r.sym)) + rest)
    ensures Step(s) == Some(s.(bits := rest, lens := ExpandRun(s.lens, r)))
  {
    hide CodeBits, Fits, Decode, Acceptable, Val, BitsOf, Pow2;
    var used, n, v := s.lencode[r.sym], BlExtra(r.sym), r.count - RunBase(r.sym);
    CodeRead(s.lencode, r.sym, BitsOf(v, n) + rest);
    FieldRead(v, n, rest);
    assert s.bits[used..used + n] == (BitsOf(v, n) + rest)[..n];
    assert s.bits[used + n..] == rest;
    RepeatReads(s, used, n, RunBase(r.sym), r.count, if r.sym == REP_3_6 then s.lens[|s.lens| - 1] else 0, rest);
  }

  lemma RepeatReads(s: State, used: nat, n: nat, base: nat, count: nat, v: nat, rest: seq<bool>)
    requires used + n <= |s.bits| && base + Val(s.bits[used..used + n]) == count && s.bits[used + n..] == rest
    requires |s.lens| + count <= s.nlen + s.ndist
    ensures RepeatStep(s, used, n, base, v) == Some(s.(bits := rest, lens := s.lens + Repeat(v, count)))
  {
  }

  lemma RunDecodes(s: State, r: Run, rest: seq<bool>)
    requires s.mode == CODELENS && Fits(s.lencode) && IsSymbol(s.lencode, r.sym) && ValidRun(r)
    requires (r.sym == REP_3_6 ==> s.lens != []) && |s.lens| + r.count <= s.nlen + s.ndist
    requires s.bits == EncodeRun(s.lencode, r) + rest
    ensures Step(s) == Some(s.(bits := rest, lens := ExpandRun(s.lens, r)))
  {
    hide Step, EncodeRun, CodeBits, Fits, BitsOf, ValidRun;
    RunBits(s.lencode, r);
    if r.sym < REP_3_6 {
      PlainDecodes(s, r, rest);
    } else {
      var x := BitsOf(r.count - RunBase(r.sym), BlExtra(r.sym));
      assert CodeBits(s.lencode, r.sym) + x + rest == CodeBits(s.lencode, r.sym) + (x + rest);
      RepeatDecodes(s, r, rest);
    }
  }

  lemma {:induction false} RunsDecode(s: State, rs: seq<Run>, rest: seq<bool>)
    requires s.mode == CODELENS && Fits(s.lencode) && Coded(s.lencode, rs) && ValidRuns(rs)
    requires Repeatable(s.lens, rs) && |ExpandRuns(s.lens, rs)| <= s.nlen + s.ndist
    requires s.bits == EncodeRuns(s.lencode, rs) + rest
    ensures Leads(s, s.(bits := rest, lens := ExpandRuns(s.lens, rs)))
    decreases |rs|
  {
    hide Step, Steps, Leads, EncodeRun, Fits, ValidRun, ExpandRun, IsSymbol;
    if rs == [] {
      assert s.bits == rest;
      LeadsSelf(s);
    } else {
      var t := EncodeRuns(s.lencode, rs[1..]) + rest;
      assert s.bits == EncodeRun(s.lencode, rs[0]) + t;
      assert ExpandRun(s.lens, rs[0]) <= ExpandRuns(s.lens, rs);
      RunDecodes(s, rs[0], t);
      var s1 := s.(bits := t, lens := ExpandRun(s.lens, rs[0]));
      LeadsStep(s, s1);
      RunsDecode(s1, rs[1..], rest);
      LeadsTrans(s, s1, s.(bits := rest, lens := ExpandRuns(s.lens, rs)));
    }
  }

  // ---------- the lengths of the code-length code ----------

  /** The lengths in the order they are sent. */
  ghost function SentLens(bl: seq<nat>, n: nat): (r: seq<nat>)
    requires |bl| == 19 && n <= 19
    ensures |r| == n && forall i :: 0 <= i < n ==> r[i] == bl[OrderOf()[i]]
  {
    seq(n, i requires 0 <= i < n => bl[OrderOf()[i]])
  }

  ghost function LensBits(ls: seq<nat>): seq<bool> {
    if ls == [] then [] else LensBits(ls[..|ls| - 1]) + BitsOf(ls[|ls| - 1], 3)
  }

  lemma LenLensReads(s: State, v: nat, rest: seq<bool>)
    requires s.mode == LENLENS && v < 8 && |s.lens| < s.ncode && s.bits == BitsOf(v, 3) + rest
    ensures Step(s) == Some(s.(bits := rest, lens := s.lens + [v]))
  {
    hide Val, BitsOf, Pow2;
    Pow2Values();
    FieldRead(v, 3, rest);
  }

  lemma {:induction false} LenLensRead(s: State, ls: seq<nat>, rest: seq<bool>)
    requires s.mode == LENLENS && s.lens == [] && |ls| <= s.ncode && ThreeBit(ls) && s.bits == LensBits(ls) + rest
    ensures Leads(s, s.(bits := rest, lens := ls))
    decreases |ls|
  {
    hide Step, Steps, Leads;
    if ls == [] {
      assert s.bits == rest;
      LeadsSelf(s);
    } else {
      var n := |ls| - 1;
      var t := BitsOf(ls[n], 3) + rest;
      assert s.bits == LensBits(ls[..n]) + t;
      LenLensRead(s, ls[..n], t);
      var s1 := s.(bits := t, lens := ls[..n]);
      LenLensReads(s1, ls[n], rest);
      assert ls[..n] + [ls[n]] == ls;
      LeadsStep(s1, s.(bits := rest, lens := ls));
      LeadsTrans(s, s1, s.(bits := rest, lens := ls));
    }
  }

  /** The unsent lengths are zero, so that nothing is lost. */
  ghost predicate RestUnsent(bl: seq<nat>, n: nat) {
    |bl| == 19 && n <= 19 && forall i :: n <= i < 19 ==> bl[OrderOf()[i]] == 0
  }

  lemma CodeLensBack(bl: seq<nat>, n: nat)
    requires RestUnsent(bl, n)
    ensures CodeLens(SentLens(bl, n)) == bl
  {
    forall s | 0 <= s < 19 ensures CodeLens(SentLens(bl, n))[s] == bl[s] {
      var r := RankOf(s);
      assert OrderOf()[r] == s;
    }
  }

  // ---------- the header ----------

  /** Everything a dynamic block sends before its data. */
  ghost function HeaderBits(ll: seq<nat>, dd: seq<nat>, bl: seq<nat>, n: nat): seq<bool>
    requires |ll| >= 257 && |dd| >= 1 && 4 <= n <= 19 && |bl| == 19
  {
    BitsOf(|ll| - 257, 5) + BitsOf(|dd| - 1, 5) + BitsOf(n - 4, 4) + LensBits(SentLens(bl, n))
      + EncodeRuns(bl, Runs(ll)) + EncodeRuns(bl, Runs(dd))
  }

  ghost predicate HeaderOk(ll: seq<nat>, dd: seq<nat>, bl: seq<nat>, n: nat) {
    && 257 <= |ll| <= 286 && 1 <= |dd| <= 30 && 4 <= n && RestUnsent(bl, n) && ThreeBit(bl)
    && ValidLens(ll) && ValidLens(dd) && Complete(bl) && Coded(bl, Runs(ll)) && Coded(bl, Runs(dd))
    && Acceptable(LENS, ll) && Acceptable(DISTS, dd)
  }

  lemma CountsRead(s: State, a: nat, b: nat, c: nat, rest: seq<bool>)
    requires s.mode == TABLE && a < 30 && b < 30 && c < 16
    requires s.bits == BitsOf(a, 5) + BitsOf(b, 5) + BitsOf(c, 4) + rest
    ensures Step(s)
            == Some(s.(mode := LENLENS, bits := rest, nlen := a + 257, ndist := b + 1, ncode := c + 4, lens := []))
  {
    hide Val, BitsOf, Pow2;
    Pow2Values();
    FieldRead(a, 5, BitsOf(b, 5) + BitsOf(c, 4) + rest);
    FieldRead(b, 5, BitsOf(c, 4) + rest);
    FieldRead(c, 4, rest);
    var x, y, z := BitsOf(a, 5), BitsOf(b, 5), BitsOf(c, 4);
    assert x + y + z + rest == x + (y + z + rest);
    assert y + z + rest == y + (z + rest);
    assert s.bits[..5] == (x + (y + z + rest))[..5];
    assert s.bits[5..10] == (y + (z + rest))[..5];
    assert s.bits[10..14] == (z + rest)[..4];
    assert s.bits[14..] == rest;
  }

  lemma AfterLens(s: State, bl: seq<nat>, n: nat)
    requires s.mode == LENLENS && RestUnsent(bl, n) && s.lens == SentLens(bl, n) && s.ncode == n && Complete(bl)
    ensures Step(s) == Some(s.(mode := CODELENS, lencode := bl, lens := []))
  {
    hide CodeLens, SentLens, RestUnsent, Kraft, Val;
    CodeLensBack(bl, n);
  }

  lemma AfterRuns(s: State, ll: seq<nat>, dd: seq<nat>)
    requires s.mode == CODELENS && s.lens == ll + dd && s.nlen == |ll| && s.ndist == |dd|
    requires Acceptable(LENS, ll) && Acceptable(DISTS, dd)
    ensures Step(s) == Some(s.(mode := LEN, lencode := ll, distcode := dd))
  {
    hide Acceptable, Decode, Val, RepeatStep;
    assert s.lens[..|ll|] == ll && s.lens[|ll|..] == dd;
  }

  /** Both trees' runs, one after the other. */
  lemma BothRuns(s: State, ll: seq<nat>, dd: seq<nat>, rest: seq<bool>)
    requires s.mode == CODELENS && Complete(s.lencode) && Coded(s.lencode, Runs(ll)) && Coded(s.lencode, Runs(dd))
    requires ValidLens(ll) && ValidLens(dd) && s.lens == [] && s.nlen == |ll| && s.ndist == |dd|
    requires s.bits == EncodeRuns(s.lencode, Runs(ll)) + EncodeRuns(s.lencode, Runs(dd)) + rest
    ensures Leads(s, s.(bits := rest, lens := ll + dd))
  {
    hide Step, Steps, Leads, Runs, EncodeRuns, Kraft, ExpandRuns, Repeatable, ValidRuns, Coded;
    RunsExpand(ll, []);
    RunsExpand(dd, ll);
    assert [] + ll == ll;
    var t := EncodeRuns(s.lencode, Runs(dd)) + rest;
    assert s.bits == EncodeRuns(s.lencode, Runs(ll)) + t;
    RunsDecode(s, Runs(ll), t);
    var s1 := s.(bits := t, lens := ll);
    RunsDecode(s1, Runs(dd), rest);
    LeadsTrans(s, s1, s.(bits := rest, lens := ll + dd));
  }

  /** A dynamic header decodes to the two codes it describes. */
  lemma HeaderDecodes(s: State, ll: seq<nat>, dd: seq<nat>, bl: seq<nat>, n: nat, rest: seq<bool>)
    requires s.mode == TABLE && HeaderOk(ll, dd, bl, n) && s.bits == HeaderBits(ll, dd, bl, n) + rest
    ensures Leads(s, s.(mode := LEN, bits := rest, nlen := |ll|, ndist := |dd|, ncode := n, lens := ll + dd,
            lencode := ll, distcode := dd))
  {
    hide Step, Steps, Leads, Runs, EncodeRuns, Complete, LensBits, BitsOf, SentLens, Acceptable, Coded, ValidLens;
    var runs := EncodeRuns(bl, Runs(ll)) + EncodeRuns(bl, Runs(dd));
    var b1 := LensBits(SentLens(bl, n)) + (runs + rest);
    var counts := BitsOf(|ll| - 257, 5) + BitsOf(|dd| - 1, 5) + BitsOf(n - 4, 4);
    assert s.bits == counts + b1;
    CountsRead(s, |ll| - 257, |dd| - 1, n - 4, b1);
    var s1 := s.(mode := LENLENS, bits := b1, nlen := |ll|, ndist := |dd|, ncode := n, lens := []);
    LeadsStep(s, s1);
    LenLensRead(s1, SentLens(bl, n), runs + rest);
    var s2 := s1.(bits := runs + rest, lens := SentLens(bl, n));
    AfterLens(s2, bl, n);
    var s3 := s2.(mode := CODELENS, lencode := bl, lens := []);
    LeadsStep(s2, s3);
    BothRuns(s3, ll, dd, rest);
    var s4 := s3.(bits := rest, lens := ll + dd);
    AfterRuns(s4, ll, dd);
    var s5 := s4.(mode := LEN, lencode := ll, distcode := dd);
    LeadsStep(s4, s5);
    LeadsTrans(s, s1, s2);
    LeadsTrans(s, s2, s3);
    LeadsTrans(s, s3, s4);
    LeadsTrans(s, s4, s5);
  }
}
