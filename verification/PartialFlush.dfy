/** Decoding up to somewhere in the empty fixed block of a partial flush. */
module PartialFlush {
  import opened Bits
  import opened CanonicalCode
  import opened CodeTables
  import opened InfTrees
  import opened FixedCode
  import opened BitQueue
  import opened InflateSpec
  import opened InflateRuns
  import opened TableDecode
  import opened HeaderDecode
  import opened DataDecode
  import opened SendTree
  import opened StreamDecode
  import opened FlushBlock
  import opened FixedWidth
  import opened Resumption

  /** Three bits of type and the seven bits of the end of block. */
  ghost function EmptyBits(): seq<bool> {
    BlockBits(Fixed([]), false, 0)
  }

  lemma EmptyBitsAre()
    ensures IsSymbol(FixedLens(), END_BLOCK) && |EmptyBits()| == 10
    ensures EmptyBits() == [false, true, false] + CodeBits(FixedLens(), END_BLOCK)
  {
    hide CodeBits, FixedLens, FixedDists, IsSymbol;
    EmptyFixed([]);
    EndWidth();
    assert WithBlock([], Fixed([]), false) == EmptyBits();
    assert [] + [false, true, false] == [false, true, false];
  }

  lemma FixedAnywhere(pos: nat)
    ensures BlockBits(Fixed([]), false, pos) == EmptyBits()
  {
    hide DataBits, FixedLens, FixedDists;
  }

  /** Part of the end-of-block code is not a code. */
  lemma PartOfEnd(n: nat)
    requires n < 7
    ensures |CodeBits(FixedLens(), END_BLOCK)| == 7
    ensures Decode(FixedLens(), CodeBits(FixedLens(), END_BLOCK)[..n]) == Need
  {
    hide FixedLens, CodeBits, IsSymbol, Huff, BitsOf, Fits, Decode;
    EndWidth();
    EndLength();
    FixedFits();
    var v := Huff(FixedLens(), END_BLOCK);
    CodeToSend(FixedLens(), END_BLOCK);
    LowSmall(v, 7);
    BitsOfPrefix(v, n, 7);
    NotYet(FixedLens(), v, n, END_BLOCK);
  }

  lemma EndLength()
    ensures FixedLens()[END_BLOCK] == 7
  {
  }

  /** From the type of the block on nothing more is written, wherever the bits end. */
  lemma EmptyEnds(t: State, k: nat)
    requires t.mode == TYPE && !t.last && 3 <= k <= 10 && |EmptyBits()| == 10 && t.bits == EmptyBits()[..k]
    ensures Finish(t).out == t.out
  {
    hide CodeBits, FixedLens, FixedDists, Decode, EmptyBits, Finish, Leads, Step;
    EmptyBitsAre();
    var code := CodeBits(FixedLens(), END_BLOCK);
    var rest := code[..k - 3];
    assert t.bits == [false, true, false] + rest;
    KindRead(t, false, true, false, rest);
    var s := t.(mode := LEN, last := false, bits := rest, lencode := FixedLens(), distcode := FixedDists());
    LeadsStep(t, s);
    if k < 10 {
      PartOfEnd(k - 3);
      NeedStops(s);
      LeadsFinish(t, s);
      FinishStuck(s);
    } else {
      FixedFits();
      assert rest == code + [];
      var u := s.(mode := TYPE, bits := []);
      EndStep(s);
      LeadsStep(s, u);
      LeadsTrans(t, s, u);
      LeadsFinish(t, u);
      TypeStays(u);
      FinishStuck(u);
    }
  }

  lemma TypeStays(u: State)
    requires u.mode == TYPE && !u.last && u.bits == []
    ensures Step(u) == None
  {
  }

  lemma EndStep(s: State)
    requires s.mode == LEN && Fits(s.lencode) && IsSymbol(s.lencode, END_BLOCK)
    requires s.bits == CodeBits(s.lencode, END_BLOCK) + []
    ensures Step(s) == Some(s.(mode := TYPE, bits := []))
  {
    hide Fits, CodeBits, Decode;
    CodeRead(s.lencode, END_BLOCK, []);
  }
}
