/**
 The entry assumption of inflate_fast, fewer than 8 bits in the accumulator, is not one that
 inflate keeps: an input that breaks it, and what a code must be like for that.
 */
module FastEntry {
  import opened Bits
  import opened CanonicalCode
  import opened CodeTables
  import opened InfTrees
  import opened InflateTable
  import opened FixedCode
  import opened Tokens
  import opened BitQueue
  import opened InflateSpec
  import opened InflateRuns
  import opened TableDecode
  import opened DataDecode
  import opened StreamDecode
  import opened GetCode
  import opened Inflate
  import opened Resumption

  // ---------- which codes ----------

  /**
   For the code of any table there are n bits that begin a code and contain none whole if and only
   if some code is longer than n.  Without a code longer than 8 bits the assumption cannot fail.
   */
  lemma UnfinishedCode(kind: CodeType, lens: seq<nat>, t: seq<Entry>, root: nat, n: nat)
    requires TableOk(kind, lens, t, root) && n >= 1
    ensures (exists held: seq<bool> :: |held| == n && Decode(lens, held) == Need) <==>
              (exists s: nat :: IsSymbol(lens, s) && lens[s] > n)
  {
    hide TableOk, Decode, Huff, CodeBits;
    if exists held: seq<bool> :: |held| == n && Decode(lens, held) == Need {
      var held: seq<bool> :| |held| == n && Decode(lens, held) == Need;
      var s := LongerCode(kind, lens, t, root, held);
    }
    if exists s: nat :: IsSymbol(lens, s) && lens[s] > n {
      var s: nat :| IsSymbol(lens, s) && lens[s] > n;
      RootFits(kind, lens, t, root);
      HuffBound(lens, s);
      LowSmall(Huff(lens, s), lens[s]);
      NotYet(lens, Huff(lens, s), n, s);
    }
  }

  lemma LongerCode(kind: CodeType, lens: seq<nat>, t: seq<Entry>, root: nat, held: seq<bool>) returns (s: nat)
    requires TableOk(kind, lens, t, root) && |held| >= 1 && Decode(lens, held) == Need
    ensures IsSymbol(lens, s) && lens[s] > |held|
  {
    hide LooksUp, Huff, CodeBits, BitsOf, Val, Low, Fits, Pow2;
    BitsOfVal(held);
    var hold := Val(held);
    assert EntryOk(kind, lens, t, root, Low(hold, MAX_BITS));
    if NoCode(lens, Low(hold, MAX_BITS) % 2 == 1) {
      LowParity(hold);
      FirstBit(held);
      assert false;
    }
    s :| IsSymbol(lens, s) && LowIs(Low(hold, MAX_BITS), lens[s], Huff(lens, s)) && LooksUp(kind, lens, t, root,
        Low(hold, MAX_BITS), s);
    if lens[s] <= |held| {
      LowLow(hold, MAX_BITS, lens[s]);
      WholeCode(lens, s, held);
    }
  }

  lemma WholeCode(lens: seq<nat>, s: nat, held: seq<bool>)
    requires IsSymbol(lens, s) && lens[s] <= |held| && Low(Val(held), lens[s]) == Huff(lens, s)
    ensures Decode(lens, held).Symbol?
  {
    hide Huff, CodeBits, BitsOf, Val, Low;
    BitsOfVal(held);
    HuffMatch(lens, s, Val(held), |held|);
    assert Matches(lens, s, held);
  }

  lemma FirstBit(held: seq<bool>)
    requires held != []
    ensures held[0] == (Val(held) % 2 == 1)
  {
    var v := Val(held[1..]);
    assert Val(held) == B(held[0]) + 2 * v;
    hide Val;
  }

  // ---------- an input ----------

  function Ones(n: nat): seq<bool> {
    seq(n, _ => true)
  }

  /** A fixed block, marked as the last, with five literals 255 and eight bits of a sixth. */
  function Sample(): seq<byte> {
    [0xFB, 0xFF, 0xFF, 0xFF, 0xFF, 0xFF, 0xFF]
  }

  lemma {:induction false} OnesAre(n: nat)
    ensures BitsOf(Pow2(n) - 1, n) == Ones(n) && MBits(Pow2(n) - 1, n) == Ones(n)
  {
    if n > 0 {
      OnesAre(n - 1);
      assert (Pow2(n) - 1) / 2 == Pow2(n - 1) - 1 && (Pow2(n) - 1) % 2 == 1;
      assert [true] + Ones(n - 1) == Ones(n) && Ones(n - 1) + [true] == Ones(n);
    }
  }

  /** The last of the fixed codes is nine ones. */
  lemma LastLiteral()
    ensures IsSymbol(FixedLens(), 255) && CodeBits(FixedLens(), 255) == Ones(9)
  {
    hide MBits, Ones, CodeBits, Pow2;
    FixedWords(255);
    Pow2Values();
    OnesAre(9);
  }

  lemma SampleLength()
    ensures |Sample()| == 7
  {
  }

  lemma SampleBits()
    ensures BytesBits(Sample()) == [true, true, false] + Ones(53)
  {
    hide BitsOf, Pow2, Shl;
    Pow2Values();
    OnesAre(8);
    OnesAre(5);
    ThreeBits();
    ShlTimes(31, 3);
    BitsOfAppend(3, 3, 31, 5);
    SevenBytes(0xFB, 0xFF);
    assert [true, true, false] + Ones(5) + Ones(8) + Ones(8) + Ones(8) + Ones(8) + Ones(8) + Ones(8) == [true, true,
        false] + Ones(53);
  }

  lemma ThreeBits()
    ensures BitsOf(3, 3) == [true, true, false] && 3 < Pow2(3)
  {
    assert BitsOf(0, 1) == [false];
    assert BitsOf(1, 2) == [true] + BitsOf(0, 1);
  }

  lemma SevenBytes(a: byte, b: byte)
    ensures BytesBits([a, b, b, b, b, b, b])
         == BitsOf(a, 8) + BitsOf(b, 8) + BitsOf(b, 8) + BitsOf(b, 8) + BitsOf(b, 8) + BitsOf(b, 8) + BitsOf(b, 8)
  {
    hide BitsOf;
    ByteFirst(a, [b, b, b, b, b, b]);
    ByteFirst(b, [b, b, b, b, b]);
    ByteFirst(b, [b, b, b, b]);
    ByteFirst(b, [b, b, b]);
    ByteFirst(b, [b, b]);
    ByteFirst(b, [b]);
    ByteFirst(b, []);
    assert BytesBits([]) == [];
  }

  lemma ByteFirst(a: byte, x: seq<byte>)
    ensures BytesBits([a] + x) == BitsOf(a, 8) + BytesBits(x)
  {
    hide BitsOf;
    assert ([a] + x)[1..] == x;
  }

  /** Literals 255, as many as there are whole codes. */
  lemma {:induction false} OnesDecode(s: State, k: nat) returns (t: State)
    requires s.mode == LEN && s.lencode == FixedLens() && s.bits == Ones(9 * k + 8)
    ensures Leads(s, t) && t.mode == LEN && t.lencode == FixedLens() && t.bits == Ones(8) && |t.out| == |s.out| + k
    decreases k
  {
    hide Leads, FixedLens, CodeBits, Fits;
    if k == 0 {
      LeadsSelf(s);
      t := s;
    } else {
      LastLiteral();
      FixedFits();
      assert Ones(9 * k + 8) == Ones(9) + Ones(9 * (k - 1) + 8);
      var u := LiteralDecodes(s, 255, Ones(9 * (k - 1) + 8));
      t := OnesDecode(u, k - 1);
      LeadsTrans(s, u, t);
    }
  }

  /** The machine on the sample: five literals, and eight bits left that are not a code. */
  lemma SampleDecodes()
    ensures var t := Resumption.Decoded(Sample()); t.mode == LEN && |t.bits| == 8 && |t.out| == 5 && Step(t) == None
  {
    hide Leads, Finish, FixedLens, FixedDists, BytesBits, Ones, Step, Decode;
    var s := Feed(InflateSpec.Start(), BytesBits(Sample()));
    SampleBits();
    StartIs();
    Unfed(BytesBits(Sample()));
    KindRead(s, true, true, false, Ones(53));
    var s1 := s.(mode := LEN, last := true, bits := Ones(53), lencode := FixedLens(), distcode := FixedDists());
    LeadsStep(s, s1);
    var t := OnesDecode(s1, 5);
    LeadsTrans(s, s1, t);
    EightOnes();
    NeedStops(t);
    LeadsFinish(s, t);
    FinishStuck(t);
    OnesLength(8);
  }

  lemma OnesLength(n: nat)
    ensures |Ones(n)| == n
  {
  }

  lemma EightOnes()
    ensures Decode(FixedLens(), Ones(8)) == Need
  {
    hide Decode, FixedLens, CodeBits, BitsOf, Fits, Pow2;
    LastLiteral();
    FixedFits();
    Pow2Values();
    OnesAre(9);
    BitsOfPrefix(511, 8, 9);
    assert Ones(9)[..8] == Ones(8);
    NineBits();
    ValBitsOf(511, 9);
    NotYet(FixedLens(), 511, 8, 255);
  }

  lemma NineBits()
    ensures FixedLens()[255] == 9
  {
  }

  /** Where a call with the sample and room for 300 bytes must end. */
  lemma SampleEnds(a: State, n: nat, mode: Mode, written: nat)
    requires n <= 7 && CodesFit(InflateSpec.Start()) && Leads(Feed(InflateSpec.Start(), BytesBits(Sample()[..n])), a)
    requires |a.out| == written && mode == a.mode
    requires mode in {DONE, BAD} || (n == 7 && Step(a) == None) || written == 300
    ensures mode == LEN && |a.bits| == 8 && Step(a) == None
  {
    hide Leads, CodesFit, BytesBits, Step, Finish, Feed, Resumption.Decoded;
    SampleDecodes();
    Prefix(Sample(), n, a);
    var rest := Sample()[n..];
    FeedMode(a, BytesBits(rest));
    NoBytes();
    FeedNone(a);
    assert n == 7 ==> rest == [];
  }

  /**
   After the sample in one call, 8 bits are held in LEN: a next call with six bytes of input and
   room for 258 enters inflate_fast with them.
   */
  method EightBitsHeld() returns (mode: Mode, bits: nat)
    ensures mode == LEN && bits == 8
  {
    hide *;
    var inf := new Inflater();
    StartFits();
    StartIs();
    inf.FirstIdle();
    var input, out := Sample(), new byte[300];
    var consumed, written, ret := inf.Inflate(input, out, false);
    inf.IdleMode();
    SampleLength();
    SampleEnds(inf.abs, consumed, inf.mode, written);
    inf.HeldInLen();
    mode, bits := inf.mode, inf.br.bits;
  }
}
