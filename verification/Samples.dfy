/** Streams written down byte by byte, and what inflate makes of them. */
module Samples {
  import opened Bits
  import opened CanonicalCode
  import opened CodeTables
  import opened Tokens
  import opened FixedCode
  import opened BitQueue
  import opened InflateSpec
  import opened InflateRuns
  import opened DataDecode
  import opened StreamDecode
  import opened Adler32
  import opened Resumption
  import opened ZlibFormat
  import opened FormatTables
  import opened Damage

  /** Ten times the letter a. */
  function TenAs(): seq<byte> {
    [97, 97, 97, 97, 97, 97, 97, 97, 97, 97]
  }

  /** Two literals, and eight bytes from one back. */
  function TenTokens(): seq<Token> {
    [Token(0, 97), Token(0, 97), Token(1, 5)]
  }

  /** What zlib sends for that. */
  function TenStream(): seq<byte> {
    [0x4b, 0x4c, 0x84, 0x01, 0x00]
  }

  lemma TenExpand()
    ensures Expand([], TenTokens()) == TenAs() && InReach([], TenTokens()) && ValidTokens(TenTokens())
  {
    var ts := TenTokens();
    assert ts[1..] == [Token(0, 97), Token(1, 5)] && ts[1..][1..] == [Token(1, 5)] && ts[1..][1..][1..] == [];
    var two: seq<byte> := [97, 97];
    assert ExpandOne([97], Token(0, 97)) == two;
    Copied(two, 8);
  }

  /** Copying the last letter. */
  lemma {:induction false} Copied(out: seq<byte>, n: nat)
    requires out != [] && forall i :: 0 <= i < |out| ==> out[i] == 97
    ensures forall i :: 0 <= i < |CopyMatch(out, 1, n)| ==> CopyMatch(out, 1, n)[i] == 97
    decreases n
  {
    if n > 0 {
      Copied(out + [Back(out, 1)], n - 1);
    }
  }

  lemma WordsOfTen()
    ensures CodeBits(FixedLens(), 97) == [true, false, false, true, false, false, false, true]
    ensures CodeBits(FixedLens(), 262) == [false, false, false, false, true, true, false]
    ensures CodeBits(FixedLens(), 256) == [false, false, false, false, false, false, false]
    ensures CodeBits(FixedDists(), 0) == [false, false, false, false, false]
  {
    hide CodeBits, FixedLens, FixedDists, MBits;
    FixedWords(97);
    FixedWords(262);
    FixedWords(256);
    FixedDistWords(0);
    LetterWord();
    LengthWord();
    ZeroWords();
  }

  lemma LetterWord()
    ensures MBits(0x91, 8) == [true, false, false, true, false, false, false, true]
  {
  }

  lemma LengthWord()
    ensures MBits(6, 7) == [false, false, false, false, true, true, false]
  {
  }

  lemma ZeroWords()
    ensures MBits(0, 7) == [false, false, false, false, false, false, false]
    ensures MBits(0, 5) == [false, false, false, false, false]
  {
  }

  lemma CodesOfTen()
    ensures LengthCode(5) == 5 && LenExtra(5) == 0 && DistanceCode(1) == 0 && DistExtra(0) == 0
    ensures LenBase(5) == 8 && DistBase(0) == 1
  {
    LengthTable();
    DistanceTable();
    LenCodeIs(8, 5, 28);
    DistCodeIs(1, 0, 29);
  }

  lemma TenEncode()
    ensures CodedTokens(FixedLens(), FixedDists(), TenTokens())
    ensures EncodeTokens(FixedLens(), FixedDists(), TenTokens())
            == CodeBits(FixedLens(), 97) + CodeBits(FixedLens(), 97) + CodeBits(FixedLens(), 262)
               + CodeBits(FixedDists(), 0)
  {
    hide CodeBits, FixedLens, FixedDists, LengthCode, DistanceCode, LenBase, LenExtra, DistBase, DistExtra;
    var ts := TenTokens();
    TenExpand();
    FixedCoded(ts);
    CodesOfTen();
    assert ts[1..] == [Token(0, 97), Token(1, 5)] && ts[1..][1..] == [Token(1, 5)] && ts[1..][1..][1..] == [];
    assert ExtraBits(8, 8, 0) == [] && ExtraBits(1, 1, 0) == [];
    var ll, dd := FixedLens(), FixedDists();
    assert EncodeTokens(ll, dd, ts[1..][1..][1..]) == [];
    assert EncodeTokens(ll, dd, ts[1..][1..]) == CodeBits(ll, 262) + CodeBits(dd, 0);
    assert EncodeTokens(ll, dd, ts[1..]) == CodeBits(ll, 97) + (CodeBits(ll, 262) + CodeBits(dd, 0));
  }

  /** The five bytes are one fixed block, padded. */
  lemma TenBits()
    ensures BlockOk(Fixed(TenTokens()))
    ensures BytesBits(TenStream()) == BlockBits(Fixed(TenTokens()), true, 0) + [false, false]
  {
    hide CodeBits, FixedLens, FixedDists, EncodeTokens, BytesBits, ValidTokens, CodedTokens, IsSymbol;
    TenExpand();
    TenEncode();
    FixedCoded(TenTokens());
    FiveBytes();
    var a, e, d, z := CodeBits(FixedLens(), 97), CodeBits(FixedLens(), 262), CodeBits(FixedDists(), 0),
        CodeBits(FixedLens(), 256);
    WordsOfTen();
    Written(a, e, d, z);
  }

  lemma Written(a: seq<bool>, e: seq<bool>, d: seq<bool>, z: seq<bool>)
    requires a == [true, false, false, true, false, false, false, true]
    requires e == [false, false, false, false, true, true, false] && d == [false, false, false, false, false]
    requires z == [false, false, false, false, false, false, false]
    ensures [true, true, false] + (a + a + e + d + z) + [false, false]
            == [true, true, false, true, false, false, true, false]
               + [false, false, true, true, false, false, true, false]
               + [false, false, true, false, false, false, false, true]
               + [true, false, false, false, false, false, false, false]
               + [false, false, false, false, false, false, false, false]
  {
  }

  lemma FiveBytes()
    ensures BytesBits(TenStream())
            == [true, true, false, true, false, false, true, false]
               + [false, false, true, true, false, false, true, false]
               + [false, false, true, false, false, false, false, true]
               + [true, false, false, false, false, false, false, false]
               + [false, false, false, false, false, false, false, false]
  {
    hide BitsOf;
    var x := TenStream();
    assert x[1..] == [0x4c, 0x84, 0x01, 0x00] && x[1..][1..] == [0x84, 0x01, 0x00];
    assert x[1..][1..][1..] == [0x01, 0x00] && x[1..][1..][1..][1..] == [0x00] && x[1..][1..][1..][1..][1..] == [];
    EachByte();
    assert BytesBits(x[1..][1..][1..][1..]) == BitsOf(0x00, 8) + BytesBits([]);
    assert BytesBits(x[1..][1..][1..]) == BitsOf(0x01, 8) + BytesBits(x[1..][1..][1..][1..]);
    assert BytesBits(x[1..][1..]) == BitsOf(0x84, 8) + BytesBits(x[1..][1..][1..]);
    assert BytesBits(x[1..]) == BitsOf(0x4c, 8) + BytesBits(x[1..][1..]);
  }

  lemma EachByte()
    ensures BitsOf(0x4b, 8) == [true, true, false, true, false, false, true, false]
    ensures BitsOf(0x4c, 8) == [false, false, true, true, false, false, true, false]
    ensures BitsOf(0x84, 8) == [false, false, true, false, false, false, false, true]
    ensures BitsOf(0x01, 8) == [true, false, false, false, false, false, false, false]
    ensures BitsOf(0x00, 8) == [false, false, false, false, false, false, false, false]
    ensures BytesBits([]) == []
  {
    hide BitsOf;
    FirstByte();
    SecondByte();
    ThirdByte();
    SmallBytes();
    assert |BytesBits([])| == 0;
  }

  lemma FirstByte()
    ensures BitsOf(0x4b, 8) == [true, true, false, true, false, false, true, false]
  {
  }

  lemma SecondByte()
    ensures BitsOf(0x4c, 8) == [false, false, true, true, false, false, true, false]
  {
  }

  lemma ThirdByte()
    ensures BitsOf(0x84, 8) == [false, false, true, false, false, false, false, true]
  {
  }

  lemma SmallBytes()
    ensures BitsOf(0x01, 8) == [true, false, false, false, false, false, false, false]
    ensures BitsOf(0x00, 8) == [false, false, false, false, false, false, false, false]
  {
  }

  /** inflate gives ten letters for the five bytes. */
  lemma TenDecoded()
    ensures var t := Resumption.Decoded(TenStream()); t.mode == DONE && t.out == TenAs() && t.bits == []
  {
    hide BlockBits, BlockOk, BytesBits, Finish, Feed, Padding, Expand, InReach;
    var b := Fixed(TenTokens());
    TenExpand();
    TenBits();
    TenPadding();
    OneBlock(b);
    StreamDecodes([b], []);
    assert BytesBits([]) == [] by { EachByte(); }
    assert BytesBits(TenStream()) == StreamBits([b], [], 0) + [false, false] + [];
    assert After([], b) == TenAs();
  }

  lemma OneBlock(b: Block)
    requires BlockOk(b) && BlockInReach([], b)
    ensures BlocksOk([b], []) && AfterAll([], [b]) == After([], b) && StreamBits([b], [], 0) == BlockBits(b, true, 0)
  {
    hide BlockBits, BlockOk, BlockInReach, After;
    assert [b][1..] == [];
    assert AfterAll(After([], b), []) == After([], b);
  }

  lemma TenPadding()
    ensures BlockOk(Fixed(TenTokens())) && Padding(|BlockBits(Fixed(TenTokens()), true, 0)|) == [false, false]
  {
    hide BlockBits, BlockOk, BytesBits;
    TenBits();
    assert |BytesBits(TenStream())| == 40;
  }

  // ---------- with header and trailer ----------

  function As(n: nat): (s: seq<byte>)
    ensures |s| == n
  {
    seq(n, _ => 97)
  }

  lemma OneMore(n: nat, x: nat, y: nat)
    requires AdlerOf(As(n)) % 0x10000 == x && AdlerOf(As(n)) / 0x10000 == y && x + 97 + y < 65521
    ensures AdlerOf(As(n + 1)) % 0x10000 == x + 97 && AdlerOf(As(n + 1)) / 0x10000 == y + x + 97
  {
    hide AdlerOf;
    AdlerNext(As(n), 97);
    assert As(n + 1) == As(n) + [97];
  }

  lemma SumOfAs()
    ensures AdlerOf(As(10)) % 0x10000 == 971 && AdlerOf(As(10)) / 0x10000 == 5345
  {
    hide AdlerOf, As;
    assert AdlerOf(As(0)) % 0x10000 == 1 && AdlerOf(As(0)) / 0x10000 == 0 by {
      assert As(0) == [];
      AdlerOfNone();
    }
    OneMore(0, 1, 0);
    OneMore(1, 98, 98);
    OneMore(2, 195, 293);
    OneMore(3, 292, 585);
    OneMore(4, 389, 974);
    OneMore(5, 486, 1460);
    OneMore(6, 583, 2043);
    OneMore(7, 680, 2723);
    OneMore(8, 777, 3500);
    OneMore(9, 874, 4374);
  }

  lemma TenTrailer()
    ensures TrailerOf(TenAs()) == [0x14, 0xe1, 0x03, 0xcb]
  {
    hide AdlerOf, TrailerOf, S1, S2;
    SumOfAs();
    assert As(10) == TenAs();
    SumHalves(TenAs());
    TrailerBytes(TenAs());
    var t := TrailerOf(TenAs());
    assert t == [t[0], t[1], t[2], t[3]];
  }

  /** The zlib stream of them, with the header of level 6. */
  lemma TenZlib()
    ensures ZlibDecoded([0x78, 0x9c] + TenStream() + [0x14, 0xe1, 0x03, 0xcb]) == Outcome(END, TenAs())
  {
    hide AdlerOf, TrailerOf, ZlibDecoded, Resumption.Decoded;
    var x := [0x78, 0x9c] + TenStream();
    assert x[2..] == TenStream();
    assert 0x789c % 31 == 0;
    TenDecoded();
    TenTrailer();
    OnlyTrailer(x, [0x14, 0xe1, 0x03, 0xcb]);
  }
}
