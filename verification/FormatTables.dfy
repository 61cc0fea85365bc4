/**
 The numbers of section 3.2 of RFC 1951 as its tables give them, for what is computed elsewhere, and the
 order of bits.
 */
module FormatTables {
  import opened Bits
  import opened CanonicalCode
  import opened CodeTables
  import opened InflateSpec
  import opened RunCoding
  import opened StreamDecode
  import opened HeaderDecode
  import opened Tokens

  // ---------- section 3.1.1: bits of bytes and of codes ----------

  /** The bits of a number come lowest first. */
  lemma {:induction false} LowestFirst(v: nat, n: nat, i: nat)
    requires i < n
    ensures BitsOf(v, n)[i] == (Shr(v, i) % 2 == 1)
  {
    if i > 0 {
      LowestFirst(v / 2, n - 1, i - 1);
    }
  }

  /** Those of a code come highest first. */
  lemma {:induction false} HighestFirst(v: nat, n: nat, i: nat)
    requires i < n
    ensures MBits(v, n)[i] == (Shr(v, n - 1 - i) % 2 == 1)
  {
    if i < n - 1 {
      HighestFirst(v / 2, n - 1, i);
    }
  }

  // ---------- section 3.2.5: lengths and distances ----------

  lemma LengthTable()
    ensures LenBase(0) == 3 && LenBase(1) == 4 && LenBase(2) == 5 && LenBase(3) == 6 && LenBase(4) == 7
    ensures LenBase(5) == 8 && LenBase(6) == 9 && LenBase(7) == 10 && LenBase(8) == 11 && LenBase(9) == 13
    ensures LenBase(10) == 15 && LenBase(11) == 17 && LenBase(12) == 19 && LenBase(13) == 23 && LenBase(14) == 27
    ensures LenBase(15) == 31 && LenBase(16) == 35 && LenBase(17) == 43 && LenBase(18) == 51 && LenBase(19) == 59
    ensures LenBase(20) == 67 && LenBase(21) == 83 && LenBase(22) == 99 && LenBase(23) == 115 && LenBase(24) == 131
    ensures LenBase(25) == 163 && LenBase(26) == 195 && LenBase(27) == 227 && LenBase(28) == 258
    ensures LenExtra(0) == 0 && LenExtra(1) == 0 && LenExtra(2) == 0 && LenExtra(3) == 0 && LenExtra(4) == 0
    ensures LenExtra(5) == 0 && LenExtra(6) == 0 && LenExtra(7) == 0 && LenExtra(8) == 1 && LenExtra(9) == 1
    ensures LenExtra(10) == 1 && LenExtra(11) == 1 && LenExtra(12) == 2 && LenExtra(13) == 2 && LenExtra(14) == 2
    ensures LenExtra(15) == 2 && LenExtra(16) == 3 && LenExtra(17) == 3 && LenExtra(18) == 3 && LenExtra(19) == 3
    ensures LenExtra(20) == 4 && LenExtra(21) == 4 && LenExtra(22) == 4 && LenExtra(23) == 4 && LenExtra(24) == 5
    ensures LenExtra(25) == 5 && LenExtra(26) == 5 && LenExtra(27) == 5 && LenExtra(28) == 0
  {
    hide LenBase, Pow2, LenExtra;
    Pow2Values();
    LengthExtras();
    FirstLength();
    LastLength();
    LenBases(0);
    LenBases(1);
    LenBases(2);
    LenBases(3);
    LenBases(4);
    LenBases(5);
    LenBases(6);
    LenBases(7);
    LenBases(8);
    LenBases(9);
    LenBases(10);
    LenBases(11);
    LenBases(12);
    LenBases(13);
    LenBases(14);
    LenBases(15);
    LenBases(16);
    LenBases(17);
    LenBases(18);
    LenBases(19);
    LenBases(20);
    LenBases(21);
    LenBases(22);
    LenBases(23);
    LenBases(24);
    LenBases(25);
    LenBases(26);
  }

  lemma LengthExtras()
    ensures LenExtra(0) == 0 && LenExtra(1) == 0 && LenExtra(2) == 0 && LenExtra(3) == 0 && LenExtra(4) == 0
    ensures LenExtra(5) == 0 && LenExtra(6) == 0 && LenExtra(7) == 0 && LenExtra(8) == 1 && LenExtra(9) == 1
    ensures LenExtra(10) == 1 && LenExtra(11) == 1 && LenExtra(12) == 2 && LenExtra(13) == 2 && LenExtra(14) == 2
    ensures LenExtra(15) == 2 && LenExtra(16) == 3 && LenExtra(17) == 3 && LenExtra(18) == 3 && LenExtra(19) == 3
    ensures LenExtra(20) == 4 && LenExtra(21) == 4 && LenExtra(22) == 4 && LenExtra(23) == 4 && LenExtra(24) == 5
    ensures LenExtra(25) == 5 && LenExtra(26) == 5 && LenExtra(27) == 5 && LenExtra(28) == 0
  {
  }

  lemma DistanceTable()
    ensures DistBase(0) == 1 && DistBase(1) == 2 && DistBase(2) == 3 && DistBase(3) == 4
    ensures DistBase(4) == 5 && DistBase(5) == 7 && DistBase(6) == 9 && DistBase(7) == 13
    ensures DistBase(8) == 17 && DistBase(9) == 25 && DistBase(10) == 33 && DistBase(11) == 49
    ensures DistBase(12) == 65 && DistBase(13) == 97 && DistBase(14) == 129 && DistBase(15) == 193
    ensures DistBase(16) == 257 && DistBase(17) == 385 && DistBase(18) == 513 && DistBase(19) == 769
    ensures DistBase(20) == 1025 && DistBase(21) == 1537 && DistBase(22) == 2049 && DistBase(23) == 3073
    ensures DistBase(24) == 4097 && DistBase(25) == 6145 && DistBase(26) == 8193 && DistBase(27) == 12289
    ensures DistBase(28) == 16385 && DistBase(29) == 24577
    ensures DistExtra(0) == 0 && DistExtra(1) == 0 && DistExtra(2) == 0 && DistExtra(3) == 0
    ensures DistExtra(4) == 1 && DistExtra(5) == 1 && DistExtra(6) == 2 && DistExtra(7) == 2
    ensures DistExtra(8) == 3 && DistExtra(9) == 3 && DistExtra(10) == 4 && DistExtra(11) == 4
    ensures DistExtra(12) == 5 && DistExtra(13) == 5 && DistExtra(14) == 6 && DistExtra(15) == 6
    ensures DistExtra(16) == 7 && DistExtra(17) == 7 && DistExtra(18) == 8 && DistExtra(19) == 8
    ensures DistExtra(20) == 9 && DistExtra(21) == 9 && DistExtra(22) == 10 && DistExtra(23) == 10
    ensures DistExtra(24) == 11 && DistExtra(25) == 11 && DistExtra(26) == 12 && DistExtra(27) == 12
    ensures DistExtra(28) == 13 && DistExtra(29) == 13
  {
    hide DistBase, Pow2, DistExtra;
    Pow2Values();
    Pow2More();
    DistanceExtras();
    FirstLength();
    DistBases(0);
    DistBases(1);
    DistBases(2);
    DistBases(3);
    DistBases(4);
    DistBases(5);
    DistBases(6);
    DistBases(7);
    DistBases(8);
    DistBases(9);
    DistBases(10);
    DistBases(11);
    DistBases(12);
    DistBases(13);
    DistBases(14);
    DistBases(15);
    DistBases(16);
    DistBases(17);
    DistBases(18);
    DistBases(19);
    DistBases(20);
    DistBases(21);
    DistBases(22);
    DistBases(23);
    DistBases(24);
    DistBases(25);
    DistBases(26);
    DistBases(27);
    DistBases(28);
  }

  lemma DistanceExtras()
    ensures DistExtra(0) == 0 && DistExtra(1) == 0 && DistExtra(2) == 0 && DistExtra(3) == 0
    ensures DistExtra(4) == 1 && DistExtra(5) == 1 && DistExtra(6) == 2 && DistExtra(7) == 2
    ensures DistExtra(8) == 3 && DistExtra(9) == 3 && DistExtra(10) == 4 && DistExtra(11) == 4
    ensures DistExtra(12) == 5 && DistExtra(13) == 5 && DistExtra(14) == 6 && DistExtra(15) == 6
    ensures DistExtra(16) == 7 && DistExtra(17) == 7 && DistExtra(18) == 8 && DistExtra(19) == 8
    ensures DistExtra(20) == 9 && DistExtra(21) == 9 && DistExtra(22) == 10 && DistExtra(23) == 10
    ensures DistExtra(24) == 11 && DistExtra(25) == 11 && DistExtra(26) == 12 && DistExtra(27) == 12
    ensures DistExtra(28) == 13 && DistExtra(29) == 13
  {
  }

  lemma Pow2More()
    ensures Pow2(10) == 1024 && Pow2(11) == 2048 && Pow2(12) == 4096 && Pow2(13) == 8192
  {
    Pow2Values();
    Pow2Next(9);
    Pow2Next(10);
    Pow2Next(11);
    Pow2Next(12);
  }

  /** Every length has one code: that with the greatest base up to it, so that 258 has the last one. */
  lemma OneLengthCode(lc: nat, c: nat)
    requires lc < 256
    ensures LengthCode(lc) == c <==> c < 29 && LenBase(c) <= lc + 3 && (c < 28 ==> lc + 3 < LenBase(c + 1))
  {
    hide LenBase, LenExtra, Pow2;
    LengthCodeFits(lc);
    var b := LengthCode(lc);
    if c < 29 && LenBase(c) <= lc + 3 && (c < 28 ==> lc + 3 < LenBase(c + 1)) {
      LenCodeIs(lc + 3, c, 28);
    }
    if b < 28 {
      LenCodeGreatest(lc + 3, 28);
    }
  }

  lemma {:induction false} LenCodeGreatest(len: nat, top: nat)
    requires top < 29 && len >= 3
    ensures LenCodeUpTo(len, top) < top ==> len < LenBase(LenCodeUpTo(len, top) + 1)
  {
    hide LenBase;
    if top > 0 && LenBase(top) > len {
      LenCodeGreatest(len, top - 1);
    }
  }

  /** And so has every distance. */
  lemma OneDistanceCode(dist: nat, c: nat)
    requires 1 <= dist <= 32768
    ensures DistanceCode(dist) == c <==> c < 30 && DistBase(c) <= dist && (c < 29 ==> dist < DistBase(c + 1))
  {
    hide DistBase, DistExtra, Pow2;
    DistanceCodeFits(dist);
    var b := DistanceCode(dist);
    if c < 30 && DistBase(c) <= dist && (c < 29 ==> dist < DistBase(c + 1)) {
      DistCodeIs(dist, c, 29);
    }
    if b < 29 {
      DistCodeGreatest(dist, 29);
    }
  }

  lemma {:induction false} DistCodeGreatest(dist: nat, top: nat)
    requires top < 30 && dist >= 1
    ensures DistCodeUpTo(dist, top) < top ==> dist < DistBase(DistCodeUpTo(dist, top) + 1)
  {
    hide DistBase;
    if top > 0 && DistBase(top) > dist {
      DistCodeGreatest(dist, top - 1);
    }
  }

  // ---------- section 3.2.3: what a match stands for ----------

  /** Each byte is the one `d` before it, be it new or not. */
  lemma {:induction false} Copies(out: seq<byte>, d: nat, n: nat)
    requires 1 <= d <= |out|
    ensures var all := CopyMatch(out, d, n);
            |all| == |out| + n && out <= all && forall i :: |out| <= i < |out| + n ==> all[i] == all[i - d]
    decreases n
  {
    if n > 0 {
      var more := out + [Back(out, d)];
      Copies(more, d, n - 1);
      assert CopyMatch(out, d, n) == CopyMatch(more, d, n - 1);
      assert more[|out|] == out[|out| - d];
    }
  }

  // ---------- section 3.2.7: repeat codes ----------


  /** What the symbols of the code-length code stand for. */
  lemma RepeatCodes(have: seq<nat>, n: nat)
    ensures forall v :: 0 <= v < 16 ==> BlExtra(v) == 0 && ExpandRun(have, Run(v, 1)) == have + [v]
    ensures BlExtra(16) == 2 && RunBase(16) == 3 && BlExtra(17) == 3 && RunBase(17) == 3
    ensures BlExtra(18) == 7 && RunBase(18) == 11
    ensures have != [] ==> ExpandRun(have, Run(16, n)) == have + Repeat(have[|have| - 1], n)
    ensures ExpandRun(have, Run(17, n)) == have + Repeat(0, n) == ExpandRun(have, Run(18, n))
  {
    forall v | 0 <= v < 16 ensures ExpandRun(have, Run(v, 1)) == have + [v] {
      assert Repeat(v, 1) == [v];
    }
  }
}
