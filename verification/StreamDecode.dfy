/** Blocks and whole streams: what the encoder sends, the decoder turns back. */
module StreamDecode {
  import opened Bits
  import opened CanonicalCode
  import opened CodeTables
  import opened InfTrees
  import opened Tokens
  import opened FixedCode
  import opened BitQueue
  import opened InflateSpec
  import opened InflateRuns
  import opened HeaderDecode
  import opened DataDecode

  /** The three kinds of block; a dynamic one carries the three codes its header describes. */
  datatype Block =
    | Stored(data: seq<byte>)
    | Fixed(tokens: seq<Token>)
    | Dynamic(tokens: seq<Token>, ll: seq<nat>, dd: seq<nat>, bl: seq<nat>, blcodes: nat)

  ghost predicate BlockOk(b: Block) {
    match b
    case Stored(data) => |data| < 0x10000
    case Fixed(ts) => ValidTokens(ts)
    case Dynamic(ts, ll, dd, bl, n) => HeaderOk(ll, dd, bl, n) && CodedTokens(ll, dd, ts) && IsSymbol(ll, END_BLOCK)
  }

  /** The bytes after the block. */
  ghost function After(out: seq<byte>, b: Block): (r: seq<byte>)
    ensures out <= r
  {
    match b
    case Stored(data) => out + data
    case Fixed(ts) => Expand(out, ts)
    case Dynamic(ts, _, _, _, _) => Expand(out, ts)
  }

  ghost predicate BlockInReach(out: seq<byte>, b: Block) {
    match b
    case Stored(_) => true
    case Fixed(ts) => InReach(out, ts)
    case Dynamic(ts, _, _, _, _) => InReach(out, ts)
  }

  /** Every token can be sent with the fixed code. */
  lemma FixedCoded(ts: seq<Token>)
    requires ValidTokens(ts)
    ensures CodedTokens(FixedLens(), FixedDists(), ts) && IsSymbol(FixedLens(), END_BLOCK)
  {
    hide LengthCode, DistanceCode;
    forall i | 0 <= i < |ts| ensures CodedToken(FixedLens(), FixedDists(), ts[i]) {
      if ts[i].dist != 0 {
        LengthCodeFits(ts[i].lc);
        DistanceCodeFits(ts[i].dist);
      }
    }
  }

  ghost function StoredBits(data: seq<byte>, last: bool, pos: nat): seq<bool>
    requires |data| < 0x10000
  {
    [last, false, false] + Padding(pos + 3) + (BitsOf(|data|, 16) + BitsOf(0xffff - |data|, 16)) + BytesBits(data)
  }

  /** The bits of a block that starts at bit `pos` of the stream. */
  ghost function BlockBits(b: Block, last: bool, pos: nat): seq<bool>
    requires BlockOk(b)
  {
    match b
    case Stored(data) => StoredBits(data, last, pos)
    case Fixed(ts) =>
      FixedCoded(ts);
      [last, true, false] + DataBits(FixedLens(), FixedDists(), ts)
    case Dynamic(ts, ll, dd, bl, n) =>
      [last, false, true] + (HeaderBits(ll, dd, bl, n) + DataBits(ll, dd, ts))
  }

  // ---------- the three kinds ----------

  lemma KindRead(s: State, last: bool, b1: bool, b2: bool, rest: seq<bool>)
    requires s.mode == TYPE && !s.last && s.bits == [last, b1, b2] + rest
    ensures !b1 && !b2 ==> Step(s) == Some(s.(mode := STORED, last := last, bits := rest))
    ensures b1 && !b2 ==>
              Step(s)
              == Some(s.(mode := LEN, last := last, bits := rest, lencode := FixedLens(), distcode := FixedDists()))
    ensures !b1 && b2 ==> Step(s) == Some(s.(mode := TABLE, last := last, bits := rest))
  {
    assert s.bits[1..3] == [b1, b2];
    assert [b1, b2][1..] == [b2] && [b2][1..] == [];
    assert Val([]) == 0;
    assert Val([b2]) == B(b2);
    assert s.bits[3..] == rest;
  }

  lemma FixedDecodes(s: State, ts: seq<Token>, last: bool, rest: seq<bool>) returns (t: State)
    requires s.mode == TYPE && !s.last && ValidTokens(ts) && InReach(s.out, ts)
    requires s.bits == BlockBits(Fixed(ts), last, 0) + rest
    ensures Leads(s, t) && t.mode == TYPE && t.last == last && t.bits == rest && t.out == Expand(s.out, ts)
  {
    hide Leads, Step, Steps, DataBits, FixedLens, FixedDists, Val, Expand, InReach, ValidTokens, CodedTokens, IsSymbol,
         Fits;
    FixedCoded(ts);
    FixedFits();
    var data := DataBits(FixedLens(), FixedDists(), ts);
    assert s.bits == [last, true, false] + (data + rest);
    KindRead(s, last, true, false, data + rest);
    var s1 := s.(mode := LEN, last := last, bits := data + rest, lencode := FixedLens(), distcode := FixedDists());
    LeadsStep(s, s1);
    t := DataDecodes(s1, ts, rest);
    LeadsTrans(s, s1, t);
  }

  lemma DynamicDecodes(s: State, b: Block, last: bool, rest: seq<bool>) returns (t: State)
    requires s.mode == TYPE && !s.last && b.Dynamic? && BlockOk(b) && InReach(s.out, b.tokens)
    requires s.bits == BlockBits(b, last, 0) + rest
    ensures Leads(s, t) && t.mode == TYPE && t.last == last && t.bits == rest && t.out == Expand(s.out, b.tokens)
  {
    hide Leads, Step, Steps, DataBits, HeaderBits, Val, Expand, InReach, CodedTokens, IsSymbol, Acceptable, Complete;
    var data := DataBits(b.ll, b.dd, b.tokens);
    var header := HeaderBits(b.ll, b.dd, b.bl, b.blcodes);
    var b1 := header + (data + rest);
    assert s.bits == [last, false, true] + b1;
    KindRead(s, last, false, true, b1);
    var s1 := s.(mode := TABLE, last := last, bits := b1);
    LeadsStep(s, s1);
    HeaderDecodes(s1, b.ll, b.dd, b.bl, b.blcodes, data + rest);
    var s2 := s1.(mode := LEN, bits := data + rest, nlen := |b.ll|, ndist := |b.dd|, ncode := b.blcodes,
        lens := b.ll + b.dd, lencode := b.ll, distcode := b.dd);
    AcceptableFits(LENS, b.ll);
    AcceptableFits(DISTS, b.dd);
    t := DataDecodes(s2, b.tokens, rest);
    LeadsTrans(s, s1, s2);
    LeadsTrans(s, s2, t);
  }

  lemma {:induction false} CopyReads(s: State, data: seq<byte>, rest: seq<bool>) returns (t: State)
    requires s.mode == COPY && s.length == |data| && s.bits == BytesBits(data) + rest
    ensures Leads(s, t) && t == s.(mode := TYPE, bits := rest, length := 0, out := s.out + data)
    decreases |data|
  {
    hide Leads, Steps, Val, BitsOf, Pow2;
    if data == [] {
      assert s.bits == rest && s.out + data == s.out;
      t := s.(mode := TYPE);
      LeadsStep(s, t);
    } else {
      var b1 := BytesBits(data[1..]) + rest;
      assert s.bits == BitsOf(data[0], 8) + b1;
      Pow2Values();
      FieldRead(data[0], 8, b1);
      var s1 := s.(bits := b1, length := |data| - 1, out := s.out + [data[0]]);
      LeadsStep(s, s1);
      t := CopyReads(s1, data[1..], rest);
      LeadsTrans(s, s1, t);
      assert s.out + [data[0]] + data[1..] == s.out + data;
    }
  }

  lemma StoredReads(s: State, len: nat, rest: seq<bool>)
    requires s.mode == STORED && len < 0x10000 && |s.bits| % 8 == 0
    requires s.bits == BitsOf(len, 16) + BitsOf(0xffff - len, 16) + rest
    ensures Step(s) == Some(s.(mode := COPY, length := len, bits := rest))
  {
    hide Val, BitsOf, Pow2;
    Pow2Values();
    var x, y := BitsOf(len, 16), BitsOf(0xffff - len, 16);
    assert s.bits == x + (y + rest);
    FieldRead(len, 16, y + rest);
    FieldRead(0xffff - len, 16, rest);
    assert s.bits[..16] == (x + (y + rest))[..16];
    assert s.bits[16..32] == (y + rest)[..16];
  }

  /** Padding in the stream is exactly what the decoder drops. */
  lemma PaddingDropped(pos: nat, bits: seq<bool>, rest: seq<bool>)
    requires bits == Padding(pos) + rest && (pos + |bits|) % 8 == 0
    ensures |bits| % 8 == |Padding(pos)| && |rest| % 8 == 0
  {
    hide BitsOf;
    var p := (8 - pos % 8) % 8;
    assert |Padding(pos)| == p;
    assert (pos + p) % 8 == 0;
    assert |rest| % 8 == 0;
  }

  lemma AlignDecodes(s: State, pos: nat, rest: seq<bool>)
    requires s.mode == STORED && s.bits == Padding(pos) + rest && (pos + |s.bits|) % 8 == 0
    ensures |rest| % 8 == 0 && Leads(s, s.(bits := rest))
  {
    hide Leads, Steps, Padding, Val;
    PaddingDropped(pos, s.bits, rest);
    if |s.bits| % 8 == 0 {
      assert s.bits == rest;
      LeadsSelf(s);
    } else {
      LeadsStep(s, s.(bits := rest));
    }
  }

  lemma StoredBody(s: State, data: seq<byte>, pos: nat, rest: seq<bool>) returns (t: State)
    requires s.mode == STORED && |data| < 0x10000 && (pos + |s.bits|) % 8 == 0
    requires s.bits == Padding(pos) + (BitsOf(|data|, 16) + BitsOf(0xffff - |data|, 16) + (BytesBits(data) + rest))
    ensures Leads(s, t) && t.mode == TYPE && t.last == s.last && t.bits == rest && t.out == s.out + data
  {
    hide Leads, Steps, Step, Val, Padding, BitsOf, BytesBits;
    var b2 := BitsOf(|data|, 16) + BitsOf(0xffff - |data|, 16) + (BytesBits(data) + rest);
    AlignDecodes(s, pos, b2);
    var s2 := s.(bits := b2);
    StoredReads(s2, |data|, BytesBits(data) + rest);
    var s3 := s2.(mode := COPY, length := |data|, bits := BytesBits(data) + rest);
    LeadsStep(s2, s3);
    t := CopyReads(s3, data, rest);
    LeadsTrans(s, s2, s3);
    LeadsTrans(s, s3, t);
  }

  lemma StoredIs(data: seq<byte>, last: bool, pos: nat)
    requires |data| < 0x10000
    ensures BlockOk(Stored(data)) && BlockBits(Stored(data), last, pos) == StoredBits(data, last, pos)
  {
    hide StoredBits, DataBits, HeaderBits, HeaderOk, CodedTokens, FixedLens, FixedDists, ValidTokens;
  }

  lemma StoredShape(data: seq<byte>, last: bool, pos: nat, rest: seq<bool>)
    requires |data| < 0x10000
    ensures StoredBits(data, last, pos) + rest
         == [last, false,
             false] + (Padding(pos + 3) + (BitsOf(|data|, 16) + BitsOf(0xffff - |data|, 16) + (BytesBits(data) + rest)))
  {
    hide BitsOf, BytesBits, Padding;
  }

  lemma StoredDecodes(s: State, data: seq<byte>, last: bool, pos: nat, rest: seq<bool>) returns (t: State)
    requires s.mode == TYPE && !s.last && |data| < 0x10000 && (pos + |s.bits|) % 8 == 0
    requires s.bits == BlockBits(Stored(data), last, pos) + rest
    ensures Leads(s, t) && t.mode == TYPE && t.last == last && t.bits == rest && t.out == s.out + data
  {
    hide Leads, Step, Steps, Val, Padding, BitsOf, BytesBits, BlockBits, StoredBits;
    StoredIs(data, last, pos);
    StoredShape(data, last, pos, rest);
    var b1 := Padding(pos + 3) + (BitsOf(|data|, 16) + BitsOf(0xffff - |data|, 16) + (BytesBits(data) + rest));
    KindRead(s, last, false, false, b1);
    var s1 := s.(mode := STORED, last := last, bits := b1);
    LeadsStep(s, s1);
    assert pos + 3 + |b1| == pos + |s.bits|;
    t := StoredBody(s1, data, pos + 3, rest);
    LeadsTrans(s, s1, t);
  }

  /** Any block decodes to its contents, ending right where it ends. */
  lemma BlockDecodes(s: State, b: Block, last: bool, pos: nat, rest: seq<bool>) returns (t: State)
    requires s.mode == TYPE && !s.last && BlockOk(b) && BlockInReach(s.out, b) && (pos + |s.bits|) % 8 == 0
    requires s.bits == BlockBits(b, last, pos) + rest
    ensures Leads(s, t) && t.mode == TYPE && t.last == last && t.bits == rest && t.out == After(s.out, b)
  {
    hide Leads, DataBits, HeaderBits, Padding, HeaderOk, CodedTokens, Expand, InReach;
    match b
    case Stored(data) => t := StoredDecodes(s, data, last, pos, rest);
    case Fixed(ts) => t := FixedDecodes(s, ts, last, rest);
    case Dynamic(_, _, _, _, _) => t := DynamicDecodes(s, b, last, rest);
  }

  // ---------- streams ----------

  ghost predicate BlocksOk(bs: seq<Block>, out: seq<byte>)
    decreases |bs|
  {
    bs == [] || (BlockOk(bs[0]) && BlockInReach(out, bs[0]) && BlocksOk(bs[1..], After(out, bs[0])))
  }

  ghost function AfterAll(out: seq<byte>, bs: seq<Block>): seq<byte>
    decreases |bs|
  {
    if bs == [] then out else AfterAll(After(out, bs[0]), bs[1..])
  }

  /** The bits of blocks one after the other; only the last of all is marked so. */
  ghost function StreamBits(bs: seq<Block>, out: seq<byte>, pos: nat): seq<bool>
    requires BlocksOk(bs, out)
    decreases |bs|
  {
    if bs == [] then []
    else
      var b := BlockBits(bs[0], |bs| == 1, pos);
      b + StreamBits(bs[1..], After(out, bs[0]), pos + |b|)
  }

  lemma {:induction false} BlocksDecode(s: State, bs: seq<Block>, pos: nat, rest: seq<bool>) returns (t: State)
    requires s.mode == TYPE && !s.last && bs != [] && BlocksOk(bs, s.out) && (pos + |s.bits|) % 8 == 0
    requires s.bits == StreamBits(bs, s.out, pos) + rest
    ensures Leads(s, t) && t.mode == TYPE && t.last && t.bits == rest && t.out == AfterAll(s.out, bs)
    decreases |bs|
  {
    hide Leads, BlockBits, BlockOk, BlockInReach, After;
    var b := BlockBits(bs[0], |bs| == 1, pos);
    var b1 := StreamBits(bs[1..], After(s.out, bs[0]), pos + |b|) + rest;
    assert s.bits == b + b1;
    var s1 := BlockDecodes(s, bs[0], |bs| == 1, pos, b1);
    if |bs| == 1 {
      assert bs[1..] == [];
      assert b1 == rest;
      t := s1;
    } else {
      t := BlocksDecode(s1, bs[1..], pos + |b|, rest);
      LeadsTrans(s, s1, t);
    }
  }

  /** A whole stream, padded to bytes, decodes to its contents; what follows it is left alone. */
  lemma StreamDecodes(bs: seq<Block>, more: seq<byte>)
    requires bs != [] && BlocksOk(bs, [])
    ensures var bits := StreamBits(bs, [], 0);
            var t := Finish(Feed(InflateSpec.Start(), bits + Padding(|bits|) + BytesBits(more)));
            t.mode == DONE && t.out == AfterAll([], bs) && t.bits == BytesBits(more)
  {
    hide Leads, StreamBits, BlocksOk, AfterAll, Padding, BytesBits;
    var bits := StreamBits(bs, [], 0);
    var rest := Padding(|bits|) + BytesBits(more);
    var s := Feed(InflateSpec.Start(), bits + Padding(|bits|) + BytesBits(more));
    assert s.bits == bits + rest;
    PaddingLength(|bits|);
    assert (0 + |s.bits|) % 8 == 0;
    var t := BlocksDecode(s, bs, 0, rest);
    LeadsFinish(s, t);
    PaddingDropped(|bits|, rest, BytesBits(more));
    assert rest[|Padding(|bits|)|..] == BytesBits(more);
    var u := t.(mode := DONE, bits := BytesBits(more));
    assert Step(t) == Some(u);
    assert Step(u) == None;
    assert Finish(u) == u;
  }

  lemma PaddingLength(n: nat)
    ensures (n + |Padding(n)|) % 8 == 0 && |Padding(n)| < 8 && (n % 8 == 0 ==> |Padding(n)| == 0)
  {
    hide BitsOf;
  }
}
