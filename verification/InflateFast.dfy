/**
 inflate_fast: the same steps as the LEN to LIT modes without a check for input or room,
 because six bytes of input and 258 bytes of room are enough for any length and distance.
 */
module InflateFast {
  import opened Bits
  import opened CanonicalCode
  import opened CodeTables
  import opened InfTrees
  import opened InflateTable
  import opened Tokens
  import opened InflateSpec
  import opened InflateRuns
  import opened GetCode
  import opened InflateState
  import opened BitReader
  import opened OutWindow

  /** Bits a length and distance can take: 15 + 5 + 15 + 13. */
  const MOST_BITS := 48

  /** The registers and buffers stand for the machine. */
  ghost predicate Fast(br: Reader, ow: Output, lt: array<Entry>, lb: nat, dt: array<Entry>, db: nat, a: State)
    reads br, ow, ow.out, ow.window, lt, dt
  {
    Input(br, lt, lb, dt, db, a) && ow.Valid() && ow.All() == a.out
  }

  ghost predicate Input(br: Reader, lt: array<Entry>, lb: nat, dt: array<Entry>, db: nat, a: State)
    reads br, lt, dt
  {
    && br.Valid() && br.bits <= 30 && br.Stream() == a.bits && CodesFit(a)
    && TableOk(LENS, a.lencode, lt[..], lb) && TableOk(DISTS, a.distcode, dt[..], db)
  }

  /** A length or distance: its extra bits. */
  method FastExtra(br: Reader, n: nat) returns (v: nat)
    requires br.Valid() && br.bits <= 30 && n <= 13 && n <= |br.Stream()|
    modifies br`next, br`hold, br`bits
    ensures br.Valid() && br.bits <= 30 && |old(br.Stream())| >= n && v == Val(old(br.Stream())[..n]) && v < Pow2(n)
    ensures br.Stream() == old(br.Stream())[n..] && br.next >= old(br.next)
  {
    hide BitsOf, BytesBits, Pow2, Val, Low;
    FillTo(br, n);
    br.BitsAtIs(n);
    v := br.BitsAt(n);
    br.DropBits(n);
  }

  /** The literal/length code: where it goes, and its entry. */
  method FastLenCode(br: Reader, lt: array<Entry>, lb: nat, dt: array<Entry>, db: nat, ghost a: State)
      returns (e: Entry, ghost b: State)
    requires Input(br, lt, lb, dt, db, a) && a.mode == LEN && |a.bits| >= MOST_BITS
    modifies br`next, br`hold, br`bits
    ensures Input(br, lt, lb, dt, db, b) && Leads(a, b) && br.next >= old(br.next)
    ensures |a.bits| - 15 <= |b.bits| < |a.bits|
    ensures Decode(a.lencode, old(br.Held())) == Need ==> |a.bits| - |b.bits| > old(br.bits)
    ensures b == a.(mode := LenGoes(e.op), bits := b.bits, length := b.length, extra := b.extra)
    ensures b.mode in {LIT, LENEXT} ==> b.length == e.val
    ensures b.mode == LIT ==> e.val < 256
    ensures b.mode == LENEXT ==> b.extra == e.op % 16 <= 5 && 3 <= e.val && e.val + Pow2(e.op % 16) <= 259
  {
    hide CodesFit, TableOk, Step, Leads, Got, BitsOf, BytesBits, Pow2, HasBit, Decode;
    ghost var held := br.Held();
    FillTwo(br);
    e := FastSymbol(br, lt, lb, LENS, a.lencode);
    if Decode(a.lencode, held) == Need {
      UsedMore(LENS, a.lencode, held, a.bits, br.Stream(), e);
    }
    LenReads(a, br.Stream(), e);
    b := Step(a).value;
    LeadsStep(a, b);
    StepFits(a);
  }

  method FastDistCode(br: Reader, lt: array<Entry>, lb: nat, dt: array<Entry>, db: nat, ghost a: State)
      returns (e: Entry, ghost b: State)
    requires Input(br, lt, lb, dt, db, a) && a.mode == DIST && |a.bits| >= MOST_BITS - 20
    modifies br`next, br`hold, br`bits
    ensures Input(br, lt, lb, dt, db, b) && Leads(a, b) && br.next >= old(br.next)
    ensures |a.bits| - 15 <= |b.bits| < |a.bits|
    ensures b == a.(mode := if HasBit(e.op, 64) then BAD else DISTEXT, bits := b.bits, offset := b.offset,
            extra := b.extra)
    ensures b.mode == DISTEXT ==>
              b.offset == e.val && b.extra == e.op % 16 <= 13 && 1 <= e.val && e.val + Pow2(e.op % 16) <= WSIZE + 1
  {
    hide CodesFit, TableOk, Step, Leads, Got, BitsOf, BytesBits, Pow2, HasBit;
    FillTwo(br);
    e := FastSymbol(br, dt, db, DISTS, a.distcode);
    DistReads(a, br.Stream(), e);
    b := Step(a).value;
    LeadsStep(a, b);
    StepFits(a);
  }

  /** The rest of a length: its extra bits. */
  method FastLength(br: Reader, lt: array<Entry>, lb: nat, dt: array<Entry>, db: nat, base: nat, op: nat,
      ghost a: State) returns (len: nat, ghost b: State)
    requires Input(br, lt, lb, dt, db, a) && a.mode == LENEXT && |a.bits| >= MOST_BITS - 15
    requires base == a.length && op == a.extra <= 5 && 3 <= base && base + Pow2(op) <= 259
    modifies br`next, br`hold, br`bits
    ensures Input(br, lt, lb, dt, db, b) && Leads(a, b) && br.next >= old(br.next) && |b.bits| >= |a.bits| - 5
    ensures |b.bits| <= |a.bits|
    ensures b == a.(mode := DIST, bits := b.bits, length := len) && 3 <= len <= 258
  {
    hide CodesFit, TableOk, Step, Leads, BitsOf, BytesBits, Pow2, Val;
    ExtraReads(a);
    var v := FastExtra(br, op);
    len := base + v;
    b := Step(a).value;
    LeadsStep(a, b);
    StepFits(a);
  }

  /** The rest of a distance, which may turn out too far back. */
  method FastDistance(br: Reader, lt: array<Entry>, lb: nat, dt: array<Entry>, db: nat, base: nat, op: nat,
      ghost a: State) returns (dist: nat, ghost b: State)
    requires Input(br, lt, lb, dt, db, a) && a.mode == DISTEXT && |a.bits| >= MOST_BITS - 35
    requires base == a.offset && op == a.extra <= 13 && 1 <= base && base + Pow2(op) <= WSIZE + 1
    modifies br`next, br`hold, br`bits
    ensures Input(br, lt, lb, dt, db, b) && Leads(a, b) && br.next >= old(br.next) && |b.bits| <= |a.bits|
    ensures b == a.(mode := if dist > |a.out| then BAD else MATCH, bits := b.bits, offset := dist) && 1 <= dist <= WSIZE
  {
    hide CodesFit, TableOk, Step, Leads, BitsOf, BytesBits, Pow2, Val;
    ExtraReads(a);
    var v := FastExtra(br, op);
    dist := base + v;
    b := Step(a).value;
    LeadsStep(a, b);
    StepFits(a);
  }

  /** The copy of a match: in the window or the buffer, if not too far back. */
  method FastCopy(ow: Output, dist: nat, len: nat, ghost a: State) returns (ok: bool)
    requires ow.Valid() && ow.All() == a.out && 1 <= dist <= WSIZE && 3 <= len <= 258 && ow.put + len <= ow.out.Length
    modifies ow`put, ow.out
    ensures ow.Valid() && (ok <==> dist <= |a.out|)
    ensures if ok
            then ow.put == old(ow.put) + len && ow.All() == CopyMatch(a.out, dist, len)
            else ow.put == old(ow.put) && ow.All() == a.out
  {
    hide CopyMatch, WindowIs;
    ow.TooFarIs(dist);
    if dist > ow.put && dist - ow.put > ow.whave {
      ok := false;
    } else {
      ow.CopyFast(dist, len);
      ok := true;
    }
  }

  /** A distance code, its extra bits and the copy. */
  method FastMatch(br: Reader, ow: Output, lt: array<Entry>, lb: nat, dt: array<Entry>, db: nat, len: nat,
      ghost a: State) returns (mode: Mode, ghost b: State)
    requires Fast(br, ow, lt, lb, dt, db, a) && a.mode == DIST && |a.bits| >= MOST_BITS - 20
    requires len == a.length && 3 <= len <= 258 && ow.put + len <= ow.out.Length
    modifies br`next, br`hold, br`bits, ow`put, ow.out
    ensures Fast(br, ow, lt, lb, dt, db, b) && Leads(a, b) && mode == b.mode && mode in {LEN, BAD}
    ensures |b.bits| <= |a.bits|
    ensures ow.put <= old(ow.put) + 258 && br.next >= old(br.next) && b.last == a.last && b.lencode == a.lencode
    ensures b.distcode == a.distcode
  {
    hide Input, Leads, CopyMatch, WindowIs, Pow2, HasBit;
    var e, b1 := FastDistCode(br, lt, lb, dt, db, a);
    if HasBit(e.op, 64) {
      mode, b := BAD, b1;
      return;
    }
    var dist, b2 := FastDistance(br, lt, lb, dt, db, e.val, e.op % 16, b1);
    LeadsTrans(a, b1, b2);
    var ok := FastCopy(ow, dist, len, b2);
    if !ok {
      mode, b := BAD, b2;
      return;
    }
    MatchSteps(b2, len);
    b := Matched(b2, len);
    mode := LEN;
    LeadsTrans(a, b2, b);
    InputSame(br, lt, lb, dt, db, b2, b);
  }

  lemma InputSame(br: Reader, lt: array<Entry>, lb: nat, dt: array<Entry>, db: nat, a: State, b: State)
    requires Input(br, lt, lb, dt, db, a) && b.bits == a.bits && b.lencode == a.lencode && b.distcode == a.distcode
    requires b.lens == a.lens
    ensures Input(br, lt, lb, dt, db, b)
  {
    hide TableOk, Fits, BitsOf, BytesBits;
  }

  /** One turn of the loop: a literal, a match or the end. */
  method FastOne(br: Reader, ow: Output, lt: array<Entry>, lb: nat, dt: array<Entry>, db: nat, ghost a: State)
      returns (mode: Mode, ghost b: State)
    requires Fast(br, ow, lt, lb, dt, db, a) && a.mode == LEN && |a.bits| >= MOST_BITS && ow.put + 258 <= ow.out.Length
    modifies br`next, br`hold, br`bits, ow`put, ow.out
    ensures Fast(br, ow, lt, lb, dt, db, b) && Leads(a, b) && mode == b.mode && mode in {LEN, TYPE, BAD}
    ensures |b.bits| < |a.bits|
    ensures br.next >= old(br.next) && b.last == a.last && b.lencode == a.lencode && b.distcode == a.distcode
    ensures Decode(a.lencode, old(br.Held())) == Need ==> |a.bits| - |b.bits| > old(br.bits)
  {
    hide Input, Leads, WindowIs, Pow2, HasBit, Step, Decode;
    var e, b1 := FastLenCode(br, lt, lb, dt, db, a);
    mode := LenGoes(e.op);
    if mode == LIT {
      ow.PutByte(e.val as byte);
      b := b1.(mode := LEN, out := b1.out + [e.val as byte]);
      LiteralStep(b1, e.val);
      LeadsTrans(a, b1, b);
      InputSame(br, lt, lb, dt, db, b1, b);
      mode := LEN;
    } else if mode == LENEXT {
      mode, b := FastPair(br, ow, lt, lb, dt, db, e, b1);
      LeadsTrans(a, b1, b);
    } else {
      b := b1;
    }
  }

  lemma LiteralStep(a: State, v: nat)
    requires a.mode == LIT && v == a.length < 256
    ensures Leads(a, a.(mode := LEN, out := a.out + [v as byte]))
  {
    hide Step, Leads;
    StepCases(a);
    LeadsStep(a, a.(mode := LEN, out := a.out + [v as byte]));
  }

  /** A length and a distance. */
  method FastPair(br: Reader, ow: Output, lt: array<Entry>, lb: nat, dt: array<Entry>, db: nat, e: Entry,
      ghost a: State) returns (mode: Mode, ghost b: State)
    requires Fast(br, ow, lt, lb, dt, db, a) && a.mode == LENEXT && |a.bits| >= MOST_BITS - 15
    requires ow.put + 258 <= ow.out.Length
    requires e.val == a.length && e.op % 16 == a.extra <= 5 && 3 <= e.val && e.val + Pow2(e.op % 16) <= 259
    modifies br`next, br`hold, br`bits, ow`put, ow.out
    ensures Fast(br, ow, lt, lb, dt, db, b) && Leads(a, b) && mode == b.mode && mode in {LEN, BAD}
    ensures |b.bits| <= |a.bits|
    ensures br.next >= old(br.next) && b.last == a.last && b.lencode == a.lencode && b.distcode == a.distcode
  {
    hide Input, Leads, WindowIs, Pow2, HasBit, Step, Decode;
    var len, b2 := FastLength(br, lt, lb, dt, db, e.val, e.op % 16, a);
    mode, b := FastMatch(br, ow, lt, lb, dt, db, len, b2);
    LeadsTrans(a, b2, b);
  }

  /** Whole bytes still held are the last ones read. */
  lemma UnusedBytes(input: seq<byte>, next0: nat, s0: seq<bool>, hold: nat, bits: nat, next: nat, len: nat)
    requires next0 <= next <= |input| && hold < Pow2(bits) && Suffix(BytesBits(input[next0..]), s0)
    requires Suffix(BitsOf(hold, bits) + BytesBits(input[next..]), s0) && 8 * len <= bits && next0 + len <= next
    ensures Low(hold, bits - 8 * len) < Pow2(bits - 8 * len)
    ensures BitsOf(Low(hold, bits - 8 * len), bits - 8 * len) + BytesBits(input[next - len..])
            == BitsOf(hold, bits) + BytesBits(input[next..])
  {
    hide BitsOf, Low, Pow2, BytesBits;
    var m := bits - 8 * len;
    var s := BitsOf(hold, bits) + BytesBits(input[next..]);
    var t := BytesBits(input[next - len..]);
    SuffixOfBytes(input, next0, next - len);
    SuffixTrans(t, BytesBits(input[next0..]), s0);
    assert |s| == bits + 8 * (|input| - next) && |t| == 8 * (|input| - next) + 8 * len;
    assert t == s0[|s0| - |t|..] && s == s0[|s0| - |s|..];
    assert s[m..] == t;
    BitsOfLow(hold, m, m);
    BitsOfPrefix(hold, m, bits);
    assert s[..m] == BitsOf(hold, bits)[..m];
    assert s == s[..m] + s[m..];
  }

  lemma SuffixOfBytes(input: seq<byte>, i: nat, j: nat)
    requires i <= j <= |input|
    ensures Suffix(BytesBits(input[j..]), BytesBits(input[i..]))
  {
    hide BytesBits;
    assert input[i..] == input[i..j] + input[j..];
    BytesBitsAppend(input[i..j], input[j..]);
  }

  /** Give back the bytes that were not needed. */
  method ReturnBytes(br: Reader, ghost next0: nat, ghost bits0: nat, ghost s0: seq<bool>)
    requires br.Valid() && br.bits <= 30 && next0 <= br.next && |s0| == bits0 + 8 * (|br.input| - next0)
    requires Suffix(BytesBits(br.input[next0..]), s0) && Suffix(br.Stream(), s0)
    requires bits0 < 8 || |s0| - |br.Stream()| > bits0
    modifies br`next, br`hold, br`bits
    ensures br.Valid() && br.Stream() == old(br.Stream()) && br.bits < 8 && next0 <= br.next <= old(br.next)
  {
    hide BitsOf, BytesBits, Pow2, Low, Suffix;
    var len := br.bits / 8;
    assert |br.Stream()| == br.bits + 8 * (|br.input| - br.next);
    assert |br.Stream()| <= |s0| by { SuffixShorter(br.Stream(), s0); }
    Enough(next0, bits0, br.next, br.bits, |br.input|, |s0|);
    UnusedBytes(br.input, next0, s0, br.hold, br.bits, br.next, len);
    br.next := br.next - len;
    br.bits := br.bits - 8 * len;
    br.hold := Low(br.hold, br.bits);
  }

  lemma SuffixShorter(t: seq<bool>, s: seq<bool>)
    requires Suffix(t, s)
    ensures |t| <= |s|
  {
  }

  /** No byte is given back that was not read in this call. */
  lemma Enough(next0: nat, bits0: nat, next: nat, bits: nat, n: nat, total: nat)
    requires next0 <= next <= n && total == bits0 + 8 * (n - next0) && bits + 8 * (n - next) <= total
    requires bits0 < 8 || total - (bits + 8 * (n - next)) > bits0
    ensures next0 + bits / 8 <= next
  {
  }

  /** inflate_fast: no read past the input, no write past the room, and the machine's own steps. */
  method InflateFast(br: Reader, ow: Output, lt: array<Entry>, lb: nat, dt: array<Entry>, db: nat, ghost a: State)
      returns (mode: Mode, ghost b: State)
    requires Fast(br, ow, lt, lb, dt, db, a) && a.mode == LEN && Slack(a.lencode, br.Held())
    requires |br.input| - br.next >= 6 && ow.out.Length - ow.put >= 258
    modifies br`next, br`hold, br`bits, ow`put, ow.out
    ensures Fast(br, ow, lt, lb, dt, db, b) && Leads(a, b) && mode == b.mode && mode in {LEN, TYPE, BAD}
    ensures |b.bits| < |a.bits|
    ensures br.bits < 8 && br.next >= old(br.next) && b.last == a.last && b.lencode == a.lencode
    ensures b.distcode == a.distcode
  {
    hide Leads, WindowIs, Pow2, Step, Decode, BitsOf, BytesBits, CodesFit, TableOk, Suffix;
    mode, b := LEN, a;
    LeadsSelf(a);
    ghost var next0, bits0, h0 := br.next, br.bits, br.Held();
    assert |a.bits| == bits0 + 8 * (|br.input| - next0);
    var first := true;
    while first || (mode == LEN && |br.input| - br.next >= 6 && ow.out.Length - ow.put >= 258)
      invariant Fast(br, ow, lt, lb, dt, db, b) && Leads(a, b) && mode == b.mode && mode in {LEN, TYPE, BAD}
      invariant br.next >= next0
      invariant b.last == a.last && b.lencode == a.lencode && b.distcode == a.distcode
      invariant if first then b == a && mode == LEN && br.Held() == h0 && br.bits == bits0 && |br.input| - br.next >= 6
                && ow.out.Length - ow.put >= 258
                else |b.bits| < |a.bits| && (bits0 < 8 || |a.bits| - |b.bits| > bits0)
      decreases |b.bits|
    {
      hide Leads, WindowIs, Pow2, Step, Decode, BitsOf, BytesBits, CodesFit, TableOk, Fast, Suffix;
      StreamLength(br, ow, lt, lb, dt, db, b);
      ghost var c := b;
      mode, b := FastOne(br, ow, lt, lb, dt, db, b);
      LeadsTrans(a, c, b);
      first := false;
    }
    LeadsSuffix(a, b);
    BytesAtEnd(h0, br.input, next0);
    ReturnBytes(br, next0, bits0, a.bits);
  }

  lemma StreamLength(br: Reader, ow: Output, lt: array<Entry>, lb: nat, dt: array<Entry>, db: nat, b: State)
    requires Fast(br, ow, lt, lb, dt, db, b)
    ensures br.next <= |br.input| && |b.bits| == br.bits + 8 * (|br.input| - br.next)
  {
    hide BitsOf, BytesBits, CodesFit, TableOk;
  }

  lemma BytesAtEnd(held: seq<bool>, input: seq<byte>, next: nat)
    requires next <= |input|
    ensures Suffix(BytesBits(input[next..]), held + BytesBits(input[next..]))
  {
    hide BytesBits;
  }
}
