/**
 What inflate does, without its buffers: a machine over the bits still to be
 decoded and the whole history of the output.  It takes one step per symbol, field
 or output byte, and codes are decoded by their definition, not by tables.
 */
module InflateSpec {
  import opened Bits
  import opened CanonicalCode
  import opened CodeTables
  import opened InfTrees
  import opened Tokens
  import opened FixedCode

  datatype Option<T> = None | Some(value: T)

  datatype Mode =
    | TYPE | STORED | COPY | TABLE | LENLENS | CODELENS
    | LEN | LENEXT | DIST | DISTEXT | MATCH | LIT | DONE | BAD

  datatype State = State(
    mode: Mode,
    last: bool,
    bits: seq<bool>,      // not yet decoded
    out: seq<byte>,       // everything written so far
    length: nat, offset: nat, extra: nat,
    nlen: nat, ndist: nat, ncode: nat,
    lens: seq<nat>,       // lengths read so far
    lencode: seq<nat>, distcode: seq<nat>)

  ghost function Start(): State {
    State(TYPE, false, [], [], 0, 0, 0, 0, 0, 0, [], [], [])
  }

  /** The n next bits as a number. */
  function Peek(s: State, n: nat): nat
    requires n <= |s.bits|
  {
    Val(s.bits[..n])
  }

  function Drop(s: State, n: nat): State
    requires n <= |s.bits|
  {
    s.(bits := s.bits[n..])
  }

  function Feed(s: State, more: seq<bool>): State {
    s.(bits := s.bits + more)
  }

  // ---------- decoding one symbol ----------

  datatype Decoded = Need | Symbol(sym: nat) | Invalid

  ghost predicate Matches(lens: seq<nat>, s: nat, bits: seq<bool>) {
    IsSymbol(lens, s) && CodeBits(lens, s) <= bits
  }

  /** The symbol whose code comes first; Invalid when no code starts with the next bit. */
  ghost function Decode(lens: seq<nat>, bits: seq<bool>): (r: Decoded)
    ensures r.Symbol? ==> Matches(lens, r.sym, bits)
    ensures r.Invalid? ==> bits != []
  {
    if exists s: nat :: Matches(lens, s, bits) then
      var s: nat :| Matches(lens, s, bits);
      Symbol(s)
    else if bits != [] && NoCode(lens, bits[0]) then Invalid
    else Need
  }

  lemma DecodeIs(lens: seq<nat>, bits: seq<bool>, s: nat)
    requires Fits(lens) && Matches(lens, s, bits)
    ensures Decode(lens, bits) == Symbol(s)
  {
    var t := Decode(lens, bits).sym;
    DecodeUnique(lens, s, t, bits);
  }

  // ---------- one step per mode ----------

  ghost function TypeStep(s: State): Option<State> {
    if s.last then Some(Drop(s, |s.bits| % 8).(mode := DONE))
    else if |s.bits| < 3 then None
    else
      var t := Drop(s, 3).(last := s.bits[0]);
      var kind := Val(s.bits[1..3]);
      if kind == 0 then Some(t.(mode := STORED))
      else if kind == 1 then Some(t.(mode := LEN, lencode := FixedLens(), distcode := FixedDists()))
      else if kind == 2 then Some(t.(mode := TABLE))
      else Some(t.(mode := BAD))
  }

  function StoredStep(s: State): Option<State> {
    if |s.bits| % 8 != 0 then Some(Drop(s, |s.bits| % 8))
    else if |s.bits| < 32 then None
    else
      var len, check := Val(s.bits[..16]), Val(s.bits[16..32]);
      if len + check != 0xffff then Some(Drop(s, 32).(mode := BAD))
      else Some(Drop(s, 32).(mode := COPY, length := len))
  }

  function CopyStep(s: State): Option<State> {
    if s.length == 0 then Some(s.(mode := TYPE))
    else if |s.bits| < 8 then None
    else Some(Drop(s, 8).(length := s.length - 1, out := s.out + [(Peek(s, 8) % 256) as byte]))
  }

  function TableStep(s: State): Option<State> {
    if |s.bits| < 14 then None
    else
      var nlen, ndist, ncode := Val(s.bits[..5]) + 257, Val(s.bits[5..10]) + 1, Val(s.bits[10..14]) + 4;
      var t := Drop(s, 14).(nlen := nlen, ndist := ndist, ncode := ncode, lens := []);
      if nlen > 286 || ndist > 30 then Some(t.(mode := BAD)) else Some(t.(mode := LENLENS))
  }

  /** Lengths of the code-length code are sent in three bits each. */
  ghost predicate ThreeBit(ls: seq<nat>) {
    forall i :: 0 <= i < |ls| ==> ls[i] < 8
  }

  /** Where each length of the code-length code is in the header. */
  function OrderOf(): (r: seq<nat>)
    ensures |r| == 19 && forall i :: 0 <= i < 19 ==> r[i] < 19
  {
    [16, 17, 18, 0, 8, 7, 9, 6, 10, 5, 11, 4, 12, 3, 13, 2, 14, 1, 15]
  }

  /** Which length stands at position `k`: first the repeats, then from the middle outwards. */
  function HeaderSymbol(k: nat): (s: nat)
    requires k < 19
    ensures s < 19
  {
    if k < 3 then 16 + k else if k == 3 then 0 else if k % 2 == 0 then 6 + k / 2 else 9 - k / 2
  }

  lemma OrderIs(k: nat)
    requires k < 19
    ensures OrderOf()[k] == HeaderSymbol(k)
  {
    if k < 10 {
      assert OrderOf()[k] == if k == 0 then 16 else if k == 1 then 17 else if k == 2 then 18 else if k == 3 then 0
                             else if k == 4 then 8 else if k == 5 then 7 else if k == 6 then 9 else if k == 7 then 6
                             else if k == 8 then 10 else 5;
    } else {
      assert OrderOf()[k] == if k == 10 then 11 else if k == 11 then 4 else if k == 12 then 12 else if k == 13 then 3
                             else if k == 14 then 13 else if k == 15 then 2 else if k == 16 then 14
                             else if k == 17 then 1 else 15;
    }
  }

  /** The header position of the length of symbol `s` of the code-length code. */
  function RankOf(s: nat): (r: nat)
    requires s < 19
    ensures r < 19 && OrderOf()[r] == s
  {
    [3, 17, 15, 13, 11, 9, 7, 5, 4, 6, 8, 10, 12, 14, 16, 18, 0, 1, 2][s]
  }

  /** Lengths of the code-length code, the ones not sent being 0. */
  function CodeLens(sent: seq<nat>): (r: seq<nat>)
    ensures |r| == 19 && forall s :: 0 <= s < 19 ==> r[s] == if RankOf(s) < |sent| then sent[RankOf(s)] else 0
  {
    seq(19, s requires 0 <= s < 19 => if RankOf(s) < |sent| then sent[RankOf(s)] else 0)
  }

  ghost function LenLensStep(s: State): Option<State> {
    if |s.lens| < s.ncode then
      if |s.bits| < 3 then None else Some(Drop(s, 3).(lens := s.lens + [Peek(s, 3)]))
    else
      if Acceptable(CODES, CodeLens(s.lens)) then Some(s.(mode := CODELENS, lencode := CodeLens(s.lens), lens := []))
      else Some(s.(mode := BAD))
  }

  /** `n` times `v`. */
  function Repeat(v: nat, n: nat): (r: seq<nat>)
    ensures |r| == n && forall i :: 0 <= i < n ==> r[i] == v
  {
    seq(n, _ => v)
  }

  /** A repeat code: `base` plus the next `n` bits times `v`. */
  function RepeatStep(s: State, used: nat, n: nat, base: nat, v: nat): Option<State>
    requires used <= |s.bits|
  {
    if |s.bits| < used + n then None
    else
      var copy := base + Val(s.bits[used..used + n]);
      var t := Drop(s, used + n);
      if |s.lens| + copy > s.nlen + s.ndist then Some(t.(mode := BAD))
      else Some(t.(lens := s.lens + Repeat(v, copy)))
  }

  ghost function CodeLensStep(s: State): Option<State> {
    if |s.lens| < s.nlen + s.ndist then
      match Decode(s.lencode, s.bits)
      case Need => None
      case Invalid => Some(Drop(s, 1).(lens := s.lens + [0]))   // only an empty code; its entry reads as length 0
      case Symbol(v) =>
        var used := s.lencode[v];
        if v < 16 then Some(Drop(s, used).(lens := s.lens + [v]))
        else if v == 16 then
          if |s.bits| < used + 2 then None
          else if s.lens == [] then Some(Drop(s, used + 2).(mode := BAD))
          else RepeatStep(s, used, 2, 3, s.lens[|s.lens| - 1])
        else if v == 17 then RepeatStep(s, used, 3, 3, 0)
        else RepeatStep(s, used, 7, 11, 0)
    else
      var l, d := s.lens[..Min(s.nlen, |s.lens|)], s.lens[Min(s.nlen, |s.lens|)..];
      if Acceptable(LENS, l) && Acceptable(DISTS, d) then Some(s.(mode := LEN, lencode := l, distcode := d))
      else Some(s.(mode := BAD))
  }

  ghost function LenStep(s: State): Option<State> {
    match Decode(s.lencode, s.bits)
    case Need => None
    case Invalid => Some(Drop(s, 1).(mode := BAD))
    case Symbol(v) =>
      var t := Drop(s, s.lencode[v]);
      if v < 256 then Some(t.(mode := LIT, length := v))
      else if v == 256 then Some(t.(mode := TYPE))
      else if v < 286 then Some(t.(mode := LENEXT, length := LenBase(v - 257), extra := LenExtra(v - 257)))
      else Some(t.(mode := BAD))
  }

  function LenExtStep(s: State): Option<State> {
    if |s.bits| < s.extra then None
    else Some(Drop(s, s.extra).(mode := DIST, length := s.length + Peek(s, s.extra)))
  }

  ghost function DistStep(s: State): Option<State> {
    match Decode(s.distcode, s.bits)
    case Need => None
    case Invalid => Some(Drop(s, 1).(mode := BAD))
    case Symbol(v) =>
      var t := Drop(s, s.distcode[v]);
      if v < 30 then Some(t.(mode := DISTEXT, offset := DistBase(v), extra := DistExtra(v)))
      else Some(t.(mode := BAD))
  }

  function DistExtStep(s: State): Option<State> {
    if |s.bits| < s.extra then None
    else
      var t := Drop(s, s.extra).(offset := s.offset + Peek(s, s.extra));
      if t.offset > |s.out| then Some(t.(mode := BAD)) else Some(t.(mode := MATCH))
  }

  /** One byte of a match; a match is never empty. */
  function MatchStep(s: State): State {
    s.(out := s.out + [Back(s.out, s.offset)],
       length := if s.length <= 1 then 0 else s.length - 1,
       mode := if s.length <= 1 then LEN else MATCH)
  }

  ghost function Step(s: State): (r: Option<State>) {
    match s.mode
    case TYPE => TypeStep(s)
    case STORED => StoredStep(s)
    case COPY => CopyStep(s)
    case TABLE => TableStep(s)
    case LENLENS => LenLensStep(s)
    case CODELENS => CodeLensStep(s)
    case LEN => LenStep(s)
    case LENEXT => LenExtStep(s)
    case DIST => DistStep(s)
    case DISTEXT => DistExtStep(s)
    case MATCH => Some(MatchStep(s))
    case LIT => Some(s.(mode := LEN, out := s.out + [(s.length % 256) as byte]))
    case DONE => None
    case BAD => None
  }
}
