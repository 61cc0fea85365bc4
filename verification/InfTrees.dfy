/**
 inflate_table: builds the two-level lookup table for a canonical code.
 The first half of this module says what a table must do and shows that the
 writes made for one symbol never disturb another; the second half is the
 routine itself.
 */
module InfTrees {
  import opened Bits
  import opened CanonicalCode
  import opened SortedSymbols
  import opened CodeTables

  datatype CodeType = CODES | LENS | DISTS

  /** A table entry: operation, bits to drop, value (inftrees.h). */
  datatype Entry = Entry(op: nat, bits: nat, val: nat)

  const ENOUGH := 2048
  const MAXD := 592

  /** Symbols each type of table can describe. */
  function SymbolLimit(kind: CodeType): nat {
    match kind case CODES => 19 case LENS => 288 case DISTS => 32
  }

  /** `op` for a symbol: 0 literal, 96 end of block, 16+e base with e extra bits, else invalid. */
  function OpOf(kind: CodeType, s: nat): nat {
    match kind
    case CODES => 0
    case LENS =>
      if s < 256 then 0
      else if s == 256 then 96
      else if s < 286 then 16 + LenExtra(s - 257)
      else if s == 286 then 201 else 196
    case DISTS => if s < 30 then 16 + DistExtra(s) else 64
  }

  function ValOf(kind: CodeType, s: nat): nat {
    match kind
    case CODES => s
    case LENS =>
      if s < 256 then s
      else if s == 256 then 0
      else if s < 286 then LenBase(s - 257)
      else 0
    case DISTS => if s < 30 then DistBase(s) else 0
  }

  function EntryFor(kind: CodeType, s: nat, bits: nat): Entry {
    Entry(OpOf(kind, s), bits, ValOf(kind, s))
  }

  /** The marker for bit strings that no code starts. */
  const INVALID := Entry(64, 1, 0)

  /** No code starts with the bit `b`. */
  ghost predicate NoCode(lens: seq<nat>, b: bool) {
    forall s :: 0 <= s < |lens| && IsSymbol(lens, s) ==> CodeBits(lens, s)[0] != b
  }

  /** Lengths that inflate_table takes: a complete code, no code at all, or, except for
      the code-length code, a single one-bit code. */
  ghost predicate Acceptable(kind: CodeType, lens: seq<nat>) {
    && Kraft(lens) <= Pow2(MAX_BITS)
    && (Kraft(lens) == Pow2(MAX_BITS) || AllUpTo(lens, if kind == CODES then 0 else 1))
  }

  ghost predicate AllUpTo(lens: seq<nat>, m: nat) {
    forall s :: 0 <= s < |lens| ==> lens[s] <= m
  }

  /** A link to a sub-table: `(op & 0xf0) == 0` and op is not zero. */
  predicate IsLink(e: Entry) {
    0 < e.op < 16
  }

  /** The code of a symbol as the low bits of the accumulator. */
  function Huff(lens: seq<nat>, s: nat): nat
    requires s < |lens|
  {
    Val(CodeBits(lens, s))
  }

  lemma HuffBound(lens: seq<nat>, s: nat)
    requires s < |lens|
    ensures Huff(lens, s) < Pow2(lens[s])
  {
    ValBound(CodeBits(lens, s));
  }

  /** Matching the low bits is matching a prefix of the stream. */
  lemma HuffMatch(lens: seq<nat>, s: nat, v: nat, n: nat)
    requires s < |lens| && lens[s] <= n
    ensures CodeBits(lens, s) <= BitsOf(v, n) <==> Low(v, lens[s]) == Huff(lens, s)
  {
    var l := lens[s];
    BitsOfPrefix(v, l, n);
    ValBitsOf(v, l);
    if CodeBits(lens, s) <= BitsOf(v, n) {
      assert CodeBits(lens, s) == BitsOf(v, n)[..l];
    }
    if Low(v, l) == Huff(lens, s) {
      ValInjective(CodeBits(lens, s), BitsOf(v, l));
    }
  }

  // ---------- what the table has to say about one symbol ----------

  /** The low `q` bits of index `k` are `h`. */
  predicate LowIs(k: nat, q: nat, h: nat) {
    Low(k, q) == h
  }

  /** In the table of `n` index bits at `base`, the indices ending in `h` hold `e`. */
  ghost predicate Filled(t: seq<Entry>, base: nat, n: nat, q: nat, h: nat, e: Entry)
    requires base + Pow2(n) <= |t|
  {
    forall k: nat :: k < Pow2(n) && LowIs(k, q, h) ==> t[base + k] == e
  }

  ghost predicate PlacedShort(kind: CodeType, lens: seq<nat>, root: nat, t: seq<Entry>, s: nat)
    requires IsSymbol(lens, s)
  {
    && Pow2(root) <= |t|
    && Filled(t, 0, root, lens[s], Huff(lens, s), EntryFor(kind, s, lens[s]))
  }

  /** Root index under which a long code is found. */
  function RootIndex(lens: seq<nat>, root: nat, s: nat): nat
    requires s < |lens|
  {
    Low(Huff(lens, s), root)
  }

  ghost predicate LinkOk(root: nat, t: seq<Entry>, e: Entry) {
    && 0 < e.op && root + e.op <= MAX_BITS && e.bits == root
    && Pow2(root) <= e.val && e.val + Pow2(e.op) <= |t|
  }

  ghost predicate PlacedLong(kind: CodeType, lens: seq<nat>, root: nat, t: seq<Entry>, s: nat)
    requires IsSymbol(lens, s) && root < lens[s]
  {
    var p := RootIndex(lens, root, s);
    && p < |t|
    && LinkOk(root, t, t[p])
    && lens[s] <= root + t[p].op
    && Filled(t, t[p].val, t[p].op, lens[s] - root, Shr(Huff(lens, s), root), EntryFor(kind, s, lens[s] - root))
  }

  ghost predicate Placed(kind: CodeType, lens: seq<nat>, root: nat, t: seq<Entry>, s: nat)
    requires IsSymbol(lens, s)
  {
    if lens[s] <= root then PlacedShort(kind, lens, root, t, s) else PlacedLong(kind, lens, root, t, s)
  }

  // ---------- filling every index whose low bits are `h` ----------

  ghost predicate FillRel(t: seq<Entry>, t': seq<Entry>, base: nat, h: nat, q: nat, curr: nat, e: Entry) {
    && |t'| == |t|
    && base + Pow2(curr) <= |t|
    && forall k :: 0 <= k < |t| ==>
         t'[k] == if base <= k < base + Pow2(curr) && LowIs(k - base, q, h) then e else t[k]
  }

  ghost predicate FillSoFar(t: seq<Entry>, t': seq<Entry>, base: nat, h: nat, q: nat, curr: nat, e: Entry, fill: nat) {
    && |t'| == |t|
    && forall k :: 0 <= k < |t| ==>
         t'[k] == if base + fill <= k < base + Pow2(curr) && LowIs(k - base, q, h) then e else t[k]
  }

  lemma FillStep(t: seq<Entry>, t': seq<Entry>, base: nat, h: nat, q: nat, curr: nat, e: Entry, m: nat)
    requires FillSoFar(t, t', base, h, q, curr, e, Shl(m + 1, q))
    requires h < Pow2(q) && base + Pow2(curr) <= |t| && Shl(m + 1, q) <= Pow2(curr)
    ensures base + h + Shl(m, q) < |t|
    ensures FillSoFar(t, t'[base + h + Shl(m, q) := e], base, h, q, curr, e, Shl(m, q))
  {
    ShlNext(m, q);
    var f := Shl(m, q);
    ShrLowUnique(h + f, q, m, h);
    forall x: nat | f <= x < Shl(m + 1, q) && LowIs(x, q, h) ensures x == h + f {
      ShrIsInterval(x, q, m);
      ShrLow(x, q);
    }
  }

  /** The do-while that replicates an entry over a (sub-)table. */
  method FillEntries(table: array<Entry>, base: nat, h: nat, q: nat, curr: nat, e: Entry)
    requires q <= curr && h < Pow2(q) && base + Pow2(curr) <= table.Length
    modifies table
    ensures FillRel(old(table[..]), table[..], base, h, q, curr, e)
  {
    ghost var t := table[..];
    var incr := Pow2(q);
    var fill := Pow2(curr);
    ghost var m := Pow2(curr - q);
    ShlPow2(curr - q, q);
    while fill != 0
      invariant fill == Shl(m, q) <= Pow2(curr)
      invariant FillSoFar(t, table[..], base, h, q, curr, e, fill)
    {
      ShlOne(q);
      ghost var t1 := table[..];
      m := m - 1;
      ShlNext(m, q);
      FillStep(t, t1, base, h, q, curr, e, m);
      fill := fill - incr;
      table[base + h + fill] := e;
      assert table[..] == t1[base + h + fill := e];
    }
  }

  // ---------- the writes for one symbol leave the others alone ----------

  /** Cutting a word in two places. */
  lemma {:induction false} LowSplit(v: nat, r: nat, q: nat)
    ensures Low(v, r + q) == Low(v, r) + Shl(Low(Shr(v, r), q), r)
  {
    if r > 0 {
      LowSplit(v / 2, r - 1, q);
    }
  }

  /** Two codes never match the same index. */
  lemma NoShare(lens: seq<nat>, s: nat, s': nat, v: nat, n: nat)
    requires Fits(lens) && IsSymbol(lens, s) && IsSymbol(lens, s') && lens[s] <= n && lens[s'] <= n
    requires LowIs(v, lens[s], Huff(lens, s)) && LowIs(v, lens[s'], Huff(lens, s'))
    ensures s == s'
  {
    HuffMatch(lens, s, v, n);
    HuffMatch(lens, s', v, n);
    DecodeUnique(lens, s, s', BitsOf(v, n));
  }

  /** No index matches both endings. */
  ghost predicate Apart(q: nat, h: nat, q': nat, h': nat) {
    forall k: nat :: !(LowIs(k, q, h) && LowIs(k, q', h'))
  }

  lemma FillKeeps(t: seq<Entry>, t': seq<Entry>, base: nat, n: nat, q: nat, h: nat, e: Entry, q': nat, h': nat,
      e': Entry)
    requires FillRel(t, t', base, h, q, n, e) && Apart(q, h, q', h')
    requires base + Pow2(n) <= |t| && Filled(t, base, n, q', h', e')
    ensures Filled(t', base, n, q', h', e')
  {
    forall k: nat | k < Pow2(n) && LowIs(k, q', h') ensures t'[base + k] == e' {
      assert (base + k) - base == k;
      assert !LowIs(k, q, h);
    }
  }

  lemma ShortKeepsShort(kind: CodeType, lens: seq<nat>, root: nat, t: seq<Entry>, t': seq<Entry>, s: nat, s': nat,
      e: Entry)
    requires Fits(lens) && IsSymbol(lens, s) && IsSymbol(lens, s') && s != s'
    requires lens[s] <= root && lens[s'] <= root
    requires PlacedShort(kind, lens, root, t, s')
    requires FillRel(t, t', 0, Huff(lens, s), lens[s], root, e)
    ensures PlacedShort(kind, lens, root, t', s')
  {
    forall k: nat | LowIs(k, lens[s], Huff(lens, s)) ensures !LowIs(k, lens[s'], Huff(lens, s')) {
      if LowIs(k, lens[s'], Huff(lens, s')) {
        NoShare(lens, s, s', k, root);
      }
    }
    FillKeeps(t, t', 0, root, lens[s], Huff(lens, s), e, lens[s'], Huff(lens, s'), EntryFor(kind, s', lens[s']));
  }

  lemma AboveKeepsShort(kind: CodeType, lens: seq<nat>, root: nat, t: seq<Entry>, t': seq<Entry>, s': nat)
    requires IsSymbol(lens, s') && lens[s'] <= root && PlacedShort(kind, lens, root, t, s')
    requires |t'| == |t| && forall k: nat :: k < Pow2(root) ==> t'[k] == t[k]
    ensures PlacedShort(kind, lens, root, t', s')
  {
  }

  /** A long code's two indices together are its code. */
  lemma HuffParts(lens: seq<nat>, root: nat, s: nat, v: nat)
    requires IsSymbol(lens, s) && root < lens[s]
    ensures LowIs(v, lens[s], Huff(lens, s)) <==>
            Low(v, root) == RootIndex(lens, root, s) && LowIs(Shr(v, root), lens[s] - root, Shr(Huff(lens, s), root))
  {
    var h, q := Huff(lens, s), lens[s] - root;
    HuffBound(lens, s);
    LowSplit(v, root, q);
    ShrLow(h, root);
    if Low(v, lens[s]) == h {
      ShrLowUnique(h, root, Low(Shr(v, root), q), Low(v, root));
    }
  }

  /** Within one sub-table two codes never match the same index. */
  lemma NoShareSub(lens: seq<nat>, root: nat, s: nat, s': nat, k: nat)
    requires Fits(lens) && IsSymbol(lens, s) && IsSymbol(lens, s') && root < lens[s] && root < lens[s']
    requires RootIndex(lens, root, s) == RootIndex(lens, root, s')
    requires LowIs(k, lens[s] - root, Shr(Huff(lens, s), root))
    requires LowIs(k, lens[s'] - root, Shr(Huff(lens, s'), root))
    ensures s == s'
  {
    var p := RootIndex(lens, root, s);
    var v := p + Shl(k, root);
    ShrLowUnique(v, root, k, p);
    HuffParts(lens, root, s, v);
    HuffParts(lens, root, s', v);
    NoShare(lens, s, s', v, MAX_BITS);
  }

  lemma SubKeepsSame(kind: CodeType, lens: seq<nat>, root: nat, t: seq<Entry>, t': seq<Entry>, s: nat, s': nat,
      curr: nat, next: nat, e: Entry)
    requires Fits(lens) && IsSymbol(lens, s) && IsSymbol(lens, s') && s != s' && root < lens[s] && root < lens[s']
    requires RootIndex(lens, root, s) == RootIndex(lens, root, s')
    requires PlacedLong(kind, lens, root, t, s') && t[RootIndex(lens, root, s')] == Entry(curr, root, next)
    requires FillRel(t, t', next, Shr(Huff(lens, s), root), lens[s] - root, curr, e)
    ensures PlacedLong(kind, lens, root, t', s')
  {
    var q, h, q', h' := lens[s] - root, Shr(Huff(lens, s), root), lens[s'] - root, Shr(Huff(lens, s'), root);
    forall k: nat | LowIs(k, q, h) ensures !LowIs(k, q', h') {
      if LowIs(k, q', h') {
        NoShareSub(lens, root, s, s', k);
      }
    }
    FillKeeps(t, t', next, curr, q, h, e, q', h', EntryFor(kind, s', q'));
  }

  lemma SubKeepsOther(kind: CodeType, lens: seq<nat>, root: nat, t: seq<Entry>, t': seq<Entry>, s': nat, next: nat)
    requires IsSymbol(lens, s') && root < lens[s'] && PlacedLong(kind, lens, root, t, s')
    requires |t'| == |t| && Pow2(root) <= next
    requires forall k: nat :: k < next && k < |t| ==> t'[k] == t[k]
    requires var e := t[RootIndex(lens, root, s')]; e.val + Pow2(e.op) <= next
    ensures PlacedLong(kind, lens, root, t', s')
  {
  }

  /** Writing the link for a new sub-table. */
  lemma LinkKeepsShort(kind: CodeType, lens: seq<nat>, root: nat, t: seq<Entry>, s: nat, s': nat, e: Entry)
    requires Fits(lens) && IsSymbol(lens, s) && IsSymbol(lens, s') && lens[s'] <= root < lens[s]
    requires PlacedShort(kind, lens, root, t, s')
    ensures RootIndex(lens, root, s) < |t|
    ensures PlacedShort(kind, lens, root, t[RootIndex(lens, root, s) := e], s')
  {
    var p := RootIndex(lens, root, s);
    if LowIs(p, lens[s'], Huff(lens, s')) {
      LowLow(Huff(lens, s), root, lens[s']);
      HuffBound(lens, s);
      LowSmall(Huff(lens, s), lens[s]);
      NoShare(lens, s, s', Huff(lens, s), MAX_BITS);
    }
  }

  lemma LinkKeepsLong(kind: CodeType, lens: seq<nat>, root: nat, t: seq<Entry>, p: nat, s': nat, e: Entry)
    requires IsSymbol(lens, s') && root < lens[s'] && PlacedLong(kind, lens, root, t, s')
    requires p < Pow2(root) <= |t| && p != RootIndex(lens, root, s')
    ensures PlacedLong(kind, lens, root, t[p := e], s')
  {
  }
}
