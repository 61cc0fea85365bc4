/** Looking a code up in a table is decoding it. */
module TableDecode {
  import opened Bits
  import opened CanonicalCode
  import opened InfTrees
  import opened InflateTable
  import opened InflateSpec
  import opened InflateRuns

  /** The entry found, through a link if there is one, and the bits it would drop in all. */
  datatype Found = Found(entry: Entry, total: nat)

  function SubIndex(e: Entry, root: nat, hold: nat): nat {
    e.val + Low(Shr(hold, root), e.op)
  }

  ghost predicate LinkInside(t: seq<Entry>, root: nat, hold: nat) {
    Pow2(root) <= |t| && (IsLink(t[Low(hold, root)]) ==> SubIndex(t[Low(hold, root)], root, hold) < |t|)
  }

  function Probe(t: seq<Entry>, root: nat, hold: nat): Found
    requires LinkInside(t, root, hold)
  {
    var e := t[Low(hold, root)];
    if IsLink(e) then
      var f := t[SubIndex(e, root, hold)];
      Found(f, e.bits + f.bits)
    else Found(e, e.bits)
  }

  /** Entries of symbols are not links. */
  lemma EntryNoLink(kind: CodeType, s: nat, bits: nat)
    ensures !IsLink(EntryFor(kind, s, bits))
  {
  }

  lemma ProbeShort(kind: CodeType, t: seq<Entry>, root: nat, hold: nat, s: nat, len: nat)
    requires Pow2(root) <= |t| && t[Low(hold, root)] == EntryFor(kind, s, len)
    ensures LinkInside(t, root, hold) && Probe(t, root, hold) == Found(EntryFor(kind, s, len), len)
  {
    hide Low, Shr, Pow2, EntryFor;
    EntryNoLink(kind, s, len);
    assert EntryFor(kind, s, len).bits == len by { EntryBits(kind, s, len); }
  }

  lemma EntryBits(kind: CodeType, s: nat, len: nat)
    ensures EntryFor(kind, s, len).bits == len && EntryFor(kind, s, len).op == OpOf(kind, s)
    ensures EntryFor(kind, s, len).val == ValOf(kind, s)
  {
  }

  lemma ProbeLong(kind: CodeType, t: seq<Entry>, root: nat, hold: nat, s: nat, len: nat)
    requires Pow2(root) <= |t| && root < len <= MAX_BITS
    requires LinkOk(root, t, t[Low(hold, root)]) && SubIndex(t[Low(hold, root)], root, hold) < |t|
    requires t[SubIndex(t[Low(hold, root)], root, hold)] == EntryFor(kind, s, len - root)
    ensures LinkInside(t, root, hold) && IsLink(t[Low(hold, root)])
    ensures Probe(t, root, hold) == Found(EntryFor(kind, s, len - root), len)
  {
    hide Low, Shr, Pow2, EntryFor;
    EntryBits(kind, s, len - root);
  }

  /** What the table finds for the symbol whose code comes first. */
  lemma ProbeSymbol(kind: CodeType, lens: seq<nat>, t: seq<Entry>, root: nat, hold: nat, s: nat)
    requires 1 <= root <= MAX_BITS && Pow2(root) <= |t| && IsSymbol(lens, s)
    requires LooksUp(kind, lens, t, root, Low(hold, MAX_BITS), s)
    ensures LinkInside(t, root, hold)
    ensures Probe(t, root, hold).total == lens[s]
    ensures Probe(t, root, hold).entry.op == OpOf(kind, s) && Probe(t, root, hold).entry.val == ValOf(kind, s)
    ensures t[Low(hold, root)].bits == if lens[s] <= root then lens[s] else root
    ensures lens[s] > root <==> IsLink(t[Low(hold, root)])
  {
    hide Low, Shr, Pow2, OpOf, ValOf, EntryFor, Probe, LinkInside;
    LowLow(hold, MAX_BITS, root);
    var e := t[Low(hold, root)];
    if lens[s] <= root {
      ProbeShort(kind, t, root, hold, s, lens[s]);
      EntryNoLink(kind, s, lens[s]);
      EntryBits(kind, s, lens[s]);
    } else {
      LowShrLow(hold, MAX_BITS, root, e.op);
      ProbeLong(kind, t, root, hold, s, lens[s]);
      EntryBits(kind, s, lens[s] - root);
    }
  }

  /** The table's answer is the decoding of the bits held, if there are enough of them. */
  ghost predicate Agrees(kind: CodeType, lens: seq<nat>, d: Decoded, f: Found, bits: nat) {
    match d
    case Need => f.total > bits
    case Symbol(s) => s < |lens| && f.total == lens[s] <= bits && f.entry.op == OpOf(kind,
        s) && f.entry.val == ValOf(kind, s)
    case Invalid => f.total == 1 <= bits && f.entry == INVALID
  }

  lemma SymbolAgrees(kind: CodeType, lens: seq<nat>, hold: nat, bits: nat, s: nat, f: Found)
    requires Fits(lens) && IsSymbol(lens, s) && LowIs(Low(hold, MAX_BITS), lens[s], Huff(lens, s))
    requires f.total == lens[s] && f.entry.op == OpOf(kind, s) && f.entry.val == ValOf(kind, s)
    ensures Agrees(kind, lens, Decode(lens, BitsOf(hold, bits)), f, bits)
  {
    hide Fits, Low, Huff, OpOf, ValOf, BitsOf, CodeBits, Decode;
    LowLow(hold, MAX_BITS, lens[s]);
    var held := BitsOf(hold, bits);
    if lens[s] <= bits {
      HuffMatch(lens, s, hold, bits);
      DecodeIs(lens, held, s);
    } else {
      NotYet(lens, hold, bits, s);
    }
  }

  /** Part of a code decodes to nothing. */
  lemma NotYet(lens: seq<nat>, hold: nat, bits: nat, s: nat)
    requires Fits(lens) && IsSymbol(lens, s) && bits < lens[s] && Low(hold, lens[s]) == Huff(lens, s)
    ensures Decode(lens, BitsOf(hold, bits)) == Need
  {
    hide Fits, Low, Huff, BitsOf, CodeBits;
    var held := BitsOf(hold, bits);
    HuffMatch(lens, s, hold, lens[s]);
    BitsOfPrefix(hold, bits, lens[s]);
    var code := CodeBits(lens, s);
    assert code == BitsOf(hold, lens[s]);
    assert held == code[..bits];
    forall u: nat ensures !Matches(lens, u, held) {
      if Matches(lens, u, held) {
        assert CodeBits(lens, u) <= code;
        DecodeUnique(lens, u, s, code);
      }
    }
    if held != [] {
      assert held[0] == code[0];
      assert !NoCode(lens, held[0]);
    }
  }

  lemma LowParity(hold: nat)
    ensures Low(hold, MAX_BITS) % 2 == hold % 2
  {
    assert Low(hold, MAX_BITS) == hold % 2 + 2 * Low(hold / 2, MAX_BITS - 1);
  }

  lemma InvalidAgrees(kind: CodeType, lens: seq<nat>, hold: nat, bits: nat, f: Found)
    requires NoCode(lens, Low(hold, MAX_BITS) % 2 == 1) && f.total == 1 && f.entry == INVALID
    ensures Agrees(kind, lens, Decode(lens, BitsOf(hold, bits)), f, bits)
  {
    hide CodeBits, NoCode, Low;
    var held := BitsOf(hold, bits);
    LowParity(hold);
    if bits >= 1 {
      assert held[0] == (hold % 2 == 1);
      forall u: nat ensures !Matches(lens, u, held) {
        NoMatch(lens, held, u);
      }
    } else {
      forall u: nat ensures !Matches(lens, u, held) {
      }
    }
  }

  /** Table decoding is canonical decoding, for every accumulator and however few bits it holds. */
  lemma ProbeDecodes(kind: CodeType, lens: seq<nat>, t: seq<Entry>, root: nat, hold: nat, bits: nat)
    requires TableOk(kind, lens, t, root)
    ensures LinkInside(t, root, hold)
    ensures Agrees(kind, lens, Decode(lens, BitsOf(hold, bits)), Probe(t, root, hold), bits)
    ensures 1 <= t[Low(hold, root)].bits <= Probe(t, root, hold).total <= MAX_BITS
    ensures IsLink(t[Low(hold, root)]) ==> t[Low(hold, root)].bits == root
  {
    hide Fits, LooksUp, BitsOf, Decode, Agrees, Probe, LinkInside, Pow2, Low, Huff, NoCode;
    var v := Low(hold, MAX_BITS);
    assert EntryOk(kind, lens, t, root, v);
    if s: nat :| IsSymbol(lens, s) && LowIs(v, lens[s], Huff(lens, s)) && LooksUp(kind, lens, t, root, v, s) {
      ProbeSymbol(kind, lens, t, root, hold, s);
      SymbolAgrees(kind, lens, hold, bits, s, Probe(t, root, hold));
    } else {
      LowLow(hold, MAX_BITS, root);
      ProbeInvalid(t, root, hold);
      InvalidAgrees(kind, lens, hold, bits, Probe(t, root, hold));
    }
  }

  lemma ProbeInvalid(t: seq<Entry>, root: nat, hold: nat)
    requires Pow2(root) <= |t| && t[Low(hold, root)] == INVALID
    ensures LinkInside(t, root, hold) && Probe(t, root, hold) == Found(INVALID, 1)
  {
  }
}
