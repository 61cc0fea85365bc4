/** Reading one code in the slow path of inflate, pulling a byte only when it is needed. */
module GetCode {
  import opened Bits
  import opened CanonicalCode
  import opened InfTrees
  import opened InflateTable
  import opened InflateSpec
  import opened InflateRuns
  import opened TableDecode
  import opened BitReader

  /** The first k bits held are not a code yet, and at most a byte has come since. */
  ghost predicate Short(lens: seq<nat>, held: seq<bool>, k: nat) {
    k <= |held| <= k + 8 && Decode(lens, held[..k]) == Need
  }

  /** Fewer than eight bits are held, or they are not a code yet. */
  ghost predicate Slack(lens: seq<nat>, held: seq<bool>) {
    |held| < 8 || Decode(lens, held) == Need
  }

  lemma NothingNeeds(lens: seq<nat>)
    ensures Decode(lens, []) == Need
  {
  }

  lemma StartShort(lens: seq<nat>, held: seq<bool>) returns (k: nat)
    requires Slack(lens, held)
    ensures Short(lens, held, k)
  {
    hide Decode;
    if |held| < 8 {
      k := 0;
      assert held[..0] == [];
      NothingNeeds(lens);
    } else {
      k := |held|;
      assert held[..k] == held;
    }
  }

  lemma PrefixDecodes(lens: seq<nat>, held: seq<bool>, k: nat, s: nat)
    requires Matches(lens, s, held) && lens[s] <= k <= |held|
    ensures Decode(lens, held[..k]) != Need
  {
    hide CodeBits;
    assert Matches(lens, s, held[..k]);
  }

  /** What is left after a code is less than a byte. */
  lemma FewLeft(lens: seq<nat>, held: seq<bool>, k: nat)
    requires Fits(lens) && Short(lens, held, k) && Decode(lens, held) != Need
    ensures Decode(lens, held).Symbol? ==> |held| - lens[Decode(lens, held).sym] < 8
  {
    hide Fits, CodeBits;
    if Decode(lens, held).Symbol? {
      var s := Decode(lens, held).sym;
      if lens[s] <= k {
        PrefixDecodes(lens, held, k, s);
      }
    }
  }

  lemma InvalidLeft(lens: seq<nat>, held: seq<bool>, k: nat)
    requires Short(lens, held, k) && Decode(lens, held) == Invalid
    ensures |held| - 1 < 8
  {
    hide CodeBits, NoCode;
    forall s: nat ensures !Matches(lens, s, held[..k]) {
      NoMatchPrefix(lens, held, k, s);
    }
  }

  lemma NoMatchPrefix(lens: seq<nat>, held: seq<bool>, k: nat, s: nat)
    requires held != [] && NoCode(lens, held[0]) && k <= |held|
    ensures !Matches(lens, s, held[..k])
  {
    hide CodeBits;
    if k > 0 {
      NoMatch(lens, held[..k], s);
    }
  }

  /** The decoding of what comes next, as found in the table. */
  ghost predicate Got(kind: CodeType, lens: seq<nat>, stream: seq<bool>, rest: seq<bool>, e: Entry) {
    match Decode(lens, stream)
    case Need => false
    case Symbol(s) => s < |lens| && lens[s] <= |stream| && rest == stream[lens[s]..] && e.op == OpOf(kind,
        s) && e.val == ValOf(kind, s)
    case Invalid => |stream| >= 1 && rest == stream[1..] && e == INVALID
  }

  lemma GotIt(kind: CodeType, lens: seq<nat>, held: seq<bool>, more: seq<bool>, f: Found)
    requires Fits(lens) && Agrees(kind, lens, Decode(lens, held), f, |held|) && f.total <= |held|
    ensures Got(kind, lens, held + more, (held + more)[f.total..], f.entry)
  {
    hide Fits, Decode;
    DecodeFeed(lens, held, more);
  }

  lemma TotalLeft(kind: CodeType, lens: seq<nat>, held: seq<bool>, k: nat, f: Found)
    requires Fits(lens) && Short(lens, held, k) && Agrees(kind, lens, Decode(lens, held), f, |held|)
    requires f.total <= |held|
    ensures |held| - f.total < 8
  {
    hide Fits, Decode;
    FewLeft(lens, held, k);
    if Decode(lens, held) == Invalid {
      InvalidLeft(lens, held, k);
    }
  }

  /** All that is known about the table for the bits now held. */
  lemma Look(kind: CodeType, lens: seq<nat>, t: seq<Entry>, root: nat, hold: nat, bits: nat) returns (f: Found)
    requires TableOk(kind, lens, t, root)
    ensures LinkInside(t, root, hold) && f == Probe(t, root, hold)
    ensures Fits(lens) && Agrees(kind, lens, Decode(lens, BitsOf(hold, bits)), f, bits)
    ensures 1 <= t[Low(hold, root)].bits <= f.total <= MAX_BITS && 1 <= root <= MAX_BITS && f.total >= 1
    ensures IsLink(t[Low(hold, root)]) ==> t[Low(hold, root)].bits == root
    ensures f.total > bits <==> Decode(lens, BitsOf(hold, bits)) == Need
  {
    hide Fits, Decode, Probe, LinkInside, BitsOf, Low, OpOf, ValOf;
    ProbeDecodes(kind, lens, t, root, hold, bits);
    f := Probe(t, root, hold);
  }

  /** First level: pull bytes until the root entry's bits are there. */
  method FirstLevel(br: Reader, t: array<Entry>, root: nat, kind: CodeType, ghost lens: seq<nat>, ghost k0: nat)
    returns (ok: bool, e: Entry, ghost k: nat)
    requires br.Valid() && TableOk(kind, lens, t[..], root) && Short(lens, br.Held(), k0)
    modifies br`next, br`hold, br`bits
    ensures br.Valid() && br.Stream() == old(br.Stream()) && br.next >= old(br.next)
    ensures Short(lens, br.Held(), k) && 8 * (br.next - old(br.next)) == br.bits - old(br.bits)
    ensures ok ==> Pow2(root) <= t.Length && e == t[Low(br.hold, root)] && e.bits <= br.bits
    ensures !ok ==> br.next == |br.input| && Decode(lens, br.Held()) == Need
  {
    hide TableOk, Decode, BitsOf, BytesBits, Pow2, Low, Agrees, Probe, LinkInside, Short;
    k := k0;
    ghost var f := Look(kind, lens, t[..], root, br.hold, br.bits);
    assert Pow2(root) <= t.Length by { RootFits(kind, lens, t[..], root); }
    e := t[br.BitsAt(root)];
    while e.bits > br.bits
      invariant br.Valid() && br.Stream() == old(br.Stream()) && br.next >= old(br.next)
      invariant 8 * (br.next - old(br.next)) == br.bits - old(br.bits)
      invariant Short(lens, br.Held(), k) && e == t[Low(br.hold, root)] && LinkInside(t[..], root, br.hold)
      invariant f == Probe(t[..], root, br.hold)
      invariant e.bits <= f.total <= MAX_BITS && (f.total > br.bits <==> Decode(lens, br.Held()) == Need)
      decreases |br.input| - br.next
    {
      hide TableOk, Decode, BitsOf, BytesBits, Pow2, Low, Agrees, Probe, LinkInside, Short;
      if br.next == |br.input| {
        ok := false;
        return;
      }
      ghost var before := br.Held();
      br.PullByte();
      ShortAgain(lens, before, br.Held());
      k := |before|;
      f := Look(kind, lens, t[..], root, br.hold, br.bits);
      e := t[br.BitsAt(root)];
    }
    ok := true;
  }

  lemma RootFits(kind: CodeType, lens: seq<nat>, t: seq<Entry>, root: nat)
    requires TableOk(kind, lens, t, root)
    ensures Pow2(root) <= |t| && Fits(lens)
  {
  }

  lemma ShortAgain(lens: seq<nat>, before: seq<bool>, held: seq<bool>)
    requires before <= held && |held| == |before| + 8 && Decode(lens, before) == Need
    ensures Short(lens, held, |before|)
  {
    assert held[..|before|] == before;
  }

  /** Second level: pull bytes until the sub-table entry's bits are there, too. */
  method SecondLevel(br: Reader, t: array<Entry>, root: nat, kind: CodeType, link: Entry, ghost lens: seq<nat>,
      ghost k0: nat)
    returns (ok: bool, e: Entry, ghost k: nat)
    requires br.Valid() && TableOk(kind, lens, t[..], root) && Short(lens, br.Held(), k0)
    requires Pow2(root) <= t.Length && link == t[Low(br.hold, root)] && IsLink(link) && link.bits <= br.bits
    modifies br`next, br`hold, br`bits
    ensures br.Valid() && br.Stream() == old(br.Stream()) && br.next >= old(br.next)
    ensures Short(lens, br.Held(), k) && 8 * (br.next - old(br.next)) == br.bits - old(br.bits)
    ensures ok ==>
              && LinkInside(t[..], root, br.hold) && link.bits + e.bits <= br.bits
              && Probe(t[..], root, br.hold) == Found(e, link.bits + e.bits)
    ensures !ok ==> br.next == |br.input| && Decode(lens, br.Held()) == Need
  {
    hide TableOk, Decode, BitsOf, BytesBits, Pow2, Low, Shr, Agrees, LinkInside, Short, IsLink;
    k := k0;
    ghost var f := Look(kind, lens, t[..], root, br.hold, br.bits);
    LinkGives(t[..], root, br.hold, link);
    e := t[SubIndex(link, link.bits, br.hold)];
    while link.bits + e.bits > br.bits
      invariant br.Valid() && br.Stream() == old(br.Stream()) && br.next >= old(br.next)
      invariant 8 * (br.next - old(br.next)) == br.bits - old(br.bits)
      invariant Short(lens, br.Held(), k) && link == t[Low(br.hold, root)] && LinkInside(t[..], root, br.hold)
      invariant f == Probe(t[..], root, br.hold) == Found(e, link.bits + e.bits) && root <= br.bits
      invariant f.total <= MAX_BITS && (f.total > br.bits <==> Decode(lens, br.Held()) == Need)
      decreases |br.input| - br.next
    {
      hide TableOk, Decode, BitsOf, BytesBits, Pow2, Low, Shr, Agrees, LinkInside, Short, IsLink, Probe;
      if br.next == |br.input| {
        ok := false;
        return;
      }
      ghost var before, h := br.Held(), br.hold;
      br.PullByte();
      LowStays(h, br.hold, |before|, root);
      ShortAgain(lens, before, br.Held());
      k := |before|;
      f := Look(kind, lens, t[..], root, br.hold, br.bits);
      LinkGives(t[..], root, br.hold, link);
      e := t[SubIndex(link, link.bits, br.hold)];
    }
    ok := true;
  }

  lemma LinkGives(t: seq<Entry>, root: nat, hold: nat, link: Entry)
    requires LinkInside(t, root, hold) && link == t[Low(hold, root)] && IsLink(link) && link.bits == root
    ensures SubIndex(link, link.bits, hold) < |t|
    ensures Probe(t, root, hold)
            == Found(t[SubIndex(link, link.bits, hold)], link.bits + t[SubIndex(link, link.bits, hold)].bits)
  {
    hide Low, Shr, Pow2;
  }

  /** Bytes pulled do not change the low bits. */
  lemma LowStays(h: nat, h': nat, n: nat, root: nat)
    requires root <= n && BitsOf(h, n) <= BitsOf(h', n + 8)
    ensures Low(h', root) == Low(h, root)
  {
    hide Low, BitsOf;
    BitsOfPrefix(h, root, n);
    BitsOfPrefix(h', root, n + 8);
    assert BitsOf(h, n)[..root] == BitsOf(h', n + 8)[..root];
    ValBitsOf(h, root);
    ValBitsOf(h', root);
  }

  method FollowLink(br: Reader, t: array<Entry>, root: nat, kind: CodeType, last: Entry, ghost lens: seq<nat>,
      ghost k0: nat) returns (ok: bool, e: Entry)
    requires br.Valid() && TableOk(kind, lens, t[..], root) && Short(lens, br.Held(), k0)
    requires Pow2(root) <= t.Length && last == t[Low(br.hold, root)] && IsLink(last) && last.bits <= br.bits
    modifies br`next, br`hold, br`bits
    ensures br.Valid() && br.next >= old(br.next)
    ensures ok ==> Got(kind, lens, old(br.Stream()), br.Stream(), e) && br.bits < 8
    ensures !ok ==> br.Stream() == old(br.Stream()) && br.next == |br.input| && Decode(lens, br.Held()) == Need
  {
    hide TableOk, Decode, BitsOf, BytesBits, Pow2, Low, Shr, Agrees, LinkInside, Short, Got, Probe, IsLink, Fits;
    ghost var k;
    ok, e, k := SecondLevel(br, t, root, kind, last, lens, k0);
    if !ok {
      return;
    }
    ghost var f := Look(kind, lens, t[..], root, br.hold, br.bits);
    Complete(br, kind, lens, k, f);
    br.DropBits(last.bits);
    br.DropBits(e.bits);
  }

  /** One code of the literal/length or distance table; its bits are dropped when it is complete. */
  method GetSymbol(br: Reader, t: array<Entry>, root: nat, kind: CodeType, ghost lens: seq<nat>)
    returns (ok: bool, e: Entry)
    requires br.Valid() && TableOk(kind, lens, t[..], root) && Slack(lens, br.Held())
    modifies br`next, br`hold, br`bits
    ensures br.Valid() && br.next >= old(br.next)
    ensures ok ==> Got(kind, lens, old(br.Stream()), br.Stream(), e) && br.bits < 8
    ensures !ok ==> br.Stream() == old(br.Stream()) && br.next == |br.input| && Decode(lens, br.Held()) == Need
  {
    hide TableOk, Decode, BitsOf, BytesBits, Pow2, Low, Shr, Agrees, LinkInside, Short, Slack, Got, Probe, IsLink, Fits;
    ghost var k := StartShort(lens, br.Held());
    ok, e, k := FirstLevel(br, t, root, kind, lens, k);
    if !ok {
      return;
    }
    if IsLink(e) {
      ok, e := FollowLink(br, t, root, kind, e, lens, k);
    } else {
      ghost var f := Look(kind, lens, t[..], root, br.hold, br.bits);
      NoLink(t[..], root, br.hold);
      Complete(br, kind, lens, k, f);
      br.DropBits(e.bits);
    }
  }

  lemma NoLink(t: seq<Entry>, root: nat, hold: nat)
    requires LinkInside(t, root, hold) && !IsLink(t[Low(hold, root)])
    ensures Probe(t, root, hold) == Found(t[Low(hold, root)], t[Low(hold, root)].bits)
  {
  }

  /** The whole code is held: dropping it leaves the rest of the stream, and less than a byte held. */
  lemma Complete(br: Reader, kind: CodeType, lens: seq<nat>, k: nat, f: Found)
    requires br.Valid() && Fits(lens) && Short(lens, br.Held(), k) && f.total <= br.bits
    requires Agrees(kind, lens, Decode(lens, br.Held()), f, br.bits)
    ensures f.total <= |br.Stream()| && Got(kind, lens, br.Stream(), br.Stream()[f.total..], f.entry)
    ensures br.bits - f.total < 8
  {
    hide Fits, Decode, BitsOf, BytesBits, Agrees, Short, Got;
    GotIt(kind, lens, br.Held(), BytesBits(br.input[br.next..]), f);
    TotalLeft(kind, lens, br.Held(), k, f);
  }

  // ---------- the code-length code, whose table has one level ----------

  lemma OneLevel(lens: seq<nat>, t: seq<Entry>, root: nat, hold: nat, bits: nat) returns (f: Found)
    requires TableOk(CODES, lens, t, root) && AllUpTo(lens, root)
    ensures Pow2(root) <= |t| && f == Found(t[Low(hold, root)], t[Low(hold, root)].bits) && Fits(lens)
    ensures Agrees(CODES, lens, Decode(lens, BitsOf(hold, bits)), f, bits) && f.total <= MAX_BITS
    ensures f.total > bits <==> Decode(lens, BitsOf(hold, bits)) == Need
  {
    hide Fits, Decode, BitsOf, Low, OpOf, ValOf, Agrees, LooksUp, Pow2;
    f := Look(CODES, lens, t, root, hold, bits);
    var v := Low(hold, MAX_BITS);
    assert EntryOk(CODES, lens, t, root, v);
    LowLow(hold, MAX_BITS, root);
    if s: nat :| IsSymbol(lens, s) && LowIs(v, lens[s], Huff(lens, s)) && LooksUp(CODES, lens, t, root, v, s) {
      ProbeSymbol(CODES, lens, t, root, hold, s);
    }
    NoLink(t, root, hold);
  }

  /** The next symbol of the code-length code; its bits are not dropped yet. */
  method PeekCode(br: Reader, t: array<Entry>, root: nat, ghost lens: seq<nat>) returns (ok: bool, e: Entry)
    requires br.Valid() && TableOk(CODES, lens, t[..], root) && AllUpTo(lens, root)
    modifies br`next, br`hold, br`bits
    ensures br.Valid() && br.Stream() == old(br.Stream()) && br.next >= old(br.next)
    ensures ok ==>
              && Fits(lens) && Agrees(CODES, lens, Decode(lens, br.Held()), Found(e, e.bits), br.bits)
              && e.bits <= br.bits && e.bits <= MAX_BITS
    ensures old(br.Held()) <= br.Held() && (ok ==> br.bits == old(br.bits) || br.bits < e.bits + 8)
    ensures !ok ==> br.next == |br.input| && Decode(lens, br.Held()) == Need
  {
    hide TableOk, Decode, BitsOf, BytesBits, Pow2, Low, Agrees, AllUpTo, Fits;
    ghost var f := OneLevel(lens, t[..], root, br.hold, br.bits);
    e := t[br.BitsAt(root)];
    ghost var k: nat := 0;
    while e.bits > br.bits
      invariant br.Valid() && br.Stream() == old(br.Stream()) && br.next >= old(br.next)
      invariant Pow2(root) <= t.Length && e == t[Low(br.hold, root)] && f == Found(e, e.bits) && f.total <= MAX_BITS
      invariant Fits(lens)
      invariant Agrees(CODES, lens, Decode(lens, br.Held()), f, br.bits)
      invariant (f.total > br.bits <==> Decode(lens, br.Held()) == Need)
      invariant old(br.Held()) <= br.Held() && (br.bits == old(br.bits) || Short(lens, br.Held(), k))
      decreases |br.input| - br.next
    {
      hide TableOk, Decode, BitsOf, BytesBits, Pow2, Low, Agrees, AllUpTo, Fits, Short;
      if br.next == |br.input| {
        ok := false;
        return;
      }
      ghost var before := br.Held();
      br.PullByte();
      ShortAgain(lens, before, br.Held());
      k := |before|;
      f := OneLevel(lens, t[..], root, br.hold, br.bits);
      e := t[br.BitsAt(root)];
    }
    ok := true;
    if br.bits != old(br.bits) {
      TotalLeft(CODES, lens, br.Held(), k, f);
    }
  }

  // ---------- the fast path, which never has to wait ----------

  /** A stream longer than what is held has another byte. */
  lemma MoreInput(br: Reader)
    requires br.Valid() && |br.Stream()| > br.bits
    ensures br.next < |br.input| && |br.Stream()| >= br.bits + 8
  {
    assert |br.Stream()| == br.bits + 8 * |br.input[br.next..]|;
  }

  /** Two more bytes unless 15 bits are held. */
  method FillTwo(br: Reader)
    requires br.Valid() && |br.Stream()| >= 23 && br.bits <= 30
    modifies br`next, br`hold, br`bits
    ensures br.Valid() && br.Stream() == old(br.Stream()) && 15 <= br.bits <= 30 && br.next >= old(br.next)
  {
    hide BitsOf, BytesBits, Pow2;
    if br.bits < 15 {
      MoreInput(br);
      br.PullByte();
      MoreInput(br);
      br.PullByte();
    }
  }

  /** One byte at a time until `n` bits are held. */
  method FillTo(br: Reader, n: nat)
    requires br.Valid() && n <= |br.Stream()| && n <= 13 && br.bits <= 30
    modifies br`next, br`hold, br`bits
    ensures br.Valid() && br.Stream() == old(br.Stream()) && n <= br.bits <= 30 && br.next >= old(br.next)
  {
    hide BitsOf, BytesBits, Pow2;
    if br.bits < n {
      MoreInput(br);
      br.PullByte();
      if br.bits < n {
        MoreInput(br);
        br.PullByte();
      }
    }
  }

  /** A code when 15 bits are held: at most two lookups and no checks. */
  method FastSymbol(br: Reader, t: array<Entry>, root: nat, kind: CodeType, ghost lens: seq<nat>) returns (e: Entry)
    requires br.Valid() && TableOk(kind, lens, t[..], root) && br.bits >= 15
    modifies br`hold, br`bits
    ensures br.Valid() && Got(kind, lens, old(br.Stream()), br.Stream(), e)
    ensures old(br.bits) - 15 <= br.bits < old(br.bits)
    ensures br.bits - old(br.bits) == |br.Stream()| - |old(br.Stream())|
  {
    hide TableOk, Decode, BitsOf, BytesBits, Pow2, Low, Shr, Agrees, LinkInside, Got, Probe, IsLink, Fits;
    ghost var f := Look(kind, lens, t[..], root, br.hold, br.bits);
    RootFits(kind, lens, t[..], root);
    GotIt(kind, lens, br.Held(), BytesBits(br.input[br.next..]), f);
    e := t[br.BitsAt(root)];
    if IsLink(e) {
      LinkGives(t[..], root, br.hold, e);
      var link := e;
      assert Low(Shr(br.hold, link.bits), link.op) + link.val < t.Length;
      br.DropBits(link.bits);
      e := t[link.val + br.BitsAt(link.op)];
    } else {
      NoLink(t[..], root, br.hold);
    }
    br.DropBits(e.bits);
  }

  /** If what was held was not a code, the code used is longer. */
  lemma UsedMore(kind: CodeType, lens: seq<nat>, held: seq<bool>, stream: seq<bool>, rest: seq<bool>, e: Entry)
    requires held <= stream && Decode(lens, held) == Need && Got(kind, lens, stream, rest, e)
    ensures |stream| - |rest| > |held|
  {
    hide CodeBits, NoCode, OpOf, ValOf;
    match Decode(lens, stream)
    case Need =>
    case Symbol(s) =>
      if lens[s] <= |held| {
        assert held == stream[..|held|];
        PrefixDecodes(lens, stream, |held|, s);
      }
    case Invalid =>
      if held != [] {
        InvalidStart(lens, held);
      }
  }

  lemma InvalidStart(lens: seq<nat>, held: seq<bool>)
    requires held != [] && NoCode(lens, held[0])
    ensures Decode(lens, held) == Invalid
  {
    hide CodeBits, NoCode;
    forall u: nat ensures !Matches(lens, u, held) {
      NoMatch(lens, held, u);
    }
  }

  /** Bits that are not a code are fewer than fifteen. */
  lemma SlackBits(kind: CodeType, lens: seq<nat>, t: seq<Entry>, root: nat, hold: nat, bits: nat)
    requires TableOk(kind, lens, t, root) && Slack(lens, BitsOf(hold, bits))
    ensures bits <= 30
  {
    hide TableOk, Decode, BitsOf, Agrees, Probe;
    var f := Look(kind, lens, t, root, hold, bits);
  }
}
