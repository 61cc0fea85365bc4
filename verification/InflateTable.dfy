/**
 The routine inflate_table: checks a set of code lengths and fills the lookup
 table, with the guarantee that looking up any accumulator contents in the
 finished table is decoding by the canonical code.
 */
module InflateTable {
  import opened Bits
  import opened CanonicalCode
  import opened SortedSymbols
  import opened InfTrees
  import opened TableCells
  import opened TableSpace

  // ---------- what a finished table guarantees ----------

  /** Looking up `v` yields symbol `s`, dropping exactly its code. */
  ghost predicate LooksUp(kind: CodeType, lens: seq<nat>, t: seq<Entry>, root: nat, v: nat, s: nat)
    requires IsSymbol(lens, s) && Pow2(root) <= |t|
  {
    var e := t[Low(v, root)];
    if lens[s] <= root then e == EntryFor(kind, s, lens[s])
    else
      && LinkOk(root, t, e)
      && e.val + Low(Shr(v, root), e.op) < |t|
      && t[e.val + Low(Shr(v, root), e.op)] == EntryFor(kind, s, lens[s] - root)
  }

  ghost predicate EntryOk(kind: CodeType, lens: seq<nat>, t: seq<Entry>, root: nat, v: nat)
    requires Pow2(root) <= |t|
  {
    || (exists s: nat :: IsSymbol(lens, s) && LowIs(v, lens[s], Huff(lens, s)) && LooksUp(kind, lens, t, root, v, s))
    || (NoCode(lens, v % 2 == 1) && t[Low(v, root)] == INVALID)
  }

  /** For every accumulator contents the table gives the symbol whose code comes
      first, or the invalid marker where no code starts with the next bit. */
  ghost predicate TableOk(kind: CodeType, lens: seq<nat>, t: seq<Entry>, root: nat) {
    && Fits(lens) && 1 <= root <= MAX_BITS && Pow2(root) <= |t|
    && forall v: nat :: v < Pow2(MAX_BITS) ==> EntryOk(kind, lens, t, root, v)
  }

  /** A symbol with its entries in place is found from any matching word. */
  lemma PlacedLooksUp(kind: CodeType, lens: seq<nat>, t: seq<Entry>, root: nat, v: nat, s: nat)
    requires IsSymbol(lens, s) && Pow2(root) <= |t| && Placed(kind, lens, root, t, s)
    requires LowIs(v, lens[s], Huff(lens, s))
    ensures LooksUp(kind, lens, t, root, v, s)
  {
    hide Huff, Shr, Low, Pow2;
    if lens[s] <= root {
      LowLow(v, root, lens[s]);
      assert LowIs(Low(v, root), lens[s], Huff(lens, s));
    } else {
      HuffParts(lens, root, s, v);
      var e := t[Low(v, root)];
      var k := Low(Shr(v, root), e.op);
      LowLow(Shr(v, root), e.op, lens[s] - root);
      assert LowIs(k, lens[s] - root, Shr(Huff(lens, s), root));
    }
  }

  ghost predicate AllPlaced(kind: CodeType, lens: seq<nat>, root: nat, t: seq<Entry>, work: seq<nat>, i: nat) {
    && i <= |work| && Pow2(root) <= |t|
    && forall j :: 0 <= j < i ==> IsSymbol(lens, work[j]) && Placed(kind, lens, root, t, work[j])
  }

  /** With every symbol of a complete code placed, the table is right. */
  lemma CompleteTable(kind: CodeType, lens: seq<nat>, root: nat, t: seq<Entry>, work: seq<nat>)
    requires Complete(lens) && Sorted(lens, work) && 1 <= root <= MAX_BITS
    requires AllPlaced(kind, lens, root, t, work, |work|)
    ensures TableOk(kind, lens, t, root)
  {
    hide Kraft, Huff, Placed, LooksUp, Pow2, Sorted;
    forall v: nat | v < Pow2(MAX_BITS) ensures EntryOk(kind, lens, t, root, v) {
      var s := DecodeTotal(lens, BitsOf(v, MAX_BITS));
      HuffMatch(lens, s, v, MAX_BITS);
      SortedPlace(lens, work, s);
      PlacedLooksUp(kind, lens, t, root, v, s);
    }
  }

  // ---------- where the loop is ----------

  /** Sub-tables of earlier cells lie below `next`. */
  ghost predicate LinksBelow(lens: seq<nat>, root: nat, work: seq<nat>, t: seq<Entry>, i: nat, next: nat, low: int)
    requires i <= |work|
  {
    forall j ::
      0 <= j < i && IsSymbol(lens, work[j]) && root < lens[work[j]] && RootIndex(lens, root, work[j]) != low ==>
      var p := RootIndex(lens, root, work[j]);
      p < |t| && t[p].val + Pow2(t[p].op) <= next
  }

  /** The sub-table in use is the one of work[i]'s cell. */
  ghost predicate InSub(lens: seq<nat>, root: nat, max: nat, work: seq<nat>, t: seq<Entry>, i: nat, next: nat,
      curr: nat, low: int) {
    && i < |work| && IsSymbol(lens, work[i]) && root < lens[work[i]] <= root + curr <= max <= MAX_BITS
    && low == RootIndex(lens, root, work[i]) < |t|
    && t[low] == Entry(curr, root, next)
    && Pow2(root) <= next && next + Pow2(curr) <= |t|
    && CellBound(lens, root, max, curr, work[i])
    && LinksBelow(lens, root, work, t, i, next, low)
  }

  /** Still in the root table. */
  ghost predicate InRoot(lens: seq<nat>, root: nat, work: seq<nat>, i: nat, next: nat, curr: nat, low: int) {
    && i < |work| && IsSymbol(lens, work[i]) && lens[work[i]] <= root
    && next == 0 && curr == root && low == -1
  }

  ghost predicate At(lens: seq<nat>, root: nat, max: nat, work: seq<nat>, t: seq<Entry>, i: nat, next: nat, curr: nat,
      low: int) {
    if i < |work| && work[i] < |lens| && lens[work[i]] <= root
    then InRoot(lens, root, work, i, next, curr, low)
    else InSub(lens, root, max, work, t, i, next, curr, low)
  }

  // ---------- entering one symbol ----------

  lemma EnterShort(kind: CodeType, lens: seq<nat>, root: nat, work: seq<nat>, t: seq<Entry>, t': seq<Entry>, i: nat)
    requires Fits(lens) && Sorted(lens, work) && i < |work| && lens[work[i]] <= root
    requires AllPlaced(kind, lens, root, t, work, i)
    requires FillRel(t, t', 0, Huff(lens, work[i]), lens[work[i]], root, EntryFor(kind, work[i], lens[work[i]]))
    ensures AllPlaced(kind, lens, root, t', work, i + 1)
  {
    hide Kraft, Huff, Pow2, PlacedLong, PlacedShort, EntryFor, FillRel, Rank, Offs;
    var s := work[i];
    forall j | 0 <= j < i ensures Placed(kind, lens, root, t', work[j]) {
      SortedOrder(lens, work, j, i);
      ShortKeepsShort(kind, lens, root, t, t', s, work[j], EntryFor(kind, s, lens[s]));
    }
    FillPlaces(t, t', 0, Huff(lens, s), lens[s], root, EntryFor(kind, s, lens[s]));
    assert PlacedShort(kind, lens, root, t', s) by {
      PlacedShortIntro(kind, lens, root, t', s);
    }
  }

  lemma FillPlaces(t: seq<Entry>, t': seq<Entry>, base: nat, h: nat, q: nat, curr: nat, e: Entry)
    requires FillRel(t, t', base, h, q, curr, e)
    ensures |t'| == |t| && base + Pow2(curr) <= |t'| && Filled(t', base, curr, q, h, e)
    ensures forall k: nat :: k < base ==> t'[k] == t[k]
  {
    forall k: nat | k < Pow2(curr) && LowIs(k, q, h) ensures t'[base + k] == e {
      assert (base + k) - base == k;
    }
  }

  lemma PlacedShortIntro(kind: CodeType, lens: seq<nat>, root: nat, t: seq<Entry>, s: nat)
    requires IsSymbol(lens, s) && Pow2(root) <= |t|
    requires Filled(t, 0, root, lens[s], Huff(lens, s), EntryFor(kind, s, lens[s]))
    ensures PlacedShort(kind, lens, root, t, s)
  {
  }

  /** What entering work[i] in the current sub-table does to an earlier symbol. */
  lemma EnterLongKeeps(kind: CodeType, lens: seq<nat>, root: nat, max: nat, work: seq<nat>, t: seq<Entry>,
      t': seq<Entry>, i: nat, j: nat, next: nat, curr: nat, low: int)
    requires Fits(lens) && Sorted(lens, work) && j < i < |work| && root < lens[work[i]]
    requires InSub(lens, root, max, work, t, i, next, curr, low)
    requires Placed(kind, lens, root, t, work[j])
    requires FillRel(t, t', next, Shr(Huff(lens, work[i]), root), lens[work[i]] - root, curr,
            EntryFor(kind, work[i], lens[work[i]] - root))
    ensures Placed(kind, lens, root, t', work[j])
  {
    hide Kraft, Huff, Pow2, EntryFor, FillRel, Rank, Offs, PlacedLong, PlacedShort, CellBound;
    var s, s' := work[i], work[j];
    SortedOrder(lens, work, j, i);
    var e := EntryFor(kind, s, lens[s] - root);
    FillPlaces(t, t', next, Shr(Huff(lens, s), root), lens[s] - root, curr, e);
    if lens[s'] <= root {
      AboveKeepsShort(kind, lens, root, t, t', s');
    } else if RootIndex(lens, root, s') == low {
      SubKeepsSame(kind, lens, root, t, t', s, s', curr, next, e);
    } else {
      SubKeepsOther(kind, lens, root, t, t', s', next);
    }
  }

  lemma EnterLong(kind: CodeType, lens: seq<nat>, root: nat, max: nat, work: seq<nat>, t: seq<Entry>, t': seq<Entry>,
      i: nat, next: nat, curr: nat, low: int)
    requires Fits(lens) && Sorted(lens, work) && i < |work| && root < lens[work[i]]
    requires AllPlaced(kind, lens, root, t, work, i)
    requires InSub(lens, root, max, work, t, i, next, curr, low)
    requires FillRel(t, t', next, Shr(Huff(lens, work[i]), root), lens[work[i]] - root, curr,
            EntryFor(kind, work[i], lens[work[i]] - root))
    ensures AllPlaced(kind, lens, root, t', work, i + 1)
    ensures InSub(lens, root, max, work, t', i, next, curr, low)
  {
    hide Kraft, Huff, Pow2, EntryFor, FillRel, Rank, Offs, PlacedShort, CellBound, Shl, Cell;
    var s := work[i];
    forall j | 0 <= j < i ensures Placed(kind, lens, root, t', work[j]) {
      EnterLongKeeps(kind, lens, root, max, work, t, t', i, j, next, curr, low);
    }
    FillPlaces(t, t', next, Shr(Huff(lens, s), root), lens[s] - root, curr, EntryFor(kind, s, lens[s] - root));
    forall j | 0 <= j < i && root < lens[work[j]] && RootIndex(lens, root, work[j]) != low
      ensures t'[RootIndex(lens, root, work[j])] == t[RootIndex(lens, root, work[j])]
    {
      assert RootIndex(lens, root, work[j]) < Pow2(root);
    }
    assert RootIndex(lens, root, s) < Pow2(root);
  }

  // ---------- moving on to the next symbol ----------

  lemma SameSub(lens: seq<nat>, root: nat, max: nat, work: seq<nat>, t: seq<Entry>, i: nat, next: nat, curr: nat,
      low: int)
    requires Fits(lens) && Sorted(lens, work) && i + 1 < |work| && lens[work[i + 1]] <= max
    requires InSub(lens, root, max, work, t, i, next, curr, low)
    requires root < lens[work[i + 1]] && RootIndex(lens, root, work[i + 1]) == low
    ensures InSub(lens, root, max, work, t, i + 1, next, curr, low)
  {
    hide Kraft, Huff, Pow2, Rank, Offs, Shl, RootIndex, Cell;
    RootIndexIsCell(lens, root, work[i], work[i + 1]);
    CellBoundUse(lens, root, max, curr, work[i], work[i + 1]);
  }

  /** The next symbol's cell is new: no earlier long code has its root index. */
  lemma NewCell(lens: seq<nat>, root: nat, work: seq<nat>, i: nat, j: nat)
    requires Fits(lens) && Sorted(lens, work) && j <= i && i + 1 < |work|
    requires root < lens[work[i]] && root < lens[work[j]] && root < lens[work[i + 1]]
    requires RootIndex(lens, root, work[i + 1]) != RootIndex(lens, root, work[i])
    ensures RootIndex(lens, root, work[j]) != RootIndex(lens, root, work[i + 1])
    ensures Cell(lens, root, work[i]) < Cell(lens, root, work[i + 1])
  {
    hide Kraft, Huff, Rank, Offs, RootIndex, Cell;
    RootIndexIsCell(lens, root, work[i], work[i + 1]);
    RootIndexIsCell(lens, root, work[j], work[i + 1]);
    SortedOrder(lens, work, i, i + 1);
    CellOrder(lens, root, work[i], work[i + 1]);
    if j < i {
      SortedOrder(lens, work, j, i);
      CellOrder(lens, root, work[j], work[i]);
    }
  }

  lemma NewSubKeeps(kind: CodeType, lens: seq<nat>, root: nat, max: nat, work: seq<nat>, t: seq<Entry>, i: nat, j: nat,
      next: nat, curr: nat, low: int, e: Entry)
    requires Fits(lens) && Sorted(lens, work) && j <= i && i + 1 < |work| && root < lens[work[i + 1]]
    requires At(lens, root, max, work, t, i, next, curr, low)
    requires RootIndex(lens, root, work[i + 1]) != low
    requires Pow2(root) <= |t| && Placed(kind, lens, root, t, work[j])
    ensures RootIndex(lens, root, work[i + 1]) < Pow2(root)
    ensures Placed(kind, lens, root, t[RootIndex(lens, root, work[i + 1]) := e], work[j])
    ensures root < lens[work[j]] ==>
              root < lens[work[i]] && RootIndex(lens, root, work[j]) != RootIndex(lens, root, work[i + 1])
  {
    hide Kraft, Huff, Rank, Offs, Cell, Pow2, Shl, PlacedShort, PlacedLong;
    if j < i {
      SortedOrder(lens, work, j, i);
    }
    if lens[work[j]] <= root {
      LinkKeepsShort(kind, lens, root, t, work[i + 1], work[j], e);
    } else {
      NewCell(lens, root, work, i, j);
      LinkKeepsLong(kind, lens, root, t, RootIndex(lens, root, work[i + 1]), work[j], e);
    }
  }

  lemma NewSub(kind: CodeType, lens: seq<nat>, root: nat, max: nat, work: seq<nat>, t: seq<Entry>, i: nat, next: nat,
      curr: nat, low: int, curr': nat)
    requires Fits(lens) && Sorted(lens, work) && i + 1 < |work|
    requires root < lens[work[i + 1]] <= root + curr' <= max <= MAX_BITS
    requires AllPlaced(kind, lens, root, t, work, i + 1) && At(lens, root, max, work, t, i, next, curr, low)
    requires RootIndex(lens, root, work[i + 1]) != low && |t| >= next + Pow2(curr) + Pow2(curr')
    requires CellBound(lens, root, max, curr', work[i + 1])
    ensures RootIndex(lens, root, work[i + 1]) < |t|
    ensures var p := RootIndex(lens, root, work[i + 1]);
            var t' := t[p := Entry(curr', root, next + Pow2(curr))];
            && AllPlaced(kind, lens, root, t', work, i + 1)
            && InSub(lens, root, max, work, t', i + 1, next + Pow2(curr), curr', p)
  {
    hide Kraft, Huff, Rank, Offs, Cell, Pow2, Shl, Placed, RootIndex;
    var p, used := RootIndex(lens, root, work[i + 1]), next + Pow2(curr);
    var e := Entry(curr', root, used);
    forall j | 0 <= j <= i
      ensures p < Pow2(root) && Placed(kind, lens, root, t[p := e], work[j])
      ensures root < lens[work[j]] ==> root < lens[work[i]] && RootIndex(lens, root, work[j]) != p
    {
      NewSubKeeps(kind, lens, root, max, work, t, i, j, next, curr, low, e);
    }
    assert Placed(kind, lens, root, t[p := e], work[0]);
  }

  // ---------- the routine ----------

  ghost predicate CountsLeft(lens: seq<nat>, count: seq<nat>, i: nat) {
    |count| == MAX_BITS + 1 && forall l :: 1 <= l <= MAX_BITS ==> count[l] == Rem(lens, i, l)
  }

  lemma CountsStep(lens: seq<nat>, work: seq<nat>, count: seq<nat>, i: nat)
    requires Sorted(lens, work) && i < |work| && CountsLeft(lens, count, i)
    ensures count[lens[work[i]]] >= 1
    ensures CountsLeft(lens, count[lens[work[i]] := count[lens[work[i]]] - 1], i + 1)
    ensures count[lens[work[i]]] == 1 <==> Offs(lens, lens[work[i]] + 1) == i + 1
  {
    hide Offs, Rank;
    var l0 := lens[work[i]];
    LengthAt(lens, work, i, l0);
    RemStep(lens, work, i, l0);
    forall l | 1 <= l <= MAX_BITS ensures Rem(lens, i + 1, l) == Rem(lens, i, l) - if l0 == l then 1 else 0 {
      RemStep(lens, work, i, l);
    }
    assert Rem(lens, i, l0) == Offs(lens, l0 + 1) - i by {
      RankInLength(lens, work[i]);
      RemAt(lens, i, l0);
    }
  }

  lemma RemAt(lens: seq<nat>, i: nat, l: nat)
    requires 1 <= l <= MAX_BITS && Offs(lens, l) <= i < Offs(lens, l + 1)
    ensures Rem(lens, i, l) == Offs(lens, l + 1) - i
  {
  }

  /** `max` is the greatest length in use. */
  ghost predicate IsMax(lens: seq<nat>, max: nat) {
    max <= MAX_BITS && (forall s :: 0 <= s < |lens| ==> lens[s] <= max) && (max > 0 ==> Total(lens, max) > 0)
  }

  /** When the count of a length runs out, the length was the last or a longer one follows. */
  lemma WhenCountRunsOut(lens: seq<nat>, work: seq<nat>, i: nat, max: nat)
    requires Sorted(lens, work) && i < |work| && IsMax(lens, max)
    requires Offs(lens, lens[work[i]] + 1) == i + 1
    ensures lens[work[i]] == max <==> i + 1 == |work|
  {
    hide Rank, Count, Total;
    var l := lens[work[i]];
    if l < max {
      OffsMono(lens, l + 1, max);
      OffsMono(lens, max + 1, MAX_BITS + 1);
      assert Offs(lens, max + 1) == Offs(lens, max) + Total(lens, max);
    } else if i + 1 < |work| {
      SortedOrder(lens, work, i, i + 1);
      LengthAt(lens, work, i + 1, l);
    }
  }

  lemma WhenCountRemains(lens: seq<nat>, work: seq<nat>, i: nat)
    requires Sorted(lens, work) && i < |work|
    requires Offs(lens, lens[work[i]] + 1) != i + 1
    ensures i + 1 < |work| && lens[work[i + 1]] == lens[work[i]]
  {
    hide Rank, Count, Offs;
    var l := lens[work[i]];
    LengthAt(lens, work, i, l);
    OffsMono(lens, l + 1, MAX_BITS + 1);
    LengthAt(lens, work, i + 1, l);
  }

  /** Enter the i-th symbol; afterwards its entries and all earlier ones are in place. */
  method EnterSymbol(kind: CodeType, lens: seq<nat>, work: seq<nat>, table: array<Entry>, root: nat, ghost max: nat,
                     i: nat, huff: nat, len: nat, drop: nat, next: nat, curr: nat, ghost low: int)
    requires Fits(lens) && Sorted(lens, work) && i < |work| && len == lens[work[i]] && huff == Huff(lens, work[i])
    requires drop == if len <= root then 0 else root
    requires AllPlaced(kind, lens, root, table[..], work, i)
    requires At(lens, root, max, work, table[..], i, next, curr, low)
    modifies table
    ensures AllPlaced(kind, lens, root, table[..], work, i + 1)
    ensures At(lens, root, max, work, table[..], i, next, curr, low)
  {
    hide Kraft, Huff, Rank, Offs, Cell, Pow2, Shl, Shr, AllPlaced, LinksBelow, CellBound, FillRel;
    var this_ := EntryFor(kind, work[i], len - drop);
    ghost var t := table[..];
    HuffBound(lens, work[i]);
    if len <= root {
      assert Shr(huff, 0) == huff by { ShrZero(huff); }
    } else {
      ShrHuffBound(lens, root, work[i]);
    }
    assert Pow2(root) <= table.Length by { AllPlacedLength(kind, lens, root, t, work, i); }
    FillEntries(table, next, Shr(huff, drop), len - drop, curr, this_);
    if len <= root {
      EnterShort(kind, lens, root, work, t, table[..], i);
    } else {
      EnterLong(kind, lens, root, max, work, t, table[..], i, next, curr, low);
    }
  }

  lemma ShrZero(v: nat)
    ensures Shr(v, 0) == v
  {
  }

  lemma AllPlacedLength(kind: CodeType, lens: seq<nat>, root: nat, t: seq<Entry>, work: seq<nat>, i: nat)
    requires AllPlaced(kind, lens, root, t, work, i)
    ensures Pow2(root) <= |t|
  {
  }

  lemma ShrHuffBound(lens: seq<nat>, root: nat, s: nat)
    requires s < |lens| && root <= lens[s]
    ensures Shr(Huff(lens, s), root) < Pow2(lens[s] - root)
  {
    HuffBound(lens, s);
    ShlPow2(lens[s] - root, root);
    ShrBound(Huff(lens, s), root, Pow2(lens[s] - root));
  }

  /** The sub-table in use was opened for work[i0] and leaves room for more. */
  ghost predicate Roomy(lens: seq<nat>, work: seq<nat>, root: nat, i: nat, next: nat, curr: nat, low: int, i0: nat) {
    i < |work| && work[i] < |lens| && root < lens[work[i]] ==>
      && Opened(lens, work, root, i0, curr, next + Pow2(curr)) && i0 <= i
      && low == RootIndex(lens, root, work[i0])
  }

  /** Room for the sub-table of work[i + 1]: the space used is that of the codes before it, and a little. */
  lemma RoomForNext(lens: seq<nat>, root: nat, max: nat, work: seq<nat>, t: seq<Entry>, i: nat, next: nat, curr: nat,
      low: int, i0: nat)
    requires Fits(lens) && Sorted(lens, work) && i + 1 < |work| && 1 <= root < lens[work[i + 1]]
    requires At(lens, root, max, work, t, i, next, curr, low) && Roomy(lens, work, root, i, next, curr, low, i0)
    requires RootIndex(lens, root, work[i + 1]) != low
    ensures next + Pow2(curr) <= Pow2(root) + (i + 1) + Pow2(lens[work[i + 1]] - root)
    ensures Start(lens, work[i + 1]) == Shl(Cell(lens, root, work[i + 1]), MAX_BITS - root)
  {
    hide Kraft, Huff, Rank, Offs, Cell, Pow2, Shl, Start, RootIndex, LinksBelow, CellBound;
    if root < lens[work[i]] {
      RootIndexIsCell(lens, root, work[i], work[i + 1]);
      RootIndexIsCell(lens, root, work[i0], work[i + 1]);
      BeforeNext(lens, work, root, i0, curr, next + Pow2(curr), i + 1);
    }
    CellBegins(lens, work, root, i);
  }

  /** Open the sub-table for work[i + 1].  There is always space for it. */
  method StartSubTable(kind: CodeType, lens: seq<nat>, work: seq<nat>, count: array<nat>, table: array<Entry>,
      root: nat, max: nat, i: nat, next: nat, curr: nat, low: int, ghost i0: nat)
    returns (curr': nat)
    requires Fits(lens) && Sorted(lens, work) && i + 1 < |work| && 1 <= root < lens[work[i + 1]] <= max <= MAX_BITS
    requires CountsLeft(lens, count[..], i + 1)
    requires AllPlaced(kind, lens, root, table[..], work, i + 1)
    requires At(lens, root, max, work, table[..], i, next, curr, low)
    requires Roomy(lens, work, root, i, next, curr, low, i0)
    requires RootIndex(lens, root, work[i + 1]) != low && Complete(lens) && table.Length >= Space(root, |work|)
    requires kind == LENS ==> root == 9 && |work| <= 288
    modifies table
    ensures root + curr' <= max && next + Pow2(curr) + Pow2(curr') <= Space(root, |work|)
    ensures AllPlaced(kind, lens, root, table[..], work, i + 1)
    ensures InSub(lens, root, max, work, table[..], i + 1, next + Pow2(curr), curr', RootIndex(lens, root, work[i + 1]))
    ensures Opened(lens, work, root, i + 1, curr', next + Pow2(curr) + Pow2(curr'))
  {
    hide Kraft, Huff, Rank, Offs, Cell, Pow2, Shl, Shr, AllPlaced, LinksBelow, CellBound, RootIndex, Rem, At, Roomy,
         Start, LenSum;
    assert forall l :: 1 <= l <= MAX_BITS ==> count[..][l] == count[l];
    curr' := SubTableBits(lens, work, i + 1, count, lens[work[i + 1]], root, max);
    RoomForNext(lens, root, max, work, table[..], i, next, curr, low, i0);
    SpaceLeft(lens, work, root, curr', i + 1, next + Pow2(curr));
    if kind == LENS {
      LensSpace(|work|);
      if next + Pow2(curr) + Pow2(curr') >= ENOUGH - MAXD {
        assert false; // where inflate_table would return 1
      }
    }
    NewSub(kind, lens, root, max, work, table[..], i, next, curr, low, curr');
    ghost var t := table[..];
    var p := RootIndex(lens, root, work[i + 1]);
    table[p] := Entry(curr', root, next + Pow2(curr));
    assert table[..] == t[p := Entry(curr', root, next + Pow2(curr))];
  }

  /** The loop that enters every code. */
  method EnterCodes(kind: CodeType, lens: seq<nat>, work: seq<nat>, count: array<nat>, table: array<Entry>, root: nat,
      max: nat)
    returns (huff: nat, len: nat)
    requires Fits(lens) && Sorted(lens, work) && |work| > 0 && IsMax(lens, max)
    requires 1 <= root <= max && lens[work[0]] <= root
    requires kind == LENS ==> (root == max || root == 9) && |work| <= 288
    requires count.Length == MAX_BITS + 1 && CountsLeft(lens, count[..], 0) && table.Length >= Pow2(root)
    requires root < max ==> Complete(lens) && table.Length >= Space(root, |work|)
    modifies count, table
    ensures AllPlaced(kind, lens, root, table[..], work, |work|)
    ensures len == lens[work[|work| - 1]] && huff == BackInc(Huff(lens, work[|work| - 1]), len)
  {
    hide Kraft, Huff, Rank, Offs, Cell, Pow2, Shl, Shr, AllPlaced, InSub, BackInc, Low, CountsLeft, Opened;
    var i: nat := 0;
    len := lens[work[0]];
    FirstHuff(lens, work);
    huff := 0;
    var next: nat, curr: nat, drop: nat, low: int := 0, root, 0, -1;
    ghost var i0: nat := 0;
    StartPlaced(kind, lens, root, table[..], work);
    while true
      invariant i < |work| && len == lens[work[i]] && huff == Huff(lens, work[i])
      invariant drop == if len <= root then 0 else root
      invariant CountsLeft(lens, count[..], i)
      invariant AllPlaced(kind, lens, root, table[..], work, i)
      invariant At(lens, root, max, work, table[..], i, next, curr, low)
      invariant Roomy(lens, work, root, i, next, curr, low, i0)
      decreases |work| - i
    {
      EnterSymbol(kind, lens, work, table, root, max, i, huff, len, drop, next, curr, low);
      huff := BackIncrement(huff, len);
      CountsStep(lens, work, count[..], i);
      ghost var c := count[..];
      count[len] := count[len] - 1;
      assert count[..] == c[len := c[len] - 1];
      if count[len] == 0 {
        WhenCountRunsOut(lens, work, i, max);
        if len == max {
          return;
        }
        len := lens[work[i + 1]];
      } else {
        WhenCountRemains(lens, work, i);
      }
      NextHuff(lens, work, i);
      HuffLow(lens, root, work[i + 1]);
      SortedOrder(lens, work, i, i + 1);
      if len > root && Low(huff, root) != low {
        drop := root;
        var next' := next + Pow2(curr);
        curr := StartSubTable(kind, lens, work, count, table, root, max, i, next, curr, low, i0);
        next, low, i0 := next', Low(huff, root), i + 1;
      } else if len > root {
        assert InSub(lens, root, max, work, table[..], i, next, curr, low) by { LowNat(huff, root); }
        SameSub(lens, root, max, work, table[..], i, next, curr, low);
      }
      i := i + 1;
    }
  }

  lemma LowNat(v: nat, n: nat)
    ensures Low(v, n) != -1
  {
  }

  lemma HuffLow(lens: seq<nat>, root: nat, s: nat)
    requires s < |lens|
    ensures RootIndex(lens, root, s) == Low(Huff(lens, s), root)
  {
  }

  lemma StartPlaced(kind: CodeType, lens: seq<nat>, root: nat, t: seq<Entry>, work: seq<nat>)
    requires Pow2(root) <= |t|
    ensures AllPlaced(kind, lens, root, t, work, 0)
  {
  }

  /** The first code is all zeros. */
  lemma FirstHuff(lens: seq<nat>, work: seq<nat>)
    requires Sorted(lens, work) && |work| > 0
    ensures Huff(lens, work[0]) == 0
  {
    hide Rank;
    var s := work[0];
    assert Offs(lens, lens[s]) == 0 && Count(lens, s, lens[s]) == 0 by { RankParts(lens, s); }
    EmptyLengths(lens, 1, lens[s]);
    LenSumIsNextCode(lens, lens[s]);
    ShlOne(MAX_BITS - lens[s]);
    ShlInjective(NextCode(lens, lens[s]), 0, MAX_BITS - lens[s]);
    ZeroCode(lens[s]);
  }

  lemma {:induction false} ZeroCode(l: nat)
    ensures Val(MBits(0, l)) == 0
  {
    if l > 0 {
      ZeroCode(l - 1);
      ValSnoc(0, l - 1);
    }
  }

  /** The greatest length in use, or 0. */
  method LongestLength(lens: seq<nat>, count: array<nat>) returns (max: nat)
    requires ValidLens(lens) && count.Length == MAX_BITS + 1
    requires forall l :: 0 <= l <= MAX_BITS ==> count[l] == Total(lens, l)
    ensures IsMax(lens, max)
  {
    max := MAX_BITS;
    while max >= 1 && count[max] == 0
      invariant max <= MAX_BITS
      invariant forall l :: max < l <= MAX_BITS ==> count[l] == 0
    {
      max := max - 1;
    }
    forall s | 0 <= s < |lens| ensures lens[s] <= max {
      CountMono(lens, s + 1, |lens|, lens[s]);
      assert count[lens[s]] > 0;
    }
  }

  /** The smallest length in use. */
  method ShortestLength(lens: seq<nat>, count: array<nat>, max: nat) returns (min: nat)
    requires ValidLens(lens) && count.Length == MAX_BITS + 1 && IsMax(lens, max) && max > 0
    requires forall l :: 0 <= l <= MAX_BITS ==> count[l] == Total(lens, l)
    ensures 1 <= min <= max && Total(lens, min) > 0
    ensures forall l :: 1 <= l < min ==> Total(lens, l) == 0
  {
    min := 1;
    while count[min] == 0
      invariant 1 <= min <= max
      invariant forall l :: 1 <= l < min ==> Total(lens, l) == 0
      decreases max - min
    {
      min := min + 1;
    }
  }

  /** Code space left over after all lengths; negative when over-subscribed. */
  method CodeSpaceLeft(lens: seq<nat>, count: array<nat>) returns (left: int)
    requires count.Length == MAX_BITS + 1
    requires forall l :: 0 <= l <= MAX_BITS ==> count[l] == Total(lens, l)
    ensures left < 0 <==> Kraft(lens) > Pow2(MAX_BITS)
    ensures left >= 0 ==> left == Pow2(MAX_BITS) - Kraft(lens)
  {
    hide Total, Pow2, Shl;
    var rest: nat := 1;
    var len := 1;
    assert Shl(1, MAX_BITS) == Pow2(MAX_BITS) by { ShlOne(MAX_BITS); }
    while len <= MAX_BITS
      invariant 1 <= len <= MAX_BITS + 1
      invariant Shl(rest, MAX_BITS + 1 - len) + LenSum(lens, len) == Pow2(MAX_BITS)
    {
      SpaceStep(lens, rest, len);
      left := 2 * rest - count[len];
      if left < 0 {
        LenSumMono(lens, len + 1, MAX_BITS + 1);
        return;
      }
      rest := left;
      len := len + 1;
    }
    assert Shl(rest, 0) == rest by { ShlByZero(rest); }
    left := rest;
  }

  lemma SpaceStep(lens: seq<nat>, rest: nat, len: nat)
    requires 1 <= len <= MAX_BITS && Shl(rest, MAX_BITS + 1 - len) + LenSum(lens, len) == Pow2(MAX_BITS)
    ensures 2 * rest < Total(lens, len) ==> LenSum(lens, len + 1) > Pow2(MAX_BITS)
    ensures 2 * rest >= Total(lens, len) ==>
              Shl(2 * rest - Total(lens, len), MAX_BITS - len) + LenSum(lens, len + 1) == Pow2(MAX_BITS)
  {
    hide Total, Pow2;
    var t := Total(lens, len);
    ShlShl(rest, 1, MAX_BITS - len);
    assert Shl(rest, 1) == 2 * rest;
    if 2 * rest < t {
      ShlLt(2 * rest, t, MAX_BITS - len);
    } else {
      ShlAdd(2 * rest - t, t, MAX_BITS - len);
    }
  }

  lemma MaxIsUpTo(lens: seq<nat>, max: nat, m: nat)
    requires IsMax(lens, max)
    ensures AllUpTo(lens, m) <==> max <= m
  {
    if m < max {
      var s := CountFind(lens, |lens|, max, 0);
    }
  }

  lemma {:induction false} EmptySum(lens: seq<nat>, m: nat, l: nat)
    requires AllUpTo(lens, m) && m < l <= MAX_BITS + 1
    ensures LenSum(lens, l) == LenSum(lens, m + 1)
  {
    if m + 1 < l {
      EmptySum(lens, m, l - 1);
      assert Total(lens, l - 1) == 0 by {
        if Total(lens, l - 1) > 0 {
          var s := CountFind(lens, |lens|, l - 1, 0);
        }
      }
      ShlOne(MAX_BITS - (l - 1));
    }
  }

  lemma NoSymbols(lens: seq<nat>)
    requires AllUpTo(lens, 0)
    ensures Fits(lens) && Kraft(lens) == 0 && NoCode(lens, false) && NoCode(lens, true)
  {
    EmptySum(lens, 0, MAX_BITS + 1);
  }

  /** An accepted incomplete code is the single code 0. */
  lemma SingleCode(lens: seq<nat>, work: seq<nat>)
    requires AllUpTo(lens, 1) && Kraft(lens) < Pow2(MAX_BITS) && Sorted(lens, work) && |work| > 0
    ensures |work| == 1 && lens[work[0]] == 1 && Fits(lens) && CodeBits(lens, work[0]) == [false]
  {
    hide Pow2, Shl, Rank;
    EmptySum(lens, 1, MAX_BITS + 1);
    assert Shl(2, MAX_BITS - 1) == Pow2(MAX_BITS) by { ShlPow2(1, MAX_BITS - 1); Pow2Values(); }
    if Total(lens, 1) >= 2 {
      ShlLe(2, Total(lens, 1), MAX_BITS - 1);
    }
    var s := work[0];
    OffsEmpty(lens, MAX_BITS + 1);
    assert CodeBits(lens, s) == [false] by {
      FirstHuff(lens, work);
      assert Val(CodeBits(lens, s)) == 0 by { HuffVal(lens, s); }
    }
  }

  lemma HuffVal(lens: seq<nat>, s: nat)
    requires s < |lens|
    ensures Val(CodeBits(lens, s)) == Huff(lens, s)
  {
  }

  lemma {:induction false} OffsEmpty(lens: seq<nat>, l: nat)
    requires AllUpTo(lens, 1) && 2 <= l
    ensures Offs(lens, l) == Total(lens, 1)
  {
    if l > 2 {
      OffsEmpty(lens, l - 1);
      if Total(lens, l - 1) > 0 {
        var s := CountFind(lens, |lens|, l - 1, 0);
      }
    }
  }

  lemma SingleTable(kind: CodeType, lens: seq<nat>, work: seq<nat>, t: seq<Entry>)
    requires AllUpTo(lens, 1) && Kraft(lens) < Pow2(MAX_BITS) && Sorted(lens, work) && |work| > 0
    requires AllPlaced(kind, lens, 1, t, work, 1) && |t| >= 2 && t[1] == INVALID
    ensures TableOk(kind, lens, t, 1)
  {
    hide Huff, BackInc, LooksUp;
    hide Kraft, Offs, Rank, Placed;
    SingleCode(lens, work);
    var s := work[0];
    forall s' | 0 <= s' < |lens| && IsSymbol(lens, s') ensures s' == s {
      SortedPlace(lens, work, s');
    }
    forall v: nat | v < Pow2(MAX_BITS) ensures EntryOk(kind, lens, t, 1, v) {
      LowOne(v);
      SingleHuff(lens, s);
      if v % 2 == 0 {
        PlacedLooksUp(kind, lens, t, 1, v, s);
      }
    }
  }

  lemma LowOne(v: nat)
    ensures Low(v, 1) == v % 2
  {
    assert Low(v / 2, 0) == 0;
  }

  lemma EmptyTable(kind: CodeType, lens: seq<nat>, t: seq<Entry>)
    requires AllUpTo(lens, 0) && |t| >= 2 && t[0] == INVALID && t[1] == INVALID
    ensures TableOk(kind, lens, t, 1)
  {
    hide Kraft;
    NoSymbols(lens);
    forall v: nat | v < Pow2(MAX_BITS) ensures EntryOk(kind, lens, t, 1, v) {
      LowOne(v);
    }
  }

  /** An accepted code, once entered and with the leftover index marked, gives a right table. */
  lemma FinishTable(kind: CodeType, lens: seq<nat>, work: seq<nat>, root: nat, max: nat, t: seq<Entry>, huff: nat)
    requires ValidLens(lens) && Acceptable(kind, lens) && Sorted(lens, work) && |work| > 0 && 1 <= root <= max
    requires IsMax(lens, max)
    requires AllPlaced(kind, lens, root, t, work, |work|)
    requires huff == BackInc(Huff(lens, work[|work| - 1]), lens[work[|work| - 1]])
    ensures Complete(lens) ==> huff == 0 && TableOk(kind, lens, t, root)
    ensures !Complete(lens) ==> huff == 1 && root == 1 && lens[work[|work| - 1]] == 1
    ensures !Complete(lens) ==> |t| >= 2 && TableOk(kind, lens, t[1 := INVALID], root)
  {
    hide Kraft, Offs, Rank, Huff, BackInc;
    if Complete(lens) {
      CompleteTable(kind, lens, root, t, work);
      LastHuff(lens, work);
    } else {
      MaxIsUpTo(lens, max, 1);
      SingleCode(lens, work);
      SingleHuff(lens, work[0]);
      assert Pow2(1) == 2;
      SingleKeeps(kind, lens, work[0], t);
      SingleTable(kind, lens, work, t[1 := INVALID]);
    }
  }

  lemma SingleHuff(lens: seq<nat>, s: nat)
    requires IsSymbol(lens, s) && CodeBits(lens, s) == [false]
    ensures Huff(lens, s) == 0 && BackInc(Huff(lens, s), 1) == 1
  {
    assert Val([]) == 0 && [false][1..] == [];
    assert Low(0, 0) == 0;
  }

  lemma SingleKeeps(kind: CodeType, lens: seq<nat>, s: nat, t: seq<Entry>)
    requires IsSymbol(lens, s) && CodeBits(lens, s) == [false] && Placed(kind, lens, 1, t, s) && |t| >= 2
    ensures Placed(kind, lens, 1, t[1 := INVALID], s)
  {
    LowOne(1);
    SingleHuff(lens, s);
  }

  /** After the loop: mark the indices no code reaches.  Since an incomplete set is accepted
      only as a single one-bit code, this runs at most once, in the root table. */
  method MarkInvalid(table: array<Entry>, huff: nat, len: nat)
    requires huff == 0 || (huff == 1 && len == 1)
    requires table.Length >= 2
    modifies table
    ensures table[..] == if huff == 0 then old(table[..]) else old(table[..])[1 := INVALID]
  {
    ghost var t := table[..];
    var h := huff;
    while h != 0
      invariant h == 0 || (h == 1 && huff == 1)
      invariant table[..] == if h == huff then t else t[1 := INVALID]
      decreases h
    {
      table[h] := Entry(64, len, 0);
      assert BackInc(1, 1) == 0 by { assert BackInc(1, 0) == 0; assert Shr(1, 0) == 1; }
      h := BackIncrement(h, len);
    }
  }

  lemma EmptyAccepted(kind: CodeType, lens: seq<nat>)
    requires AllUpTo(lens, 0)
    ensures Acceptable(kind, lens)
  {
    NoSymbols(lens);
  }

  lemma LeftDecides(kind: CodeType, lens: seq<nat>, max: nat, left: int)
    requires ValidLens(lens) && IsMax(lens, max) && max > 0
    requires left < 0 <==> Kraft(lens) > Pow2(MAX_BITS)
    requires left >= 0 ==> left == Pow2(MAX_BITS) - Kraft(lens)
    ensures max <= MAX_BITS
    ensures Acceptable(kind, lens) <==> !(left < 0 || (left > 0 && (kind == CODES || max != 1)))
    ensures Acceptable(kind, lens) ==> Fits(lens)
    ensures left == 0 <==> Complete(lens)
  {
    hide Kraft, Pow2, AllUpTo;
    MaxIsUpTo(lens, max, 0);
    MaxIsUpTo(lens, max, 1);
  }

  /** The first sorted symbol has the shortest length. */
  lemma FirstLength(lens: seq<nat>, work: seq<nat>, min: nat)
    requires Sorted(lens, work) && 1 <= min <= MAX_BITS && Total(lens, min) > 0
    requires forall l :: 1 <= l < min ==> Total(lens, l) == 0
    ensures |work| > 0 && lens[work[0]] == min
  {
    hide Sorted;
    var s := CountFind(lens, |lens|, min, 0);
    OffsZero(lens, min);
    SortedPlace(lens, work, s);
  }

  lemma {:induction false} OffsZero(lens: seq<nat>, min: nat)
    requires forall l :: 1 <= l < min ==> Total(lens, l) == 0
    ensures Offs(lens, min) == 0
  {
    if min > 1 {
      OffsZero(lens, min - 1);
    }
  }

  lemma CountsStart(lens: seq<nat>, count: seq<nat>)
    requires |count| == MAX_BITS + 1 && forall l :: 0 <= l <= MAX_BITS ==> count[l] == Total(lens, l)
    ensures CountsLeft(lens, count, 0)
  {
  }

  /** The number of root bits that inflate_table settles on leaves room for all sub-tables. */
  lemma RootFitsSpace(kind: CodeType, lens: seq<nat>, work: seq<nat>, bits: nat, root: nat, max: nat)
    requires ValidLens(lens) && Acceptable(kind, lens) && Sorted(lens, work) && 0 < |work| <= |lens|
    requires IsMax(lens, max) && max > 0 && 1 <= bits <= MAX_BITS
    requires root == if (if bits > max then max else bits) < lens[work[0]] then lens[work[0]]
                     else if bits > max then max else bits
    ensures 1 <= root <= max && lens[work[0]] <= root && Pow2(root) <= TableSize(bits, lens)
    ensures root < max ==> Complete(lens) && Space(root, |work|) <= TableSize(bits, lens)
    ensures bits == 9 && |lens| <= 288 ==> root <= 9 && (root == max || root == 9)
  {
    hide Kraft, Offs, Rank, AllUpTo, Pow2, Sorted, Acceptable, ValidLens;
    MaxIsUpTo(lens, max, bits);
    SortedLength(lens, work, 0);
    CompleteOrOne(kind, lens, max);
    var min := lens[work[0]];
    if max <= bits {
      Pow2Mono(root, bits);
    } else if root != bits {
      ShortestShort(lens, work);
      Pow2Mono(MAX_BITS - root, MAX_BITS - bits);
      if bits == 9 && |lens| <= 288 {
        Pow2Values();
        Pow2Mono(9, min);
        assert false;
      }
    }
  }

  lemma CompleteOrOne(kind: CodeType, lens: seq<nat>, max: nat)
    requires Acceptable(kind, lens) && IsMax(lens, max)
    ensures Complete(lens) || max <= 1
  {
    MaxIsUpTo(lens, max, 1);
  }

  lemma TwoEntries(bits: nat, lens: seq<nat>)
    requires 1 <= bits <= MAX_BITS
    ensures TableSize(bits, lens) >= 2
  {
    hide AllUpTo;
    Pow2Mono(1, bits);
  }

  lemma SortedLength(lens: seq<nat>, work: seq<nat>, i: nat)
    requires Sorted(lens, work) && i < |work|
    ensures work[i] < |lens| && 1 <= lens[work[i]] <= MAX_BITS
  {
    hide Rank;
  }

  lemma {:induction false} SortedFew(lens: seq<nat>, work: seq<nat>)
    requires Sorted(lens, work)
    ensures |work| <= |lens|
  {
    OffsBound(lens, MAX_BITS + 1);
  }

  /**
   inflate_table, with 9 root bits for LENS as the source assumes.  The result is -1 exactly for
   length sets that are over-subscribed or not allowed to be incomplete, and otherwise 0: the table
   decodes every accumulator contents as the canonical code does.  The space never runs out, nor is
   anything written beyond `TableSize` entries.
   */
  method Build(kind: CodeType, lens: seq<nat>, table: array<Entry>, bits: nat, work: array<nat>)
    returns (ret: int, root: nat)
    requires ValidLens(lens) && |lens| <= SymbolLimit(kind)
    requires 1 <= bits <= MAX_BITS && (kind == LENS ==> bits == 9) && work.Length >= |lens|
    requires table.Length >= TableSize(bits, lens)
    modifies table, work
    ensures ret == if Acceptable(kind, lens) then 0 else -1
    ensures ret == 0 ==> TableOk(kind, lens, table[..], root)
    ensures ret == 0 && AllUpTo(lens, bits) ==> AllUpTo(lens, root)
  {
    hide Kraft, Offs, Rank, Huff, BackInc, TableOk, Count, Pow2, AllPlaced, Rem, Acceptable, AllUpTo, IsMax, TableSize;
    TwoEntries(bits, lens);
    var count := CountLengths(lens);
    var max := LongestLength(lens, count);
    MaxIsUpTo(lens, max, 0);
    if max == 0 {
      table[0], table[1] := INVALID, INVALID;
      EmptyTable(kind, lens, table[..]);
      EmptyAccepted(kind, lens);
      MaxIsUpTo(lens, max, 1);
      return 0, 1;
    }
    var min := ShortestLength(lens, count, max);
    root := if bits > max then max else bits;
    if root < min {
      root := min;
    }
    var left := CodeSpaceLeft(lens, count);
    LeftDecides(kind, lens, max, left);
    if left < 0 || (left > 0 && (kind == CODES || max != 1)) {
      return -1, root;
    }
    var offs := Offsets(lens, count);
    SortSymbols(lens, offs, work);
    var sorted := work[..offs[MAX_BITS]];
    FirstLength(lens, sorted, min);
    SortedFew(lens, sorted);
    CountsStart(lens, count[..]);
    RootFitsSpace(kind, lens, sorted, bits, root, max);
    if kind == LENS {
      LensSpace(|sorted|);
      Pow2Mono(root, 9);
      if Pow2(root) >= ENOUGH - MAXD {
        assert false; // where inflate_table would return 1
      }
    }
    var huff, len := EnterCodes(kind, lens, sorted, count, table, root, max);
    MaxIsUpTo(lens, max, bits);
    MaxIsUpTo(lens, max, root);
    FinishTable(kind, lens, sorted, root, max, table[..], huff);
    MarkInvalid(table, huff, len);
    return 0, root;
  }
}
