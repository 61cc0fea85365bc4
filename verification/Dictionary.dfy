/** The sliding window with its hash chains: insertion, sliding and reading. */
module Dictionary {
  import opened Bits
  import opened Tokens
  import opened HashLaws
  import opened RollingHash
  import opened HashChains
  import opened Adler32

  const MIN_LOOKAHEAD := MAX_MATCH + MIN_MATCH + 1
  const UINT := 0x1_0000_0000

  /** Subtraction of unsigned 32-bit numbers. */
  function Sub32(a: int, b: int): (r: nat)
    ensures r < UINT
  {
    (a - b) % UINT
  }

  lemma Sub32Both(a: int, b: int, w: int)
    ensures Sub32(a - w, Sub32(b, w)) == Sub32(a, b)
  {
    var q := (b - w) / UINT;
    assert b - w == q * UINT + Sub32(b, w);
    assert a - w - Sub32(b, w) == a - b + q * UINT;
    ModPlus(a - b, q);
  }

  lemma ModPlus(x: int, q: int)
    ensures (x + q * UINT) % UINT == x % UINT
  {
  }

  /** All that is new in `t` comes at `p` or later. */
  ghost predicate Later(s: set<nat>, t: set<nat>, p: nat) {
    forall a :: a in t ==> a in s || a >= p
  }

  /** All stream positions from `a` up to `b` have been inserted. */
  ghost predicate AllIn(ins: set<nat>, a: nat, b: nat) {
    forall q: nat :: a <= q < b ==> q in ins
  }

  lemma AllInNone(ins: set<nat>, a: nat, b: nat)
    requires b <= a
    ensures AllIn(ins, a, b)
  {
  }

  lemma AllInMore(ins: set<nat>, a: nat, b: nat)
    requires AllIn(ins, a, b)
    ensures AllIn(ins + {b}, a, b + 1)
  {
  }

  lemma LaterSelf(s: set<nat>, p: nat)
    ensures Later(s, s, p)
  {
  }

  lemma LaterMore(s: set<nat>, t: set<nat>, p: nat, q: nat)
    requires Later(s, t, p) && q >= p && s <= t
    ensures Later(s, t + {q}, p) && s <= t + {q}
  {
  }

  class Dict {
    const wbits: nat
    const wsize: nat
    const bits: nat            // hash_bits
    const summed: bool         // the zlib wrapper is wanted
    ghost const hashed: bool   // strings are inserted, as they are at every level but 0
    const window: array<byte>
    const prev: array<nat>
    const head: array<nat>
    var strstart: nat
    var lookahead: nat
    var insH: bv32
    var matchStart: nat
    var blockStart: int
    var input: seq<byte>
    var nextIn: nat
    var adler: nat
    ghost var base: nat        // bytes that have been slid out
    ghost var s: seq<byte>     // all bytes read so far
    ghost var ins: set<nat>    // stream positions inserted

    ghost predicate Shapes() {
      && 9 <= wbits <= 15 && wsize == Pow2(wbits) && 512 <= wsize <= 32768 && HashBits(bits)
      && window.Length == 2 * wsize && prev.Length == wsize && head.Length == HashSize(bits) && prev != head
    }

    /** The window holds the end of the stream. */
    ghost predicate Text()
      requires window.Length == 2 * wsize
      reads this`nextIn, this`input, this`base, this`s, window
    {
      && nextIn <= |input| && base <= |s| <= base + 2 * wsize
      && forall i :: 0 <= i < |s| - base ==> window[i] == s[base + i]
    }

    /** The running checksum is that of what has been read. */
    ghost predicate Summed()
      reads this`adler, this`s
    {
      summed ==> adler == AdlerOf(s)
    }

    ghost predicate ChainsAt(p: nat)
      reads this`s, this`base, this`ins, head, prev
    {
      Chains(bits, head[..], prev[..], s, base, ins, wbits, base + p)
    }

    /** The running hash is ready for the string at `p`. */
    ghost predicate RollsAt(p: nat)
      reads this`s, this`base, this`insH
    {
      base + p + 1 < |s| && Rolls(bits, insH, s[base + p], s[base + p + 1])
    }

    /** The slot is empty or holds an inserted position, so that a search from it stays in the window. */
    ghost predicate LegitSlot(i: nat)
      requires prev.Length == wsize
      reads this`base, this`ins, prev
    {
      i < wsize && (prev[i] != 0 ==> base + prev[i] in ins)
    }

    /** Between the loops' turns: the lookahead is what has been read and not yet used. */
    ghost predicate Valid()
      reads this`strstart, this`lookahead, this`insH, this`nextIn, this`input, this`adler, this`base, this`s, this`ins,
            window, head, prev
    {
      && Shapes() && Text() && Summed() && |s| == base + strstart + lookahead && ChainsAt(strstart)
      && (hashed && lookahead >= MIN_MATCH ==> RollsAt(strstart)) && (base == 0 || strstart >= wsize - MIN_LOOKAHEAD)
    }

    /** deflateInit2 and lm_init. */
    constructor (wbits: nat, bits: nat, summed: bool, ghost hashed: bool)
      requires 9 <= wbits <= 15 && HashBits(bits)
      ensures Valid() && s == [] && base == 0 && strstart == 0 && lookahead == 0 && blockStart == 0 && input == []
      ensures nextIn == 0 && matchStart == 0
      ensures fresh(window) && fresh(prev) && fresh(head) && this.wbits == wbits && this.bits == bits
      ensures this.summed == summed && this.hashed == hashed && adler == 1
    {
      hide Chains, Pow2, HashSize, AdlerOf;
      SizeRange(wbits);
      AdlerOfNone();
      var w := Pow2(wbits);
      this.wbits, this.wsize, this.bits, this.summed, this.hashed, this.adler := wbits, w, bits, summed, hashed, 1;
      this.window := new byte[2 * w];
      this.prev := new nat[w];
      this.head := new nat[HashSize(bits)](_ => 0);
      this.strstart, this.lookahead, this.insH, this.matchStart, this.blockStart := 0, 0, 0, 0, 0;
      this.input, this.nextIn, this.base, this.s, this.ins := [], 0, 0, [], {};
      new;
      ZeroSlot(wbits);
      NoChains(bits, head[..], prev[..], [], 0, wbits, 0);
    }

    // ---------- insertion ----------

    /** INSERT_STRING: the old head of the bucket is the new string's link. */
    method InsertString(p: nat) returns (m: nat)
      requires Shapes() && Text() && ChainsAt(p) && base + p + 2 < |s| && RollsAt(p)
      modifies this`insH, this`ins, head, prev
      ensures Text() && ChainsAt(p + 1) && RollsAt(p + 1) && ins == old(ins) + {base + p}
      ensures var h := HashAt(bits, s, base + p);
              && h < head.Length && m == old(head[h])
              && head[..] == old(head[..])[h := p] && prev[..] == old(prev[..])[Slot(p, wbits) := m]
      ensures m != 0 ==>
                && base + m in old(ins) && m < p && base + m + 2 < |s|
                && HashAt(bits, s, base + m) == HashAt(bits, s, base + p)
      ensures m != 0 ==> LegitSlot(Slot(m, wbits))
      ensures Latest(bits, s, old(ins), base, base + p, m)
      ensures forall i: nat :: i < wsize && old(LegitSlot(i)) ==> LegitSlot(i)
    {
      hide Chains, AdlerOf, Next, HashOf, Rolls, Bucket, HashSize, Slot;
      ghost var x, y, z := s[base + p], s[base + p + 1], s[base + p + 2];
      ghost var hs, ps: seq<nat> := head[..], prev[..];
      assert window[p + 2] == z;
      BucketBound(bits, insH, window[p + 2]);
      RollsGives(bits, insH, x, y, z);
      RollOn(bits, insH, x, y, z);
      insH := Next(bits, insH, window[p + 2]);
      var h := Bucket(insH);
      m := head[h];
      HeadIs(bits, hs, ps, s, base, ins, wbits, base + p, h);
      HeadLatest(bits, hs, ps, s, base, ins, wbits, base + p, base + p);
      InsertKeeps(bits, hs, ps, s, base, ins, wbits, p, h);
      prev[Slot(p, wbits)] := m;
      head[h] := p;
      ins := ins + {base + p};
      assert head[..] == hs[h := p] && prev[..] == ps[Slot(p, wbits) := m];
      if m != 0 {
        InsertedLegit(bits, head[..], prev[..], s, base, ins, wbits, base + p + 1, m);
      }
    }

    // ---------- sliding and reading ----------

    /** One of the loops that slide a table. */
    method SlideTable(t: array<nat>)
      modifies t
      ensures AllSlid(old(t[..]), t[..], wsize)
    {
      var n := t.Length;
      while n > 0
        invariant 0 <= n <= t.Length
        invariant forall i :: 0 <= i < n ==> t[i] == old(t[i])
        invariant forall i :: n <= i < t.Length ==> t[i] == Slid(old(t[i]), wsize)
      {
        n := n - 1;
        var m := t[n];
        t[n] := if m >= wsize then m - wsize else 0;
      }
    }

    /** Move the upper half of the window down. */
    method MoveDown()
      requires Shapes() && Text() && |s| - base >= wsize
      modifies window, this`base
      ensures base == old(base) + wsize && Text()
    {
      ghost var w := window[..];
      var i := 0;
      while i < wsize
        invariant 0 <= i <= wsize && base == old(base)
        invariant forall j :: 0 <= j < i ==> window[j] == w[wsize + j]
        invariant forall j :: i <= j < 2 * wsize ==> window[j] == w[j]
      {
        window[i] := window[wsize + i];
        i := i + 1;
      }
      base := base + wsize;
      forall k | 0 <= k < |s| - base ensures window[k] == s[base + k] {
        assert w[wsize + k] == s[old(base) + (wsize + k)];
      }
    }

    /** The part of fill_window that slides the window and the tables. */
    method Slide()
      requires Valid() && strstart >= wsize + (wsize - MIN_LOOKAHEAD)
      modifies window, head, prev, this`base, this`strstart, this`matchStart, this`blockStart
      ensures Valid() && base == old(base) + wsize && strstart == old(strstart) - wsize
      ensures blockStart == old(blockStart) - wsize
      ensures matchStart < UINT && Sub32(strstart, matchStart) == Sub32(old(strstart), old(matchStart))
      ensures forall i: nat :: i < wsize && old(LegitSlot(i)) ==> LegitSlot(i)
    {
      hide Chains, Rolls, AdlerOf, HashSize, Pow2, Sub32;
      ghost var hs, ps: seq<nat> := head[..], prev[..];
      SlideKeeps2(hs, ps);
      MoveDown();
      Sub32Both(strstart, matchStart, wsize);
      matchStart := Sub32(matchStart, wsize);
      strstart := strstart - wsize;
      blockStart := blockStart - wsize;
      SlideTable(head);
      SlideTable(prev);
    }

    /** Whatever the slid tables are, the chains are kept. */
    lemma SlideKeeps2(hs: seq<nat>, ps: seq<nat>)
      requires Shapes() && Chains(bits, hs, ps, s, base, ins, wbits, base + strstart)
      ensures forall hs', ps' ::
                AllSlid(hs, hs', wsize) && AllSlid(ps, ps', wsize) ==>
                  Chains(bits, hs', ps', s, base + wsize, ins, wbits, base + strstart)
    {
      hide Chains, AllSlid, HashSize, Pow2;
      forall hs', ps' | AllSlid(hs, hs', wsize) && AllSlid(ps, ps', wsize) ensures Chains(bits, hs', ps', s,
          base + wsize, ins, wbits, base + strstart) {
        SlideKeeps(bits, hs, hs', ps, ps', s, base, ins, wbits, base + strstart);
      }
    }

    /** The checksum of the next `n` bytes of input is added to that of what has been read. */
    method SumNext(n: nat)
      requires nextIn + n <= |input| && Summed()
      modifies this`adler
      ensures summed ==> adler == AdlerOf(s + input[nextIn..nextIn + n])
    {
      hide AdlerOf;
      if summed {
        adler := AdlerMore(adler, input[nextIn..nextIn + n], s);
      }
    }

    /** read_buf: as much input as there is, up to `more` bytes. */
    method ReadBuf(at: nat, more: nat) returns (n: nat)
      requires Shapes() && Text() && Summed() && at == |s| - base && at + more <= 2 * wsize
      modifies window, this`nextIn, this`s, this`adler
      ensures Text() && Summed() && n == (if |input| - old(nextIn) <= more then |input| - old(nextIn) else more)
      ensures nextIn == old(nextIn) + n && s == old(s) + input[old(nextIn)..nextIn]
    {
      hide AdlerOf;
      n := if |input| - nextIn > more then more else |input| - nextIn;
      ghost var s0 := s;
      SumNext(n);
      var p := 0;
      while p < n
        invariant 0 <= p <= n && nextIn == old(nextIn) && s == s0 && |s0| - base == at
        invariant summed ==> adler == AdlerOf(s0 + input[nextIn..nextIn + n])
        invariant forall i :: 0 <= i < at ==> window[i] == s0[base + i]
        invariant forall i :: at <= i < at + p ==> window[i] == input[nextIn + i - at]
      {
        window[at + p] := input[nextIn + p];
        p := p + 1;
      }
      s := s + input[nextIn..nextIn + n];
      nextIn := nextIn + n;
    }

    /** The running hash is set up again when there is a whole string. */
    method StartHash()
      requires Shapes() && Text() && base + strstart + 1 < |s|
      modifies this`insH
      ensures RollsAt(strstart)
    {
      hide Next, First, Rolls;
      insH := First(window[strstart]);
      insH := Next(bits, insH, window[strstart + 1]);
      RollStart(bits, s[base + strstart], s[base + strstart + 1]);
    }

    /** fill_window.  Stream positions do not move; only the window does. */
    method FillWindow()
      requires Valid() && lookahead < MIN_LOOKAHEAD && matchStart < UINT
      modifies window, head, prev, this`base, this`strstart, this`lookahead, this`matchStart, this`blockStart,
               this`nextIn, this`s, this`insH, this`adler
      ensures Valid() && matchStart < UINT && input == old(input) && old(nextIn) <= nextIn <= |input|
      ensures base + strstart == old(base) + old(strstart) && base + blockStart == old(base) + old(blockStart)
      ensures Sub32(strstart, matchStart) == Sub32(old(strstart), old(matchStart))
      ensures strstart + MIN_LOOKAHEAD <= 2 * wsize && (lookahead >= MIN_LOOKAHEAD || nextIn == |input|)
      ensures s == old(s) + input[old(nextIn)..nextIn] && base >= old(base)
      ensures (strstart == old(strstart) || strstart >= wsize - MIN_LOOKAHEAD)
      ensures forall i: nat :: i < wsize && old(LegitSlot(i)) ==> LegitSlot(i)
    {
      hide Chains, Rolls, AdlerOf, HashSize, Pow2, Sub32;
      ghost var p0, b0, d0 := base + strstart, base + blockStart, Sub32(strstart, matchStart);
      ghost var s0, n0 := s, nextIn;
      ReadNone(s0, input, n0);
      while true
        invariant Valid() && matchStart < UINT && n0 <= nextIn <= |input| && base + strstart == p0
        invariant base + blockStart == b0 && base >= old(base)
        invariant Sub32(strstart, matchStart) == d0 && s == s0 + input[n0..nextIn] && lookahead < MIN_LOOKAHEAD
        invariant forall i: nat :: i < wsize && old(LegitSlot(i)) ==> LegitSlot(i)
        invariant strstart == old(strstart) || strstart >= wsize - MIN_LOOKAHEAD
        decreases |input| - nextIn
      {
        hide Chains, Rolls, AdlerOf, HashSize, Pow2, Sub32;
        var more := 2 * wsize - lookahead - strstart;
        if strstart >= wsize + (wsize - MIN_LOOKAHEAD) {
          Slide();
          more := more + wsize;
        }
        if nextIn == |input| {
          return;
        }
        ghost var before, k := s, nextIn;
        ReadMore(more);
        ReadOn(s0, input, n0, k, nextIn);
        if lookahead >= MIN_LOOKAHEAD || nextIn == |input| {
          return;
        }
      }
    }

    /** Read, and keep the chains and the hash for the longer stream. */
    method ReadMore(more: nat)
      requires Valid() && nextIn < |input| && more == 2 * wsize - lookahead - strstart && more > 0
      modifies window, this`lookahead, this`nextIn, this`s, this`insH, this`adler
      ensures Valid() && nextIn > old(nextIn) && s == old(s) + input[old(nextIn)..nextIn] && lookahead > old(lookahead)
    {
      hide Chains, Rolls, AdlerOf, HashSize, Pow2;
      ghost var s0 := s;
      var n := ReadBuf(strstart + lookahead, more);
      lookahead := lookahead + n;
      ChainsLater(bits, head[..], prev[..], s0, s, base, ins, wbits, base + strstart, base + strstart);
      if lookahead >= MIN_MATCH {
        StartHash();
      }
    }

    /** CLEAR_HASH: the strings so far will not be found again. */
    method ClearHash()
      requires Valid()
      modifies head, this`ins
      ensures Valid() && ins == {} && forall h :: 0 <= h < head.Length ==> head[h] == 0
    {
      hide Chains, Rolls, AdlerOf, HashSize, Pow2;
      ghost var hs: seq<nat> := head[..];
      var n := 0;
      while n < head.Length
        invariant 0 <= n <= head.Length && ins == old(ins) && forall h :: 0 <= h < n ==> head[h] == 0
      {
        head[n] := 0;
        n := n + 1;
      }
      ClearForgets(bits, hs, head[..], prev[..], s, base, ins, wbits, base + strstart);
      ins := {};
    }

    // ---------- moving on ----------

    /** The current string has been inserted, if it is whole. */
    ghost predicate Entered()
      reads this`strstart, this`lookahead, this`insH, this`nextIn, this`input, this`adler, this`base, this`s, this`ins,
            window, head, prev
    {
      && Shapes() && Text() && Summed() && |s| == base + strstart + lookahead && ChainsAt(strstart + 1)
      && (lookahead >= MIN_MATCH ==> RollsAt(strstart + 1)) && (base == 0 || strstart >= wsize - MIN_LOOKAHEAD)
    }

    /** The step of the loops that inserts the current string. */
    method Enter(hashHead: nat) returns (m: nat)
      requires Valid() && hashed
      modifies this`insH, this`ins, head, prev
      ensures Entered() && (lookahead < MIN_MATCH ==> m == hashHead) && Later(old(ins), ins, base + strstart)
      ensures ins == old(ins) + if lookahead >= MIN_MATCH then {base + strstart} else {}
      ensures lookahead >= MIN_MATCH ==> Latest(bits, s, old(ins), base, base + strstart, m)
      ensures base + strstart !in old(ins)
      ensures lookahead >= MIN_MATCH && m != 0 ==> base + m in ins && m < strstart && LegitSlot(Slot(m, wbits))
      ensures lookahead >= MIN_MATCH && m != 0 ==>
                base + m + 2 < |s| && HashAt(bits, s, base + m) == HashAt(bits, s, base + strstart)
      ensures forall i: nat :: i < wsize && old(LegitSlot(i)) ==> LegitSlot(i)
    {
      hide Chains, Rolls, AdlerOf, HashSize, Pow2, HashAt, Slot;
      NotYetIn(bits, head[..], prev[..], s, base, ins, wbits, base + strstart);
      m := hashHead;
      if lookahead >= MIN_MATCH {
        m := InsertString(strstart);
      } else {
        ChainsLater(bits, head[..], prev[..], s, s, base, ins, wbits, base + strstart, base + strstart + 1);
      }
    }

    /** One byte on. */
    method Advance()
      requires Entered() && lookahead >= 1
      modifies this`strstart, this`lookahead
      ensures Valid() && strstart == old(strstart) + 1 && lookahead == old(lookahead) - 1
    {
      hide Chains, Rolls, AdlerOf, HashSize, Pow2;
      strstart := strstart + 1;
      lookahead := lookahead - 1;
    }

    /**
     Go on to the end of the lookahead without inserting anything, but not beyond `limit`; what is
     beyond becomes lookahead again.
     */
    method TakeAll(limit: nat) returns (cut: bool)
      requires Valid() && !hashed && lookahead >= 1 && strstart < limit
      modifies this`strstart, this`lookahead
      ensures Valid() && strstart + lookahead == old(strstart) + old(lookahead) && strstart > old(strstart)
      ensures if cut then strstart == limit else strstart < limit && lookahead == 0
    {
      hide Chains, Rolls, AdlerOf, HashSize, Pow2;
      ghost var p := strstart;
      strstart := strstart + lookahead;
      lookahead := 0;
      cut := strstart == 0 || strstart >= limit;
      if cut {
        lookahead := strstart - limit;
        strstart := limit;
      }
      ChainsLater(bits, head[..], prev[..], s, s, base, ins, wbits, base + p, base + strstart);
    }

    /** A head of a chain that an insertion has returned. */
    ghost predicate Linked(m: nat)
      requires Shapes()
      reads this`base, this`ins, prev
    {
      m < 2 * wsize && (m != 0 ==> LegitSlot(Slot(m, wbits)))
    }

    /** Insert the current string; all strings after `from` have been inserted. */
    method InsertNext(ghost ins0: set<nat>, ghost from: nat) returns (m: nat)
      requires Shapes() && Text() && ChainsAt(strstart) && base + strstart + 2 < |s| && RollsAt(strstart)
      requires ins0 <= ins && Later(ins0, ins, from) && from <= base + strstart && AllIn(ins, from + 1, base + strstart)
      modifies this`insH, this`ins, head, prev
      ensures Text() && ChainsAt(strstart + 1) && RollsAt(strstart + 1) && Linked(m)
      ensures ins0 <= ins && Later(ins0, ins, from) && AllIn(ins, from + 1, base + strstart + 1)
      ensures forall i: nat :: i < wsize && old(LegitSlot(i)) ==> LegitSlot(i)
    {
      hide Chains, Rolls, AdlerOf, HashSize, Pow2, HashAt, Slot, AllIn, Later;
      AllInMore(ins, from + 1, base + strstart);
      LaterMore(ins0, ins, from, base + strstart);
      m := InsertString(strstart);
    }

    /** `n` bytes on, inserting every string on the way. */
    method AdvanceInserting(n: nat, hashHead: nat) returns (m: nat)
      requires Entered() && n >= 1 && lookahead >= n + MIN_MATCH
      modifies this`strstart, this`lookahead, this`insH, this`ins, head, prev
      ensures Valid() && strstart == old(strstart) + n && lookahead == old(lookahead) - n
      ensures forall i: nat :: i < wsize && old(LegitSlot(i)) ==> LegitSlot(i)
      ensures (m == hashHead || Linked(m)) && Later(old(ins), ins, base + old(strstart))
      ensures old(ins) <= ins && AllIn(ins, base + old(strstart) + 1, base + strstart)
    {
      hide Chains, Rolls, AdlerOf, HashSize, Pow2, HashAt, Slot, AllIn, Later, Text, LegitSlot;
      lookahead := lookahead - n;
      m := hashHead;
      AllInNone(ins, base + strstart + 1, base + strstart + 1);
      LaterSelf(ins, base + strstart);
      var k := n - 1;
      while k != 0
        invariant 0 <= k <= n - 1 && strstart == old(strstart) + (n - 1 - k) && lookahead == old(lookahead) - n
        invariant Shapes() && Text() && ChainsAt(strstart + 1) && RollsAt(strstart + 1)
        invariant forall i: nat :: i < wsize && old(LegitSlot(i)) ==> LegitSlot(i)
        invariant (m == hashHead || Linked(m)) && Later(old(ins), ins, base + old(strstart))
        invariant old(ins) <= ins && AllIn(ins, base + old(strstart) + 1, base + strstart + 1)
        decreases k
      {
        hide Chains, Rolls, AdlerOf, HashSize, Pow2, HashAt, Slot, AllIn, Later, Text, LegitSlot;
        strstart := strstart + 1;
        m := InsertNext(old(ins), base + old(strstart));
        k := k - 1;
      }
      strstart := strstart + 1;
    }

    /** `n` bytes on without inserting; the running hash is started again. */
    method AdvanceSkipping(n: nat)
      requires Entered() && 1 <= n <= lookahead && strstart + n + 1 < 2 * wsize
      modifies this`strstart, this`lookahead, this`insH
      ensures Valid() && strstart == old(strstart) + n && lookahead == old(lookahead) - n
    {
      hide Chains, Rolls, AdlerOf, HashSize, Pow2, Next, First;
      ChainsLater(bits, head[..], prev[..], s, s, base, ins, wbits, base + strstart + 1, base + strstart + n);
      lookahead := lookahead - n;
      strstart := strstart + n;
      // garbage if there are not two more bytes, but then it is not used
      insH := Next(bits, First(window[strstart]), window[strstart + 1]);
      if lookahead >= MIN_MATCH {
        RollStart(bits, s[base + strstart], s[base + strstart + 1]);
      }
    }

    lemma ChainsOn()
      requires ChainsAt(strstart)
      ensures ChainsAt(strstart + 1)
    {
      hide Chains;
      ChainsLater(bits, head[..], prev[..], s, s, base, ins, wbits, base + strstart, base + strstart + 1);
    }

    /** `n` bytes on, inserting every string that is whole. */
    method AdvanceLazy(n: nat, hashHead: nat) returns (m: nat)
      requires Entered() && 2 <= n <= lookahead && strstart + lookahead >= MIN_MATCH
      modifies this`strstart, this`lookahead, this`insH, this`ins, head, prev
      ensures Valid() && strstart == old(strstart) + n && lookahead == old(lookahead) - n
      ensures forall i: nat :: i < wsize && old(LegitSlot(i)) ==> LegitSlot(i)
      ensures (m == hashHead || Linked(m)) && Later(old(ins), ins, base + old(strstart))
      ensures old(ins) <= ins && AllIn(ins, base + old(strstart) + 1, Min(base + strstart, |s| - 2))
    {
      hide Chains, Rolls, AdlerOf, HashSize, Pow2, HashAt, Slot, AllIn, Later, Text, LegitSlot, ChainsAt, RollsAt;
      var maxInsert := strstart + lookahead - MIN_MATCH;
      lookahead := lookahead - n;
      m := hashHead;
      AllInNone(ins, base + strstart + 1, Min(base + strstart + 1, |s| - 2));
      LaterSelf(ins, base + strstart);
      var k := n - 1;
      while k != 0
        invariant 0 <= k <= n - 1 && strstart == old(strstart) + (n - 1 - k) && lookahead == old(lookahead) - n
        invariant Shapes() && Text() && ChainsAt(strstart + 1) && (strstart <= maxInsert ==> RollsAt(strstart + 1))
        invariant forall i: nat :: i < wsize && old(LegitSlot(i)) ==> LegitSlot(i)
        invariant (m == hashHead || Linked(m)) && Later(old(ins), ins, base + old(strstart))
        invariant old(ins) <= ins && AllIn(ins, base + old(strstart) + 1, Min(base + strstart + 1, |s| - 2))
        decreases k
      {
        hide Chains, Rolls, AdlerOf, HashSize, Pow2, HashAt, Slot, AllIn, Later, Text, LegitSlot, ChainsAt, RollsAt;
        strstart := strstart + 1;
        if strstart <= maxInsert {
          m := InsertNext(old(ins), base + old(strstart));
        } else {
          ChainsOn();
        }
        k := k - 1;
      }
      strstart := strstart + 1;
    }
  }

  lemma InsertedLegit(bits: nat, head: seq<nat>, prev: seq<nat>, s: seq<byte>, base: nat, ins: set<nat>, wbits: nat,
      lim: nat, m: nat)
    requires Chains(bits, head, prev, s, base, ins, wbits, lim) && base + m in ins
    ensures prev[Slot(m, wbits)] != 0 ==> base + prev[Slot(m, wbits)] in ins
  {
    hide Bucket, HashOf, Slot, Pow2;
    SlotBase(base, m, wbits);
  }

  lemma SizeRange(wbits: nat)
    requires 9 <= wbits <= 15
    ensures 512 <= Pow2(wbits) <= 32768
  {
    hide Pow2;
    Pow2Values();
    Pow2Mono(9, wbits);
    Pow2Mono(wbits, 15);
  }

  lemma ZeroSlot(wbits: nat)
    ensures Slot(0, wbits) == 0
  {
    LowSmall(0, wbits);
  }

  lemma RollsGives(bits: nat, h: bv32, x: byte, y: byte, z: byte)
    requires Rolls(bits, h, x, y)
    ensures Next(bits, h, z) == HashOf(bits, x, y, z)
  {
    hide Next, HashOf;
  }

  /** No string of the bucket of `p` is later than `m`, except one at window index 0. */
  ghost predicate Latest(bits: nat, s: seq<byte>, ins: set<nat>, base: nat, p: nat, m: nat) {
    forall a: nat :: InBucket(bits, s, ins, a, p) && a > base ==> m != 0 && base + m >= a
  }

  lemma NotYetIn(bits: nat, head: seq<nat>, prev: seq<nat>, s: seq<byte>, base: nat, ins: set<nat>, wbits: nat,
      lim: nat)
    requires Chains(bits, head, prev, s, base, ins, wbits, lim)
    ensures forall a: nat :: a in ins ==> a < lim
  {
    hide Heads, Legit, Links, Newest, LinksNewest;
  }

  lemma HeadLatest(bits: nat, head: seq<nat>, prev: seq<nat>, s: seq<byte>, base: nat, ins: set<nat>, wbits: nat,
      lim: nat, p: nat)
    requires Chains(bits, head, prev, s, base, ins, wbits, lim) && p + 2 < |s| && HashAt(bits, s, p) < |head|
    ensures Latest(bits, s, ins, base, p, head[HashAt(bits, s, p)])
  {
    hide Bucket, HashOf, Slot, Pow2, Heads, Legit, Links, LinksNewest;
  }

  /** What a bucket starts with. */
  lemma HeadIs(bits: nat, head: seq<nat>, prev: seq<nat>, s: seq<byte>, base: nat, ins: set<nat>, wbits: nat, lim: nat,
      h: nat)
    requires Chains(bits, head, prev, s, base, ins, wbits, lim) && h < |head|
    ensures head[h] != 0 ==>
              && base + head[h] in ins && base + head[h] < lim && base + head[h] + 2 < |s|
              && HashAt(bits, s, base + head[h]) == h
  {
    hide Bucket, HashOf, Slot, Pow2;
  }

  lemma ReadOn(s: seq<byte>, input: seq<byte>, a: nat, b: nat, c: nat)
    requires a <= b <= c <= |input|
    ensures s + input[a..b] + input[b..c] == s + input[a..c]
  {
    assert input[a..b] + input[b..c] == input[a..c];
    PutOn(s, input[a..b], input[b..c]);
  }

  lemma ReadNone(s: seq<byte>, input: seq<byte>, a: nat)
    requires a <= |input|
    ensures s + input[a..a] == s
  {
    assert input[a..a] == [];
  }

  lemma PutOn(x: seq<byte>, y: seq<byte>, z: seq<byte>)
    ensures x + y + z == x + (y + z)
  {
  }
}
