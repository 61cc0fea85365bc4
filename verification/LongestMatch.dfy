/**
 longest_match and longest_match_fast: what they find is a match, although the third byte is not
 compared, and no place they look at has a longer one.
 */
module LongestMatch {
  import opened Bits
  import opened Tokens
  import opened HashLaws
  import opened RollingHash
  import opened HashChains
  import opened Dictionary

  /** The bytes from stream position `a` on repeat those `dist` back, up to `n` of them that have been read. */
  ghost predicate Repeats(s: seq<byte>, a: nat, dist: nat, n: nat)
    requires dist <= a
  {
    forall k :: a <= k < a + n && k < |s| ==> s[k] == s[k - dist]
  }

  /** The `n` bytes at `cur` are those at `scan`. */
  ghost predicate Agree(w: seq<byte>, cur: nat, scan: nat, n: nat)
    requires cur + n <= |w| && scan + n <= |w|
  {
    w[cur..cur + n] == w[scan..scan + n]
  }

  /** No match of more than `n` bytes at `cur`. */
  ghost predicate NoLonger(w: seq<byte>, cur: nat, scan: nat, n: nat) {
    n >= MAX_MATCH || (cur + n < |w| && scan + n < |w| && !Agree(w, cur, scan, n + 1))
  }

  lemma Differ(w: seq<byte>, cur: nat, scan: nat, k: nat, n: nat)
    requires cur + n < |w| && scan + n < |w| && k <= n && w[cur + k] != w[scan + k]
    ensures NoLonger(w, cur, scan, n)
  {
    assert w[cur..cur + n + 1][k] != w[scan..scan + n + 1][k];
  }

  lemma NoLongerMore(w: seq<byte>, cur: nat, scan: nat, n: nat, m: nat)
    requires NoLonger(w, cur, scan, n) && n <= m && cur + MAX_MATCH < |w| && scan + MAX_MATCH < |w|
    ensures NoLonger(w, cur, scan, m)
  {
    if m < MAX_MATCH {
      assert w[cur..cur + n + 1] == w[cur..cur + m + 1][..n + 1]
             && w[scan..scan + n + 1] == w[scan..scan + m + 1][..n + 1];
    }
  }

  /** Compare from the fourth byte on, up to the longest match. */
  method MatchLength(window: array<byte>, scan: nat, cur: nat) returns (len: nat)
    requires scan + MAX_MATCH < window.Length && cur <= scan
    ensures MIN_MATCH <= len <= MAX_MATCH
    ensures forall k :: scan + MIN_MATCH <= k < scan + len ==> window[k] == window[k - (scan - cur)]
    ensures len < MAX_MATCH ==> window[cur + len] != window[scan + len]
  {
    // eight comparisons for each check against the end, which comes out at the same byte
    len := MIN_MATCH;
    while len < MAX_MATCH && window[cur + len] == window[scan + len]
      invariant MIN_MATCH <= len <= MAX_MATCH
      invariant forall k :: scan + MIN_MATCH <= k < scan + len ==> window[k] == window[k - (scan - cur)]
    {
      len := len + 1;
    }
  }

  /** A place the search may look at; when the current string is whole, it is in the same bucket. */
  ghost predicate Candidate(d: Dict, cur: nat)
    requires d.Shapes()
    reads d, d.head, d.prev
  {
    && 1 <= cur <= d.strstart && d.strstart - cur <= d.wsize - MIN_LOOKAHEAD
    && (d.prev[Slot(cur, d.wbits)] != 0 ==> d.base + d.prev[Slot(cur, d.wbits)] in d.ins)
    && (d.lookahead >= MIN_MATCH ==> cur < d.strstart && d.base + cur in d.ins && d.base + d.strstart + 2 < |d.s|
                                     && HashAt(d.bits, d.s, d.base + cur) == HashAt(d.bits, d.s, d.base + d.strstart))
  }

  /** Ready for a search: the current string has been inserted if it is whole. */
  ghost predicate Searching(d: Dict)
    reads d, d.window, d.head, d.prev
  {
    && d.Shapes() && d.Text() && |d.s| == d.base + d.strstart + d.lookahead && d.ChainsAt(d.strstart + 1)
    && d.strstart + MIN_LOOKAHEAD <= 2 * d.wsize
  }

  lemma ThirdAgrees(d: Dict, cur: nat)
    requires Searching(d) && Candidate(d, cur) && d.lookahead >= MIN_MATCH
    requires d.window[cur] == d.window[d.strstart] && d.window[cur + 1] == d.window[d.strstart + 1]
    ensures d.window[cur + 2] == d.window[d.strstart + 2]
  {
    hide Chains, HashOf, Slot;
    var a, b := d.base + cur, d.base + d.strstart;
    assert d.s[a] == d.window[cur] && d.s[a + 1] == d.window[cur + 1] && d.s[a + 2] == d.window[cur + 2];
    assert d.s[b] == d.window[d.strstart] && d.s[b + 1] == d.window[d.strstart + 1]
           && d.s[b + 2] == d.window[d.strstart + 2];
    BucketInjective(HashOf(d.bits, d.s[a], d.s[a + 1], d.s[a + 2]), HashOf(d.bits, d.s[b], d.s[b + 1], d.s[b + 2]));
    SameThird(d.bits, d.s[a], d.s[a + 1], d.s[a + 2], d.s[b + 2]);
  }

  lemma BucketInjective(g: bv32, h: bv32)
    requires Bucket(g) == Bucket(h)
    ensures g == h
  {
    BucketBack(g);
    BucketBack(h);
  }

  lemma BucketBack(h: bv32)
    ensures (Bucket(h) as int) as bv32 == h
  {
  }

  lemma Agreed(d: Dict, cur: nat, len: nat)
    requires Searching(d) && Candidate(d, cur) && d.lookahead >= MIN_MATCH && len <= MAX_MATCH
    requires d.window[cur] == d.window[d.strstart] && d.window[cur + 1] == d.window[d.strstart + 1]
    requires forall k ::
               d.strstart + MIN_MATCH <= k < d.strstart + len ==> d.window[k] == d.window[k - (d.strstart - cur)]
    ensures Repeats(d.s, d.base + d.strstart, d.strstart - cur, len)
  {
    hide Chains, HashAt, Slot;
    ThirdAgrees(d, cur);
    var p, dist := d.strstart, d.strstart - cur;
    forall k | d.base + p <= k < d.base + p + len && k < |d.s| ensures d.s[k] == d.s[k - dist] {
      var i := k - d.base;
      assert d.window[i] == d.s[d.base + i] && d.window[i - dist] == d.s[d.base + (i - dist)];
    }
  }

  /** The next place on the chain. */
  lemma NextCandidate(d: Dict, cur: nat, q: nat)
    requires Searching(d) && Candidate(d, cur) && q == d.prev[Slot(cur, d.wbits)] && q > 0
    requires d.strstart - q <= d.wsize - MIN_LOOKAHEAD
    ensures Candidate(d, q)
  {
    hide HashOf, Bucket, Slot, Pow2;
    var a := d.base + cur;
    SlotBase(d.base, cur, d.wbits);
    SlotBase(d.base, q, d.wbits);
    assert d.base + q in d.ins;
    assert Inserted(d.ins, d.s, d.base + d.strstart + 1);
    assert Legit(d.prev[..], d.base, d.ins, d.wbits);
    if d.lookahead >= MIN_MATCH {
      assert LinkOk(d.bits, d.prev[..], d.s, d.base, d.wbits, a);
    }
  }

  /** A match of `len` bytes starts at window index `m`, which is the place of a string in the table. */
  ghost predicate MatchAt(d: Dict, m: nat, len: nat)
    reads d`strstart, d`base, d`s, d`ins
  {
    && m < d.strstart && d.strstart - m <= d.wsize - MIN_LOOKAHEAD
    && Repeats(d.s, d.base + d.strstart, d.strstart - m, len)
    && d.base + m in d.ins
  }

  /** Look at one candidate: a longer match there, or not. */
  method TryCandidate(d: Dict, cur: nat, best: nat, scanEnd1: byte, scanEnd: byte) returns (len: nat)
    requires Searching(d) && Candidate(d, cur) && 1 <= best <= MAX_MATCH
    requires scanEnd1 == d.window[d.strstart + best - 1] && scanEnd == d.window[d.strstart + best]
    ensures len <= MAX_MATCH && (len > best && d.lookahead >= MIN_MATCH ==> MatchAt(d, cur, len))
    ensures NoLonger(d.window[..], cur, d.strstart, if len > best then len else best)
  {
    hide *;
    Sizes();
    SearchBound(d);
    CandidateBound(d, cur);
    var scan := d.strstart;
    ghost var w := d.window[..];
    if d.window[cur + best] != scanEnd || d.window[cur + best - 1] != scanEnd1
       || d.window[cur] != d.window[scan] || d.window[cur + 1] != d.window[scan + 1] {
      ghost var k := if w[cur + best] != w[scan + best] then best
                     else if w[cur + best - 1] != w[scan + best - 1] then best - 1
                     else if w[cur] != w[scan] then 0 else 1;
      Differ(w, cur, scan, k, best);
      return 0;
    }
    len := MatchLength(d.window, scan, cur);
    Longest(w, cur, scan, len, best);
    if d.lookahead >= MIN_MATCH {
      Agreed(d, cur, len);
      IsMatch(d, cur, len);
    }
  }

  lemma Longest(w: seq<byte>, cur: nat, scan: nat, len: nat, best: nat)
    requires len <= MAX_MATCH && best <= MAX_MATCH && cur + MAX_MATCH < |w| && scan + MAX_MATCH < |w|
    requires (len < MAX_MATCH ==> w[cur + len] != w[scan + len])
    ensures NoLonger(w, cur, scan, if len > best then len else best)
  {
    if len < MAX_MATCH {
      Differ(w, cur, scan, len, if len > best then len else best);
    }
  }

  /** The places that a search looks at: those linked from `cur`, above `limit`, at most `n` of them. */
  ghost function Places(prev: seq<nat>, wbits: nat, cur: nat, limit: nat, n: nat): seq<nat>
    requires |prev| == Pow2(wbits)
    decreases n
  {
    var q := prev[Slot(cur, wbits)];
    [cur] + if n <= 1 || q <= limit then [] else Places(prev, wbits, q, limit, n - 1)
  }

  /** None of the places has a match of more than `n` bytes. */
  ghost predicate NoneLonger(w: seq<byte>, places: seq<nat>, scan: nat, n: nat) {
    forall i :: 0 <= i < |places| ==> NoLonger(w, places[i], scan, n)
  }

  lemma OneMorePlace(w: seq<byte>, places: seq<nat>, cur: nat, scan: nat, n: nat, m: nat)
    requires NoneLonger(w, places, scan, n) && n <= m && NoLonger(w, cur, scan, m) && scan + MAX_MATCH < |w|
    requires forall i :: 0 <= i < |places| ==> places[i] <= scan
    ensures NoneLonger(w, places + [cur], scan, m)
  {
    hide NoLonger;
    forall i | 0 <= i < |places| ensures NoLonger(w, places[i], scan, m) {
      NoLongerMore(w, places[i], scan, n, m);
    }
  }

  /** The chain still to be looked at: what comes after `cur`. */
  lemma PlacesNext(prev: seq<nat>, wbits: nat, done: seq<nat>, cur: nat, limit: nat, n: nat)
    requires |prev| == Pow2(wbits)
    ensures done + Places(prev, wbits, cur, limit, n)
         == if n <= 1 || prev[Slot(cur, wbits)] <= limit then done + [cur] else done + [cur] + Places(prev, wbits,
             prev[Slot(cur, wbits)], limit, n - 1)
  {
    hide Slot, Pow2;
  }

  /** How far back a search may go. */
  function Limit(d: Dict): nat
    reads d`strstart
  {
    if d.strstart > d.wsize - MIN_LOOKAHEAD then d.strstart - (d.wsize - MIN_LOOKAHEAD) else 0
  }

  // ---------- what the chain has ----------

  /** The strings of the bucket of `p` in the table between `a` and `b`. */
  ghost function Newer(bits: nat, s: seq<byte>, ins: set<nat>, p: nat, a: nat, b: nat): set<nat> {
    set x | x in ins && a < x < b && InBucket(bits, s, ins, x, p)
  }

  /** The `n` bytes at `p` repeat those at `a`, which is in the table and no further back than `far`. */
  ghost predicate Rival(s: seq<byte>, ins: set<nat>, base: nat, p: nat, far: int, a: nat, n: nat) {
    a in ins && base < a < p <= a + far && MIN_MATCH <= n <= MAX_MATCH && p + n <= |s| && Repeats(s, p, p - a, n)
  }

  /**
   Only a match at least as long as at any of the `chain` latest places will do, or one of `nice` bytes,
   and never a shorter one than at the latest; up to `waived` bytes may be passed over.  As far back as
   allowed only the latest place counts.
   */
  ghost predicate Thorough(bits: nat, s: seq<byte>, ins: set<nat>, base: nat, p: nat, far: int, chain: nat, nice: nat,
      len: nat, waived: nat) {
    forall a: nat, n: nat :: Rival(s, ins, base, p, far, a, n) && |Newer(bits, s, ins, p, a, p)| < chain
                             && (p == a + far ==> Newer(bits, s, ins, p, a, p) == {}) ==>
      n <= waived || len >= n || (len >= nice && Newer(bits, s, ins, p, a, p) != {})
  }

  /** A place is reached if there are not too many later ones. */
  lemma {:induction false} PlacesReach(bits: nat, prev: seq<nat>, s: seq<byte>, base: nat, ins: set<nat>, wbits: nat,
      lim: nat, cur: nat, limit: nat, n: nat, a: nat, p: nat)
    requires |prev| == Pow2(wbits) && Slot(base, wbits) == 0 && a + Pow2(wbits) >= lim && base + limit < a
    requires Links(bits, prev, s, base, ins, wbits, lim) && LinksNewest(bits, prev, s, base, ins, wbits, lim)
    requires Legit(prev, base, ins, wbits)
    requires InBucket(bits, s, ins, base + cur, p) && InBucket(bits, s, ins, a, p) && a <= base + cur
    requires |Newer(bits, s, ins, p, a, base + cur + 1)| < n
    ensures a - base in Places(prev, wbits, cur, limit, n)
    decreases n
  {
    hide HashAt, Slot, Pow2, InBucket, Links, LinksNewest, Legit, Newer;
    if a < base + cur {
      var c := base + cur;
      var q := prev[Slot(cur, wbits)];
      SameBucket(bits, s, ins, a, c, p);
      LinkFacts(bits, prev, s, base, ins, wbits, lim, cur, a);
      NextBucket(bits, s, ins, base + q, c, p);
      FewerNewer(bits, s, ins, p, a, base + q + 1, c + 1, c);
      PlacesReach(bits, prev, s, base, ins, wbits, lim, q, limit, n - 1, a, p);
    }
  }

  /** The link of a recent place leads to the latest string before it. */
  lemma LinkFacts(bits: nat, prev: seq<nat>, s: seq<byte>, base: nat, ins: set<nat>, wbits: nat, lim: nat, cur: nat,
      a: nat)
    requires |prev| == Pow2(wbits) && Slot(base, wbits) == 0 && base + cur + Pow2(wbits) >= lim
    requires Links(bits, prev, s, base, ins, wbits, lim) && LinksNewest(bits, prev, s, base, ins, wbits, lim)
    requires Legit(prev, base, ins, wbits)
    requires base < a < base + cur && InBucket(bits, s, ins, a, base + cur) && base + cur in ins
    ensures var q := prev[Slot(cur, wbits)];
            && q != 0 && a <= base + q < base + cur && base + q in ins && base + cur + 2 < |s|
            && HashAt(bits, s, base + q) == HashAt(bits, s, base + cur)
  {
    hide HashAt, Slot, Pow2, InBucket;
    SlotBase(base, cur, wbits);
    assert LinkNewest(bits, prev, s, base, ins, wbits, base + cur) && LinkOk(bits, prev, s, base, wbits, base + cur);
  }

  lemma SameBucket(bits: nat, s: seq<byte>, ins: set<nat>, a: nat, c: nat, p: nat)
    requires InBucket(bits, s, ins, a, p) && InBucket(bits, s, ins, c, p)
    ensures InBucket(bits, s, ins, a, c) && c in ins
  {
  }

  lemma NextBucket(bits: nat, s: seq<byte>, ins: set<nat>, q: nat, c: nat, p: nat)
    requires q in ins && q < c && c + 2 < |s| && HashAt(bits, s, q) == HashAt(bits, s, c)
    requires InBucket(bits, s, ins, c, p)
    ensures InBucket(bits, s, ins, q, p)
  {
  }

  lemma FewerNewer(bits: nat, s: seq<byte>, ins: set<nat>, p: nat, a: nat, b: nat, c: nat, m: nat)
    requires a < m < c && b <= m && InBucket(bits, s, ins, m, p)
    ensures |Newer(bits, s, ins, p, a, b)| < |Newer(bits, s, ins, p, a, c)|
  {
    hide InBucket;
    IsIn(bits, s, ins, m, p);
    var x, y := Newer(bits, s, ins, p, a, b), Newer(bits, s, ins, p, a, c);
    assert m in y && m !in x;
    Smaller(x, y);
  }

  lemma IsIn(bits: nat, s: seq<byte>, ins: set<nat>, c: nat, p: nat)
    requires InBucket(bits, s, ins, c, p)
    ensures c in ins
  {
  }

  lemma Smaller(x: set<nat>, y: set<nat>)
    requires x < y
    ensures |x| < |y|
  {
    var e :| e in y && e !in x;
    assert y == x + (y - x) && e in y - x;
  }

  /** The loop of longest_match: the best of the places looked at, all of them unless one is good enough. */
  method Search(d: Dict, hashHead: nat, prevLength: nat, chain0: nat, nice: nat) returns (best: nat, matchStart: nat)
    requires Searching(d) && Candidate(d, hashHead) && 1 <= prevLength <= MAX_MATCH && chain0 >= 1
    ensures prevLength <= best <= MAX_MATCH && (matchStart == d.matchStart || matchStart <= d.strstart)
    ensures best > prevLength && d.lookahead >= MIN_MATCH ==> MatchAt(d, matchStart, best)
    ensures best >= nice
            || NoneLonger(d.window[..], Places(d.prev[..], d.wbits, hashHead, Limit(d), chain0), d.strstart, best)
    ensures NoLonger(d.window[..], hashHead, d.strstart, best)
  {
    hide *;
    Sizes();
    SearchBound(d);
    PlacesFit(d);
    best := prevLength;
    var scan: nat, cur: nat, chain := d.strstart, hashHead, chain0;
    var limit := Limit(d);
    var scanEnd1, scanEnd := d.window[scan + best - 1], d.window[scan + best];
    matchStart := d.matchStart;
    ghost var w, prev, done: seq<nat> := d.window[..], d.prev[..], [];
    ghost var all := Places(prev, d.wbits, cur, limit, chain);
    assert [] + all == all;
    while true
      invariant Candidate(d, cur) && chain >= 1 && prevLength <= best <= MAX_MATCH
      invariant all == done + Places(prev, d.wbits, cur, limit, chain) && NoneLonger(w, done, scan, best)
      invariant forall i :: 0 <= i < |done| ==> done[i] <= scan
      invariant if done == [] then cur == hashHead else done[0] == hashHead
      invariant scanEnd1 == d.window[scan + best - 1] && scanEnd == d.window[scan + best]
      invariant best > prevLength && d.lookahead >= MIN_MATCH ==> MatchAt(d, matchStart, best)
      invariant matchStart == d.matchStart || matchStart <= d.strstart
      decreases chain
    {
      hide *;
      PlacesFit(d);
      var n := TryCandidate(d, cur, best, scanEnd1, scanEnd);
      CandidateBound(d, cur);
      OneMorePlace(w, done, cur, scan, best, if n > best then n else best);
      PlacesNext(prev, d.wbits, done, cur, limit, chain);
      done := done + [cur];
      if n > best {
        matchStart := cur;
        best := n;
        if n >= nice {
          break;
        }
        scanEnd1, scanEnd := d.window[scan + best - 1], d.window[scan + best];
      }
      var q := d.prev[Slot(cur, d.wbits)];
      if q <= limit {
        break;
      }
      chain := chain - 1;
      if chain == 0 {
        break;
      }
      NextCandidate(d, cur, q);
      cur := q;
    }
    FirstPlace(w, done, scan, best);
  }

  lemma FirstPlace(w: seq<byte>, places: seq<nat>, scan: nat, n: nat)
    requires NoneLonger(w, places, scan, n) && places != []
    ensures NoLonger(w, places[0], scan, n)
  {
    hide NoLonger;
  }

  /**
   longest_match.  A result longer than `prevLength` is a match within reach and within the
   lookahead; unless the result is good enough, no place on the chain that could be looked at
   has a longer match.
   */
  method LongestMatch(d: Dict, hashHead: nat, prevLength: nat, maxChain: nat, goodMatch: nat, niceMatch: nat)
      returns (len: nat)
    requires Searching(d) && Candidate(d, hashHead) && 1 <= prevLength <= MAX_MATCH && maxChain >= 4
    modifies d`matchStart
    ensures len <= d.lookahead && len <= MAX_MATCH && (d.matchStart == old(d.matchStart) || d.matchStart <= d.strstart)
    ensures len > prevLength && len >= MIN_MATCH ==> MatchAt(d, d.matchStart, len)
    ensures d.lookahead >= 1 ==> len >= 1
    ensures (len >= niceMatch || len == d.lookahead)
            || NoneLonger(d.window[..], Places(d.prev[..], d.wbits, hashHead, Limit(d),
                if prevLength >= goodMatch then maxChain / 4 else maxChain), d.strstart, len)
    ensures len == d.lookahead || NoLonger(d.window[..], hashHead, d.strstart, len)
    ensures Head(d, hashHead) ==>
              Thorough(d.bits, d.s, d.ins, d.base, d.base + d.strstart, d.wsize - MIN_LOOKAHEAD,
                  if prevLength >= goodMatch then maxChain / 4 else maxChain, niceMatch, len, 0)
  {
    hide Chains, Slot, HashAt, Candidate, Repeats, MatchAt, Searching, Places, NoneLonger, NoLonger, Pow2, Head,
         Thorough;
    SearchBound(d);
    var chain, nice := maxChain, niceMatch;
    if prevLength >= goodMatch {
      chain := chain / 4;
    }
    if nice > d.lookahead {
      nice := d.lookahead;
    }
    var best, matchStart := Search(d, hashHead, prevLength, chain, nice);
    len := if best <= d.lookahead then best else d.lookahead;
    if len > prevLength && len >= MIN_MATCH {
      MatchLess(d, matchStart, best, len);
    }
    if Head(d, hashHead) {
      AllFound(d, hashHead, if prevLength >= goodMatch then maxChain / 4 else maxChain, niceMatch, len);
    }
    d.matchStart := matchStart;
  }

  /** The place is the latest string of the bucket of the current one. */
  ghost predicate Head(d: Dict, hashHead: nat)
    reads d`lookahead, d`s, d`ins, d`base, d`strstart
  {
    && (d.lookahead >= MIN_MATCH ==> Latest(d.bits, d.s, d.ins - {d.base + d.strstart}, d.base, d.base + d.strstart,
            hashHead))
  }

  /** All places that matter have been looked at. */
  lemma AllFound(d: Dict, hashHead: nat, chain: nat, nice: nat, len: nat)
    requires Searching(d) && Candidate(d, hashHead) && Head(d, hashHead) && len <= d.lookahead
    requires (len >= nice || len == d.lookahead)
             || NoneLonger(d.window[..], Places(d.prev[..], d.wbits, hashHead, Limit(d), chain), d.strstart, len)
    requires len == d.lookahead || NoLonger(d.window[..], hashHead, d.strstart, len)
    ensures Thorough(d.bits, d.s, d.ins, d.base, d.base + d.strstart, d.wsize - MIN_LOOKAHEAD, chain, nice, len, 0)
  {
    hide *;
    var p, far := d.base + d.strstart, d.wsize - MIN_LOOKAHEAD;
    Sizes();
    SearchBound(d);
    PlacesFit(d);
    forall a: nat, n: nat | Rival(d.s, d.ins, d.base, p, far, a, n)
                            && |Newer(d.bits, d.s, d.ins, p, a, p)| < chain
                            && (p == a + far ==> Newer(d.bits, d.s, d.ins, p, a, p) == {})
      ensures len >= n || (len >= nice && Newer(d.bits, d.s, d.ins, p, a, p) != {})
    {
      RivalIs(d, a, n);
      if len < n && Newer(d.bits, d.s, d.ins, p, a, p) == {} {
        IsHead(d, hashHead, a, n);
        NotLonger(d, a, n, len);
      } else if len < n && len < nice {
        RivalBucket(d.bits, d.s, d.ins, d.base, p, far, a, n);
        OnChain(d, hashHead, chain, a, n);
        Looked(d.window[..], Places(d.prev[..], d.wbits, hashHead, Limit(d), chain), d.strstart, len, a - d.base);
        NotLonger(d, a, n, len);
      }
    }
    ThoroughIs(d.bits, d.s, d.ins, d.base, p, d.wsize - MIN_LOOKAHEAD, chain, nice, len, 0);
  }

  lemma ThoroughIs(bits: nat, s: seq<byte>, ins: set<nat>, base: nat, p: nat, far: int, chain: nat, nice: nat,
      len: nat, waived: nat)
    ensures Thorough(bits, s, ins, base, p, far, chain, nice, len, waived) <==>
              forall a: nat, n: nat ::
                Rival(s, ins, base, p, far, a, n) && |Newer(bits, s, ins, p, a, p)| < chain
                && (p == a + far ==> Newer(bits, s, ins, p, a, p) == {}) ==>
                  n <= waived || len >= n || (len >= nice && Newer(bits, s, ins, p, a, p) != {})
  {
    hide Rival, Newer;
  }

  /** The current string itself does not matter. */
  lemma ThoroughBefore(bits: nat, s: seq<byte>, ins: set<nat>, base: nat, p: nat, far: int, chain: nat, nice: nat,
      len: nat, waived: nat, more: set<nat>)
    requires Thorough(bits, s, ins + more, base, p, far, chain, nice, len, waived) && more <= {p}
    ensures Thorough(bits, s, ins, base, p, far, chain, nice, len, waived)
  {
    hide InBucket, Repeats;
    forall a: nat, n: nat | Rival(s, ins, base, p, far, a, n) && |Newer(bits, s, ins, p, a, p)| < chain
                            && (p == a + far ==> Newer(bits, s, ins, p, a, p) == {})
      ensures n <= waived || len >= n || (len >= nice && Newer(bits, s, ins, p, a, p) != {})
    {
      assert Rival(s, ins + more, base, p, far, a, n);
      NewerBefore(bits, s, ins, more, p, a);
    }
  }

  lemma NewerBefore(bits: nat, s: seq<byte>, ins: set<nat>, more: set<nat>, p: nat, a: nat)
    requires more <= {p}
    ensures Newer(bits, s, ins + more, p, a, p) == Newer(bits, s, ins, p, a, p)
  {
    hide HashAt;
  }

  /** A longer result will do as well, and so will any if the search has found nothing. */
  lemma ThoroughMore(bits: nat, s: seq<byte>, ins: set<nat>, base: nat, p: nat, far: int, chain: nat, nice: nat,
      len: nat, len': nat, waived: nat)
    requires Thorough(bits, s, ins, base, p, far, chain, nice, len, 0)
    requires len' >= len || (len <= waived && len < nice) || (len < MIN_MATCH && len < nice)
    ensures Thorough(bits, s, ins, base, p, far, chain, nice, len', waived)
  {
    hide Newer, Repeats;
  }

  lemma ThoroughUp(bits: nat, s: seq<byte>, ins: set<nat>, base: nat, p: nat, far: int, chain: nat, nice: nat,
      len: nat, len': nat, waived: nat, waived': nat)
    requires Thorough(bits, s, ins, base, p, far, chain, nice, len, waived)
    requires len' >= len && (waived' >= waived || len' >= waived)
    ensures Thorough(bits, s, ins, base, p, far, chain, nice, len', waived')
  {
    hide Newer, Repeats;
  }

  /** A repeat of three bytes is in the same bucket. */
  lemma RivalBucket(bits: nat, s: seq<byte>, ins: set<nat>, base: nat, p: nat, far: int, a: nat, n: nat)
    requires Rival(s, ins, base, p, far, a, n)
    ensures InBucket(bits, s, ins, a, p) && base < a < p <= a + far && n >= MIN_MATCH && p + n <= |s|
  {
    hide Bucket, HashOf;
    assert s[p] == s[a] && s[p + 1] == s[a + 1] && s[p + 2] == s[a + 2];
  }

  lemma RivalIs(d: Dict, a: nat, n: nat)
    requires Searching(d) && Rival(d.s, d.ins, d.base, d.base + d.strstart, d.wsize - MIN_LOOKAHEAD, a, n)
    ensures n <= d.lookahead && d.lookahead >= MIN_MATCH && a >= d.base
  {
    hide Chains, Repeats;
  }

  /** Such a place is on the chain. */
  lemma OnChain(d: Dict, hashHead: nat, chain: nat, a: nat, n: nat)
    requires Searching(d) && Candidate(d, hashHead) && Head(d, hashHead) && d.prev.Length == Pow2(d.wbits)
    requires Rival(d.s, d.ins, d.base, d.base + d.strstart, d.wsize - MIN_LOOKAHEAD, a, n) && a >= d.base
    requires |Newer(d.bits, d.s, d.ins, d.base + d.strstart, a, d.base + d.strstart)| < chain
    requires d.strstart + d.base < a + (d.wsize - MIN_LOOKAHEAD)
    ensures a - d.base in Places(d.prev[..], d.wbits, hashHead, Limit(d), chain)
  {
    hide *;
    var p, cur := d.base + d.strstart, d.base + hashHead;
    Sizes();
    RivalIs(d, a, n);
    RivalBucket(d.bits, d.s, d.ins, d.base, p, d.wsize - MIN_LOOKAHEAD, a, n);
    HeadFacts(d, hashHead, a);
    ChainParts(d);
    PlacesFit(d);
    NewerMono(d.bits, d.s, d.ins, p, a, cur + 1, p);
    PlacesReach(d.bits, d.prev[..], d.s, d.base, d.ins, d.wbits, p + 1, hashHead, Limit(d), chain, a, p);
  }

  /** The latest place of all is where the chain starts. */
  lemma IsHead(d: Dict, hashHead: nat, a: nat, n: nat)
    requires Searching(d) && Candidate(d, hashHead) && Head(d, hashHead)
    requires Rival(d.s, d.ins, d.base, d.base + d.strstart, d.wsize - MIN_LOOKAHEAD, a, n)
    requires Newer(d.bits, d.s, d.ins, d.base + d.strstart, a, d.base + d.strstart) == {}
    ensures a == d.base + hashHead
  {
    hide *;
    RivalIs(d, a, n);
    RivalBucket(d.bits, d.s, d.ins, d.base, d.base + d.strstart, d.wsize - MIN_LOOKAHEAD, a, n);
    HeadFacts(d, hashHead, a);
    NewerHas(d.bits, d.s, d.ins, d.base + d.strstart, a, d.base + d.strstart, d.base + hashHead);
  }

  lemma NewerHas(bits: nat, s: seq<byte>, ins: set<nat>, p: nat, a: nat, b: nat, x: nat)
    requires InBucket(bits, s, ins, x, p)
    ensures a < x < b ==> x in Newer(bits, s, ins, p, a, b)
  {
  }

  lemma HeadFacts(d: Dict, hashHead: nat, a: nat)
    requires Searching(d) && Candidate(d, hashHead) && Head(d, hashHead) && d.lookahead >= MIN_MATCH
    requires InBucket(d.bits, d.s, d.ins, a, d.base + d.strstart) && d.base < a < d.base + d.strstart
    ensures InBucket(d.bits, d.s, d.ins, d.base + hashHead, d.base + d.strstart) && a <= d.base + hashHead
    ensures hashHead < d.strstart
  {
    hide Chains, HashAt, Slot;
    assert InBucket(d.bits, d.s, d.ins - {d.base + d.strstart}, a, d.base + d.strstart);
  }

  lemma ChainParts(d: Dict)
    requires Searching(d)
    ensures d.Shapes() && |d.prev[..]| == Pow2(d.wbits) == d.wsize && Slot(d.base, d.wbits) == 0
    ensures Links(d.bits, d.prev[..], d.s, d.base, d.ins, d.wbits, d.base + d.strstart + 1)
    ensures LinksNewest(d.bits, d.prev[..], d.s, d.base, d.ins, d.wbits, d.base + d.strstart + 1)
    ensures Legit(d.prev[..], d.base, d.ins, d.wbits)
  {
    hide Links, LinksNewest, Legit, Heads, Newest, Inserted, Slot, Pow2;
  }

  lemma NewerMono(bits: nat, s: seq<byte>, ins: set<nat>, p: nat, a: nat, b: nat, c: nat)
    requires b <= c
    ensures |Newer(bits, s, ins, p, a, b)| <= |Newer(bits, s, ins, p, a, c)|
  {
    hide InBucket;
    var x, y := Newer(bits, s, ins, p, a, b), Newer(bits, s, ins, p, a, c);
    if x != y {
      assert x < y;
      Smaller(x, y);
    }
  }

  lemma NotLonger(d: Dict, a: nat, n: nat, len: nat)
    requires Searching(d) && Rival(d.s, d.ins, d.base, d.base + d.strstart, d.wsize - MIN_LOOKAHEAD, a, n)
    requires a >= d.base && len < n
    ensures !NoLonger(d.window[..], a - d.base, d.strstart, len)
  {
    hide Chains;
    var w, cur, scan := d.window[..], a - d.base, d.strstart;
    if cur + len < |w| && scan + len < |w| {
      var dist := scan - cur;
      forall i | scan <= i < scan + len + 1 ensures w[i] == w[i - dist] {
        assert w[i - dist] == d.s[d.base + i - dist] && w[i] == d.s[d.base + i];
        assert d.s[d.base + i] == d.s[d.base + i - dist];
      }
      SliceShift(w, cur, scan, len + 1);
    }
  }

  lemma {:induction false} SliceShift(w: seq<byte>, a: nat, b: nat, n: nat)
    requires a <= b && b + n <= |w| && forall i :: b <= i < b + n ==> w[i] == w[i - (b - a)]
    ensures w[a..a + n] == w[b..b + n]
  {
    if n > 0 {
      SliceShift(w, a, b, n - 1);
      assert w[b + n - 1] == w[b + n - 1 - (b - a)];
      assert w[a..a + n] == w[a..a + n - 1] + [w[a + n - 1]] && w[b..b + n] == w[b..b + n - 1] + [w[b + n - 1]];
    }
  }

  /** The byte before the current one has been looked at. */
  lemma NextFound(d: Dict, hashHead: nat, chain: nat, nice: nat, len: nat)
    requires Searching(d) && hashHead + 1 == d.strstart
    requires len == d.lookahead || NoLonger(d.window[..], hashHead, d.strstart, len)
    ensures Thorough(d.bits, d.s, d.ins, d.base, d.base + d.strstart, 1, chain, nice, len, 0)
  {
    hide *;
    var p := d.base + d.strstart;
    forall a: nat, n: nat | Rival(d.s, d.ins, d.base, p, 1, a, n)
                            && |Newer(d.bits, d.s, d.ins, p, a, p)| < chain
      ensures len >= n || (len >= nice && Newer(d.bits, d.s, d.ins, p, a, p) != {})
    {
      RivalBucket(d.bits, d.s, d.ins, d.base, p, 1, a, n);
      SearchText(d);
      RivalFarther(d, a, n);
      RivalIs(d, a, n);
      if len < n {
        NotLonger(d, a, n, len);
      }
    }
    ThoroughIs(d.bits, d.s, d.ins, d.base, p, 1, chain, nice, len, 0);
  }

  lemma RivalFarther(d: Dict, a: nat, n: nat)
    requires d.Shapes() && Rival(d.s, d.ins, d.base, d.base + d.strstart, 1, a, n)
    ensures Rival(d.s, d.ins, d.base, d.base + d.strstart, d.wsize - MIN_LOOKAHEAD, a, n)
  {
    hide Repeats;
  }

  /** Where the chain starts too far back there is nothing to find. */
  lemma NoneFound(d: Dict, hashHead: nat, far: int, chain: nat, nice: nat, len: nat)
    requires Searching(d) && Head(d, hashHead) && far <= d.wsize - MIN_LOOKAHEAD
    requires d.lookahead >= MIN_MATCH && hashHead != 0 ==> d.strstart - hashHead > far
    ensures Thorough(d.bits, d.s, d.ins, d.base, d.base + d.strstart, far, chain, nice, len, 0)
  {
    hide *;
    var p := d.base + d.strstart;
    forall a: nat, n: nat ensures !Rival(d.s, d.ins, d.base, p, far, a, n) {
      if Rival(d.s, d.ins, d.base, p, far, a, n) {
        RivalBucket(d.bits, d.s, d.ins, d.base, p, far, a, n);
        Sizes();
        SearchText(d);
        HeadLater(d, hashHead, a);
      }
    }
    ThoroughIs(d.bits, d.s, d.ins, d.base, p, far, chain, nice, len, 0);
  }

  lemma SearchText(d: Dict)
    requires Searching(d)
    ensures d.Shapes() && |d.s| == d.base + d.strstart + d.lookahead
  {
    hide Chains;
  }

  lemma HeadLater(d: Dict, hashHead: nat, a: nat)
    requires Head(d, hashHead) && d.lookahead >= MIN_MATCH && d.base < a < d.base + d.strstart
    requires InBucket(d.bits, d.s, d.ins, a, d.base + d.strstart)
    ensures hashHead != 0 && a <= d.base + hashHead
  {
    hide HashAt;
    assert InBucket(d.bits, d.s, d.ins - {d.base + d.strstart}, a, d.base + d.strstart);
  }

  lemma Looked(w: seq<byte>, places: seq<nat>, scan: nat, n: nat, x: nat)
    requires NoneLonger(w, places, scan, n) && x in places
    ensures NoLonger(w, x, scan, n)
  {
    hide NoLonger;
  }

  lemma Sizes()
    ensures MIN_LOOKAHEAD == 262 && MIN_MATCH == 3 && MAX_MATCH == 258
  {
  }

  lemma PlacesFit(d: Dict)
    requires d.Shapes()
    ensures d.prev.Length == Pow2(d.wbits) && forall p :: Slot(p, d.wbits) < d.prev.Length
    ensures Limit(d) == if d.strstart > d.wsize - MIN_LOOKAHEAD then d.strstart - (d.wsize - MIN_LOOKAHEAD) else 0
  {
    hide Pow2, Low;
  }

  lemma SearchBound(d: Dict)
    requires Searching(d)
    ensures d.Shapes() && d.strstart + MIN_LOOKAHEAD <= 2 * d.wsize == d.window.Length
    ensures NoneLonger(d.window[..], [], d.strstart, 0) && forall n: nat :: NoneLonger(d.window[..], [], d.strstart, n)
  {
  }

  /** longest_match_fast: only the first candidate. */
  method LongestMatchFast(d: Dict, hashHead: nat) returns (len: nat)
    requires Searching(d) && Candidate(d, hashHead)
    modifies d`matchStart
    ensures len <= MAX_MATCH && (len >= MIN_MATCH ==> len <= d.lookahead && MatchAt(d, d.matchStart, len))
    ensures len >= MIN_MATCH ==> d.matchStart == hashHead
    ensures (d.matchStart == old(d.matchStart) || d.matchStart <= d.strstart) && (d.lookahead >= 1 ==> len >= 1)
    ensures len == d.lookahead || NoLonger(d.window[..], hashHead, d.strstart, len)
  {
    hide Chains, Slot, HashAt, Candidate, Repeats, MatchAt, NoLonger;
    CandidateBound(d, hashHead);
    var scan := d.strstart;
    ghost var w := d.window[..];
    if d.window[hashHead] != d.window[scan] || d.window[hashHead + 1] != d.window[scan + 1] {
      Differ(w, hashHead, scan, if w[hashHead] != w[scan] then 0 else 1, 2);
      return MIN_MATCH - 1;
    }
    len := MatchLength(d.window, scan, hashHead);
    Longest(w, hashHead, scan, len, 0);
    if d.lookahead >= MIN_MATCH {
      Agreed(d, hashHead, len);
      IsMatch(d, hashHead, len);
      MatchLess(d, hashHead, len, if len <= d.lookahead then len else d.lookahead);
    }
    d.matchStart := hashHead;
    len := if len <= d.lookahead then len else d.lookahead;
  }

  lemma IsMatch(d: Dict, m: nat, len: nat)
    requires m < d.strstart && d.strstart - m <= d.wsize - MIN_LOOKAHEAD
    requires Repeats(d.s, d.base + d.strstart, d.strstart - m, len) && d.base + m in d.ins
    ensures MatchAt(d, m, len)
  {
  }

  lemma CandidateBound(d: Dict, cur: nat)
    requires d.Shapes() && Candidate(d, cur)
    ensures cur <= d.strstart && d.strstart - cur <= d.wsize - MIN_LOOKAHEAD
    ensures (d.lookahead >= MIN_MATCH ==> cur < d.strstart && d.base + cur in d.ins)
  {
  }

  lemma MatchLess(d: Dict, m: nat, n: nat, k: nat)
    requires MatchAt(d, m, n) && k <= n
    ensures MatchAt(d, m, k)
  {
  }
}
