/** scan_tree and send_tree: counting and sending the runs of a list of code lengths. */
module SendTree {
  import opened Bits
  import opened CanonicalCode
  import opened InfTrees
  import opened InflateSpec
  import opened RunCoding
  import opened BitQueue

  /** How often symbol `s` occurs. */
  function Occ(rs: seq<Run>, s: nat): nat {
    if rs == [] then 0 else (if rs[0].sym == s then 1 else 0) + Occ(rs[1..], s)
  }

  lemma {:induction false} OccAppend(a: seq<Run>, b: seq<Run>, s: nat)
    ensures Occ(a + b, s) == Occ(a, s) + Occ(b, s)
  {
    if a == [] {
      assert a + b == b;
    } else {
      assert (a + b)[1..] == a[1..] + b;
      OccAppend(a[1..], b, s);
    }
  }

  lemma {:induction false} OccPlain(cur: nat, n: nat, s: nat)
    ensures Occ(Plain(cur, n), s) == if s == cur then n else 0
  {
    if n > 0 {
      assert Plain(cur, n)[1..] == Plain(cur, n - 1);
      OccPlain(cur, n - 1, s);
    }
  }

  lemma OccEmit(prev: Prev, cur: nat, count: nat, s: nat)
    ensures Occ(Emit(prev, cur, count), s) ==
      if count < MinCount(prev, cur) then (if s == cur then count else 0)
      else if cur != 0 then (if s == cur && prev != Last(cur) then 1 else 0) + (if s == REP_3_6 then 1 else 0)
      else if count <= 10 then (if s == REPZ_3_10 then 1 else 0)
      else (if s == REPZ_11_138 then 1 else 0)
  {
    OccPlain(cur, count, s);
    var e := Emit(prev, cur, count);
    if count >= MinCount(prev, cur) {
      if cur != 0 && prev != Last(cur) {
        OccOne(Run(cur, 1), s);
        OccOne(Run(REP_3_6, count - 1), s);
        OccAppend([Run(cur, 1)], [Run(REP_3_6, count - 1)], s);
        assert e == [Run(cur, 1)] + [Run(REP_3_6, count - 1)];
      } else {
        OccOne(e[0], s);
        assert e == [e[0]];
      }
    }
  }

  lemma OccOne(r: Run, s: nat)
    ensures Occ([r], s) == if r.sym == s then 1 else 0
  {
    assert [r][1..] == [];
  }

  function PrevOf(prevlen: int): Prev {
    if prevlen < 0 then Nothing else Last(prevlen)
  }

  /** Counts for one run of equal lengths. */
  method CountRun(freq: array<nat>, prevlen: int, curlen: nat, count: nat, minCount: nat)
    requires freq.Length >= 19 && curlen < REP_3_6 && count >= 1 && minCount == MinCount(PrevOf(prevlen), curlen)
    modifies freq
    ensures forall s :: 0 <= s < freq.Length ==> freq[s] == old(freq[s]) + Occ(Emit(PrevOf(prevlen), curlen, count), s)
  {
    hide Occ, Emit;
    forall s: nat ensures Occ(Emit(PrevOf(prevlen), curlen, count), s) ==
      if count < MinCount(PrevOf(prevlen), curlen) then (if s == curlen then count else 0)
      else if curlen != 0 then
        (if s == curlen && PrevOf(prevlen) != Last(curlen) then 1 else 0) + (if s == REP_3_6 then 1 else 0)
      else if count <= 10 then (if s == REPZ_3_10 then 1 else 0)
      else (if s == REPZ_11_138 then 1 else 0)
    {
      OccEmit(PrevOf(prevlen), curlen, count, s);
    }
    if count < minCount {
      freq[curlen] := freq[curlen] + count;
    } else if curlen != 0 {
      if curlen != prevlen {
        freq[curlen] := freq[curlen] + 1;
      }
      freq[REP_3_6] := freq[REP_3_6] + 1;
    } else if count <= 10 {
      freq[REPZ_3_10] := freq[REPZ_3_10] + 1;
    } else {
      freq[REPZ_11_138] := freq[REPZ_11_138] + 1;
    }
  }

  /** The state of the loop over the lengths: what is done and what is to come make the runs. */
  ghost predicate Scanning(lens: seq<nat>, n: nat, count: nat, prevlen: int, done: seq<Run>) {
    && n <= |lens| && done + RunsAt(lens, n, count, PrevOf(prevlen)) == Runs(lens)
    && (n < |lens| ==> count < MaxCount(PrevOf(prevlen), lens[n]))
    && (n == |lens| ==> count == 0)
  }

  lemma ScanContinue(lens: seq<nat>, n: nat, count: nat, prevlen: int, done: seq<Run>)
    requires Scanning(lens, n, count, prevlen, done) && n + 1 < |lens| && lens[n + 1] == lens[n]
    requires count + 1 < MaxCount(PrevOf(prevlen), lens[n])
    ensures Scanning(lens, n + 1, count + 1, prevlen, done)
  {
    hide Emit, MinCount;
  }

  lemma ScanEmit(lens: seq<nat>, n: nat, count: nat, prevlen: int, done: seq<Run>)
    requires Scanning(lens, n, count, prevlen, done) && n < |lens|
    requires !(count + 1 < MaxCount(PrevOf(prevlen), lens[n]) && n + 1 < |lens| && lens[n + 1] == lens[n])
    ensures Scanning(lens, n + 1, 0, lens[n], done + Emit(PrevOf(prevlen), lens[n], count + 1))
  {
    hide Emit, MinCount;
    var e := Emit(PrevOf(prevlen), lens[n], count + 1);
    assert done + (e + RunsAt(lens, n + 1, 0, Last(lens[n]))) == (done + e) + RunsAt(lens, n + 1, 0, Last(lens[n]));
  }

  /** The limits kept by the loop are those of the previous and the next length. */
  ghost predicate Limits(maxCount: nat, minCount: nat, prevlen: int, next: nat) {
    maxCount == MaxCount(PrevOf(prevlen), next) && minCount == MinCount(PrevOf(prevlen), next)
  }

  lemma NextLimits(curlen: nat, next: nat)
    ensures if next == 0 then Limits(138, 3, curlen, next) else if curlen == next then Limits(6, 3, curlen,
            next) else Limits(7, 4, curlen, next)
  {
  }

  /** scan_tree: counts exactly the runs that send_tree will send. */
  method ScanTree(dl: array<nat>, maxCode: nat, freq: array<nat>)
    requires maxCode + 1 < dl.Length && freq.Length >= 19 && freq != dl && ShortLens(dl[..maxCode + 1])
    modifies dl, freq
    ensures dl[..] == old(dl[..])[maxCode + 1 := 0xffff]
    ensures forall s :: 0 <= s < freq.Length ==> freq[s] == old(freq[s]) + Occ(Runs(old(dl[..maxCode + 1])), s)
  {
    hide Occ, Emit, RunsAt, MaxCount, MinCount, Runs, Scanning, Limits;
    ghost var lens := dl[..maxCode + 1];
    ghost var done: seq<Run> := [];
    var prevlen: int := -1;
    var nextlen, count := dl[0], 0;
    var maxCount, minCount := 7, 4;
    if nextlen == 0 {
      maxCount, minCount := 138, 3;
    }
    StartLimits(nextlen);
    StartScan(lens);
    dl[maxCode + 1] := 0xffff;
    OccNone();
    var n := 0;
    while n <= maxCode
      invariant 0 <= n <= maxCode + 1 && dl[..] == old(dl[..])[maxCode + 1 := 0xffff] && nextlen == dl[n]
      invariant -1 <= prevlen
      invariant Scanning(lens, n, count, prevlen, done) && Limits(maxCount, minCount, prevlen, nextlen)
      invariant forall s :: 0 <= s < freq.Length ==> freq[s] == old(freq[s]) + Occ(done, s)
    {
      var curlen := nextlen;
      assert curlen == dl[..][n] == lens[n];
      nextlen := dl[n + 1];
      assert n < maxCode ==> nextlen == dl[..][n + 1] == lens[n + 1];
      count := count + 1;
      LimitsAre(maxCount, minCount, prevlen, curlen);
      if count < maxCount && curlen == nextlen {
        ScanContinue(lens, n, count - 1, prevlen, done);
      } else {
        ScanEmit(lens, n, count - 1, prevlen, done);
        CountRun(freq, prevlen, curlen, count, minCount);
        ghost var e := Emit(PrevOf(prevlen), curlen, count);
        forall s: nat ensures Occ(done + e, s) == Occ(done, s) + Occ(e, s) { OccAppend(done, e, s); }
        done := done + e;
        count := 0;
        prevlen := curlen;
        NextLimits(curlen, nextlen);
        if nextlen == 0 {
          maxCount, minCount := 138, 3;
        } else if curlen == nextlen {
          maxCount, minCount := 6, 3;
        } else {
          maxCount, minCount := 7, 4;
        }
      }
      n := n + 1;
    }
    EndScan(lens, count, prevlen, done);
  }

  lemma StartLimits(next: nat)
    ensures if next == 0 then Limits(138, 3, -1, next) else Limits(7, 4, -1, next)
  {
  }

  lemma LimitsAre(maxCount: nat, minCount: nat, prevlen: int, next: nat)
    requires Limits(maxCount, minCount, prevlen, next)
    ensures maxCount == MaxCount(PrevOf(prevlen), next) && minCount == MinCount(PrevOf(prevlen), next)
  {
  }

  lemma StartScan(lens: seq<nat>)
    requires lens != []
    ensures Scanning(lens, 0, 0, -1, [])
  {
    assert [] + RunsAt(lens, 0, 0, Nothing) == RunsAt(lens, 0, 0, Nothing);
  }

  lemma EndScan(lens: seq<nat>, count: nat, prevlen: int, done: seq<Run>)
    requires Scanning(lens, |lens|, count, prevlen, done)
    ensures done == Runs(lens)
  {
    assert RunsAt(lens, |lens|, count, PrevOf(prevlen)) == [];
    assert done + [] == done;
  }

  lemma OccNone()
    ensures forall s: nat :: Occ([], s) == 0
  {
  }

  // ---------- sending ----------

  /** The tree holds the canonical codes of `lens`. */
  ghost predicate CodesIn(fc: seq<nat>, dl: seq<nat>, lens: seq<nat>) {
    && |lens| <= |fc| && |lens| <= |dl| && Fits(lens)
    && forall s :: 0 <= s < |lens| && lens[s] > 0 ==> dl[s] == lens[s] && fc[s] == Huff(lens, s)
  }

  lemma CodeToSend(lens: seq<nat>, c: nat)
    requires IsSymbol(lens, c)
    ensures Huff(lens, c) < Pow2(lens[c]) && BitsOf(Huff(lens, c), lens[c]) == CodeBits(lens, c)
  {
    HuffBound(lens, c);
    BitsOfVal(CodeBits(lens, c));
  }

  /** send_code: the code of one symbol. */
  method SendCode(q: Queue, c: nat, fc: seq<nat>, dl: seq<nat>, ghost lens: seq<nat>)
    requires q.Valid() && q.Ready() && CodesIn(fc, dl, lens) && IsSymbol(lens, c)
    modifies q`pendingBuf, q`pending, q`biBuf, q`biValid
    ensures q.Valid() && q.Ready() && q.delivered == old(q.delivered) && q.Sent() == old(q.Sent()) + CodeBits(lens, c)
  {
    hide Huff, BitsOf, Pow2, CodeBits, Fits;
    CodeToSend(lens, c);
    q.SendBits(fc[c], dl[c]);
  }

  /** A run in the stream: its symbol's code, then what the count is over the smallest. */
  ghost function EncodeRun(bl: seq<nat>, r: Run): seq<bool> {
    if r.sym < |bl| then CodeBits(bl,
        r.sym) + (if r.count >= RunBase(r.sym) then BitsOf(r.count - RunBase(r.sym), BlExtra(r.sym)) else []) else []
  }

  ghost function EncodeRuns(bl: seq<nat>, rs: seq<Run>): seq<bool> {
    if rs == [] then [] else EncodeRun(bl, rs[0]) + EncodeRuns(bl, rs[1..])
  }

  lemma {:induction false} EncodeRunsAppend(bl: seq<nat>, a: seq<Run>, b: seq<Run>)
    ensures EncodeRuns(bl, a + b) == EncodeRuns(bl, a) + EncodeRuns(bl, b)
  {
    hide EncodeRun;
    if a == [] {
      assert a + b == b;
    } else {
      assert (a + b)[1..] == a[1..] + b;
      EncodeRunsAppend(bl, a[1..], b);
      assert EncodeRun(bl, a[0]) + (EncodeRuns(bl, a[1..]) + EncodeRuns(bl, b)) == (EncodeRun(bl, a[0]) + EncodeRuns(bl,
          a[1..])) + EncodeRuns(bl, b);
    }
  }

  lemma EncodeOneRun(bl: seq<nat>, r: Run)
    ensures EncodeRuns(bl, [r]) == EncodeRun(bl, r)
  {
    assert [r][1..] == [];
    assert EncodeRun(bl, r) + [] == EncodeRun(bl, r);
  }

  /** Every symbol used has a code. */
  ghost predicate Coded(bl: seq<nat>, rs: seq<Run>) {
    forall i :: 0 <= i < |rs| ==> IsSymbol(bl, rs[i].sym)
  }

  /** One run: its code and its extra bits. */
  method SendRun(q: Queue, r: Run, fc: seq<nat>, dl: seq<nat>, ghost bl: seq<nat>)
    requires q.Valid() && q.Ready() && CodesIn(fc, dl, bl) && IsSymbol(bl, r.sym) && ValidRun(r)
    modifies q`pendingBuf, q`pending, q`biBuf, q`biValid
    ensures q.Valid() && q.Ready() && q.delivered == old(q.delivered) && q.Sent() == old(q.Sent()) + EncodeRuns(bl, [r])
  {
    hide CodesIn, BitsOf, Pow2, CodeBits, EncodeRuns, EncodeRun;
    EncodeOneRun(bl, r);
    RunBits(bl, r);
    ghost var s := q.Sent();
    SendCode(q, r.sym, fc, dl, bl);
    if r.sym >= REP_3_6 {
      q.SendBits(r.count - RunBase(r.sym), BlExtra(r.sym));
      assert q.Sent() == s + CodeBits(bl, r.sym) + BitsOf(r.count - RunBase(r.sym), BlExtra(r.sym));
      assert s + CodeBits(bl, r.sym) + BitsOf(r.count - RunBase(r.sym), BlExtra(r.sym)) == s + EncodeRun(bl, r);
    }
  }

  lemma RunBits(bl: seq<nat>, r: Run)
    requires IsSymbol(bl, r.sym) && ValidRun(r)
    ensures r.count >= RunBase(r.sym)
    ensures EncodeRun(bl, r) == CodeBits(bl, r.sym) + BitsOf(r.count - RunBase(r.sym), BlExtra(r.sym))
    ensures r.sym < REP_3_6 ==> EncodeRun(bl, r) == CodeBits(bl, r.sym)
  {
    if r.sym < REP_3_6 {
      assert CodeBits(bl, r.sym) + [] == CodeBits(bl, r.sym);
    }
  }

  /** What send_tree does at the end of a run of equal lengths. */
  method SendEmit(q: Queue, prevlen: int, curlen: nat, count0: nat, minCount: nat, fc: seq<nat>, dl: seq<nat>,
      ghost bl: seq<nat>)
    requires q.Valid() && q.Ready() && CodesIn(fc, dl, bl) && minCount == MinCount(PrevOf(prevlen), curlen)
    requires 1 <= count0 && ValidRuns(Emit(PrevOf(prevlen), curlen, count0))
    requires Coded(bl, Emit(PrevOf(prevlen), curlen, count0))
    modifies q`pendingBuf, q`pending, q`biBuf, q`biValid
    ensures q.Valid() && q.Ready() && q.delivered == old(q.delivered)
    ensures q.Sent() == old(q.Sent()) + EncodeRuns(bl, Emit(PrevOf(prevlen), curlen, count0))
  {
    hide CodesIn, BitsOf, Pow2, CodeBits, EncodeRuns, EncodeRun, ValidRun;
    var count := count0;
    ghost var e := Emit(PrevOf(prevlen), curlen, count0);
    if count < minCount {
      SendPlain(q, curlen, count, fc, dl, bl);
    } else if curlen != 0 {
      if curlen != prevlen {
        ghost var s := q.Sent();
        assert e[0] == Run(curlen, 1) && e[1] == Run(REP_3_6, count - 1);
        SendRun(q, Run(curlen, 1), fc, dl, bl);
        count := count - 1;
        SendRun(q, Run(REP_3_6, count), fc, dl, bl);
        EncodeRunsAppend(bl, [Run(curlen, 1)], [Run(REP_3_6, count)]);
        assert e == [Run(curlen, 1)] + [Run(REP_3_6, count)];
        assert s + EncodeRuns(bl, [Run(curlen, 1)]) + EncodeRuns(bl, [Run(REP_3_6, count)])
            == s + (EncodeRuns(bl, [Run(curlen, 1)]) + EncodeRuns(bl, [Run(REP_3_6, count)]));
      } else {
        assert e[0] == Run(REP_3_6, count);
        SendRun(q, Run(REP_3_6, count), fc, dl, bl);
      }
    } else if count <= 10 {
      assert e[0] == Run(REPZ_3_10, count);
      SendRun(q, Run(REPZ_3_10, count), fc, dl, bl);
    } else {
      assert e[0] == Run(REPZ_11_138, count);
      SendRun(q, Run(REPZ_11_138, count), fc, dl, bl);
    }
  }

  method SendPlain(q: Queue, curlen: nat, count0: nat, fc: seq<nat>, dl: seq<nat>, ghost bl: seq<nat>)
    requires q.Valid() && q.Ready() && CodesIn(fc, dl, bl)
    requires 1 <= count0 && ValidRuns(Plain(curlen, count0)) && Coded(bl, Plain(curlen, count0))
    modifies q`pendingBuf, q`pending, q`biBuf, q`biValid
    ensures q.Valid() && q.Ready() && q.delivered == old(q.delivered)
    ensures q.Sent() == old(q.Sent()) + EncodeRuns(bl, Plain(curlen, count0))
  {
    hide CodesIn, BitsOf, Pow2, CodeBits, EncodeRuns, EncodeRun, ValidRun;
    assert Plain(curlen, count0)[0] == Run(curlen, 1);
    ghost var s := q.Sent();
    var count := count0;
    ghost var k := 0;
    assert EncodeRuns(bl, Plain(curlen, 0)) == [] by { EncodeNone(bl); assert Plain(curlen, 0) == []; }
    while count != 0
      invariant k + count == count0 && q.Valid() && q.Ready() && q.delivered == old(q.delivered) && CodesIn(fc, dl, bl)
      invariant q.Sent() == s + EncodeRuns(bl, Plain(curlen, k))
      decreases count
    {
      ghost var s1 := q.Sent();
      SendRun(q, Run(curlen, 1), fc, dl, bl);
      EncodeRunsAppend(bl, Plain(curlen, k), [Run(curlen, 1)]);
      assert Plain(curlen, k) + [Run(curlen, 1)] == Plain(curlen, k + 1);
      assert s + EncodeRuns(bl, Plain(curlen, k)) + EncodeRuns(bl, [Run(curlen, 1)])
          == s + (EncodeRuns(bl, Plain(curlen, k)) + EncodeRuns(bl, [Run(curlen, 1)]));
      count := count - 1;
      k := k + 1;
    }
  }

  lemma EncodeNone(bl: seq<nat>)
    ensures EncodeRuns(bl, []) == []
  {
  }

  /** The run about to be emitted is one of the tree's runs. */
  lemma EmitOfRuns(lens: seq<nat>, n: nat, count: nat, prevlen: int, done: seq<Run>, bl: seq<nat>)
    requires Scanning(lens, n, count, prevlen, done) && n < |lens| && ShortLens(lens) && Coded(bl, Runs(lens))
    requires Scanning(lens, n + 1, 0, lens[n], done + Emit(PrevOf(prevlen), lens[n], count + 1))
    ensures ValidRuns(Emit(PrevOf(prevlen), lens[n], count + 1)) && Coded(bl, Emit(PrevOf(prevlen), lens[n], count + 1))
  {
    hide Emit, RunsAt, ValidRun, ExpandRuns, Repeatable, IsSymbol;
    RunsExpand(lens, []);
    var e := Emit(PrevOf(prevlen), lens[n], count + 1);
    var rest := RunsAt(lens, n + 1, 0, PrevOf(lens[n]));
    assert Runs(lens) == (done + e) + rest;
    forall i | 0 <= i < |e| ensures ValidRun(e[i]) && IsSymbol(bl, e[i].sym) {
      assert Runs(lens)[|done| + i] == e[i];
    }
  }

  /** send_tree: the guard after the last length was set by scan_tree. */
  method SendTree(q: Queue, tree: seq<nat>, maxCode: nat, fc: seq<nat>, dl: seq<nat>, ghost bl: seq<nat>)
    requires q.Valid() && q.Ready() && CodesIn(fc, dl, bl)
    requires maxCode + 1 < |tree| && ShortLens(tree[..maxCode + 1]) && tree[maxCode + 1] == 0xffff
    requires Coded(bl, Runs(tree[..maxCode + 1]))
    modifies q`pendingBuf, q`pending, q`biBuf, q`biValid
    ensures q.Valid() && q.Ready() && q.delivered == old(q.delivered)
    ensures q.Sent() == old(q.Sent()) + EncodeRuns(bl, Runs(tree[..maxCode + 1]))
  {
    hide CodesIn, Emit, RunsAt, MaxCount, MinCount, Runs, Scanning, Limits, EncodeRuns, ValidRuns, Coded;
    ghost var lens := tree[..maxCode + 1];
    ghost var done: seq<Run> := [];
    ghost var s := q.Sent();
    EncodeNone(bl);
    var prevlen: int := -1;
    var nextlen, count := tree[0], 0;
    var maxCount, minCount := 7, 4;
    if nextlen == 0 {
      maxCount, minCount := 138, 3;
    }
    StartLimits(nextlen);
    StartScan(lens);
    var n := 0;
    while n <= maxCode
      invariant 0 <= n <= maxCode + 1 && nextlen == tree[n] && -1 <= prevlen
      invariant Scanning(lens, n, count, prevlen, done) && Limits(maxCount, minCount, prevlen, nextlen)
      invariant q.Valid() && q.Ready() && q.delivered == old(q.delivered) && q.Sent() == s + EncodeRuns(bl, done)
    {
      var curlen := nextlen;
      nextlen := tree[n + 1];
      count := count + 1;
      LimitsAre(maxCount, minCount, prevlen, curlen);
      if count < maxCount && curlen == nextlen {
        ScanContinue(lens, n, count - 1, prevlen, done);
      } else {
        ScanEmit(lens, n, count - 1, prevlen, done);
        EmitOfRuns(lens, n, count - 1, prevlen, done, bl);
        ghost var e := Emit(PrevOf(prevlen), curlen, count);
        SendEmit(q, prevlen, curlen, count, minCount, fc, dl, bl);
        EncodeRunsAppend(bl, done, e);
        assert s + EncodeRuns(bl, done) + EncodeRuns(bl, e) == s + (EncodeRuns(bl, done) + EncodeRuns(bl, e));
        done := done + e;
        count := 0;
        prevlen := curlen;
        NextLimits(curlen, nextlen);
        if nextlen == 0 {
          maxCount, minCount := 138, 3;
        } else if curlen == nextlen {
          maxCount, minCount := 6, 3;
        } else {
          maxCount, minCount := 7, 4;
        }
      }
      n := n + 1;
    }
    EndScan(lens, count, prevlen, done);
  }
}
