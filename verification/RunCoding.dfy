/**
 Run-length coding of code lengths.  scan_tree counts and send_tree sends the same list of
 runs; expanding the runs gives the lengths back.
 */
module RunCoding {
  import opened Bits
  import opened InflateSpec

  const REP_3_6 := 16
  const REPZ_3_10 := 17
  const REPZ_11_138 := 18

  /** One symbol of the code-length code with its repeat count (1 for a plain length). */
  datatype Run = Run(sym: nat, count: nat)

  /** Extra bits of a symbol of the code-length code (extra_blbits). */
  function BlExtra(sym: nat): nat {
    if sym == REP_3_6 then 2 else if sym == REPZ_3_10 then 3 else if sym == REPZ_11_138 then 7 else 0
  }

  /** Smallest count of a symbol. */
  function RunBase(sym: nat): nat {
    if sym < REP_3_6 then 1 else if sym == REPZ_11_138 then 11 else 3
  }

  /** The repeat count fits the extra bits. */
  ghost predicate ValidRun(r: Run) {
    r.sym <= 18 && RunBase(r.sym) <= r.count < RunBase(r.sym) + Pow2(BlExtra(r.sym))
  }

  ghost predicate ValidRuns(rs: seq<Run>) {
    forall i :: 0 <= i < |rs| ==> ValidRun(rs[i])
  }

  /** No length has been emitted yet, or the last one. */
  datatype Prev = Nothing | Last(len: nat)

  function MaxCount(prev: Prev, cur: nat): nat {
    if cur == 0 then 138 else if prev == Last(cur) then 6 else 7
  }

  function MinCount(prev: Prev, cur: nat): nat {
    if cur == 0 then 3 else if prev == Last(cur) then 3 else 4
  }

  /** `n` plain lengths. */
  function Plain(cur: nat, n: nat): (r: seq<Run>)
    ensures |r| == n && forall i :: 0 <= i < n ==> r[i] == Run(cur, 1)
  {
    seq(n, _ => Run(cur, 1))
  }

  /** What is emitted for `count` lengths `cur` after `prev`. */
  function Emit(prev: Prev, cur: nat, count: nat): seq<Run> {
    if count < MinCount(prev, cur) then Plain(cur, count)
    else if cur != 0 then
      if prev != Last(cur) then [Run(cur, 1), Run(REP_3_6, count - 1)] else [Run(REP_3_6, count)]
    else if count <= 10 then [Run(REPZ_3_10, count)]
    else [Run(REPZ_11_138, count)]
  }

  /** The runs from position `n` on, when `count` lengths equal to lens[n] are waiting. */
  function RunsAt(lens: seq<nat>, n: nat, count: nat, prev: Prev): seq<Run>
    decreases |lens| - n
  {
    if n >= |lens| then []
    else if count + 1 < MaxCount(prev, lens[n]) && n + 1 < |lens| && lens[n + 1] == lens[n] then RunsAt(lens, n + 1,
        count + 1, prev)
    else Emit(prev, lens[n], count + 1) + RunsAt(lens, n + 1, 0, Last(lens[n]))
  }

  function Runs(lens: seq<nat>): seq<Run> {
    RunsAt(lens, 0, 0, Nothing)
  }

  // ---------- expanding ----------

  /** The lengths a run adds after `have`; a repeat needs something to repeat. */
  function ExpandRun(have: seq<nat>, r: Run): (lens: seq<nat>)
    ensures have <= lens && |lens| == |have| + r.count
  {
    if r.sym < REP_3_6 then have + Repeat(r.sym, r.count)
    else if r.sym == REP_3_6 then have + Repeat(if have == [] then 0 else have[|have| - 1], r.count)
    else have + Repeat(0, r.count)
  }

  function ExpandRuns(have: seq<nat>, rs: seq<Run>): (lens: seq<nat>)
    ensures have <= lens
    decreases |rs|
  {
    if rs == [] then have else ExpandRuns(ExpandRun(have, rs[0]), rs[1..])
  }

  /** Every repeat of the previous length has one. */
  ghost predicate Repeatable(have: seq<nat>, rs: seq<Run>)
    decreases |rs|
  {
    rs == [] || ((rs[0].sym == REP_3_6 ==> have != []) && Repeatable(ExpandRun(have, rs[0]), rs[1..]))
  }

  lemma {:induction false} ExpandRunsAppend(have: seq<nat>, a: seq<Run>, b: seq<Run>)
    ensures ExpandRuns(have, a + b) == ExpandRuns(ExpandRuns(have, a), b)
    ensures Repeatable(have, a + b) <==> Repeatable(have, a) && Repeatable(ExpandRuns(have, a), b)
    decreases |a|
  {
    if a == [] {
      assert a + b == b;
    } else {
      assert (a + b)[1..] == a[1..] + b;
      ExpandRunsAppend(ExpandRun(have, a[0]), a[1..], b);
    }
  }

  lemma ExpandOneRun(have: seq<nat>, r: Run)
    ensures ExpandRuns(have, [r]) == ExpandRun(have, r)
    ensures Repeatable(have, [r]) <==> (r.sym == REP_3_6 ==> have != [])
  {
    assert [r][1..] == [];
    assert ExpandRuns(ExpandRun(have, r), []) == ExpandRun(have, r);
  }

  lemma {:induction false} ExpandPlain(have: seq<nat>, cur: nat, n: nat)
    requires cur < REP_3_6
    ensures ExpandRuns(have, Plain(cur, n)) == have + Repeat(cur, n) && Repeatable(have, Plain(cur, n))
    decreases n
  {
    if n > 0 {
      var h := have + Repeat(cur, 1);
      assert Plain(cur, n)[1..] == Plain(cur, n - 1);
      ExpandPlain(h, cur, n - 1);
      assert h + Repeat(cur, n - 1) == have + Repeat(cur, n);
    } else {
      assert have + Repeat(cur, 0) == have;
    }
  }

  /** `prev` is what the expansion ends in. */
  ghost predicate EndsIn(have: seq<nat>, prev: Prev) {
    prev == Nothing || (have != [] && have[|have| - 1] == prev.len)
  }

  lemma EmitExpands(have: seq<nat>, prev: Prev, cur: nat, count: nat)
    requires EndsIn(have, prev) && 1 <= count <= MaxCount(prev, cur) && cur < REP_3_6
    ensures ExpandRuns(have, Emit(prev, cur, count)) == have + Repeat(cur, count)
    ensures Repeatable(have, Emit(prev, cur, count)) && ValidRuns(Emit(prev, cur, count))
  {
    hide ExpandRuns, Repeatable;
    Pow2Values();
    if count < MinCount(prev, cur) {
      ExpandPlain(have, cur, count);
    } else if cur != 0 && prev != Last(cur) {
      var one := have + Repeat(cur, 1);
      ExpandOneRun(have, Run(cur, 1));
      ExpandOneRun(one, Run(REP_3_6, count - 1));
      ExpandRunsAppend(have, [Run(cur, 1)], [Run(REP_3_6, count - 1)]);
      assert Emit(prev, cur, count) == [Run(cur, 1)] + [Run(REP_3_6, count - 1)];
      assert one + Repeat(cur, count - 1) == have + Repeat(cur, count);
    } else if cur != 0 {
      ExpandOneRun(have, Run(REP_3_6, count));
    } else if count <= 10 {
      ExpandOneRun(have, Run(REPZ_3_10, count));
    } else {
      ExpandOneRun(have, Run(REPZ_11_138, count));
    }
  }

  ghost predicate ShortLens(lens: seq<nat>) {
    forall i :: 0 <= i < |lens| ==> lens[i] < REP_3_6
  }

  /** What the runs from `n` on stand for: the waiting lengths and the rest. */
  ghost function Rest(lens: seq<nat>, n: nat, count: nat): seq<nat>
    requires n <= |lens|
  {
    Repeat(if n < |lens| then lens[n] else 0, count) + lens[n..]
  }

  lemma RestNext(lens: seq<nat>, n: nat, count: nat)
    requires n < |lens|
    ensures n + 1 < |lens| && lens[n + 1] == lens[n] ==> Rest(lens, n + 1, count + 1) == Rest(lens, n, count)
    ensures Repeat(lens[n], count + 1) + Rest(lens, n + 1, 0) == Rest(lens, n, count)
  {
    assert lens[n..] == [lens[n]] + lens[n + 1..];
  }

  /** The runs from `n` on expand to the rest, in any history that ends in `prev`. */
  ghost predicate Expands(lens: seq<nat>, n: nat, count: nat, prev: Prev, have: seq<nat>)
    requires n <= |lens|
  {
    && ExpandRuns(have, RunsAt(lens, n, count, prev)) == have + Rest(lens, n, count)
    && Repeatable(have, RunsAt(lens, n, count, prev)) && ValidRuns(RunsAt(lens, n, count, prev))
  }

  lemma ExpandsEnd(lens: seq<nat>, prev: Prev, have: seq<nat>)
    ensures Expands(lens, |lens|, 0, prev, have)
  {
    assert have + Rest(lens, |lens|, 0) == have;
  }

  lemma ExpandsEmit(lens: seq<nat>, n: nat, count: nat, prev: Prev, have: seq<nat>)
    requires n < |lens| && lens[n] < REP_3_6 && EndsIn(have, prev) && count < MaxCount(prev, lens[n])
    requires RunsAt(lens, n, count, prev) == Emit(prev, lens[n], count + 1) + RunsAt(lens, n + 1, 0, Last(lens[n]))
    requires Expands(lens, n + 1, 0, Last(lens[n]), have + Repeat(lens[n], count + 1))
    ensures Expands(lens, n, count, prev, have)
  {
    hide Emit, MinCount, MaxCount, RunsAt, ExpandRuns, Repeatable, Rest, Repeat, EndsIn, ValidRun;
    var e := Emit(prev, lens[n], count + 1);
    var r := Repeat(lens[n], count + 1);
    EmitExpands(have, prev, lens[n], count + 1);
    ExpandRunsAppend(have, e, RunsAt(lens, n + 1, 0, Last(lens[n])));
    RestNext(lens, n, count);
    assert have + r + Rest(lens, n + 1, 0) == have + (r + Rest(lens, n + 1, 0));
  }

  lemma {:induction false} RunsAtExpand(lens: seq<nat>, n: nat, count: nat, prev: Prev, have: seq<nat>)
    requires ShortLens(lens) && n <= |lens| && EndsIn(have, prev)
    requires if n == |lens| then count == 0 else count < MaxCount(prev, lens[n])
    ensures Expands(lens, n, count, prev, have)
    decreases |lens| - n
  {
    hide Emit, MinCount, ExpandRuns, Repeatable, Rest, ValidRun;
    if n == |lens| {
      ExpandsEnd(lens, prev, have);
    } else {
      RestNext(lens, n, count);
      if count + 1 < MaxCount(prev, lens[n]) && n + 1 < |lens| && lens[n + 1] == lens[n] {
        RunsAtExpand(lens, n + 1, count + 1, prev, have);
      } else {
        RunsAtExpand(lens, n + 1, 0, Last(lens[n]), have + Repeat(lens[n], count + 1));
        ExpandsEmit(lens, n, count, prev, have);
      }
    }
  }

  /** The runs of a tree expand to its lengths, and every count fits its extra bits. */
  lemma RunsExpand(lens: seq<nat>, have: seq<nat>)
    requires ShortLens(lens)
    ensures ExpandRuns(have, Runs(lens)) == have + lens
    ensures Repeatable(have, Runs(lens)) && ValidRuns(Runs(lens))
  {
    RunsAtExpand(lens, 0, 0, Nothing, have);
    assert Rest(lens, 0, 0) == lens;
  }

  // ---------- nothing is sent twice that a repeat could say ----------

  /**
   Repeats in a row are full but for the last, and there are never three plain zeros or four other
   equal plain lengths in a row.
   */
  ghost predicate Tight(rs: seq<Run>) {
    forall i: nat :: i < |rs| ==> TightAt(rs, i)
  }

  ghost predicate TightAt(rs: seq<Run>, i: nat)
    requires i < |rs|
  {
    && (i + 1 < |rs| && rs[i].sym == 16 && rs[i + 1].sym == 16 ==> rs[i].count == 6)
    && (i + 1 < |rs| && rs[i].sym >= 17 && rs[i + 1].sym >= 17 ==> rs[i].count == 138)
    && (i + 2 < |rs| && rs[i].sym == 0 && rs[i + 1].sym == 0 ==> rs[i + 2].sym != 0)
    && (i + 3 < |rs| && rs[i].sym < 16 && rs[i + 1].sym == rs[i].sym && rs[i + 2].sym == rs[i].sym ==>
          rs[i + 3].sym != rs[i].sym)
  }

  /** What may follow lengths `v`: something else, unless as many as possible have been taken. */
  ghost predicate Follows(rs: seq<Run>, v: nat, full: bool) {
    rs != [] && !full ==> rs[0].sym != v && rs[0].sym != 16 && (v == 0 ==> rs[0].sym < 16)
  }

  /** What a group of equal lengths starts with. */
  lemma EmitStarts(prev: Prev, cur: nat, count: nat)
    requires 1 <= count && cur < REP_3_6
    ensures var e := Emit(prev, cur, count);
            && e != [] && (e[0].sym == 16 ==> prev == Last(cur))
            && e[0].sym in {cur, 16, 17, 18} && (e[0].sym >= 17 ==> cur == 0)
  {
  }

  lemma TightEmit(prev: Prev, cur: nat, count: nat, rest: seq<Run>)
    requires 1 <= count <= MaxCount(prev, cur) && cur < REP_3_6 && Tight(rest)
    requires Follows(rest, cur, count == MaxCount(prev, cur)) && (rest != [] && rest[0].sym >= 17 && cur == 0 ==>
      count == MaxCount(prev, cur))
    ensures Tight(Emit(prev, cur, count) + rest)
  {
    var e := Emit(prev, cur, count);
    var all := e + rest;
    forall i: nat | i < |all| ensures TightAt(all, i) {
      if i >= |e| {
        assert TightAt(rest, i - |e|);
        Shifted(e, rest, i);
      } else if count < MinCount(prev, cur) {
        assert |e| == count <= 3 && (cur == 0 ==> count <= 2);
      }
    }
  }

  lemma Shifted(e: seq<Run>, rest: seq<Run>, i: nat)
    requires |e| <= i < |e| + |rest| && TightAt(rest, i - |e|)
    ensures TightAt(e + rest, i)
  {
    assert forall k :: i <= k < |e| + |rest| ==> (e + rest)[k] == rest[k - |e|];
  }

  lemma {:induction false} RunsAtTight(lens: seq<nat>, n: nat, count: nat, prev: Prev)
    requires ShortLens(lens) && n <= |lens|
    requires n < |lens| ==> count < MaxCount(prev, lens[n])
    ensures Tight(RunsAt(lens, n, count, prev))
    ensures n < |lens| ==>
              var rs := RunsAt(lens, n, count, prev);
              && rs != [] && (rs[0].sym == 16 ==> prev == Last(lens[n]))
              && rs[0].sym in {lens[n], 16, 17, 18} && (rs[0].sym >= 17 ==> lens[n] == 0)
    decreases |lens| - n
  {
    hide Emit, Tight;
    NoneTight();
    if n < |lens| {
      if count + 1 < MaxCount(prev, lens[n]) && n + 1 < |lens| && lens[n + 1] == lens[n] {
        RunsAtTight(lens, n + 1, count + 1, prev);
      } else {
        RunsAtTight(lens, n + 1, 0, Last(lens[n]));
        EmitStarts(prev, lens[n], count + 1);
        TightEmit(prev, lens[n], count + 1, RunsAt(lens, n + 1, 0, Last(lens[n])));
      }
    }
  }

  lemma NoneTight()
    ensures Tight([])
  {
  }

  /** Runs of lengths are tight. */
  lemma RunsTight(lens: seq<nat>)
    requires ShortLens(lens)
    ensures Tight(Runs(lens))
  {
    hide Tight, RunsAt;
    RunsAtTight(lens, 0, 0, Nothing);
  }
}
