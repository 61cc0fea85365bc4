/**
 The Kraft inequality: the words of a prefix-free code leave room in the sense of
 `Optimality.Room`.  So a bound over code lengths is a bound over all prefix codes.
 */
module PrefixCodes {
  import opened Bits
  import opened Optimality

  type Word = seq<bool>

  ghost predicate PrefixFreeWords(ws: seq<Word>) {
    forall i, j :: 0 <= i < |ws| && 0 <= j < |ws| && i != j ==> !(ws[i] <= ws[j])
  }

  /** The items of a code: weight and word length. */
  ghost function Items(freqs: seq<nat>, ws: seq<Word>): (ps: seq<Item>)
    requires |freqs| == |ws|
    ensures |ps| == |ws| && forall i :: 0 <= i < |ps| ==> ps[i] == Item(freqs[i], |ws[i]|)
  {
    seq(|ws|, i requires 0 <= i < |ws| => Item(freqs[i], |ws[i]|))
  }

  ghost predicate Short(ws: seq<Word>, n: nat) {
    forall i :: 0 <= i < |ws| ==> |ws[i]| <= n
  }

  /** Share of the code space, in units of 2^-n, taken by the words. */
  ghost function Taken(ws: seq<Word>, n: nat): nat
    requires Short(ws, n)
  {
    if ws == [] then 0 else Pow2(n - |ws[0]|) + Taken(ws[1..], n)
  }

  /** Neither starts the other. */
  ghost predicate Apart(v: Word, w: Word) {
    !(v <= w) && !(w <= v)
  }

  ghost predicate ApartFrom(w: Word, ws: seq<Word>) {
    forall i :: 0 <= i < |ws| ==> Apart(w, ws[i])
  }

  ghost predicate Free(ws: seq<Word>) {
    ws == [] || (ApartFrom(ws[0], ws[1..]) && Free(ws[1..]))
  }

  lemma {:induction false} PrefixFreeIsFree(ws: seq<Word>)
    requires PrefixFreeWords(ws)
    ensures Free(ws)
  {
    if ws != [] {
      PrefixFreeIsFree(ws[1..]);
    }
  }

  /** What follows `b` in the words that start with it. */
  ghost function Tails(ws: seq<Word>, b: bool): seq<Word> {
    if ws == [] then []
    else if ws[0] != [] && ws[0][0] == b then [ws[0][1..]] + Tails(ws[1..], b)
    else Tails(ws[1..], b)
  }

  lemma ApartTails(b: bool, v: Word, w: Word)
    requires Apart([b] + v, [b] + w)
    ensures Apart(v, w)
  {
    assert v <= w ==> [b] + v <= [b] + w;
    assert w <= v ==> [b] + w <= [b] + v;
  }

  lemma {:induction false} TailsApart(b: bool, t: Word, ws: seq<Word>)
    requires ApartFrom([b] + t, ws)
    ensures ApartFrom(t, Tails(ws, b))
  {
    hide Apart;
    if ws != [] {
      TailsApart(b, t, ws[1..]);
      var w := ws[0];
      if w != [] && w[0] == b {
        assert [b] + w[1..] == w;
        ApartTails(b, t, w[1..]);
      }
    }
  }

  lemma {:induction false} TailsFree(ws: seq<Word>, b: bool)
    requires Free(ws)
    ensures Free(Tails(ws, b))
  {
    hide ApartFrom;
    if ws != [] {
      TailsFree(ws[1..], b);
      var w := ws[0];
      if w != [] && w[0] == b {
        assert [b] + w[1..] == w;
        TailsApart(b, w[1..], ws[1..]);
        assert Tails(ws, b)[1..] == Tails(ws[1..], b);
      }
    }
  }

  lemma {:induction false} TailsShort(ws: seq<Word>, n: nat, b: bool)
    requires n > 0 && Short(ws, n)
    ensures Short(Tails(ws, b), n - 1)
  {
    if ws != [] {
      TailsShort(ws[1..], n, b);
    }
  }

  lemma TakenCons(w: Word, ws: seq<Word>, n: nat)
    requires Short(ws, n) && |w| <= n
    ensures Short([w] + ws, n) && Taken([w] + ws, n) == Pow2(n - |w|) + Taken(ws, n)
  {
    assert ([w] + ws)[1..] == ws;
  }

  lemma {:induction false} SplitTaken(ws: seq<Word>, n: nat)
    requires n > 0 && Short(ws, n) && forall i :: 0 <= i < |ws| ==> ws[i] != []
    ensures Short(Tails(ws, false), n - 1) && Short(Tails(ws, true), n - 1)
    ensures Taken(ws, n) == Taken(Tails(ws, false), n - 1) + Taken(Tails(ws, true), n - 1)
  {
    hide Pow2;
    TailsShort(ws, n, false);
    TailsShort(ws, n, true);
    if ws != [] {
      SplitTaken(ws[1..], n);
      hide Taken;
      var w, b := ws[0], ws[0][0];
      assert ws == [w] + ws[1..];
      TakenCons(w, ws[1..], n);
      TakenCons(w[1..], Tails(ws[1..], b), n - 1);
    }
  }

  lemma OnlyEmpty(ws: seq<Word>, i: nat, n: nat)
    requires Free(ws) && i < |ws| && ws[i] == [] && Short(ws, n)
    ensures Taken(ws, n) == Pow2(n)
  {
    FreePair(ws, i);
    assert ws[1..] == [];
  }

  /** The empty word is apart from nothing. */
  lemma {:induction false} FreePair(ws: seq<Word>, i: nat)
    requires Free(ws) && i < |ws| && ws[i] == []
    ensures |ws| == 1
  {
  }

  /** The Kraft inequality. */
  lemma {:induction false} KraftInequality(ws: seq<Word>, n: nat)
    requires Free(ws) && Short(ws, n)
    ensures Taken(ws, n) <= Pow2(n)
    decreases n
  {
    hide Free, Tails;
    if i :| 0 <= i < |ws| && ws[i] == [] {
      OnlyEmpty(ws, i, n);
    } else if ws != [] {
      assert |ws[0]| > 0;
      hide Taken;
      TailsFree(ws, false);
      TailsFree(ws, true);
      SplitTaken(ws, n);
      KraftInequality(Tails(ws, false), n - 1);
      KraftInequality(Tails(ws, true), n - 1);
    }
  }

  lemma {:induction false} TakenIsKraft(freqs: seq<nat>, ws: seq<Word>, n: nat)
    requires |freqs| == |ws| && Short(ws, n)
    ensures Upto(Items(freqs, ws), n) && KraftAt(Items(freqs, ws), n) == Taken(ws, n)
  {
    if ws != [] {
      TakenIsKraft(freqs[1..], ws[1..], n);
      assert Items(freqs, ws)[1..] == Items(freqs[1..], ws[1..]);
    }
  }

  lemma {:induction false} LongestWord(ws: seq<Word>) returns (n: nat)
    ensures Short(ws, n)
  {
    if ws == [] {
      n := 0;
    } else {
      var m := LongestWord(ws[1..]);
      n := if m < |ws[0]| then |ws[0]| else m;
      forall i | 0 <= i < |ws| ensures |ws[i]| <= n {
        if i > 0 {
          assert ws[i] == ws[1..][i - 1];
        }
      }
    }
  }

  /** No prefix code does better than a bound over code lengths. */
  lemma NoBetterCode(freqs: seq<nat>, c: nat, ws: seq<Word>)
    requires LowerBound(multiset(freqs), c) && |ws| == |freqs| && PrefixFreeWords(ws)
    ensures c <= Cost(Items(freqs, ws))
  {
    var n := LongestWord(ws);
    PrefixFreeIsFree(ws);
    KraftInequality(ws, n);
    TakenIsKraft(freqs, ws, n);
    var ps := Items(freqs, ws);
    assert Weights(ps) == freqs;
    assert Room(ps, n);
  }
}
