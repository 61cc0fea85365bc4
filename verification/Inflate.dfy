/**
 inflate: the mode machine with its accumulator, tables and window.  Every mode makes
 steps of the decoding machine and stops only when it cannot go on.
 */
module Inflate {
  import opened Bits
  import opened CanonicalCode
  import opened CodeTables
  import opened InfTrees
  import opened InflateTable
  import opened TableSpace
  import opened Tokens
  import opened FixedCode
  import opened InflateSpec
  import opened InflateRuns
  import opened GetCode
  import opened TableDecode
  import opened RunCoding
  import opened InflateState
  import opened BitReader
  import opened OutWindow
  import InflateFast

  /** Return codes of inflate. */
  datatype Ret = Z_OK | Z_STREAM_END | Z_NEED_DICT | Z_DATA_ERROR | Z_BUF_ERROR

  class Inflater {
    const br: Reader
    const ow: Output
    var mode: Mode
    var last: bool
    var length: nat
    var offset: nat
    var extra: nat
    var nlen: nat
    var ndist: nat
    var ncode: nat
    var have: nat
    var lenbits: nat
    var distbits: nat
    const lens: array<nat>
    const work: array<nat>
    const lencode: array<Entry>
    const distcode: array<Entry>
    ghost var abs: State       // the decoding machine, with the input of this call

    ghost function R(): Regs
      reads this
    {
      Regs(mode, last, length, offset, extra, nlen, ndist, ncode, have, lenbits, distbits)
    }

    ghost predicate Shapes() {
      && lens.Length == 320 && work.Length == 320 && lens != work
      && lencode != distcode && lencode.Length == LENS_PART && distcode.Length == DISTS_PART
    }

    /** What holds between any two modes within a call. */
    ghost predicate Running()
      reads this, br, ow, ow.out, ow.window, lens, lencode, distcode
    {
      && Shapes() && br.Valid() && Written(abs.out)
      && Rel(R(), lens[..], lencode[..], distcode[..], abs) && BitsFor(mode, abs)
    }

    /** The output so far is `o`. */
    ghost predicate Written(o: seq<byte>)
      reads ow, ow.out, ow.window
    {
      ow.Valid() && ow.All() == o
    }

    /** The accumulator and the input are what the machine has still to decode. */
    ghost predicate BitsFor(m: Mode, a: State)
      requires br.next <= |br.input|
      reads br
    {
      && HeldOk(br.Held(), a) && (m in {COPY, DONE} ==> br.bits == 0)
      && if m == BAD then Loose(a) else a.bits == br.Stream()
    }

    /** After an error some bits may be held that the machine has dropped. */
    ghost predicate Loose(a: State)
      requires br.next <= |br.input|
      reads br
    {
      exists k: nat :: k <= br.bits && a.bits == br.Stream()[k..]
    }

    /** Why a call ends: the stream has, or there is no more input, or no more room. */
    ghost predicate Stuck()
      reads this, br, ow, ow.out
    {
      || mode == DONE || mode == BAD
      || (br.next == |br.input| && Step(abs) == None)
      || (ow.put == ow.out.Length && mode in {COPY, MATCH, LIT} && (mode == COPY ==> length > 0))
    }

    /** inflateInit2 for a raw stream and a 32K window. */
    constructor ()
      ensures Running() && abs == InflateSpec.Start() && ow.hist == [] && ow.put == 0 && br.bits == 0
      ensures br.input == [] && br.next == 0
      ensures fresh(br) && fresh(ow) && fresh(ow.window) && fresh(ow.out) && fresh(lens) && fresh(work)
      ensures fresh(lencode) && fresh(distcode)
    {
      hide BitsOf, BytesBits, WindowIs, Step, CodesFit, TableOk, AllUpTo, CountsFor, LensFor, Pow2;
      br := new Reader();
      ow := new Output();
      mode, last, length, offset, extra, nlen, ndist, ncode, have, lenbits, distbits := TYPE, false, 0, 0, 0, 0, 0, 0,
          0, 0, 0;
      lens := new nat[320](_ => 0);
      work := new nat[320](_ => 0);
      lencode := new Entry[LENS_PART](_ => INVALID);
      distcode := new Entry[DISTS_PART](_ => INVALID);
      abs := InflateSpec.Start();
      new;
      StartFits();
      FirstBits();
    }

    /** The parts of the invariant. */
    lemma Pieces()
      requires Running() && mode != BAD
      ensures Shapes() && br.Valid() && Written(abs.out) && Rel(R(), lens[..], lencode[..], distcode[..], abs)
      ensures BitsFor(mode, abs)
      ensures abs.mode == mode && abs.last == last && CodesFit(abs) && br.Stream() == abs.bits && HeldOk(br.Held(), abs)
      ensures (mode == COPY ==> br.bits == 0 && length == abs.length) && (mode == DONE ==> br.bits == 0)
      ensures mode in {LEN, LENEXT, DIST, DISTEXT, MATCH, LIT} ==> TablesFor(R(), lencode[..], distcode[..], abs)
    {
      hide Rel, CodesFit, HeldOk, Written, TablesFor;
      RelFacts(R(), lens[..], lencode[..], distcode[..], abs);
    }

    /** The invariant without its promise about the bits held. */
    ghost predicate Midway()
      reads this, br, ow, ow.out, ow.window, lens, lencode, distcode
    {
      Shapes() && br.Valid() && Written(abs.out) && Rel(R(), lens[..], lencode[..], distcode[..],
          abs) && br.Stream() == abs.bits
    }

    lemma MidFacts()
      requires Midway()
      ensures abs.mode == mode && abs.last == last && CodesFit(abs)
      ensures mode in {LEN, LENEXT, DIST, DISTEXT, MATCH, LIT} ==> TablesFor(R(), lencode[..], distcode[..], abs)
    {
      hide Rel, CodesFit, HeldOk, Written, TablesFor;
      RelFacts(R(), lens[..], lencode[..], distcode[..], abs);
    }

    lemma Whole()
      requires Shapes() && br.Valid() && Written(abs.out) && Rel(R(), lens[..], lencode[..], distcode[..], abs)
      requires BitsFor(mode, abs)
      ensures Running()
    {
      hide Rel, CodesFit, HeldOk, Written, BitsFor;
    }

    /** The plain meaning of the shorthands. */
    lemma Plainly()
      ensures R() == Regs(mode, last, length, offset, extra, nlen, ndist, ncode, have, lenbits, distbits)
      ensures Shapes() <==>
                && lens.Length == 320 && work.Length == 320 && lens != work && lencode != distcode
                && lencode.Length == LENS_PART && distcode.Length == DISTS_PART
      ensures (br.Valid() ==> br.next <= |br.input|) && |br.Held()| == br.bits
      ensures |OrderOf()| == 19 && (forall i :: 0 <= i < 19 ==> OrderOf()[i] < 19) && SymbolLimit(CODES) == 19
    {
      hide BitsOf, BytesBits, Pow2;
    }

    /** Stuck for want of input. */
    lemma StuckNow()
      requires br.next == |br.input| && Step(abs) == None
      ensures Stuck()
    {
      hide Step;
    }

    lemma Blocked()
      requires br.Valid() && br.next == |br.input| && abs.bits == br.Stream() && Step(abs) == None
      requires abs.mode !in {COPY, DONE, BAD}
      ensures BitsFor(abs.mode, abs)
    {
      hide Step, BitsOf;
      assert br.input[br.next..] == [];
      assert BytesBits([]) == [];
      assert br.Held() == br.Stream();
      assert abs.(bits := br.Held()) == abs;
    }

    // ---------- TYPE ----------

    /** fixedtables: the tables of the fixed code. */
    method FixedTables()
      requires Shapes()
      modifies this`lenbits, this`distbits, work, lencode, distcode
      ensures TableOk(LENS, FixedLens(), lencode[..], lenbits) && TableOk(DISTS, FixedDists(), distcode[..], distbits)
      ensures |FixedLens()| == 288 && forall s :: 0 <= s < 288 ==> CodeBits(FixedLens(), s) == FixedWord(s)
      ensures |FixedDists()| == 32 && forall d :: 0 <= d < 32 ==> CodeBits(FixedDists(), d) == MBits(d, 5)
    {
      hide TableOk, Acceptable, AllUpTo, FixedLens, FixedDists, ValidLens, TableSize, CodeBits, FixedWord, MBits;
      FixedAccepted();
      forall s | 0 <= s < 288 ensures CodeBits(FixedLens(), s) == FixedWord(s) {
        FixedWords(s);
      }
      forall d | 0 <= d < 32 ensures CodeBits(FixedDists(), d) == MBits(d, 5) {
        FixedDistWords(d);
      }
      var ret;
      ret, lenbits := Build(LENS, FixedLens(), lencode, 9, work);
      ret, distbits := Build(DISTS, FixedDists(), distcode, 5, work);
    }

    /** The three bits of a block's type. */
    method ReadType() returns (ok: bool, x: nat, y: nat)
      requires br.Valid() && abs.mode == TYPE && BitsFor(TYPE, abs) && !abs.last
      modifies br`next, br`hold, br`bits
      ensures br.Valid() && br.next >= old(br.next)
      ensures (!ok ==> BitsFor(TYPE, abs) && br.next == |br.input| && Step(abs) == None)
      ensures ok ==>
                && Step(abs).Some? && br.Stream() == Step(abs).value.bits && br.bits < 8
                && Step(abs).value.last == (x == 1) && y < 4
      ensures ok ==>
                Step(abs).value.mode
                == (if y == 0 then STORED else if y == 1 then LEN else if y == 2 then TABLE else BAD)
      ensures ok && y == 1 ==> Step(abs).value.lencode == FixedLens() && Step(abs).value.distcode == FixedDists()
    {
      hide CodesFit, Step, HeldOk, BitsOf, BytesBits, Val, FixedLens, FixedDists, Pow2, Low;
      StepCases(abs);
      TypeHeld(br.Held(), abs);
      x, y := 0, 0;
      ok := br.NeedBits(3);
      if !ok {
        EmptyInput();
        Blocked();
        return;
      }
      br.BitsAtIs(1);
      x := br.BitsAt(1);
      br.DropBits(1);
      br.BitsAtIs(2);
      y := br.BitsAt(2);
      TypeReads(abs, x, y);
      br.DropBits(2);
      assert abs.bits[1..][2..] == abs.bits[3..];
    }

    /** TYPE and TYPEDO: the type of the next block, or the end. */
    method TypeMode() returns (leave: bool)
      requires Running() && mode == TYPE
      modifies this`mode, this`last, this`lenbits, this`distbits, this`abs, br`next, br`hold, br`bits, work, lencode,
               distcode
      ensures Running() && Leads(old(abs), abs) && br.next >= old(br.next)
      ensures if leave then Stuck() else Closer(old(abs), TYPE, abs, mode)
    {
      hide Running, BitsFor, Rel, CodesFit, Step, HeldOk, BitsOf, BytesBits, TableOk, Leads, Closer, FixedLens,
           FixedDists, Pow2, Written;
      Pieces();
      ghost var a := abs;
      if last {
        TypeHeld(br.Held(), abs);
        LastBlock(abs);
        br.ByteBits();
        mode := DONE;
      } else {
        var ok, x, y := ReadType();
        if !ok {
          LeadsSelf(abs);
          Whole();
          return true;
        }
        last := x == 1;
        mode := if y == 0 then STORED else if y == 1 then LEN else if y == 2 then TABLE else BAD;
        if y == 1 {
          FixedTables();
        }
      }
      leave := false;
      abs := Step(a).value;
      TypeDone(a);
    }

    lemma TypeDone(a: State)
      requires a.mode == TYPE && CodesFit(a) && Step(a) == Some(abs) && Shapes() && br.Valid() && Written(a.out)
      requires mode == abs.mode && last == abs.last && br.bits < 8 && br.Stream() == abs.bits
      requires mode in {STORED, TABLE, BAD, DONE} || (mode == LEN && TablesFor(R(), lencode[..], distcode[..], abs))
      requires mode == DONE ==> br.bits == 0
      ensures Running() && Leads(a, abs) && Closer(a, TYPE, abs, mode)
    {
      hide Rel, CodesFit, Step, HeldOk, BitsOf, BytesBits, TablesFor, Leads, Closer, Written, BitsFor;
      StepFits(a);
      TypeOut(a);
      if mode == LEN {
        LenRel(R(), lens[..], lencode[..], distcode[..], abs);
      } else {
        PlainRel(R(), lens[..], lencode[..], distcode[..], abs);
      }
      BitsDone(abs);
      StepDone(a);
    }

    lemma BitsDone(a: State)
      requires br.Valid() && br.bits < 8 && br.Stream() == a.bits && (a.mode in {COPY, DONE} ==> br.bits == 0)
      ensures BitsFor(a.mode, a)
    {
      hide HeldOk;
      HeldFew(br.Held(), a);
      assert br.Stream()[0..] == a.bits;
    }

    /** One step has been made. */
    lemma StepDone(a: State)
      requires Step(a) == Some(abs) && Shapes() && br.Valid() && Written(abs.out) && mode == abs.mode
      requires Rel(R(), lens[..], lencode[..], distcode[..], abs) && BitsFor(mode, abs)
      ensures Running() && Leads(a, abs) && Closer(a, a.mode, abs, mode)
    {
      hide Rel, Step, HeldOk, BitsOf, BytesBits, Leads, Closer, Written, BitsFor;
      LeadsStep(a, abs);
      StepCloser(a);
    }

    // ---------- STORED and COPY ----------

    /** Align, then wait for the length of the block and its complement. */
    method ReadLengths(ghost a: State) returns (ok: bool, len: nat, check: nat)
      requires br.Valid() && a.mode == STORED && BitsFor(STORED, a)
      modifies br`next, br`hold, br`bits
      ensures br.Valid() && br.next >= old(br.next) && br.bits <= 32
      ensures |br.Stream()| % 8 == 0 && br.Stream() == a.bits[|a.bits| % 8..]
      ensures ok ==>
                && br.bits == 32 && |br.Stream()| >= 32 && len == Val(br.Stream()[..16])
                && check == Val(br.Stream()[16..32])
      ensures check < 0x10000
      ensures !ok ==> br.next == |br.input| && |br.Stream()| < 32 && |br.Stream()| == br.bits
    {
      hide Step, HeldOk, BitsOf, BytesBits, Pow2, Val, Low, Shr;
      StoredHeld(br.Held(), a);
      br.ByteBits();
      StreamMod();
      len, check := 0, 0;
      ok := br.NeedBits(32);
      if !ok {
        EmptyInput();
        return;
      }
      br.BitsAtIs(16);
      br.BitsAtIs(32);
      len := br.BitsAt(16);
      check := Low(Shr(br.hold, 16), 16);
      Pow2Values();
      HighHalf(br.hold);
      assert br.Stream()[16..32] == br.Held()[16..32];
    }

    lemma StreamMod()
      requires br.Valid() && br.bits % 8 == 0
      ensures |br.Stream()| % 8 == 0
    {
      hide BitsOf, BytesBits;
      ModOf(br.bits, |br.input[br.next..]|);
      assert |br.Stream()| == br.bits + 8 * |br.input[br.next..]|;
    }

    method StoredMode() returns (leave: bool)
      requires Running() && mode == STORED
      modifies this`mode, this`length, this`abs, br`next, br`hold, br`bits
      ensures Running() && Leads(old(abs), abs) && br.next >= old(br.next)
      ensures if leave then Stuck() else Closer(old(abs), STORED, abs, mode)
    {
      hide Running, BitsFor, Rel, CodesFit, Step, HeldOk, BitsOf, BytesBits, Leads, Closer, Pow2, Written, Val;
      Pieces();
      ghost var a := abs;
      var ok, len, check := ReadLengths(abs);
      abs := a.(bits := br.Stream());
      Aligned(a);
      SameFits(a, abs);
      StoredStops(a, abs);
      if !ok {
        Blocked();
        PlainRel(R(), lens[..], lencode[..], distcode[..], abs);
        Whole();
        return true;
      }
      ghost var a1 := abs;
      length := len;
      mode := if len != 0xffff - check then BAD else COPY;   // xor with 0xffff is the complement
      if mode == COPY {
        br.InitBits();
      }
      abs := Step(a1).value;
      leave := false;
      StoredDone(a, a1);
    }

    lemma StoredDone(a: State, a1: State)
      requires a.mode == STORED == a1.mode && CodesFit(a1) && StoredGoes(a1, abs, length) && Shapes() && br.Valid()
      requires Written(abs.out)
      requires mode == abs.mode && last == abs.last && mode in {COPY, BAD}
      requires if mode == COPY
               then br.bits == 0 && br.Stream() == abs.bits
               else br.bits == 32 && |br.Stream()| >= 32 && abs.bits == br.Stream()[32..]
      requires Leads(a, a1) && |a1.bits| <= |a.bits|
      ensures Running() && Leads(a, abs) && Closer(a, STORED, abs, mode)
    {
      hide Rel, CodesFit, Step, HeldOk, BitsOf, BytesBits, Leads, Written, BitsFor;
      StepFits(a1);
      if mode == COPY {
        CopyRel(R(), lens[..], lencode[..], distcode[..], abs);
        BitsDone(abs);
      } else {
        PlainRel(R(), lens[..], lencode[..], distcode[..], abs);
        BadBits(abs, 32);
      }
      StepDone(a1);
      LeadsTrans(a, a1, abs);
    }

    lemma BadBits(a: State, k: nat)
      requires br.Valid() && a.mode == BAD && k <= br.bits && a.bits == br.Stream()[k..]
      ensures BitsFor(BAD, a)
    {
    }

    /** One byte of a stored block. */
    method CopyByte()
      requires Running() && mode == COPY && length > 0 && br.next < |br.input| && ow.put < ow.out.Length
      modifies this`length, this`abs, br`next, ow`put, ow.out
      ensures Running() && mode == COPY && Leads(old(abs), abs) && |abs.bits| < |old(abs).bits|
      ensures length == old(length) - 1 && br.next == old(br.next) + 1 && ow.put == old(ow.put) + 1
    {
      hide Rel, CodesFit, Step, HeldOk, BitsOf, BytesBits, Leads, Closer, Pow2, Val, WindowIs;
      Pieces();
      ghost var a := abs;
      BytesTail(br.input, br.next);
      var b := br.input[br.next];
      ghost var rest := BytesBits(br.input[br.next + 1..]);
      assert br.Stream() == BitsOf(b, 8) + rest;
      CopyReads(a, b, rest);
      ow.PutByte(b);
      br.next := br.next + 1;
      length := length - 1;
      abs := Step(a).value;
      LeadsStep(a, abs);
      SameFits(a, abs);
      CopyRel(R(), lens[..], lencode[..], distcode[..], abs);
      assert br.Stream() == rest;
      BitsDone(abs);
    }

    /** COPY: as much of a stored block as there is input and room for. */
    method CopyMode() returns (leave: bool)
      requires Running() && mode == COPY
      modifies this`mode, this`length, this`abs, br`next, ow`put, ow.out
      ensures Running() && Leads(old(abs), abs) && br.next >= old(br.next)
      ensures if leave then Stuck() else Closer(old(abs), COPY, abs, mode)
    {
      hide Running, BitsFor, Rel, CodesFit, Step, HeldOk, BitsOf, BytesBits, Leads, Closer, Pow2, Val, WindowIs;
      Pieces();
      LeadsSelf(abs);
      CopyStops(abs);
      ghost var a := abs;
      var copy := length;
      if copy != 0 {
        if copy > |br.input| - br.next {
          copy := |br.input| - br.next;
        }
        if copy > ow.out.Length - ow.put {
          copy := ow.out.Length - ow.put;
        }
        if copy == 0 {
          if br.next == |br.input| {
            EmptyInput();
          }
          return true;
        }
        CopyBytes(copy);
        Nearer(a, COPY, abs, mode);
      } else {
        mode := TYPE;
        abs := Step(a).value;
        SameFits(a, abs);
        PlainRel(R(), lens[..], lencode[..], distcode[..], abs);
        BitsDone(abs);
        StepDone(a);
      }
      leave := false;
    }

    method CopyBytes(copy: nat)
      requires Running() && mode == COPY && 0 < copy <= length && br.next + copy <= |br.input|
      requires ow.put + copy <= ow.out.Length
      modifies this`length, this`abs, br`next, ow`put, ow.out
      ensures Running() && mode == COPY && Leads(old(abs), abs) && |abs.bits| < |old(abs).bits|
      ensures br.next >= old(br.next)
    {
      ghost var a := abs;
      LeadsSelf(abs);
      var i := 0;
      while i < copy
        invariant 0 <= i <= copy && Running() && mode == COPY && Leads(a, abs)
        invariant (i > 0 ==> |abs.bits| < |a.bits|)
        invariant length == old(length) - i && br.next == old(br.next) + i && ow.put == old(ow.put) + i
        invariant |abs.bits| <= |a.bits|
      {
        hide Leads, Running;
        ghost var b := abs;
        CopyByte();
        LeadsTrans(a, b, abs);
        i := i + 1;
      }
    }

    // ---------- the dynamic header ----------

    /** The three counts of a dynamic header. */
    method ReadCounts() returns (ok: bool, x: nat, y: nat, z: nat)
      requires br.Valid() && abs.mode == TABLE && BitsFor(TABLE, abs)
      modifies br`next, br`hold, br`bits
      ensures br.Valid() && br.next >= old(br.next)
      ensures (!ok ==> BitsFor(TABLE, abs) && br.next == |br.input| && Step(abs) == None)
      ensures ok ==> br.bits < 8 && z < 16
      ensures ok ==>
                Step(abs) == Some(abs.(bits := br.Stream(), nlen := x + 257, ndist := y + 1, ncode := z + 4, lens := [],
                                            mode := if x + 257 > 286 || y + 1 > 30 then BAD else LENLENS))
    {
      hide CodesFit, Step, HeldOk, BitsOf, BytesBits, Val, Pow2, Low;
      TableHeld(br.Held(), abs);
      x, y, z := 0, 0, 0;
      ok := br.NeedBits(14);
      if !ok {
        EmptyInput();
        TableStops(abs);
        Blocked();
        return;
      }
      br.BitsAtIs(5);
      x := br.BitsAt(5);
      br.DropBits(5);
      br.BitsAtIs(5);
      y := br.BitsAt(5);
      br.DropBits(5);
      br.BitsAtIs(4);
      z := br.BitsAt(4);
      br.DropBits(4);
      TableReads(abs, x, y, z);
    }

    method TableMode() returns (leave: bool)
      requires Running() && mode == TABLE
      modifies this`mode, this`nlen, this`ndist, this`ncode, this`have, this`abs, br`next, br`hold, br`bits
      ensures Running() && Leads(old(abs), abs) && br.next >= old(br.next)
      ensures if leave then Stuck() else Closer(old(abs), TABLE, abs, mode)
    {
      hide *;
      Plainly();
      Pieces();
      ghost var a := abs;
      var ok, x, y, z := ReadCounts();
      if !ok {
        LeadsSelf(abs);
        Whole();
        StuckNow();
        return true;
      }
      TakeCounts(x, y, z);
      leave := false;
    }

    /** The counts are in range, or an error. */
    method TakeCounts(x: nat, y: nat, z: nat)
      requires abs.mode == TABLE && CodesFit(abs) && Shapes() && br.Valid() && Written(abs.out)
      requires last == abs.last && br.bits < 8 && z < 16
      requires Step(abs) == Some(abs.(bits := br.Stream(), nlen := x + 257, ndist := y + 1, ncode := z + 4, lens := [],
                                      mode := if x + 257 > 286 || y + 1 > 30 then BAD else LENLENS))
      modifies this`mode, this`nlen, this`ndist, this`ncode, this`have, this`abs
      ensures Running() && Leads(old(abs), abs) && Closer(old(abs), TABLE, abs, mode)
    {
      hide *;
      ghost var a := abs;
      nlen, ndist, ncode := x + 257, y + 1, z + 4;
      abs := Step(a).value;
      if nlen > 286 || ndist > 30 {
        mode := BAD;
      } else {
        mode := LENLENS;
        have := 0;
      }
      TableDone(a);
    }

    lemma TableDone(a: State)
      requires a.mode == TABLE && CodesFit(a) && Step(a) == Some(abs) && Shapes() && br.Valid() && Written(a.out)
      requires abs == a.(bits := br.Stream(), nlen := nlen, ndist := ndist, ncode := ncode, lens := [], mode := mode)
      requires last == a.last && br.bits < 8 && mode in {LENLENS, BAD}
      requires mode == LENLENS ==> have == 0 && 257 <= nlen <= 286 && 1 <= ndist <= 30 && 4 <= ncode <= 19
      ensures Running() && Leads(a, abs) && Closer(a, TABLE, abs, mode)
    {
      hide Rel, CodesFit, Step, HeldOk, BitsOf, BytesBits, Leads, Closer, Written, BitsFor, Running;
      StepFits(a);
      if mode == LENLENS {
        TableRel(R(), lens[..], lencode[..], distcode[..], abs);
      } else {
        PlainRel(R(), lens[..], lencode[..], distcode[..], abs);
      }
      BitsDone(abs);
      StepDone(a);
    }

    /** One length of the code-length code. */
    method ReadLenLen() returns (ok: bool)
      requires Running() && mode == LENLENS && have < ncode
      modifies this`have, this`abs, br`next, br`hold, br`bits, lens
      ensures Running() && mode == LENLENS && Leads(old(abs), abs) && br.next >= old(br.next)
      ensures if ok
              then |abs.bits| < |old(abs).bits| && have == old(have) + 1
              else abs == old(abs) && br.next == |br.input| && Step(abs) == None
      ensures ok ==>
                && old(have) < 19 && |old(abs).bits| >= 3 && lens.Length == 320
                && lens[..] == old(lens[..])[HeaderSymbol(old(have)) := Val(old(abs).bits[..3])]
    {
      hide *;
      Plainly();
      Pieces();
      LenLensFacts(R(), lens[..], lencode[..], distcode[..], abs);
      LenLensHeld(br.Held(), abs);
      ghost var a, ls := abs, lens[..];
      ok := br.NeedBits(3);
      if !ok {
        EmptyInput();
        LenLensStops(abs);
        Blocked();
        LeadsSelf(abs);
        Whole();
        return;
      }
      br.BitsAtIs(3);
      LenLensMore(R(), ls, lencode[..], distcode[..], a, br.BitsAt(3));
      ghost var r := R();
      Plainly();
      OrderIs(have);
      lens[OrderOf()[have]] := br.BitsAt(3);
      have := have + 1;
      br.DropBits(3);
      abs := Step(a).value;
      Plainly();
      assert lens[..] == ls[OrderOf()[r.have] := abs.lens[r.have]];
      assert R() == r.(have := r.have + 1);
      LeadsStep(a, abs);
      BitsDone(abs);
      Whole();
    }

    /** The lengths that were not sent are 0. */
    method ZeroRest()
      requires Shapes() && have <= 19
      modifies this`have, lens
      ensures have == 19
      ensures forall i :: 0 <= i < 19 ==> lens[OrderOf()[i]] == if i < old(have) then old(lens[OrderOf()[i]]) else 0
    {
      hide OrderOf;
      OrderInjective();
      while have < 19
        invariant old(have) <= have <= 19
        invariant forall i ::
                    0 <= i < 19 ==> lens[OrderOf()[i]] == if old(have) <= i < have then 0 else old(lens[OrderOf()[i]])
      {
        lens[OrderOf()[have]] := 0;
        have := have + 1;
      }
    }

    /** The end of LENLENS: build the table of the code-length code. */
    method CodesTable()
      requires Running() && mode == LENLENS && have == ncode
      modifies this`mode, this`have, this`lenbits, this`abs, lens, work, lencode
      ensures Running() && Leads(old(abs), abs) && Closer(old(abs), LENLENS, abs, mode)
    {
      hide *;
      Plainly();
      Pieces();
      LenLensFacts(R(), lens[..], lencode[..], distcode[..], abs);
      LenLensHeld(br.Held(), abs);
      CountsAre(R(), abs);
      ghost var a, ls, r, lt := abs, lens[..], R(), lencode[..];
      ZeroRest();
      LenLensAll(r, ls, lens[..], lt, distcode[..], a);
      assert lens[..19] == lens[..][..19];
      LenLensFit(lens[..19]);
      var ret;
      ret, lenbits := Build(CODES, lens[..19], lencode, 7, work);
      have := if ret != 0 then have else 0;
      mode := if ret != 0 then BAD else CODELENS;
      LenLensEnds(a);
      abs := Step(a).value;
      Plainly();
      CountsAgain(r, a, R(), abs);
      CodesDone(a);
    }

    lemma CodesDone(a: State)
      requires a.mode == LENLENS && CodesFit(a) && Step(a) == Some(abs) && Shapes() && br.Valid() && Written(a.out)
      requires mode == abs.mode && last == abs.last && br.bits < 8 && br.Stream() == abs.bits && mode in {CODELENS, BAD}
      requires abs.out == a.out
      requires mode == CODELENS ==> have == 0 && abs.lens == [] && |abs.lencode| == 19 && CountsFor(R(), abs)
      requires mode == CODELENS ==> TableOk(CODES, abs.lencode, lencode[..], lenbits) && AllUpTo(abs.lencode, lenbits)
      ensures Running() && Leads(a, abs) && Closer(a, LENLENS, abs, mode)
    {
      hide Rel, CodesFit, Step, HeldOk, BitsOf, BytesBits, Leads, Closer, Written, BitsFor, TableOk, AllUpTo;
      StepFits(a);
      if mode == CODELENS {
        CodeLensRel(R(), lens[..], lencode[..], distcode[..], abs);
      } else {
        PlainRel(R(), lens[..], lencode[..], distcode[..], abs);
      }
      BitsDone(abs);
      StepDone(a);
    }

    lemma HaveBound()
      requires Running() && mode == LENLENS
      ensures have <= ncode
    {
      hide CodesFit, HeldOk, Written;
    }

    method LenLensMode() returns (leave: bool)
      requires Running() && mode == LENLENS
      modifies this`mode, this`have, this`lenbits, this`abs, br`next, br`hold, br`bits, lens, work, lencode
      ensures Running() && Leads(old(abs), abs) && br.next >= old(br.next)
      ensures if leave then Stuck() else Closer(old(abs), LENLENS, abs, mode)
    {
      hide Running, Leads, Closer, Step;
      ghost var a := abs;
      HaveBound();
      LeadsSelf(abs);
      while have < ncode
        invariant Running() && mode == LENLENS && Leads(a, abs) && br.next >= old(br.next) && have <= ncode
        invariant |abs.bits| < |a.bits| || abs == a
        decreases ncode - have
      {
        hide Running, Leads, Closer, Step;
        ghost var b := abs;
        var ok := ReadLenLen();
        LeadsTrans(a, b, abs);
        if !ok {
          return true;
        }
      }
      ghost var b := abs;
      CodesTable();
      LeadsTrans(a, b, abs);
      CloserTrans(a, b, LENLENS, abs, mode);
      leave := false;
    }

    /** A length that stands for itself. */
    method PlainLength(e: Entry)
      requires Midway() && mode == CODELENS && have < nlen + ndist && Peeked(abs, e) && e.val < 16
      requires 1 <= e.bits <= br.bits < e.bits + 8
      modifies this`have, this`abs, br`hold, br`bits, lens
      ensures Running() && mode == CODELENS && Leads(old(abs), abs) && |abs.bits| < |old(abs).bits|
      ensures have == old(have) + 1
    {
      hide Running, Rel, CodesFit, Step, HeldOk, BitsOf, BytesBits, Leads, Closer, Pow2, Written, BitsFor, Peeked;
      MidFacts();
      CodeLensFacts(R(), lens[..], lencode[..], distcode[..], abs);
      ghost var a, r, ls := abs, R(), lens[..];
      PlainMore(r, ls, lencode[..], distcode[..], a, e);
      br.DropBits(e.bits);
      lens[have] := e.val;
      have := have + 1;
      abs := Step(a).value;
      assert lens[..] == ls[r.have := e.val] && R() == r.(have := r.have + 1);
      BitsDone(abs);
      StepDone(a);
    }

    /** Store `copy` times the same length. */
    method StoreLengths(len: nat, copy: nat)
      requires lens.Length == 320 && have + copy <= 320
      modifies this`have, lens
      ensures have == old(have) + copy
      ensures forall i :: 0 <= i < 320 ==> lens[i] == if old(have) <= i < have then len else old(lens[i])
    {
      var n := copy;
      while n > 0
        invariant 0 <= n <= copy && have == old(have) + copy - n
        invariant forall i :: 0 <= i < 320 ==> lens[i] == if old(have) <= i < have then len else old(lens[i])
      {
        lens[have] := len;
        have := have + 1;
        n := n - 1;
      }
    }

    /** A repeat code, once its extra bits are there. */
    method RepeatLength(e: Entry)
      requires Midway() && mode == CODELENS && have < nlen + ndist && Peeked(abs, e) && 16 <= e.val <= 18 && e.bits >= 1
      requires e.bits + BlExtra(e.val) <= br.bits < e.bits + BlExtra(e.val) + 8
      modifies this`mode, this`have, this`abs, br`hold, br`bits, lens
      ensures Running() && mode in {CODELENS, BAD} && Leads(old(abs), abs)
      ensures (mode == BAD ==> Closer(old(abs), CODELENS, abs, mode))
      ensures mode == CODELENS ==> have > old(have) && |abs.bits| < |old(abs).bits|
    {
      hide Running, Rel, CodesFit, Step, HeldOk, BitsOf, BytesBits, Leads, Closer, Pow2, Written, BitsFor, Peeked, Val,
           Low;
      MidFacts();
      CodeLensFacts(R(), lens[..], lencode[..], distcode[..], abs);
      ghost var a, r, ls := abs, R(), lens[..];
      var n := BlExtra(e.val);
      PeekRepeat(a, e);
      br.DropBits(e.bits);
      br.BitsAtIs(n);
      if e.val == 16 && have == 0 {
        mode := BAD;
        abs := Step(a).value;
        BadDone(a, n);
        return;
      }
      var len := if e.val == 16 then lens[have - 1] else 0;
      var copy := RunBase(e.val) + br.BitsAt(n);
      br.DropBits(n);
      if have + copy > nlen + ndist {
        mode := BAD;
        abs := Step(a).value;
        BadDone(a, 0);
        return;
      }
      StoreRepeat(e, len, copy);
    }

    /** The lengths of a repeat code that fits. */
    method StoreRepeat(e: Entry, len: nat, copy: nat)
      requires Rel(R(), lens[..], lencode[..], distcode[..], abs) && Shapes() && br.Valid() && Written(abs.out)
      requires mode == CODELENS && have < nlen + ndist && Peeked(abs, e) && 16 <= e.val <= 18
      requires |abs.bits| >= e.bits + BlExtra(e.val) && e.bits >= 1
      requires copy == RunBase(e.val) + Val(abs.bits[e.bits..][..BlExtra(e.val)]) && have + copy <= nlen + ndist
      requires (e.val == 16 ==> have > 0) && have <= 320
      requires len == (if e.val == 16 && have > 0 then lens[have - 1] else 0)
      requires br.bits < 8 && br.Stream() == abs.bits[e.bits..][BlExtra(e.val)..]
      modifies this`have, this`abs, lens
      ensures Running() && Leads(old(abs), abs) && |abs.bits| < |old(abs).bits| && have > old(have)
    {
      hide Running, Rel, CodesFit, Step, HeldOk, BitsOf, BytesBits, Leads, Closer, Pow2, Written, BitsFor, Peeked, Val,
           Low;
      CodeLensFacts(R(), lens[..], lencode[..], distcode[..], abs);
      ghost var a, r, ls := abs, R(), lens[..];
      StoreLengths(len, copy);
      RepeatMore(r, ls, lens[..], lencode[..], distcode[..], a, e, len, copy);
      abs := Step(a).value;
      assert R() == r.(have := r.have + copy);
      BitsDone(abs);
      StepDone(a);
    }

    /** An error ends the run. */
    lemma BadDone(a: State, k: nat)
      requires br.Valid() && k <= br.bits && abs.bits == br.Stream()[k..]
      requires Step(a) == Some(abs) && CodesFit(a) && Shapes() && br.Valid() && Written(abs.out)
      requires mode == BAD == abs.mode && last == abs.last
      ensures Running() && Leads(a, abs) && Closer(a, a.mode, abs, mode)
    {
      hide Rel, CodesFit, Step, HeldOk, BitsOf, BytesBits, Leads, Closer, Written, BitsFor;
      StepFits(a);
      PlainRel(R(), lens[..], lencode[..], distcode[..], abs);
      BadBits(abs, k);
      StepDone(a);
    }
    /** The next length or run of lengths; false when the input runs out. */
    method OneLength() returns (ok: bool)
      requires Running() && mode == CODELENS && have < nlen + ndist
      modifies this`mode, this`have, this`abs, br`next, br`hold, br`bits, lens
      ensures Running() && Leads(old(abs), abs) && br.next >= old(br.next)
      ensures mode in {CODELENS, BAD}
      ensures ok && mode == CODELENS ==> have > old(have) && |abs.bits| < |old(abs).bits|
      ensures ok && mode == BAD ==> Closer(old(abs), CODELENS, abs, mode)
      ensures !ok ==> abs == old(abs) && mode == CODELENS && br.next == |br.input| && Step(abs) == None
    {
      hide Running, Rel, CodesFit, Step, HeldOk, BitsOf, BytesBits, Leads, Closer, Pow2, Written, BitsFor, Peeked,
           Decode, Agrees, TableOk, AllUpTo, Fits;
      Pieces();
      CodeLensFacts(R(), lens[..], lencode[..], distcode[..], abs);
      ghost var held := br.Held();
      var e;
      ok, e := PeekCode(br, lencode, lenbits, abs.lencode);
      if !ok {
        EmptyInput();
        CodeLensStops(abs);
        StayBlocked();
        return;
      }
      PeekedIs(abs, br.Held(), BytesBits(br.input[br.next..]), e);
      PeekedVal(abs, e);
      if br.Held() == held {
        PlainHeld(abs, held, e);
      }
      if e.val < 16 {
        PlainLength(e);
      } else {
        ok := br.NeedBits(e.bits + BlExtra(e.val));
        if !ok {
          EmptyInput();
          PeekRepeat(abs, e);
          StayBlocked();
          return;
        }
        RepeatLength(e);
      }
    }

    lemma StayBlocked()
      requires Shapes() && br.Valid() && Written(abs.out) && Rel(R(), lens[..], lencode[..], distcode[..], abs)
      requires br.next == |br.input| && abs.bits == br.Stream() && Step(abs) == None && abs.mode == mode
      requires mode !in {COPY, DONE, BAD}
      ensures Running() && Leads(abs, abs)
    {
      hide Rel, CodesFit, Step, HeldOk, BitsOf, BytesBits, Leads, Written, BitsFor, Running;
      Blocked();
      LeadsSelf(abs);
      Whole();
    }

    /** inflate_table for both codes. */
    method BuildBoth() returns (ret: int)
      requires Shapes() && nlen <= 286 && ndist <= 30 && ValidLens(lens[..nlen]) && ValidLens(lens[nlen..nlen + ndist])
      modifies this`lenbits, this`distbits, work, lencode, distcode
      ensures ret == 0 ==> Acceptable(LENS, lens[..nlen]) && Acceptable(DISTS, lens[nlen..nlen + ndist])
      ensures ret == 0 ==>
                && TableOk(LENS, lens[..nlen], lencode[..], lenbits)
                && TableOk(DISTS, lens[nlen..nlen + ndist], distcode[..], distbits)
      ensures ret != 0 ==> !(Acceptable(LENS, lens[..nlen]) && Acceptable(DISTS, lens[nlen..nlen + ndist]))
    {
      hide TableOk, AllUpTo, Acceptable, ValidLens, TableSize;
      BothFit(lens[..nlen], lens[nlen..nlen + ndist]);
      ret, lenbits := Build(LENS, lens[..nlen], lencode, 9, work);
      if ret == 0 {
        ret, distbits := Build(DISTS, lens[nlen..nlen + ndist], distcode, 6, work);
      }
    }

    /** The end of CODELENS: build the tables of the block. */
    method BlockTables()
      requires Running() && mode == CODELENS && have == nlen + ndist
      modifies this`mode, this`lenbits, this`distbits, this`abs, work, lencode, distcode
      ensures Running() && Leads(old(abs), abs) && Closer(old(abs), CODELENS, abs, mode)
    {
      hide *;
      Plainly();
      Pieces();
      CodeLensFacts(R(), lens[..], lencode[..], distcode[..], abs);
      CountsAre(R(), abs);
      CodeLensFullHeld(br.Held(), abs);
      CodeLensEnds(R(), lens[..], lencode[..], distcode[..], abs);
      assert lens[..nlen] == lens[..][..nlen] && lens[nlen..nlen + ndist] == lens[..][nlen..nlen + ndist];
      var ret := BuildBoth();
      TakeTables(ret);
    }

    /** The tables are those of the block, or an error. */
    method TakeTables(ret: int)
      requires abs.mode == CODELENS && CodesFit(abs) && Shapes() && br.Valid() && Written(abs.out)
      requires last == abs.last && br.bits < 8
      requires br.Stream() == abs.bits && nlen + ndist <= 320
      requires Step(abs) == Some(if Acceptable(LENS, lens[..nlen]) && Acceptable(DISTS, lens[nlen..nlen + ndist])
                                 then abs.(mode := LEN, lencode := lens[..nlen],
                                     distcode := lens[nlen..nlen + ndist]) else abs.(mode := BAD))
      requires ret == 0 ==> Acceptable(LENS, lens[..nlen]) && Acceptable(DISTS, lens[nlen..nlen + ndist])
      requires ret == 0 ==>
                 && TableOk(LENS, lens[..nlen], lencode[..], lenbits)
                 && TableOk(DISTS, lens[nlen..nlen + ndist], distcode[..], distbits)
      requires ret != 0 ==> !(Acceptable(LENS, lens[..nlen]) && Acceptable(DISTS, lens[nlen..nlen + ndist]))
      modifies this`mode, this`abs
      ensures Running() && Leads(old(abs), abs) && Closer(old(abs), CODELENS, abs, mode)
    {
      hide *;
      ghost var a := abs;
      if ret != 0 {
        mode := BAD;
      } else {
        mode := LEN;
      }
      Plainly();
      abs := Step(a).value;
      Plainly();
      if mode == LEN {
        BothTables(R(), lencode[..], distcode[..], abs);
      }
      TablesDone(a);
    }

    lemma TablesDone(a: State)
      requires a.mode == CODELENS && CodesFit(a) && Step(a) == Some(abs) && Shapes() && br.Valid() && Written(a.out)
      requires mode == abs.mode && last == abs.last && br.bits < 8 && br.Stream() == abs.bits && mode in {LEN, BAD}
      requires abs.out == a.out
      requires mode == LEN ==> TablesFor(R(), lencode[..], distcode[..], abs)
      ensures Running() && Leads(a, abs) && Closer(a, CODELENS, abs, mode)
    {
      hide Rel, CodesFit, Step, HeldOk, BitsOf, BytesBits, Leads, Closer, Written, BitsFor, TablesFor;
      StepFits(a);
      if mode == LEN {
        LenRel(R(), lens[..], lencode[..], distcode[..], abs);
      } else {
        PlainRel(R(), lens[..], lencode[..], distcode[..], abs);
      }
      BitsDone(abs);
      StepDone(a);
    }

    method CodeLensMode() returns (leave: bool)
      requires Running() && mode == CODELENS
      modifies this`mode, this`have, this`lenbits, this`distbits, this`abs, br`next, br`hold, br`bits, lens,
               work, lencode, distcode
      ensures Running() && Leads(old(abs), abs) && br.next >= old(br.next)
      ensures if leave then Stuck() else Closer(old(abs), CODELENS, abs, mode)
    {
      hide Running, Leads, Closer, Step;
      ghost var a := abs;
      HaveLens();
      LeadsSelf(abs);
      while have < nlen + ndist
        invariant Running() && mode == CODELENS && Leads(a, abs) && br.next >= old(br.next)
        invariant have <= nlen + ndist
        invariant |abs.bits| < |a.bits| || abs == a
        decreases nlen + ndist - have
      {
        hide Running, Leads, Closer, Step;
        ghost var b := abs;
        var ok := OneLength();
        LeadsTrans(a, b, abs);
        if !ok {
          return true;
        }
        if mode == BAD {
          CloserTrans(a, b, CODELENS, abs, mode);
          return false;
        }
        HaveLens();
      }
      ghost var b := abs;
      BlockTables();
      LeadsTrans(a, b, abs);
      CloserTrans(a, b, CODELENS, abs, mode);
      leave := false;
    }

    lemma HaveLens()
      requires Running() && mode == CODELENS
      ensures have <= nlen + ndist
    {
      hide CodesFit, HeldOk, Written;
    }

    // ---------- literals, lengths and distances ----------

    /** The relation after a step between data modes. */
    lemma DataDone(a: State)
      requires Step(a) == Some(abs) && CodesFit(a) && Shapes() && br.Valid() && Written(abs.out)
      requires mode == abs.mode && last == abs.last
      requires mode in {TYPE, BAD} || Rel(R(), lens[..], lencode[..], distcode[..], abs)
      requires br.bits < 8 && br.Stream() == abs.bits && mode !in {COPY, DONE}
      ensures Running() && Leads(a, abs) && Closer(a, a.mode, abs, mode)
    {
      hide Rel, CodesFit, Step, HeldOk, BitsOf, BytesBits, Leads, Closer, Written, BitsFor, Running;
      StepFits(a);
      if mode in {TYPE, BAD} {
        PlainRel(R(), lens[..], lencode[..], distcode[..], abs);
      }
      BitsDone(abs);
      StepDone(a);
    }

    /** LEN, one code at a time. */
    method LenSlow() returns (leave: bool)
      requires Running() && mode == LEN
      modifies this`mode, this`length, this`extra, this`abs, br`next, br`hold, br`bits
      ensures Running() && Leads(old(abs), abs) && br.next >= old(br.next)
      ensures if leave then Stuck() else Closer(old(abs), LEN, abs, mode)
    {
      hide Running, Rel, CodesFit, Step, HeldOk, BitsOf, BytesBits, Leads, Closer, Written, BitsFor, TableOk, Got,
           Decode, Slack, Pow2, HasBit;
      Pieces();
      LenHeld(br.Held(), abs);
      ghost var a := abs;
      var ok, e := GetSymbol(br, lencode, lenbits, LENS, abs.lencode);
      if !ok {
        EmptyInput();
        LenStops(abs);
        StayBlocked();
        return true;
      }
      LenReads(a, br.Stream(), e);
      length := e.val;
      mode := LenGoes(e.op);
      extra := if mode == LENEXT then e.op % 16 else extra;
      abs := Step(a).value;
      leave := false;
      LenDone(a);
    }

    lemma LenDone(a: State)
      requires a.mode == LEN && Step(a) == Some(abs) && CodesFit(a) && Shapes() && br.Valid() && Written(a.out)
      requires abs == a.(mode := mode, bits := br.Stream(), length := abs.length, extra := abs.extra) && last == a.last
      requires br.bits < 8
      requires TableOk(LENS, a.lencode, lencode[..], lenbits) && TableOk(DISTS, a.distcode, distcode[..], distbits)
      requires mode in {LIT, LENEXT, TYPE, BAD} && (mode in {LIT, LENEXT} ==> length == abs.length)
      requires mode == LIT ==> length < 256
      requires mode == LENEXT ==> extra == abs.extra <= 5 && 3 <= length && length + Pow2(extra) <= 259
      ensures Running() && Leads(a, abs) && Closer(a, LEN, abs, mode)
    {
      hide Rel, CodesFit, Step, HeldOk, BitsOf, BytesBits, Leads, Closer, Written, BitsFor, Running, TableOk, Pow2;
      StepFits(a);
      if mode in {LIT, LENEXT} {
        DataRel(R(), lens[..], lencode[..], distcode[..], abs);
      }
      DataDone(a);
    }

    /** The extra bits of a length or a distance. */
    method ReadExtra() returns (ok: bool, x: nat)
      requires br.Valid() && mode in {LENEXT, DISTEXT} && abs.mode == mode && extra == abs.extra <= 13
      requires BitsFor(mode, abs)
      modifies br`next, br`hold, br`bits
      ensures br.Valid() && br.next >= old(br.next)
      ensures ok ==> |abs.bits| >= extra && x == Val(abs.bits[..extra]) && x < Pow2(extra)
      ensures ok ==> br.Stream() == abs.bits[extra..] && br.bits < 8
      ensures !ok ==> br.next == |br.input| && abs.bits == br.Stream() && |abs.bits| < extra
    {
      hide Step, HeldOk, BitsOf, BytesBits, Pow2, Val, Low;
      ExtraHeld(br.Held(), abs);
      ok, x := true, 0;
      if extra != 0 {
        ok := br.NeedBits(extra);
        if !ok {
          EmptyInput();
          return;
        }
      }
      br.BitsAtIs(extra);
      x := br.BitsAt(extra);
      br.DropBits(extra);
    }

    method LenExtMode() returns (leave: bool)
      requires Running() && mode == LENEXT
      modifies this`mode, this`length, this`abs, br`next, br`hold, br`bits
      ensures Running() && Leads(old(abs), abs) && br.next >= old(br.next)
      ensures if leave then Stuck() else Closer(old(abs), LENEXT, abs, mode)
    {
      hide Running, Rel, CodesFit, Step, HeldOk, BitsOf, BytesBits, Leads, Closer, Written, BitsFor, TableOk, Pow2, Val,
           Low;
      Pieces();
      DataFacts(R(), lens[..], lencode[..], distcode[..], abs);
      ExtraReads(abs);
      ghost var a := abs;
      var ok, x := ReadExtra();
      if !ok {
        StayBlocked();
        return true;
      }
      length := length + x;
      mode := DIST;
      abs := Step(a).value;
      leave := false;
      LenExtDone(a);
    }

    lemma LenExtDone(a: State)
      requires a.mode == LENEXT && Step(a) == Some(abs) && CodesFit(a) && Shapes() && br.Valid() && Written(a.out)
      requires abs == a.(mode := DIST, bits := br.Stream(), length := length) && mode == DIST && last == a.last
      requires br.bits < 8 && 3 <= length <= 258
      requires TableOk(LENS, a.lencode, lencode[..], lenbits) && TableOk(DISTS, a.distcode, distcode[..], distbits)
      ensures Running() && Leads(a, abs) && Closer(a, LENEXT, abs, mode)
    {
      hide Rel, CodesFit, Step, HeldOk, BitsOf, BytesBits, Leads, Closer, Written, BitsFor, Running, TableOk, Pow2;
      StepFits(a);
      DataRel(R(), lens[..], lencode[..], distcode[..], abs);
      DataDone(a);
    }

    method DistMode() returns (leave: bool)
      requires Running() && mode == DIST
      modifies this`mode, this`offset, this`extra, this`abs, br`next, br`hold, br`bits
      ensures Running() && Leads(old(abs), abs) && br.next >= old(br.next)
      ensures if leave then Stuck() else Closer(old(abs), DIST, abs, mode)
    {
      hide Running, Rel, CodesFit, Step, HeldOk, BitsOf, BytesBits, Leads, Closer, Written, BitsFor, TableOk, Got,
           Decode, Slack, Pow2, HasBit;
      Pieces();
      DataFacts(R(), lens[..], lencode[..], distcode[..], abs);
      DistHeld(br.Held(), abs);
      ghost var a := abs;
      var ok, e := GetSymbol(br, distcode, distbits, DISTS, abs.distcode);
      if !ok {
        EmptyInput();
        LenStops(abs);
        StayBlocked();
        return true;
      }
      DistReads(a, br.Stream(), e);
      mode := if HasBit(e.op, 64) then BAD else DISTEXT;
      offset := if mode == BAD then offset else e.val;
      extra := if mode == BAD then extra else e.op % 16;
      abs := Step(a).value;
      leave := false;
      DistDone(a);
    }

    lemma DistDone(a: State)
      requires a.mode == DIST && Step(a) == Some(abs) && CodesFit(a) && Shapes() && br.Valid() && Written(a.out)
      requires abs == a.(mode := mode, bits := br.Stream(), offset := abs.offset, extra := abs.extra) && last == a.last
      requires br.bits < 8
      requires TableOk(LENS, a.lencode, lencode[..], lenbits) && TableOk(DISTS, a.distcode, distcode[..], distbits)
      requires mode in {DISTEXT, BAD} && length == a.length && 3 <= length <= 258
      requires mode == DISTEXT ==>
                 offset == abs.offset && extra == abs.extra <= 13 && 1 <= offset && offset + Pow2(extra) <= WSIZE + 1
      ensures Running() && Leads(a, abs) && Closer(a, DIST, abs, mode)
    {
      hide Rel, CodesFit, Step, HeldOk, BitsOf, BytesBits, Leads, Closer, Written, BitsFor, Running, TableOk, Pow2;
      StepFits(a);
      if mode == DISTEXT {
        DataRel(R(), lens[..], lencode[..], distcode[..], abs);
      }
      DataDone(a);
    }

    method DistExtMode() returns (leave: bool)
      requires Running() && mode == DISTEXT
      modifies this`mode, this`offset, this`abs, br`next, br`hold, br`bits
      ensures Running() && Leads(old(abs), abs) && br.next >= old(br.next)
      ensures if leave then Stuck() else Closer(old(abs), DISTEXT, abs, mode)
    {
      hide Running, Rel, CodesFit, Step, HeldOk, BitsOf, BytesBits, Leads, Closer, Written, BitsFor, TableOk, Pow2, Val,
           Low;
      Pieces();
      DataFacts(R(), lens[..], lencode[..], distcode[..], abs);
      ExtraReads(abs);
      ghost var a := abs;
      var ok, x := ReadExtra();
      if !ok {
        StayBlocked();
        return true;
      }
      offset := offset + x;
      TooFar();
      mode := if offset > ow.whave + ow.put then BAD else MATCH;
      abs := Step(a).value;
      leave := false;
      DistExtDone(a);
    }

    lemma DistExtDone(a: State)
      requires a.mode == DISTEXT && Step(a) == Some(abs) && CodesFit(a) && Shapes() && br.Valid() && Written(a.out)
      requires abs == a.(mode := mode, bits := br.Stream(), offset := offset) && last == a.last && br.bits < 8
      requires TableOk(LENS, a.lencode, lencode[..], lenbits) && TableOk(DISTS, a.distcode, distcode[..], distbits)
      requires mode in {MATCH, BAD} && length == a.length && 3 <= length <= 258
      requires mode == MATCH ==> 1 <= offset <= WSIZE && offset <= |a.out|
      ensures Running() && Leads(a, abs) && Closer(a, DISTEXT, abs, mode)
    {
      hide Rel, CodesFit, Step, HeldOk, BitsOf, BytesBits, Leads, Closer, Written, BitsFor, Running, TableOk, Pow2;
      StepFits(a);
      if mode == MATCH {
        DataRel(R(), lens[..], lencode[..], distcode[..], abs);
      }
      DataDone(a);
    }

    lemma TooFar()
      requires Written(abs.out) && offset <= WSIZE
      ensures offset > ow.whave + ow.put <==> offset > |abs.out|
    {
      ow.TooFarIs(offset);
    }

    /** MATCH: copy as much as one source and the room allow. */
    method MatchMode() returns (leave: bool)
      requires Running() && mode == MATCH
      modifies this`mode, this`length, this`abs, ow`put, ow.out
      ensures Running() && Leads(old(abs), abs)
      ensures if leave then Stuck() else Closer(old(abs), MATCH, abs, mode)
    {
      hide Running, Rel, CodesFit, Step, HeldOk, BitsOf, BytesBits, Leads, Closer, BitsFor, TableOk, CopyMatch,
           WindowIs;
      Pieces();
      DataFacts(R(), lens[..], lencode[..], distcode[..], abs);
      OutHeld(br.Held(), abs);
      LeadsSelf(abs);
      ghost var a := abs;
      if ow.put == ow.out.Length {
        return true;
      }
      var n := ow.CopySome(offset, length);
      MatchSteps(a, n);
      MatchedFits(a, n);
      length := length - n;
      mode := if length == 0 then LEN else mode;
      abs := Matched(a, n);
      leave := false;
      MatchDone();
    }

    lemma MatchDone()
      requires mode == abs.mode && last == abs.last && mode in {LEN, MATCH} && CodesFit(abs) && Shapes() && br.Valid()
      requires Written(abs.out)
      requires TablesFor(R(), lencode[..], distcode[..], abs) && br.bits < 8 && br.Stream() == abs.bits
      requires mode == MATCH ==>
                 && length == abs.length && 1 <= length <= 258 && offset == abs.offset && 1 <= offset <= WSIZE
                 && offset <= |abs.out|
      ensures Running()
    {
      hide Running, Rel, CodesFit, HeldOk, BitsOf, BytesBits, BitsFor, TablesFor, Written, Pow2;
      DataRel(R(), lens[..], lencode[..], distcode[..], abs);
      BitsDone(abs);
      Whole();
    }

    method LitMode() returns (leave: bool)
      requires Running() && mode == LIT
      modifies this`mode, this`abs, ow`put, ow.out
      ensures Running() && Leads(old(abs), abs)
      ensures if leave then Stuck() else Closer(old(abs), LIT, abs, mode)
    {
      hide Running, Rel, CodesFit, Step, HeldOk, BitsOf, BytesBits, Leads, Closer, BitsFor, TableOk, WindowIs;
      Pieces();
      DataFacts(R(), lens[..], lencode[..], distcode[..], abs);
      OutHeld(br.Held(), abs);
      LeadsSelf(abs);
      ghost var a := abs;
      if ow.put == ow.out.Length {
        return true;
      }
      LitSteps(a);
      ow.PutByte(length as byte);
      mode := LEN;
      abs := Step(a).value;
      leave := false;
      LeadsStep(a, abs);
      StepCloser(a);
      MatchDone();
    }

    /** LEN: the fast loop when there is plenty of input and room. */
    method LenMode() returns (leave: bool)
      requires Running() && mode == LEN
      modifies this`mode, this`length, this`extra, this`abs, br`next, br`hold, br`bits, ow`put, ow.out
      ensures Running() && Leads(old(abs), abs) && br.next >= old(br.next)
      ensures if leave then Stuck() else Closer(old(abs), LEN, abs, mode)
    {
      hide Running, Step, Leads, Closer;
      if |br.input| - br.next >= 6 && ow.out.Length - ow.put >= 258 {
        LenFast();
        leave := false;
      } else {
        leave := LenSlow();
      }
    }

    method LenFast()
      requires Running() && mode == LEN && |br.input| - br.next >= 6 && ow.out.Length - ow.put >= 258
      modifies this`mode, this`abs, br`next, br`hold, br`bits, ow`put, ow.out
      ensures Running() && Leads(old(abs), abs) && br.next >= old(br.next) && Closer(old(abs), LEN, abs, mode)
    {
      hide Running, Rel, CodesFit, Step, HeldOk, BitsOf, BytesBits, Leads, Closer, BitsFor, TableOk, Decode, WindowIs,
           Slack;
      Pieces();
      LenHeld(br.Held(), abs);
      SlackBits(LENS, abs.lencode, lencode[..], lenbits, br.hold, br.bits);
      ghost var a, b := abs, abs;
      mode, b := InflateFast.InflateFast(br, ow, lencode, lenbits, distcode, distbits, abs);
      abs := b;
      Nearer(a, LEN, abs, mode);
      FastDone();
    }

    lemma FastDone()
      requires mode == abs.mode && last == abs.last && mode in {LEN, TYPE, BAD} && CodesFit(abs) && Shapes()
      requires br.Valid() && Written(abs.out)
      requires TablesFor(R(), lencode[..], distcode[..], abs) && br.bits < 8 && br.Stream() == abs.bits
      ensures Running()
    {
      hide Running, Rel, CodesFit, HeldOk, BitsOf, BytesBits, BitsFor, TablesFor, Written;
      if mode == LEN {
        LenRel(R(), lens[..], lencode[..], distcode[..], abs);
      } else {
        PlainRel(R(), lens[..], lencode[..], distcode[..], abs);
      }
      BitsDone(abs);
      Whole();
    }
    // ---------- a call ----------

    /** One mode; a method of its own for each case of the switch. */
    method OneMode() returns (leave: bool)
      requires Running()
      modifies this`mode, this`last, this`length, this`offset, this`extra, this`nlen, this`ndist, this`ncode, this`have,
               this`lenbits, this`distbits,
               this`abs, br`next, br`hold, br`bits, ow`put, ow.out, lens, work, lencode, distcode
      ensures Running() && Leads(old(abs), abs) && br.next >= old(br.next)
      ensures if leave then Stuck() else Closer(old(abs), old(mode), abs, mode)
    {
      hide Running, Leads, Closer, Step;
      match mode
      case TYPE => leave := TypeMode();
      case STORED => leave := StoredMode();
      case COPY => leave := CopyMode();
      case TABLE => leave := TableMode();
      case LENLENS => leave := LenLensMode();
      case CODELENS => leave := CodeLensMode();
      case LEN => leave := LenMode();
      case LENEXT => leave := LenExtMode();
      case DIST => leave := DistMode();
      case DISTEXT => leave := DistExtMode();
      case MATCH => leave := MatchMode();
      case LIT => leave := LitMode();
      case DONE => LeadsSelf(abs); leave := true;
      case BAD => LeadsSelf(abs); leave := true;
    }

    /** The loop of inflate. */
    method RunModes()
      requires Running()
      modifies this`mode, this`last, this`length, this`offset, this`extra, this`nlen, this`ndist, this`ncode, this`have,
               this`lenbits, this`distbits,
               this`abs, br`next, br`hold, br`bits, ow`put, ow.out, lens, work, lencode, distcode
      ensures Running() && Stuck() && Leads(old(abs), abs) && br.next >= old(br.next)
    {
      hide Running, Leads, Step, Stuck;
      ghost var a := abs;
      LeadsSelf(abs);
      var leave := false;
      while !leave
        invariant Running() && Leads(a, abs) && br.next >= old(br.next) && (leave ==> Stuck())
        decreases if leave then 0 else 1, |abs.bits|, RankOfMode(mode), abs.length
      {
        hide Running, Leads, Step, Stuck;
        ghost var b := abs;
        leave := OneMode();
        LeadsTrans(a, b, abs);
      }
    }

    /** What holds between calls: the machine has no bits but those held. */
    ghost predicate Idle()
      reads this, br, ow, ow.window, lens, lencode, distcode
    {
      && Shapes() && br.Valid() && br.next == |br.input| && CodesFit(abs)
      && mode == abs.mode
      && (mode !in {DONE, BAD} ==> ow.WindowOk() && ow.hist == abs.out && ow.put == 0
                                   && Rel(R(), lens[..], lencode[..], distcode[..], abs) && BitsFor(mode, abs))
    }

    /** More input makes more bits. */
    lemma FedRel(a: State, more: seq<bool>)
      requires Rel(R(), lens[..], lencode[..], distcode[..], a)
      ensures Rel(R(), lens[..], lencode[..], distcode[..], Feed(a, more))
    {
      hide TableOk, Fits, Pow2;
    }

    lemma FedHeld(a: State, more: seq<bool>)
      requires HeldOk(br.Held(), a)
      ensures HeldOk(br.Held(), Feed(a, more))
    {
      hide Step, BitsOf;
      assert Feed(a, more).(bits := br.Held()) == a.(bits := br.Held());
    }

    /** The start of a call: the input and the room are new. */
    method Begin(input: seq<byte>, out: array<byte>)
      requires Idle() && mode !in {DONE, BAD} && out != ow.window
      modifies this`abs, br`input, br`next, ow`out
      ensures Running() && abs == Feed(old(abs), BytesBits(input)) && br.input == input && br.next == 0 && ow.out == out
      ensures ow.put == 0
      ensures br.hold == old(br.hold) && br.bits == old(br.bits) && ow.hist == old(abs).out
    {
      hide Rel, CodesFit, HeldOk, BitsOf, BytesBits, WindowIs, Step;
      ghost var a := abs;
      EmptyInput();
      br.input, br.next := input, 0;
      ow.out := out;
      abs := Feed(a, BytesBits(input));
      FedRel(a, BytesBits(input));
      FedHeld(a, BytesBits(input));
      assert input[0..] == input && out[..0] == [];
      assert ow.All() == a.out;
    }

    /** The input not read is at the end of what the machine has. */
    lemma Unread() returns (u: seq<bool>)
      requires Running()
      ensures br.Valid() && abs.bits == u + BytesBits(br.input[br.next..]) && (mode != BAD ==> u == br.Held())
      ensures mode == DONE ==> br.bits == 0
    {
      hide Rel, CodesFit, HeldOk, BitsOf, BytesBits, Written;
      u := br.Held();
      if mode == BAD {
        var k: nat :| k <= br.bits && abs.bits == br.Stream()[k..];
        u := br.Held()[k..];
      }
    }

    /** inf_leave: bring the window up to date, if it is in use or will be. */
    method CloseWindow()
      requires ow.Valid()
      modifies ow`wsize, ow`whave, ow`write, ow`hist, ow`put, ow.window
      ensures ow.put == 0 && (mode !in {DONE, BAD} ==> ow.WindowOk() && ow.hist == old(ow.All()))
    {
      hide WindowIs;
      if ow.wsize != 0 || (mode !in {DONE, BAD} && ow.put != 0) {
        ow.UpdateWindow();
      } else {
        assert ow.put == 0 ==> ow.out[..ow.put] == [];
        ow.put := 0;
      }
    }

    /** The end of a call: the window is brought up to date, and the input not read is forgotten. */
    method Leave(ghost a0: State) returns (consumed: nat, written: nat)
      requires Running() && Stuck() && CodesFit(a0) && Leads(Feed(a0, BytesBits(br.input)), abs)
      modifies this`abs, br`input, br`next, ow`wsize, ow`whave, ow`write, ow`hist, ow`put, ow.window
      ensures Idle() && consumed == old(br.next) <= |old(br.input)| && written == old(ow.put) <= ow.out.Length
      ensures abs == old(abs).(bits := abs.bits) && Leads(Feed(a0, BytesBits(old(br.input)[..consumed])), abs)
      ensures mode in {DONE, BAD} || (consumed == |old(br.input)| && Step(abs) == None) || written == ow.out.Length
      ensures mode == LEN ==> consumed == |old(br.input)| && Step(abs) == None
      ensures mode == DONE ==> abs.bits == br.Held() && br.bits == 0
    {
      hide Running, Rel, CodesFit, HeldOk, BitsOf, BytesBits, WindowIs, Step, Leads, BitsFor, Stuck, Feed;
      ghost var a := abs;
      ghost var u := Unread();
      RunningFits();
      UsedInput(a0, br.input, br.next, abs, u);
      FewerFits(abs, u);
      if mode !in {DONE, BAD} {
        Pieces();
      }
      consumed, written := br.next, ow.put;
      AtEnd(u);
      CloseWindow();
      br.input, br.next := [], 0;
      abs := a.(bits := u);
      if mode !in {DONE, BAD} {
        RestRel(a, u);
        RestHeld(a, u);
      }
    }

    lemma RunningFits()
      requires Running()
      ensures CodesFit(abs) && ow.Valid() && ow.All() == abs.out && Shapes()
      ensures mode == abs.mode
    {
      hide CodesFit, HeldOk, BitsOf, BytesBits, WindowIs, BitsFor;
      hide Rel;
      RelFacts(R(), lens[..], lencode[..], distcode[..], abs);
    }

    lemma FewerFits(a: State, u: seq<bool>)
      requires CodesFit(a)
      ensures CodesFit(a.(bits := u))
    {
    }

    /** Nothing is left that the machine could do with. */
    lemma AtEnd(u: seq<bool>)
      requires br.Valid() && Stuck() && abs.bits == u + BytesBits(br.input[br.next..])
      ensures mode in {DONE, BAD} || (br.next == |br.input| && Step(abs.(bits := u)) == None) || ow.put == ow.out.Length
      ensures mode == LEN ==> br.next == |br.input| && Step(abs.(bits := u)) == None
    {
      hide Step, BitsOf;
      if br.next == |br.input| {
        assert br.input[br.next..] == [] && BytesBits([]) == [];
        assert u == abs.bits && abs.(bits := u) == abs;
      }
    }

    lemma RestRel(a: State, u: seq<bool>)
      requires Rel(R(), lens[..], lencode[..], distcode[..], a)
      ensures Rel(R(), lens[..], lencode[..], distcode[..], a.(bits := u))
    {
      hide TableOk, Fits, Pow2;
    }

    lemma RestHeld(a: State, u: seq<bool>)
      requires br.Valid() && br.input == [] && br.next == 0 && u == br.Held() && HeldOk(br.Held(), a) && a.mode == mode
      requires mode !in {DONE, BAD} && (mode == COPY ==> br.bits == 0)
      ensures BitsFor(mode, a.(bits := u))
    {
      hide Step, BitsOf;
      EmptyInput();
      assert a.(bits := u).(bits := br.Held()) == a.(bits := br.Held());
    }

    /**
     inflate, without Z_BLOCK: the machine runs on the input consumed, what it writes is written,
     and the call ends only at the end, at an error, or for want of input or room.
     */
    method Inflate(input: seq<byte>, out: array<byte>, finish: bool) returns (consumed: nat, written: nat, ret: Ret)
      requires Idle() && out != ow.window
      modifies this, br, ow, out, ow.window, lens, work, lencode, distcode
      ensures Idle() && consumed <= |input| && written <= out.Length
      ensures Leads(Feed(old(abs), BytesBits(input[..consumed])), abs) && abs.out == old(abs).out + out[..written]
      ensures mode in {DONE, BAD} || (consumed == |input| && Step(abs) == None) || written == out.Length
      ensures mode == LEN ==> consumed == |input| && Step(abs) == None
      ensures (ret == Z_STREAM_END <==> mode == DONE) && (ret == Z_DATA_ERROR <==> mode == BAD) && ret != Z_NEED_DICT
      ensures ret == Z_BUF_ERROR <==> mode !in {DONE, BAD} && (finish || (consumed == 0 && written == 0))
    {
      hide Running, Rel, CodesFit, HeldOk, BitsOf, BytesBits, WindowIs, Step, Leads, BitsFor, Stuck;
      ghost var a0 := abs;
      consumed, written := 0, 0;
      if mode !in {DONE, BAD} {
        Begin(input, out);
        RunModes();
        RunningFits();
        ghost var o := out[..ow.put];
        consumed, written := Leave(a0);
        assert out[..written] == o;
      } else {
        LeadsSelf(abs);
        NothingFed(abs, input);
        assert out[..0] == [];
      }
      ret := if mode == DONE then Z_STREAM_END else if mode == BAD then Z_DATA_ERROR
             else if finish || (consumed == 0 && written == 0) then Z_BUF_ERROR else Z_OK;
    }
    /** As new, but for what the reader holds. */
    ghost predicate Blank()
      reads this, ow, ow.window, lens, lencode, distcode
    {
      && Shapes() && mode == TYPE && abs == InflateSpec.Start() && ow.WindowOk() && ow.hist == [] && ow.put == 0
      && Rel(R(), lens[..], lencode[..], distcode[..], abs)
    }

    lemma FirstBlank()
      requires Running() && ow.put == 0 && abs == InflateSpec.Start() && ow.hist == []
      ensures Blank() && br.Valid()
    {
      hide CodesFit, HeldOk, BitsOf, BytesBits, WindowIs, Step;
      RunningFits();
    }

    /** With nothing held it is between calls. */
    lemma BlankIdle()
      requires Blank() && br.Valid() && br.next == |br.input| && br.bits == 0
      ensures Idle() && abs == InflateSpec.Start() && mode == TYPE
    {
      hide CodesFit, HeldOk, BitsOf, BytesBits, WindowIs, Step, Rel;
      StartFits();
      EmptyInput();
      HeldFew(br.Held(), abs);
    }

    lemma BlankIs()
      requires Blank()
      ensures abs == InflateSpec.Start() && abs.out == [] && Shapes()
    {
      hide Rel, WindowIs;
    }

    /** A new inflater is between calls. */
    lemma FirstIdle()
      requires Running() && ow.put == 0 && br.input == [] && br.next == 0 && abs == InflateSpec.Start()
      requires ow.hist == []
      ensures Idle()
    {
      hide CodesFit, HeldOk, BitsOf, BytesBits, WindowIs, Step;
      RunningFits();
    }

    lemma IdleMode()
      requires Idle()
      ensures mode == abs.mode
    {
      hide CodesFit, Rel, BitsFor, WindowIs;
    }

    /**
     After a call that ended in LEN, the bits held are those the machine has not decoded, and they
     are part of a code: fewer than 15, but not always fewer than 8.
     */
    lemma HeldInLen()
      requires Idle() && mode == LEN && Step(abs) == None
      ensures abs.bits == br.Held() && br.bits == |abs.bits| <= MAX_BITS - 1 && Decode(abs.lencode, abs.bits) == Need
    {
      hide Step, CodesFit, HeldOk, BitsOf, BytesBits, WindowIs, TableOk, Decode;
      EmptyInput();
      DataFacts(R(), lens[..], lencode[..], distcode[..], abs);
      LenNeeds(abs);
      var f := Look(LENS, abs.lencode, lencode[..], lenbits, br.hold, br.bits);
    }

    /** With no input left the stream is what is held. */
    lemma EmptyInput()
      requires br.Valid() && br.next == |br.input|
      ensures br.Stream() == br.Held() && |br.Stream()| == br.bits
    {
      assert br.input[br.next..] == [];
      assert BytesBits([]) == [];
    }
  }

  lemma NothingFed(a: State, input: seq<byte>)
    ensures Feed(a, BytesBits(input[..0])) == a
  {
    assert input[..0] == [];
    assert a.bits + [] == a.bits;
  }

  lemma FirstBits()
    ensures BytesBits([]) == [] && BitsOf(0, 0) == []
  {
  }

  lemma StartFits()
    ensures CodesFit(InflateSpec.Start())
  {
    hide LenSum, Total, Pow2;
    LenSumNext([], 1);
    EmptySum([], 0, MAX_BITS + 1);
  }

  lemma FixedAccepted()
    ensures ValidLens(FixedLens()) && ValidLens(FixedDists()) && Acceptable(LENS, FixedLens())
    ensures Acceptable(DISTS, FixedDists())
    ensures AllUpTo(FixedLens(), 9)
    ensures TableSize(9, FixedLens()) <= LENS_PART && TableSize(5, FixedDists()) <= DISTS_PART
  {
    FixedComplete();
    BothFit(FixedLens(), FixedDists());
    assert AllUpTo(FixedDists(), 5);
    Pow2Values();
  }
}
