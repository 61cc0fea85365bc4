/**
 What the bitwise CRC is: the remainder of a division of polynomials over GF(2), as section 8 of
 RFC 1952 has it from ISO 3309, and what that gives those who check one.
 */
module Crc32Law {
  import opened Crc32
  import opened Crc32Tables
  import opened Crc32Combine

  // ---------- polynomials: the exponents with coefficient 1 ----------

  function Sym(a: set<nat>, b: set<nat>): set<nat> {
    (a - b) + (b - a)
  }

  /** Times x^k. */
  function Shifted(a: set<nat>, k: nat): set<nat> {
    set e | e in a :: e + k
  }

  /** x^32 + x^26 + ... + x + 1. */
  function Modulus(): set<nat> {
    {32, 26, 23, 22, 16, 12, 11, 10, 8, 7, 5, 4, 2, 1, 0}
  }

  /** The modulus times the sum of x^k for all k listed. */
  function Multiple(ks: seq<nat>): set<nat> {
    if ks == [] then {} else Sym(Multiple(ks[..|ks| - 1]), Shifted(Modulus(), ks[|ks| - 1]))
  }

  /** The difference is a multiple of the modulus. */
  ghost predicate Congruent(a: set<nat>, b: set<nat>) {
    exists ks: seq<nat> :: Sym(a, b) == Multiple(ks)
  }

  lemma SymLaws(a: set<nat>, b: set<nat>, c: set<nat>)
    ensures Sym(Sym(a, b), c) == Sym(a, Sym(b, c)) && Sym(a, b) == Sym(b, a)
    ensures Sym(a, {}) == a && Sym({}, a) == a && Sym(a, a) == {}
  {
  }

  lemma ShiftedSym(a: set<nat>, b: set<nat>, k: nat)
    ensures Shifted(Sym(a, b), k) == Sym(Shifted(a, k), Shifted(b, k))
  {
    forall e | e in Sym(Shifted(a, k), Shifted(b, k)) ensures e in Shifted(Sym(a, b), k) {
      assert e - k in Sym(a, b);
    }
  }

  lemma ShiftedTwice(a: set<nat>, j: nat, k: nat)
    ensures Shifted(Shifted(a, j), k) == Shifted(a, j + k) && Shifted(a, 0) == a && Shifted({}, k) == {}
  {
    forall e | e in Shifted(a, j + k) ensures e in Shifted(Shifted(a, j), k) {
      assert e - k in Shifted(a, j);
    }
    forall e | e in a ensures e in Shifted(a, 0) {
      assert e + 0 == e;
    }
  }

  // ---------- congruence ----------

  function AllPlus(ks: seq<nat>, k: nat): (r: seq<nat>)
    ensures |r| == |ks|
  {
    seq(|ks|, i requires 0 <= i < |ks| => ks[i] + k)
  }

  lemma {:induction false} MultipleAppend(a: seq<nat>, b: seq<nat>)
    ensures Multiple(a + b) == Sym(Multiple(a), Multiple(b))
    decreases |b|
  {
    hide Modulus, Sym;
    SymLaws(Multiple(a), {}, {});
    if b == [] {
      assert a + b == a;
    } else {
      var front, k := b[..|b| - 1], b[|b| - 1];
      assert (a + b)[..|a + b| - 1] == a + front;
      MultipleAppend(a, front);
      SymLaws(Multiple(a), Multiple(front), Shifted(Modulus(), k));
    }
  }

  lemma {:induction false} MultipleShifted(ks: seq<nat>, k: nat)
    ensures Shifted(Multiple(ks), k) == Multiple(AllPlus(ks, k))
    decreases |ks|
  {
    hide Modulus, Sym, Shifted;
    ShiftedTwice({}, 0, k);
    if ks != [] {
      var n := |ks| - 1;
      assert AllPlus(ks, k)[..n] == AllPlus(ks[..n], k);
      MultipleShifted(ks[..n], k);
      ShiftedSym(Multiple(ks[..n]), Shifted(Modulus(), ks[n]), k);
      ShiftedTwice(Modulus(), ks[n], k);
    }
  }

  lemma Same(a: set<nat>)
    ensures Congruent(a, a)
  {
    hide Sym, Modulus;
    SymLaws(a, a, a);
    assert Sym(a, a) == Multiple([]);
  }

  lemma Chain(a: set<nat>, b: set<nat>, c: set<nat>)
    requires Congruent(a, b) && Congruent(b, c)
    ensures Congruent(a, c)
  {
    hide Sym, Multiple;
    var ks: seq<nat> :| Sym(a, b) == Multiple(ks);
    var js: seq<nat> :| Sym(b, c) == Multiple(js);
    MultipleAppend(ks, js);
    SymLaws(a, b, Sym(b, c));
    SymLaws(b, b, c);
    SymLaws(c, c, c);
    assert Sym(a, c) == Multiple(ks + js);
  }

  lemma Added(a: set<nat>, b: set<nat>, c: set<nat>)
    requires Congruent(a, b)
    ensures Congruent(Sym(a, c), Sym(b, c))
  {
    hide Sym, Multiple;
    var ks: seq<nat> :| Sym(a, b) == Multiple(ks);
    SymLaws(Sym(a, c), b, c);
    SymLaws(a, c, b);
    SymLaws(a, b, c);
    SymLaws(Sym(a, b), c, c);
    SymLaws(c, b, c);
    assert Sym(Sym(a, c), Sym(b, c)) == Multiple(ks);
  }

  lemma Moved(a: set<nat>, b: set<nat>, k: nat)
    requires Congruent(a, b)
    ensures Congruent(Shifted(a, k), Shifted(b, k))
  {
    hide Sym, Multiple, Shifted;
    var ks: seq<nat> :| Sym(a, b) == Multiple(ks);
    ShiftedSym(a, b, k);
    MultipleShifted(ks, k);
    assert Sym(Shifted(a, k), Shifted(b, k)) == Multiple(AllPlus(ks, k));
  }

  // ---------- the register as a polynomial ----------

  /** The `n` low bits, the lowest the coefficient of x^(n - 1). */
  function PolyFrom(c: bv32, n: nat): set<nat> {
    if n == 0 then {} else (if Odd(c) then {n - 1} else {}) + PolyFrom(Half(c), n - 1)
  }

  /** Reflected: the lowest bit of the register is the coefficient of x^31. */
  function PolyOf(c: bv32): set<nat> {
    PolyFrom(c, 32)
  }

  lemma PolyNext(c: bv32, n: nat)
    ensures PolyFrom(c, n + 1) == (if Odd(c) then {n} else {}) + PolyFrom(Half(c), n)
  {
    hide Odd, Half;
  }

  lemma {:induction false} PolyBound(c: bv32, n: nat)
    ensures forall e :: e in PolyFrom(c, n) ==> e < n
    decreases n
  {
    hide Odd, Half;
    if n > 0 {
      PolyBound(Half(c), n - 1);
    }
  }

  lemma {:induction false} PolyXor(a: bv32, b: bv32, n: nat)
    ensures PolyFrom(Xor(a, b), n) == Sym(PolyFrom(a, n), PolyFrom(b, n))
    decreases n
  {
    hide Odd, Half, Xor;
    if n > 0 {
      OddXor(a, b);
      HalfXor(a, b);
      PolyXor(Half(a), Half(b), n - 1);
      PolyBound(Half(a), n - 1);
      PolyBound(Half(b), n - 1);
    }
  }

  /** One bit more shifts the others up. */
  lemma {:induction false} PolyMore(c: bv32, n: nat)
    ensures PolyFrom(c, n + 1) == Shifted(PolyFrom(c, n), 1) + if Odd(Halves(c, n)) then {0} else {}
    decreases n
  {
    hide Odd, Half, PolyFrom, Shifted;
    PolyNext(c, n);
    NoPoly(c);
    NoPoly(Half(c));
    ShiftedOne(0);
    if n > 0 {
      PolyNext(c, n - 1);
      PolyMore(Half(c), n - 1);
      ShiftedUnion(if Odd(c) then {n - 1} else {}, PolyFrom(Half(c), n - 1));
      ShiftedOne(n - 1);
    }
  }

  lemma NoPoly(c: bv32)
    ensures PolyFrom(c, 0) == {}
  {
  }

  /** Shifting the register out by a bit is multiplying by x, up to x^32. */
  lemma HalfPoly(c: bv32)
    ensures Shifted(PolyOf(c), 1) == PolyOf(Half(c)) + if Odd(c) then {32} else {}
    ensures 32 !in PolyOf(Half(c))
  {
    hide Odd, Half, Halves, Shifted, PolyFrom;
    PolyNext(c, 31);
    PolyMore(Half(c), 31);
    AllHalves(c);
    HalvesAdd(c, 1, 31);
    OneHalf(c);
    NoOdd();
    PolyBound(Half(c), 32);
    ShiftedUnion(if Odd(c) then {31} else {}, PolyFrom(Half(c), 31));
    ShiftedOne(31);
  }

  lemma ShiftedUnion(a: set<nat>, b: set<nat>)
    ensures Shifted(a + b, 1) == Shifted(a, 1) + Shifted(b, 1)
  {
    forall e | e in Shifted(a, 1) + Shifted(b, 1) ensures e in Shifted(a + b, 1) {
      assert e - 1 in a + b;
    }
  }

  lemma ShiftedOne(k: nat)
    ensures Shifted({k}, 1) == {k + 1} && Shifted({}, 1) == {}
  {
    assert k in {k};
  }

  lemma OneHalf(c: bv32)
    ensures Halves(c, 1) == Half(c)
  {
    hide Half;
    assert Halves(Half(c), 0) == Half(c);
  }

  lemma NoOdd()
    ensures !Odd(0)
  {
  }

  // ---------- the polynomial ----------

  /** The unit vectors are the powers of x. */
  lemma {:induction false} UnitPoly(i: nat, n: nat)
    requires i < n <= 32
    ensures PolyFrom(Up(1, i), n) == {n - 1 - i}
    decreases i
  {
    hide Odd, Half, Double;
    if i == 0 {
      OneIs();
      ZeroPoly(n - 1);
    } else {
      UnitBound(i - 1);
      DoubleHalf(Up(1, i - 1));
      UnitPoly(i - 1, n - 1);
    }
  }

  lemma OneIs()
    ensures Odd(1) && Half(1) == 0 && Half(0) == 0 && !Odd(0)
  {
  }

  lemma {:induction false} ZeroPoly(n: nat)
    ensures PolyFrom(0, n) == {}
  {
    OneIs();
    if n > 0 {
      ZeroPoly(n - 1);
    }
  }

  /** A bit of the register more is a power of x more. */
  lemma OneTerm(u: nat, v: bv32, w: bv32, a: set<nat>)
    requires u < 32 && PolyOf(v) == a && 31 - u !in a && Xor(1 << u, v) == w
    ensures PolyOf(w) == a + {31 - u}
  {
    hide Xor, Up, PolyFrom;
    UnitIs(u);
    UnitPoly(u, 32);
    PolyXor(Up(1, u), v, 32);
  }

  lemma FirstTerms()
    ensures PolyOf(0x88320) == {26, 23, 22, 16, 12}
  {
    hide PolyFrom, PolyOf;
    ZeroIsNone();
    OneTerm(5, 0x0, 0x20, {});
    OneTerm(8, 0x20, 0x120, {26});
    OneTerm(9, 0x120, 0x320, {26, 23});
    OneTerm(15, 0x320, 0x8320, {26, 23, 22});
    OneTerm(19, 0x8320, 0x88320, {26, 23, 22, 16});
  }

  lemma MoreTerms()
    ensures PolyOf(0x5b88320) == {26, 23, 22, 16, 12, 11, 10, 8, 7, 5}
  {
    hide PolyFrom, PolyOf;
    FirstTerms();
    OneTerm(20, 0x88320, 0x188320, {26, 23, 22, 16, 12});
    OneTerm(21, 0x188320, 0x388320, {26, 23, 22, 16, 12, 11});
    OneTerm(23, 0x388320, 0xb88320, {26, 23, 22, 16, 12, 11, 10});
    OneTerm(24, 0xb88320, 0x1b88320, {26, 23, 22, 16, 12, 11, 10, 8});
    OneTerm(26, 0x1b88320, 0x5b88320, {26, 23, 22, 16, 12, 11, 10, 8, 7});
  }

  /** The pattern of the code is the polynomial without its highest term. */
  lemma PolyIs()
    ensures PolyOf(POLY) == Modulus() - {32}
  {
    hide PolyFrom, PolyOf;
    MoreTerms();
    OneTerm(27, 0x5b88320, 0xdb88320, {26, 23, 22, 16, 12, 11, 10, 8, 7, 5});
    OneTerm(29, 0xdb88320, 0x2db88320, {26, 23, 22, 16, 12, 11, 10, 8, 7, 5, 4});
    OneTerm(30, 0x2db88320, 0x6db88320, {26, 23, 22, 16, 12, 11, 10, 8, 7, 5, 4, 2});
    OneTerm(31, 0x6db88320, 0xedb88320, {26, 23, 22, 16, 12, 11, 10, 8, 7, 5, 4, 2, 1});
  }

  lemma ZeroIsNone()
    ensures PolyOf(0) == {}
  {
    ZeroPoly(32);
  }

  // ---------- a step of the register ----------

  /** One zero bit is multiplication by x modulo the polynomial. */
  lemma Bit1Poly(c: bv32)
    ensures Congruent(PolyOf(Bit1(c)), Shifted(PolyOf(c), 1))
  {
    hide Odd, Half, PolyOf, Shifted, Xor, Sym;
    HalfPoly(c);
    var h := PolyOf(Half(c));
    if Odd(c) {
      PolyIs();
      XorPoly(POLY, Half(c));
      Reduce(h);
    } else {
      Same(h);
      assert h + {} == h;
    }
  }

  lemma XorPoly(a: bv32, b: bv32)
    ensures PolyOf(Xor(a, b)) == Sym(PolyOf(a), PolyOf(b))
  {
    hide Xor, Sym, PolyFrom;
    PolyXor(a, b, 32);
  }

  /** x^32 is congruent to the rest of the polynomial. */
  lemma Reduce(a: set<nat>)
    requires 32 !in a
    ensures Congruent(Sym(Modulus() - {32}, a), a + {32})
  {
    var m := Modulus();
    assert Sym(Sym(m - {32}, a), a + {32}) == m;
    OneMultiple();
    assert Sym(Sym(m - {32}, a), a + {32}) == Multiple([0]);
  }

  lemma OneMultiple()
    ensures Multiple([0]) == Modulus()
  {
    assert [0][..0] == [];
    ShiftedTwice(Modulus(), 0, 0);
    SymLaws(Modulus(), {}, {});
  }

  // ---------- a message ----------

  /** The `n` low bits of a byte, lowest first. */
  function ByteBits(b: bv8, n: nat): (s: seq<bool>)
    ensures |s| == n
  {
    if n == 0 then [] else [b & 1 == 1] + ByteBits(b >> 1, n - 1)
  }

  /** All bits of a message as they are sent: bytes in order, each lowest bit first. */
  function MessageBits(data: seq<bv8>): (s: seq<bool>)
    ensures |s| == 8 * |data|
  {
    if data == [] then [] else ByteBits(data[0], 8) + MessageBits(data[1..])
  }

  /** The register after some bits. */
  function RegisterBits(c: bv32, s: seq<bool>): bv32
    decreases |s|
  {
    if s == [] then c else Bit1(Xor(RegisterBits(c, s[..|s| - 1]), if s[|s| - 1] then 1 else 0))
  }

  lemma {:induction false} BitsFirst(c: bv32, b: bool, s: seq<bool>)
    ensures RegisterBits(c, [b] + s) == RegisterBits(Bit1(Xor(c, if b then 1 else 0)), s)
    decreases |s|
  {
    hide Bit1, Xor;
    var t := [b] + s;
    if s == [] {
      assert t[..0] == [];
      assert RegisterBits(c, t[..0]) == c;
    } else {
      assert t[..|t| - 1] == [b] + s[..|s| - 1];
      BitsFirst(c, b, s[..|s| - 1]);
    }
  }

  lemma {:induction false} BitsThen(c: bv32, s: seq<bool>, t: seq<bool>)
    ensures RegisterBits(c, s + t) == RegisterBits(RegisterBits(c, s), t)
    decreases |t|
  {
    hide Bit1, Xor;
    if t == [] {
      assert s + t == s;
    } else {
      assert (s + t)[..|s + t| - 1] == s + t[..|t| - 1];
      BitsThen(c, s, t[..|t| - 1]);
    }
  }

  lemma {:induction false} ByteRegister(c: bv32, b: bv8, n: nat)
    ensures BitSteps(c, b, n) == RegisterBits(c, ByteBits(b, n))
    decreases n
  {
    hide Bit1, Xor;
    if n > 0 {
      BitsFirst(c, b & 1 == 1, ByteBits(b >> 1, n - 1));
      LowBit(b);
      ByteRegister(BitStep(c, b), b >> 1, n - 1);
    }
  }

  lemma LowBit(b: bv8)
    ensures (b & 1) as bv32 == if b & 1 == 1 then 1 else 0
  {
  }

  lemma {:induction false} MessageRegister(c: bv32, data: seq<bv8>)
    ensures Register(c, data) == RegisterBits(c, MessageBits(data))
    decreases |data|
  {
    hide BitSteps, ByteBits;
    if data != [] {
      ByteRegister(c, data[0], 8);
      MessageRegister(BitSteps(c, data[0], 8), data[1..]);
      BitsThen(c, ByteBits(data[0], 8), MessageBits(data[1..]));
    }
  }

  /** The first bit is the coefficient of the highest power. */
  function BitsPoly(s: seq<bool>): set<nat> {
    set e: nat | e < |s| && Coefficient(s, e)
  }

  predicate Coefficient(s: seq<bool>, e: nat)
    requires e < |s|
  {
    s[|s| - 1 - e]
  }

  lemma BitsPolySnoc(s: seq<bool>, b: bool)
    ensures BitsPoly(s + [b]) == Shifted(BitsPoly(s), 1) + if b then {0} else {}
  {
    var t := s + [b];
    forall e | e in BitsPoly(t) ensures e in Shifted(BitsPoly(s), 1) + if b then {0} else {} {
      assert Coefficient(t, e);
      if e > 0 {
        assert t[|t| - 1 - e] == s[|s| - 1 - (e - 1)];
        assert Coefficient(s, e - 1) && e - 1 in BitsPoly(s);
      }
    }
    forall e | e in Shifted(BitsPoly(s), 1) ensures e in BitsPoly(t) {
      assert Coefficient(s, e - 1);
      assert t[|t| - 1 - e] == s[|s| - 1 - (e - 1)];
      assert Coefficient(t, e);
    }
    if b {
      assert Coefficient(t, 0);
    }
  }

  /** The register is congruent to its start, moved up by the message, and the message times x^32. */
  lemma {:induction false} RegisterPoly(c: bv32, s: seq<bool>)
    ensures Congruent(PolyOf(RegisterBits(c, s)), Sym(Shifted(PolyOf(c), |s|), Shifted(BitsPoly(s), 32)))
    decreases |s|
  {
    hide Bit1, Xor, PolyOf, Shifted, Sym, Congruent, BitsPoly;
    ShiftedTwice(PolyOf(c), 0, 0);
    if s == [] {
      NoBits();
      ShiftedTwice({}, 0, 32);
      SymLaws(PolyOf(c), {}, {});
      Same(PolyOf(c));
    } else {
      var n := |s| - 1;
      var front, b := s[..n], s[n];
      assert s == front + [b];
      var r := RegisterBits(c, front);
      RegisterPoly(c, front);
      var v: bv32 := if b then 1 else 0;
      Bit1Poly(Xor(r, v));
      BitPoly(b);
      XorPoly(r, v);
      var before := Sym(Shifted(PolyOf(c), n), Shifted(BitsPoly(front), 32));
      var one: set<nat> := if b then {31} else {};
      Added(PolyOf(r), before, one);
      Moved(Sym(PolyOf(r), one), Sym(before, one), 1);
      Chain(PolyOf(Bit1(Xor(r, v))), Shifted(Sym(PolyOf(r), one), 1), Shifted(Sym(before, one), 1));
      NextPoly(PolyOf(c), front, b);
    }
  }

  lemma NoBits()
    ensures BitsPoly([]) == {}
  {
  }

  lemma BitPoly(b: bool)
    ensures PolyOf(if b then 1 else 0) == if b then {31} else {}
  {
    UnitPoly(0, 32);
    ZeroPoly(32);
    assert Up(1, 0) == 1;
  }

  lemma NextPoly(c: set<nat>, front: seq<bool>, b: bool)
    ensures Shifted(Sym(Sym(Shifted(c, |front|), Shifted(BitsPoly(front), 32)), if b then {31} else {}), 1)
            == Sym(Shifted(c, |front| + 1), Shifted(BitsPoly(front + [b]), 32))
  {
    hide Sym, Shifted, BitsPoly;
    var n, p := |front|, BitsPoly(front);
    var one: set<nat> := if b then {31} else {};
    ShiftedSym(Sym(Shifted(c, n), Shifted(p, 32)), one, 1);
    ShiftedSym(Shifted(c, n), Shifted(p, 32), 1);
    ShiftedTwice(c, n, 1);
    ShiftedTwice(p, 32, 1);
    ShiftedTwice(p, 1, 32);
    BitsPolySnoc(front, b);
    ShiftedAbove(p);
    BitAdded(Shifted(p, 1), b);
    SymLaws(Shifted(c, n + 1), Shifted(p, 33), Shifted(one, 1));
  }

  lemma ShiftedAbove(a: set<nat>)
    ensures 0 !in Shifted(a, 1)
  {
  }

  lemma BitAdded(a: set<nat>, b: bool)
    requires 0 !in a
    ensures Shifted(a + if b then {0} else {}, 32) == Sym(Shifted(a, 32), Shifted(if b then {31} else {}, 1))
  {
    var all := a + if b then {0} else {};
    assert 31 in {31} && 0 in {0};
    forall e | e in Sym(Shifted(a, 32), Shifted(if b then {31} else {}, 1)) ensures e in Shifted(all, 32) {
      assert e - 32 in all;
    }
  }

  // ---------- the start ----------

  lemma {:induction false} PolyHas(c: bv32, n: nat, e: nat)
    requires e < n
    ensures e in PolyFrom(c, n) <==> Odd(Halves(c, n - 1 - e))
    decreases n
  {
    hide Odd, Half;
    PolyBound(Half(c), n - 1);
    if e < n - 1 {
      PolyHas(Half(c), n - 1, e);
    }
  }

  lemma EightOdd(v: bv32, r: nat)
    requires v & 0xff == 0xff && r < 8
    ensures Odd(Halves(v, r))
  {
    hide Half, Odd;
    OddHalves(v);
    assert Halves(v, 0) == v;
    HalvesNext(v, 0);
    HalvesNext(v, 1);
    HalvesNext(v, 2);
    HalvesNext(v, 3);
    HalvesNext(v, 4);
    HalvesNext(v, 5);
    HalvesNext(v, 6);
  }

  lemma OddHalves(y: bv32)
    requires y & 0xff == 0xff
    ensures Odd(y) && Odd(Half(y)) && Odd(Half(Half(y))) && Odd(Half(Half(Half(y))))
    ensures Odd(Half(Half(Half(Half(y)))))
    ensures Odd(Half(Half(Half(Half(Half(y)))))) && Odd(Half(Half(Half(Half(Half(Half(y)))))))
    ensures Odd(Half(Half(Half(Half(Half(Half(Half(y))))))))
  {
  }

  /** The register starts with all powers up to x^31. */
  lemma OnesPoly(e: nat)
    ensures e in PolyOf(0xffffffff) <==> e < 32
  {
    hide Odd, Half, Halves, PolyFrom;
    PolyBound(0xffffffff, 32);
    if e < 32 {
      var k := 31 - e;
      PolyHas(0xffffffff, 32, e);
      OnesDown(k / 8);
      HalvesAdd(0xffffffff, 8 * (k / 8), k % 8);
      EightOdd(Halves(0xffffffff, 8 * (k / 8)), k % 8);
    }
  }

  lemma OnesDown(q: nat)
    requires q < 4
    ensures Halves(0xffffffff, 8 * q) & 0xff == 0xff
  {
    hide Half, Halves;
    var v: bv32 := 0xffffffff;
    NoHalves(v);
    Halves8(v);
    HalvesAdd(v, 8, 8);
    Halves8(v >> 8);
    HalvesAdd(v, 16, 8);
    Halves8(v >> 16);
    assert (v >> 8) >> 8 == v >> 16 && (v >> 16) >> 8 == v >> 24;
  }

  lemma NoHalves(v: bv32)
    ensures Halves(v, 0) == v
  {
  }

  // ---------- the remainder ----------

  /** What is divided: the message, then 32 zeros, with the first 32 of all these bits complemented. */
  function Dividend(s: seq<bool>): seq<bool> {
    seq(|s| + 32, i requires 0 <= i < |s| + 32 => (i < |s| && s[i]) != (i < 32))
  }

  lemma DividendPoly(s: seq<bool>)
    ensures BitsPoly(Dividend(s)) == Sym(Shifted(PolyOf(0xffffffff), |s|), Shifted(BitsPoly(s), 32))
  {
    hide PolyOf, BitsPoly, Dividend, Shifted;
    forall e: nat
      ensures e in BitsPoly(Dividend(s)) <==> e in Sym(Shifted(PolyOf(0xffffffff), |s|), Shifted(BitsPoly(s), 32))
    {
      InShifted(PolyOf(0xffffffff), |s|, e);
      InShifted(BitsPoly(s), 32, e);
      if e >= |s| {
        OnesPoly(e - |s|);
      }
      DividendTerm(s, e);
    }
  }

  lemma InShifted(a: set<nat>, k: nat, e: nat)
    ensures e in Shifted(a, k) <==> e >= k && e - k in a
  {
    if e >= k && e - k in a {
      assert e - k + k in Shifted(a, k);
    }
  }

  lemma DividendTerm(s: seq<bool>, e: nat)
    ensures e in BitsPoly(Dividend(s)) <==> (|s| <= e < |s| + 32) != (e >= 32 && e - 32 in BitsPoly(s))
  {
    var n := |s|;
    if e < n + 32 {
      var i := n + 31 - e;
      assert Coefficient(Dividend(s), e) == Dividend(s)[i];
      if e >= 32 {
        assert n - 1 - (e - 32) == i;
        assert Coefficient(s, e - 32) == s[i];
      }
    }
  }

  /** A polynomial of degree less than 32 congruent to the dividend: its remainder. */
  ghost predicate IsRemainder(r: set<nat>, s: seq<bool>) {
    (forall e :: e in r ==> e < 32) && Congruent(r, BitsPoly(Dividend(s)))
  }

  /** The CRC of a message is the complement of the remainder, lowest power in the highest bit. */
  lemma CrcIsRemainder(data: seq<bv8>)
    ensures IsRemainder(PolyOf(Xor(Crc(0, data), 0xffffffff)), MessageBits(data))
  {
    hide Register, RegisterBits, Xor, PolyFrom, Congruent, Sym, Shifted, BitsPoly, Dividend, MessageBits;
    var s := MessageBits(data);
    ComplementTwice(data);
    MessageRegister(0xffffffff, data);
    RegisterPoly(0xffffffff, s);
    DividendPoly(s);
    PolyBound(RegisterBits(0xffffffff, s), 32);
  }

  lemma ComplementTwice(data: seq<bv8>)
    ensures Xor(Crc(0, data), 0xffffffff) == Register(0xffffffff, data)
  {
    hide Register;
  }

  // ---------- there is only one ----------

  /** A multiple of the modulus other than 0 has a power of x^32 or more. */
  lemma {:induction false} BigPower(ks: seq<nat>, bound: nat)
    requires forall i :: 0 <= i < |ks| ==> ks[i] < bound
    ensures (forall e :: e in Multiple(ks) ==> e < bound + 32)
    ensures Multiple(ks) != {} ==> exists e :: e in Multiple(ks) && e >= 32
    decreases bound
  {
    hide Sym, Shifted, Modulus;
    if ks != [] {
      assert ks[0] < bound;
      var js, odd := Others(ks, bound - 1);
      BigPower(js, bound - 1);
      if odd {
        TopPower(Multiple(js), bound - 1);
      }
    }
  }

  /** The multiples without x^k, and whether that is left over. */
  lemma {:induction false} Others(ks: seq<nat>, k: nat) returns (js: seq<nat>, odd: bool)
    requires forall i :: 0 <= i < |ks| ==> ks[i] <= k
    ensures forall i :: 0 <= i < |js| ==> js[i] < k
    ensures Multiple(ks) == if odd then Sym(Multiple(js), Shifted(Modulus(), k)) else Multiple(js)
    decreases |ks|
  {
    hide Sym, Shifted, Modulus;
    if ks == [] {
      js, odd := [], false;
    } else {
      var n := |ks| - 1;
      var m := Shifted(Modulus(), k);
      js, odd := Others(ks[..n], k);
      if ks[n] == k {
        SymLaws(Multiple(js), m, m);
        SymLaws(m, m, m);
        odd := !odd;
      } else {
        var j := Shifted(Modulus(), ks[n]);
        SymLaws(Multiple(js), m, j);
        SymLaws(Multiple(js), j, m);
        SymLaws(m, j, m);
        assert (js + [ks[n]])[..|js|] == js;
        js := js + [ks[n]];
      }
    }
  }

  lemma TopPower(a: set<nat>, k: nat)
    requires forall e :: e in a ==> e < k + 32
    ensures k + 32 in Sym(a, Shifted(Modulus(), k))
    ensures forall e :: e in Sym(a, Shifted(Modulus(), k)) ==> e <= k + 32
  {
    assert 32 in Modulus();
    assert 32 + k in Shifted(Modulus(), k);
  }

  /** The remainder is unique. */
  lemma OneRemainder(a: set<nat>, b: set<nat>, s: seq<bool>)
    requires IsRemainder(a, s) && IsRemainder(b, s)
    ensures a == b
  {
    hide Sym, Modulus, Multiple, BitsPoly, Dividend;
    var m := BitsPoly(Dividend(s));
    Turned(b, m);
    Chain(a, m, b);
    var ks: seq<nat> :| Sym(a, b) == Multiple(ks);
    var bound := Highest(ks);
    BigPower(ks, bound);
    NoneLeft(a, b);
  }

  lemma Turned(a: set<nat>, b: set<nat>)
    requires Congruent(a, b)
    ensures Congruent(b, a)
  {
    hide Multiple, Modulus;
    SymLaws(a, b, {});
  }

  lemma NoneLeft(a: set<nat>, b: set<nat>)
    requires (forall e :: e in a ==> e < 32) && forall e :: e in b ==> e < 32
    ensures (forall e :: e in Sym(a, b) ==> e < 32) && (Sym(a, b) == {} ==> a == b)
  {
    if Sym(a, b) == {} {
      forall e | e in a || e in b ensures e in a && e in b {
        assert e !in Sym(a, b);
      }
    }
  }

  lemma {:induction false} Highest(ks: seq<nat>) returns (bound: nat)
    ensures forall i :: 0 <= i < |ks| ==> ks[i] < bound
    decreases |ks|
  {
    if ks == [] {
      bound := 0;
    } else {
      bound := Highest(ks[..|ks| - 1]);
      if ks[|ks| - 1] >= bound {
        bound := ks[|ks| - 1] + 1;
      }
    }
  }

  // ---------- what a receiver can rely on ----------

  lemma Bit1Zero(c: bv32)
    ensures Bit1(c) == 0 ==> c == 0
  {
    HalfClear(c);
  }

  lemma HalfClear(c: bv32)
    ensures Half(c) & 0x80000000 == 0 && (Half(c) == 0 && !Odd(c) ==> c == 0)
    ensures Xor(POLY, Half(c)) != 0
  {
    assert (c >> 1) & 0x80000000 == 0;
    assert POLY & 0x80000000 != 0;
    assert POLY != c >> 1;
  }

  /** No register is lost. */
  lemma {:induction false} TimesZeroOnly(c: bv32, n: nat)
    ensures Times(c, n) == 0 ==> c == 0
    decreases n
  {
    hide Bit1;
    if n > 0 {
      Bit1Zero(c);
      TimesZeroOnly(Bit1(c), n - 1);
    }
  }

  lemma XorZero(a: bv32, b: bv32)
    ensures Xor(a, b) == 0 <==> a == b
  {
  }

  lemma TimesInjective(a: bv32, b: bv32, n: nat)
    requires Times(a, n) == Times(b, n)
    ensures a == b
  {
    hide Times, Xor;
    TimesXor(a, b, n);
    TimesZeroOnly(Xor(a, b), n);
    XorZero(a, b);
    XorSelf(Times(a, n));
  }

  lemma SameAfter(a: bv32, b: bv32, data: seq<bv8>)
    requires Register(a, data) == Register(b, data)
    ensures a == b
  {
    hide Times, Xor, Register;
    Affine(a, data);
    Affine(b, data);
    XorBoth(Times(a, 8 * |data|), Times(b, 8 * |data|), Register(0, data));
    TimesInjective(a, b, 8 * |data|);
  }

  lemma XorBoth(a: bv32, b: bv32, c: bv32)
    requires Xor(a, c) == Xor(b, c)
    ensures a == b
  {
  }

  lemma WordRegister(c: bv32, b0: bv8, b1: bv8, b2: bv8, b3: bv8)
    ensures Register(c, [b0, b1, b2, b3]) == Times(Xor(c, Word(b0, b1, b2, b3)), 32)
  {
    hide Times, Xor, Register, BitSteps, Word;
    FourRegister(c, b0, b1, b2, b3);
    FourBytes(c, b0, b1, b2, b3);
  }

  lemma WordApart(c: bv32, w: seq<bv8>, v: seq<bv8>)
    requires |w| == |v| == 4 && Xor(c, Word(w[0], w[1], w[2], w[3])) == Xor(c, Word(v[0], v[1], v[2], v[3]))
    ensures w == v
  {
  }

  /** Damage within four bytes, whatever surrounds them, is always noticed. */
  lemma BurstNoticed(crc: bv32, x: seq<bv8>, w: seq<bv8>, v: seq<bv8>, y: seq<bv8>)
    requires |w| == |v| == 4 && w != v
    ensures Crc(crc, x + w + y) != Crc(crc, x + v + y)
  {
    hide Times, Xor, Register, BitSteps, Word;
    var c := Xor(crc, ONES);
    RegisterAppend(c, x + w, y);
    RegisterAppend(c, x, w);
    RegisterAppend(c, x + v, y);
    RegisterAppend(c, x, v);
    var r := Register(c, x);
    assert w == [w[0], w[1], w[2], w[3]] && v == [v[0], v[1], v[2], v[3]];
    WordRegister(r, w[0], w[1], w[2], w[3]);
    WordRegister(r, v[0], v[1], v[2], v[3]);
    if Crc(crc, x + w + y) == Crc(crc, x + v + y) {
      XorBoth(Register(Register(r, w), y), Register(Register(r, v), y), ONES);
      SameAfter(Register(r, w), Register(r, v), y);
      TimesInjective(Xor(r, Word(w[0], w[1], w[2], w[3])), Xor(r, Word(v[0], v[1], v[2], v[3])), 32);
      WordApart(r, w, v);
    }
  }

  lemma EightTimes8(c: bv32)
    ensures Times(c, 8) == Bit1(Bit1(Bit1(Bit1(Bit1(Bit1(Bit1(Bit1(c))))))))
  {
    hide Bit1;
    var c4 := Bit1(Bit1(Bit1(Bit1(c))));
    assert Times(c, 4) == c4;
    assert Times(c4, 4) == Bit1(Bit1(Bit1(Bit1(c4))));
    TimesAdd(c, 4, 4);
  }

  lemma OnesThrough()
    ensures Times(0xffffffff, 32) == 0xdebb20e3
  {
    hide Times;
    EightTimes8(0xffffffff);
    EightTimes8(0x2dfd1072);
    EightTimes8(0xbe26ed00);
    EightTimes8(0x00be26ed);
    TimesAdd(0xffffffff, 8, 8);
    TimesAdd(0xffffffff, 16, 8);
    TimesAdd(0xffffffff, 24, 8);
  }

  /** A message followed by its CRC, low byte first, always has this CRC. */
  lemma Residue(m: seq<bv8>)
    ensures var c := Crc(0, m); Crc(0, m + [Byte0(c), Byte1(c), Byte2(c), Byte3(c)]) == 0x2144df1c
  {
    hide Times, Xor, Register, BitSteps, Word, Byte0, Byte1, Byte2, Byte3;
    var c := Crc(0, m);
    var r := Register(Xor(0, ONES), m);
    RegisterAppend(Xor(0, ONES), m, [Byte0(c), Byte1(c), Byte2(c), Byte3(c)]);
    WordRegister(r, Byte0(c), Byte1(c), Byte2(c), Byte3(c));
    WordOfBytes(c);
    Complemented(r);
    OnesThrough();
    LastXor();
  }

  lemma Complemented(r: bv32)
    ensures Xor(r, Xor(r, ONES)) == 0xffffffff
  {
  }

  lemma LastXor()
    ensures Xor(0xdebb20e3, ONES) == 0x2144df1c
  {
  }
}
