/** What inflate refuses, state by state, and nothing else. */
module Refusals {
  import opened Bits
  import opened CanonicalCode
  import opened InfTrees
  import opened CodeTables
  import opened FixedCode
  import opened InflateSpec

  /** How many lengths a symbol of the code-length code stands for, its extra bits being at `used`. */
  function RunOf(s: State, v: nat, used: nat): int
    requires used <= |s.bits|
  {
    if v < 16 then 1
    else if v == 16 && used + 2 <= |s.bits| then 3 + Val(s.bits[used..used + 2])
    else if v == 17 && used + 3 <= |s.bits| then 3 + Val(s.bits[used..used + 3])
    else if v >= 18 && used + 7 <= |s.bits| then 11 + Val(s.bits[used..used + 7])
    else 0
  }

  /**
   A step fails for a block of type 3; a stored length that its complement does not match; more than 286
   or 30 codes; code lengths that are no code; a repeat of nothing, or past the end; a literal or length
   without a code or above 285; a distance without a code or above 29, or beyond the first byte written.
   */
  lemma Refused(s: State)
    requires Step(s).Some?
    ensures Step(s).value.mode == BAD <==>
            match s.mode
            case TYPE => !s.last && s.bits[1] && s.bits[2]
            case STORED => |s.bits| % 8 == 0 && Val(s.bits[..16]) + Val(s.bits[16..32]) != 65535
            case TABLE => Val(s.bits[..5]) > 29 || Val(s.bits[5..10]) > 29
            case LENLENS => |s.lens| >= s.ncode && !Acceptable(CODES, CodeLens(s.lens))
            case CODELENS =>
              if |s.lens| >= s.nlen + s.ndist then
                var m := Min(s.nlen, |s.lens|);
                !Acceptable(LENS, s.lens[..m]) || !Acceptable(DISTS, s.lens[m..])
              else
                && Decode(s.lencode, s.bits).Symbol?
                && var v := Decode(s.lencode, s.bits).sym;
                   v >= 16 && ((v == 16 && s.lens == [])
                               || |s.lens| + RunOf(s, v, s.lencode[v]) > s.nlen + s.ndist)
            case LEN => Decode(s.lencode, s.bits).Invalid? || Decode(s.lencode, s.bits).sym > 285
            case DIST => Decode(s.distcode, s.bits).Invalid? || Decode(s.distcode, s.bits).sym > 29
            case DISTEXT => s.offset + Val(s.bits[..s.extra]) > |s.out|
            case _ => false
  {
    hide Val, Decode, Acceptable, CodeLens, LenBase, LenExtra, DistBase, DistExtra, Repeat, FixedLens, FixedDists;
    if s.mode == TYPE && !s.last && |s.bits| >= 3 {
      BlockType(s.bits[1..3]);
    }
  }

  lemma BlockType(b: seq<bool>)
    requires |b| == 2
    ensures Val(b) < 4 && (Val(b) == 3 <==> b[0] && b[1])
  {
    var one := b[1..];
    assert one[1..] == [] && Val(one[1..]) == 0;
    assert Val(one) == B(one[0]) + 2 * Val(one[1..]) && Val(b) == B(b[0]) + 2 * Val(one);
  }
}
