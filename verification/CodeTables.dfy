/**
 The length and distance symbols of section 3.2.5 of RFC 1951: base values
 and numbers of extra bits, shared by the encoder and the decoder.
 */
module CodeTables {
  import opened Bits

  const LENGTH_CODES := 29
  const D_CODES := 30
  const L_CODES := 286
  const BL_CODES := 19
  const END_BLOCK := 256

  /** Extra bits of length code `c` (symbol 257 + c). */
  function LenExtra(c: nat): nat {
    if c < 8 || c >= 28 then 0 else c / 4 - 1
  }

  /** Smallest match length of length code `c`. */
  function LenBase(c: nat): nat {
    if c < 8 then c + 3
    else if c >= 28 then 258
    else Shl(4 + c % 4, c / 4 - 1) + 3
  }

  function DistExtra(c: nat): nat {
    if c < 4 then 0 else c / 2 - 1
  }

  /** Smallest distance of distance code `c`. */
  function DistBase(c: nat): nat {
    if c < 4 then c + 1 else Shl(2 + c % 2, c / 2 - 1) + 1
  }
}
