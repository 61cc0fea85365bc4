/** The rolling hash of three bytes, and why equal hashes and two equal bytes mean a third. */
module HashLaws {

  function HashSize(bits: nat): nat {
    if bits == 8 then 256 else if bits == 9 then 512 else if bits == 10 then 1024 else if bits == 11 then 2048
    else if bits == 12 then 4096 else if bits == 13 then 8192 else if bits == 14 then 16384
    else if bits == 15 then 32768 else 65536
  }

  function HashMask(bits: nat): bv32 {
    if bits == 8 then 0xff else if bits == 9 then 0x1ff else if bits == 10 then 0x3ff else if bits == 11 then 0x7ff
    else if bits == 12 then 0xfff else if bits == 13 then 0x1fff else if bits == 14 then 0x3fff
    else if bits == 15 then 0x7fff else 0xffff
  }

  // (h << hash_shift ^ c) & hash_mask for each shift

  function Mix3(h: bv32, c: bv32, m: bv32): bv32 { ((h << 3) ^ c) & m }
  function Mix4(h: bv32, c: bv32, m: bv32): bv32 { ((h << 4) ^ c) & m }
  function Mix5(h: bv32, c: bv32, m: bv32): bv32 { ((h << 5) ^ c) & m }
  function Mix6(h: bv32, c: bv32, m: bv32): bv32 { ((h << 6) ^ c) & m }

  /** The step with hash_shift (hash_bits + 2) / 3. */
  function Mix(bits: nat, h: bv32, c: bv32): bv32 {
    if bits <= 9 then Mix3(h, c, HashMask(bits))
    else if bits <= 12 then Mix4(h, c, HashMask(bits))
    else if bits <= 15 then Mix5(h, c, HashMask(bits))
    else Mix6(h, c, HashMask(bits))
  }

  /** UPDATE_HASH. */
  function Update(bits: nat, h: bv32, c: bv8): bv32 {
    Mix(bits, h, c as bv32)
  }

  /** The hash of three bytes; the first is taken as it is. */
  function Hash3(bits: nat, x: bv8, y: bv8, z: bv8): bv32 {
    Update(bits, Update(bits, x as bv32, y), z)
  }

  ghost predicate HashBits(bits: nat) {
    8 <= bits <= 16
  }

  // ---------- three steps later a byte no longer takes part ----------

  lemma Dropsff(x: bv8, y: bv8, z: bv8, c: bv8)
    ensures Mix3(Mix3(Mix3(x as bv32, y as bv32, 0xff), z as bv32, 0xff), c as bv32, 0xff)
            == Mix3(Mix3(y as bv32, z as bv32, 0xff), c as bv32, 0xff)
  {
  }

  lemma Drops1ff(x: bv8, y: bv8, z: bv8, c: bv8)
    ensures Mix3(Mix3(Mix3(x as bv32, y as bv32, 0x1ff), z as bv32, 0x1ff), c as bv32, 0x1ff)
            == Mix3(Mix3(y as bv32, z as bv32, 0x1ff), c as bv32, 0x1ff)
  {
  }

  lemma Drops3ff(x: bv8, y: bv8, z: bv8, c: bv8)
    ensures Mix4(Mix4(Mix4(x as bv32, y as bv32, 0x3ff), z as bv32, 0x3ff), c as bv32, 0x3ff)
            == Mix4(Mix4(y as bv32, z as bv32, 0x3ff), c as bv32, 0x3ff)
  {
  }

  lemma Drops7ff(x: bv8, y: bv8, z: bv8, c: bv8)
    ensures Mix4(Mix4(Mix4(x as bv32, y as bv32, 0x7ff), z as bv32, 0x7ff), c as bv32, 0x7ff)
            == Mix4(Mix4(y as bv32, z as bv32, 0x7ff), c as bv32, 0x7ff)
  {
  }

  lemma Dropsfff(x: bv8, y: bv8, z: bv8, c: bv8)
    ensures Mix4(Mix4(Mix4(x as bv32, y as bv32, 0xfff), z as bv32, 0xfff), c as bv32, 0xfff)
            == Mix4(Mix4(y as bv32, z as bv32, 0xfff), c as bv32, 0xfff)
  {
  }

  lemma Drops1fff(x: bv8, y: bv8, z: bv8, c: bv8)
    ensures Mix5(Mix5(Mix5(x as bv32, y as bv32, 0x1fff), z as bv32, 0x1fff), c as bv32, 0x1fff)
            == Mix5(Mix5(y as bv32, z as bv32, 0x1fff), c as bv32, 0x1fff)
  {
  }

  lemma Drops3fff(x: bv8, y: bv8, z: bv8, c: bv8)
    ensures Mix5(Mix5(Mix5(x as bv32, y as bv32, 0x3fff), z as bv32, 0x3fff), c as bv32, 0x3fff)
            == Mix5(Mix5(y as bv32, z as bv32, 0x3fff), c as bv32, 0x3fff)
  {
  }

  lemma Drops7fff(x: bv8, y: bv8, z: bv8, c: bv8)
    ensures Mix5(Mix5(Mix5(x as bv32, y as bv32, 0x7fff), z as bv32, 0x7fff), c as bv32, 0x7fff)
            == Mix5(Mix5(y as bv32, z as bv32, 0x7fff), c as bv32, 0x7fff)
  {
  }

  lemma Dropsffff(x: bv8, y: bv8, z: bv8, c: bv8)
    ensures Mix6(Mix6(Mix6(x as bv32, y as bv32, 0xffff), z as bv32, 0xffff), c as bv32, 0xffff)
            == Mix6(Mix6(y as bv32, z as bv32, 0xffff), c as bv32, 0xffff)
  {
  }

  lemma OldestDrops(bits: nat, x: bv8, y: bv8, z: bv8, c: bv8)
    requires HashBits(bits)
    ensures Update(bits, Hash3(bits, x, y, z), c) == Hash3(bits, y, z, c)
  {
    hide Mix3, Mix4, Mix5, Mix6;
    match bits
    case 8 => Dropsff(x, y, z, c);
    case 9 => Drops1ff(x, y, z, c);
    case 10 => Drops3ff(x, y, z, c);
    case 11 => Drops7ff(x, y, z, c);
    case 12 => Dropsfff(x, y, z, c);
    case 13 => Drops1fff(x, y, z, c);
    case 14 => Drops3fff(x, y, z, c);
    case 15 => Drops7fff(x, y, z, c);
    case 16 => Dropsffff(x, y, z, c);
  }

  predicate InMask(h: bv32, m: bv32) {
    h <= m
  }

  lemma MaskHasByte(bits: nat)
    ensures HashMask(bits) & 0xff == 0xff
  {
  }

  lemma Last3(h: bv32, z: bv8, w: bv8, m: bv32)
    requires m & 0xff == 0xff && Mix3(h, z as bv32, m) == Mix3(h, w as bv32, m)
    ensures z == w
  {
  }

  lemma Fits3(h: bv32, c: bv32, m: bv32)
    ensures InMask(Mix3(h, c, m), m)
  {
  }

  lemma Last4(h: bv32, z: bv8, w: bv8, m: bv32)
    requires m & 0xff == 0xff && Mix4(h, z as bv32, m) == Mix4(h, w as bv32, m)
    ensures z == w
  {
  }

  lemma Fits4(h: bv32, c: bv32, m: bv32)
    ensures InMask(Mix4(h, c, m), m)
  {
  }

  lemma Last5(h: bv32, z: bv8, w: bv8, m: bv32)
    requires m & 0xff == 0xff && Mix5(h, z as bv32, m) == Mix5(h, w as bv32, m)
    ensures z == w
  {
  }

  lemma Fits5(h: bv32, c: bv32, m: bv32)
    ensures InMask(Mix5(h, c, m), m)
  {
  }

  lemma Last6(h: bv32, z: bv8, w: bv8, m: bv32)
    requires m & 0xff == 0xff && Mix6(h, z as bv32, m) == Mix6(h, w as bv32, m)
    ensures z == w
  {
  }

  lemma Fits6(h: bv32, c: bv32, m: bv32)
    ensures InMask(Mix6(h, c, m), m)
  {
  }

  /** Equal hashes and equal first two bytes mean equal third bytes. */
  lemma ThirdByte(bits: nat, x: bv8, y: bv8, z: bv8, w: bv8)
    requires HashBits(bits) && Hash3(bits, x, y, z) == Hash3(bits, x, y, w)
    ensures z == w
  {
    hide HashMask, Mix3, Mix4, Mix5, Mix6;
    var h, m := Update(bits, x as bv32, y), HashMask(bits);
    MaskHasByte(bits);
    if bits <= 9 {
      Last3(h, z, w, m);
    } else if bits <= 12 {
      Last4(h, z, w, m);
    } else if bits <= 15 {
      Last5(h, z, w, m);
    } else {
      Last6(h, z, w, m);
    }
  }

  lemma UpdateFits(bits: nat, h: bv32, c: bv8)
    ensures InMask(Update(bits, h, c), HashMask(bits))
  {
    hide HashMask, Mix3, Mix4, Mix5, Mix6, InMask;
    Fits3(h, c as bv32, HashMask(bits));
    Fits4(h, c as bv32, HashMask(bits));
    Fits5(h, c as bv32, HashMask(bits));
    Fits6(h, c as bv32, HashMask(bits));
  }

  /** A hash is an index of `head`. */
  lemma BucketFits(bits: nat, h: bv32)
    requires HashBits(bits) && InMask(h, HashMask(bits))
    ensures h as nat < HashSize(bits)
  {
  }
}
