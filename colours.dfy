/**
 * Colour patterns for fills: a 24-bit hex colour becomes the one-, two- or
 * four-byte value that an aligned store writes.  On a monochrome build every
 * colour is "all bits set"; on a colour build the platform converts the hex
 * colour into its 8-bit ARGB byte, a conversion the model takes as given.
 */
module Colours {

  /**
   * The build the engine is compiled for: monochrome (no PBL_COLOR), or
   * colour with the platform's GColorFromHEX conversion to an ARGB byte.
   */
  datatype Platform = Mono | Colour(gColorFromHex: int -> bv8)

  /** The bytes of a 16-bit store, in memory order (little-endian). */
  function Lanes16(v: bv16): (r: seq<bv8>)
    ensures |r| == 2
  {
    [(v & 0xff) as bv8, (v >> 8) as bv8]
  }

  /** The bytes of a 32-bit store, in memory order (little-endian). */
  function Lanes32(v: bv32): (r: seq<bv8>)
    ensures |r| == 4
  {
    [(v & 0xff) as bv8, ((v >> 8) & 0xff) as bv8, ((v >> 16) & 0xff) as bv8, (v >> 24) as bv8]
  }

  /** getcol1: the one-byte pixel value of a hex colour. */
  function Getcol1(p: Platform, col: int): (r: bv8)
    ensures p.Mono? ==> r == 0xff
    ensures p.Colour? ==> r == p.gColorFromHex(col)
  {
    match p
    case Mono => 0xff
    case Colour(fromHex) => fromHex(col)
  }

  /** getcol2: the getcol1 byte replicated into both bytes of a 16-bit value. */
  function Getcol2(p: Platform, col: int): (r: bv16)
    ensures Lanes16(r) == [Getcol1(p, col), Getcol1(p, col)]
    ensures p.Mono? ==> r == 0xffff
  {
    match p
    case Mono => 0xffff
    case Colour(fromHex) =>
      var res := fromHex(col) as bv16;
      res | (res << 8)
  }

  /** getcol4: the getcol1 byte replicated into all four bytes of a 32-bit value. */
  function Getcol4(p: Platform, col: int): (r: bv32)
    ensures Lanes32(r) == [Getcol1(p, col), Getcol1(p, col), Getcol1(p, col), Getcol1(p, col)]
    ensures p.Mono? ==> r == 0xffff_ffff
  {
    match p
    case Mono => 0xffff_ffff
    case Colour(fromHex) =>
      var res := fromHex(col) as bv32;
      res | (res << 8) | (res << 16) | (res << 24)
  }
}
