/**
 * Sprites and the bitmap decoder.  A sprite is a raster of width x height
 * bytes, 0 meaning transparent.  drawPixMap, given a sprite target, unpacks a
 * packed bitmap (one bit per pixel, or two bits per pixel through a palette)
 * into a freshly allocated raster.
 */
module Sprites {
  import opened Screen
  import opened Colours

  /** A sprite: its size and its heap raster, one byte per pixel. */
  class Sprite {
    var width: UInt8
    var height: UInt8
    var raw: array<bv8>

    constructor ()
      ensures width == 0 && height == 0 && fresh(raw) && raw.Length == 0
    {
      width, height := 0, 0;
      raw := new bv8[0];
    }
  }

  /** Decode flags: reverse the bit order within each byte (one-bit format only). */
  const BYTEREV: bv8 := 1
  /** Decode flags: reverse the order of the lines (reflect vertically). */
  const LINEREV: bv8 := 2

  /**
   * The fields of a pixMap that the sprite path reads: the size in pixels, the
   * frame index, the packed data, the ink colour, the optional four-colour
   * palette (present means two bits per pixel) and the optional per-line colours.
   */
  datatype PixMap = PixMap(
    width: UInt8, height: UInt8, index: UInt8,
    raw: seq<bv8>, col: int,
    pal: Option<seq<int>>, plpal: Option<seq<int>>)

  /** bytesPerLine: the packed bytes read for each line. */
  function BytesPerLine(pm: PixMap): nat
  {
    pm.width / 8
  }

  /** Pixels unpacked from one packed byte. */
  function PixelsPerByte(pm: PixMap): nat
  {
    if pm.pal.Some? then 4 else 8
  }

  /** Raster bytes written for one line. */
  function PixelsPerLine(pm: PixMap): (r: nat)
    ensures r == BytesPerLine(pm) * PixelsPerByte(pm)
  {
    if pm.pal.Some? then 4 * BytesPerLine(pm) else 8 * BytesPerLine(pm)
  }

  /** Raster bytes written in all: the write cursor's final value. */
  function Written(pm: PixMap): nat
  {
    pm.height * PixelsPerLine(pm)
  }

  /**
   * The bytes written fit the width * height bytes allocated, and a one-bit
   * bitmap whose width is a multiple of 8 writes every one of them.
   */
  lemma WrittenFits(pm: PixMap)
    ensures Written(pm) <= pm.height * pm.width
    ensures pm.pal.None? && pm.width % 8 == 0 ==> Written(pm) == pm.height * pm.width
  {
    MulLe(PixelsPerLine(pm), pm.width, pm.height);
  }

  /** The uint16 `base` before the first line: the frame's start, or its last line with LINEREV. */
  function FrameBase(pm: PixMap, flags: bv8): UInt16
  {
    var bpl := BytesPerLine(pm);
    var base := (bpl * pm.height * pm.index) % 0x1_0000;
    var offBase := (bpl * (pm.height - 1)) % 0x1_0000;
    if flags & LINEREV != 0 then (base + offBase) % 0x1_0000 else base
  }

  /** The uint16 `base` at the start of line j: each line steps forward by bytesPerLine, or backward with LINEREV. */
  function LineBase(pm: PixMap, flags: bv8, j: nat): UInt16
  {
    if j == 0 then FrameBase(pm, flags)
    else if flags & LINEREV != 0 then (LineBase(pm, flags, j - 1) - BytesPerLine(pm)) % 0x1_0000
    else (LineBase(pm, flags, j - 1) + BytesPerLine(pm)) % 0x1_0000
  }

  /** The uint16 index of byte k of a line that starts at index lb. */
  function ByteIndex(lb: UInt16, k: int): UInt16
  {
    (lb + k) % 0x1_0000
  }

  /** Index into the packed data of byte k of line j. */
  function ByteAddr(pm: PixMap, flags: bv8, j: nat, k: int): UInt16
  {
    ByteIndex(LineBase(pm, flags, j), k)
  }

  /** Stepping `base` by one in uint16 arithmetic moves to the next byte of the line. */
  lemma ByteIndexNext(lb: UInt16, k: int)
    ensures ByteIndex(lb, k + 1) == if ByteIndex(lb, k) == 0xffff then 0 else ByteIndex(lb, k) + 1
  {
    ModAdd(lb + k, 1, 0x1_0000);
    var b: int := ByteIndex(lb, k);
    if b == 0xffff {
      DivModUnique(b + 1, 0x1_0000, 1, 0);
    } else {
      DivModUnique(b + 1, 0x1_0000, 0, b + 1);
    }
  }

  /** Every byte of a line that starts at uint16 index lb exists in the packed data. */
  predicate LineReadable(pm: PixMap, lb: UInt16)
  {
    forall k | 0 <= k < BytesPerLine(pm) :: ByteIndex(lb, k) < |pm.raw|
  }

  /** A palette, when present, has the four entries two-bit fields select. */
  predicate PaletteOk(pm: PixMap)
  {
    pm.pal.Some? ==> |pm.pal.value| >= 4
  }

  /** Lines 0 .. n - 1 are readable. */
  predicate LinesReadable(pm: PixMap, flags: bv8, n: nat)
  {
    n == 0 || (LinesReadable(pm, flags, n - 1) && LineReadable(pm, LineBase(pm, flags, n - 1)))
  }

  /** What the source demands of the pixMap: every byte it reads exists, and so do the palette entries. */
  predicate Readable(pm: PixMap, flags: bv8)
  {
    PaletteOk(pm) &&
    (pm.plpal.Some? ==> |pm.plpal.value| >= pm.height) &&
    LinesReadable(pm, flags, pm.height)
  }

  /** Each of lines 0 .. n - 1 is readable when they all are. */
  lemma {:induction false} LinesReadableAt(pm: PixMap, flags: bv8, n: nat, j: nat)
    requires LinesReadable(pm, flags, n) && j < n
    ensures LineReadable(pm, LineBase(pm, flags, j))
  {
    if j < n - 1 {
      LinesReadableAt(pm, flags, n - 1, j);
    }
  }

  /** Lines 0 .. n - 1 are readable when each of them is. */
  lemma {:induction false} LinesReadableAll(pm: PixMap, flags: bv8, n: nat)
    requires forall j | 0 <= j < n :: LineReadable(pm, LineBase(pm, flags, j))
    ensures LinesReadable(pm, flags, n)
  {
    if n > 0 {
      LinesReadableAll(pm, flags, n - 1);
    }
  }

  /** Readable says exactly: the palette is complete, and every byte of every line's uint16 range exists. */
  lemma ReadableIff(pm: PixMap, flags: bv8)
    ensures Readable(pm, flags) <==>
      PaletteOk(pm) && (pm.plpal.Some? ==> |pm.plpal.value| >= pm.height) &&
      forall j, k | 0 <= j < pm.height && 0 <= k < BytesPerLine(pm) :: ByteAddr(pm, flags, j, k) < |pm.raw|
  {
    if Readable(pm, flags) {
      forall j, k | 0 <= j < pm.height && 0 <= k < BytesPerLine(pm)
        ensures ByteAddr(pm, flags, j, k) < |pm.raw|
      {
        LinesReadableAt(pm, flags, pm.height, j);
      }
    }
    if forall j, k | 0 <= j < pm.height && 0 <= k < BytesPerLine(pm) :: ByteAddr(pm, flags, j, k) < |pm.raw| {
      forall j | 0 <= j < pm.height
        ensures LineReadable(pm, LineBase(pm, flags, j))
      {
        forall k | 0 <= k < BytesPerLine(pm)
          ensures ByteIndex(LineBase(pm, flags, j), k) < |pm.raw|
        {
          assert ByteAddr(pm, flags, j, k) < |pm.raw|;
        }
      }
      LinesReadableAll(pm, flags, pm.height);
    }
  }

  /** Every line of a readable pixMap is readable. */
  lemma ReadableLine(pm: PixMap, flags: bv8, j: nat)
    requires Readable(pm, flags) && j < pm.height
    ensures LineReadable(pm, LineBase(pm, flags, j))
  {
    LinesReadableAt(pm, flags, pm.height, j);
  }

  /** The ink of line j in the one-bit format: the per-line colour if there is one. */
  function LineColour(pm: PixMap, j: int): int
    requires pm.plpal.Some? ==> 0 <= j < |pm.plpal.value|
  {
    if pm.plpal.Some? then pm.plpal.value[j] else pm.col
  }

  /** Bit n of a byte (bit 0 the least significant). */
  function Bit(b: bv8, n: nat): bool
    decreases n
  {
    if n == 0 then b & 1 != 0 else Bit(b >> 1, n - 1)
  }

  /** The mask test of the one-bit loop reads bit n. */
  lemma MaskBit(b: bv8, n: int)
    requires 0 <= n < 8
    ensures ((1 << n) & b != 0) == Bit(b, n)
  {
    if n > 0 {
      MaskBit(b >> 1, n - 1);
      assert ((1 << n) & b != 0) == ((1 << (n - 1)) & (b >> 1) != 0);
    }
  }

  /** The byte after the two-bit loop has shifted out i pairs. */
  function Shifted(b: bv8, i: nat): bv8
  {
    if i == 0 then b else Shifted(b, i - 1) >> 2
  }

  /** The two-bit field i of a byte (field 0 the least significant pair). */
  function Pair(b: bv8, i: nat): (r: int)
    ensures 0 <= r < 4
  {
    (Shifted(b, i) & 3) as int
  }

  /** The pixels of the first n two-bit fields of a packed byte: palette colours chosen by the fields, lowest field first. */
  function PairPixels(pal: seq<int>, p: Platform, b: bv8, n: nat): (r: seq<bv8>)
    requires |pal| >= 4
    ensures |r| == n
  {
    if n == 0 then [] else PairPixels(pal, p, b, n - 1) + [Getcol1(p, pal[Pair(b, n - 1)])]
  }

  /** A one-bit pixel: the ink where the bit is set, 0 (transparent) where it is clear. */
  function BitPixel(ink: int, p: Platform, on: bool): bv8
  {
    if on then Getcol1(p, ink) else 0
  }

  /** The bit that pixel i of a one-bit byte reads: counted from the most significant bit, or from the least with BYTEREV. */
  function BitPos(flags: bv8, i: nat): nat
    requires i < 8
  {
    if flags & BYTEREV != 0 then i else 7 - i
  }

  /** The first n pixels of a one-bit packed byte. */
  function BitPixels(ink: int, p: Platform, flags: bv8, b: bv8, n: nat): (r: seq<bv8>)
    requires n <= 8
    ensures |r| == n
  {
    if n == 0 then [] else BitPixels(ink, p, flags, b, n - 1) + [BitPixel(ink, p, Bit(b, BitPos(flags, n - 1)))]
  }

  /** Pixel i of a one-bit byte is the ink when the mask test on bit BitPos(flags, i) passes, 0 otherwise. */
  lemma BitPixelsNext(ink: int, p: Platform, flags: bv8, b: bv8, i: nat, pixcnd: bool)
    requires i < 8 && pixcnd == if flags & BYTEREV != 0 then Bit(b, i) else Bit(b, 7 - i)
    ensures BitPixels(ink, p, flags, b, i + 1) == BitPixels(ink, p, flags, b, i) + [if pixcnd then Getcol1(p, ink) else 0]
  {
  }

  /** The pixels of the packed byte b, in the order the source stores them; ink is the one-bit format's colour. */
  function BytePixels(pm: PixMap, p: Platform, flags: bv8, ink: int, b: bv8): (r: seq<bv8>)
    requires PaletteOk(pm)
    ensures |r| == PixelsPerByte(pm)
  {
    if pm.pal.Some? then PairPixels(pm.pal.value, p, b, 4) else BitPixels(ink, p, flags, b, 8)
  }

  /** The pixels of the first n bytes of the line that starts at uint16 index lb. */
  function LinePixels(pm: PixMap, p: Platform, flags: bv8, ink: int, lb: UInt16, n: nat): (r: seq<bv8>)
    requires PaletteOk(pm) && LineReadable(pm, lb) && n <= BytesPerLine(pm)
  {
    if n == 0 then []
    else LinePixels(pm, p, flags, ink, lb, n - 1) + BytePixels(pm, p, flags, ink, pm.raw[ByteIndex(lb, n - 1)])
  }

  /** The pixels of line j: its bytes unpacked in its ink. */
  function Line(pm: PixMap, p: Platform, flags: bv8, j: nat): (r: seq<bv8>)
    requires Readable(pm, flags) && j < pm.height
  {
    ReadableLine(pm, flags, j);
    LinePixels(pm, p, flags, LineColour(pm, j), LineBase(pm, flags, j), BytesPerLine(pm))
  }

  /** The raster the sprite path writes for the first n lines. */
  function Raster(pm: PixMap, p: Platform, flags: bv8, n: nat): (r: seq<bv8>)
    requires Readable(pm, flags) && n <= pm.height
  {
    Flat(Lines(pm, p, flags), n)
  }

  /** The pixels of every line, line by line. */
  function Lines(pm: PixMap, p: Platform, flags: bv8): (r: seq<seq<bv8>>)
    requires Readable(pm, flags)
    ensures |r| == pm.height
  {
    seq(pm.height, j requires 0 <= j < pm.height => Line(pm, p, flags, j))
  }

  /** Line n - 1 follows the first n - 1 lines. */
  lemma RasterNext(pm: PixMap, p: Platform, flags: bv8, n: nat)
    requires Readable(pm, flags) && 0 < n <= pm.height
    ensures Raster(pm, p, flags, n) == Raster(pm, p, flags, n - 1) + Line(pm, p, flags, n - 1)
  {
    assert Lines(pm, p, flags)[n - 1] == Line(pm, p, flags, n - 1);
  }

  /** The packed byte k of line j. */
  function PackedByte(pm: PixMap, flags: bv8, j: int, k: int): bv8
    requires Readable(pm, flags) && 0 <= j < pm.height && 0 <= k < BytesPerLine(pm)
  {
    ReadableLine(pm, flags, j);
    pm.raw[ByteAddr(pm, flags, j, k)]
  }

  /** The pixels of byte k of line j. */
  function PixelsAt(pm: PixMap, p: Platform, flags: bv8, j: int, k: int): (r: seq<bv8>)
    requires Readable(pm, flags) && 0 <= j < pm.height && 0 <= k < BytesPerLine(pm)
    ensures |r| == PixelsPerByte(pm)
  {
    BytePixels(pm, p, flags, LineColour(pm, j), PackedByte(pm, flags, j, k))
  }

  /** A line prefix of n bytes unpacks to n * pixelsPerByte pixels. */
  lemma {:induction false} LinePixelsLength(pm: PixMap, p: Platform, flags: bv8, ink: int, lb: UInt16, n: nat)
    requires PaletteOk(pm) && LineReadable(pm, lb) && n <= BytesPerLine(pm)
    ensures |LinePixels(pm, p, flags, ink, lb, n)| == n * PixelsPerByte(pm)
  {
    if n > 0 {
      LinePixelsLength(pm, p, flags, ink, lb, n - 1);
      assert n * PixelsPerByte(pm) == (n - 1) * PixelsPerByte(pm) + PixelsPerByte(pm);
    }
  }

  /** A line unpacks to pixelsPerLine pixels. */
  lemma LineLength(pm: PixMap, p: Platform, flags: bv8, j: nat)
    requires Readable(pm, flags) && j < pm.height
    ensures |Line(pm, p, flags, j)| == PixelsPerLine(pm)
  {
    ReadableLine(pm, flags, j);
    LinePixelsLength(pm, p, flags, LineColour(pm, j), LineBase(pm, flags, j), BytesPerLine(pm));
  }

  /** The first n lines unpack to n * pixelsPerLine pixels. */
  lemma RasterLength(pm: PixMap, p: Platform, flags: bv8, n: nat)
    requires Readable(pm, flags) && n <= pm.height
    ensures |Raster(pm, p, flags, n)| == n * PixelsPerLine(pm)
  {
    var lines := Lines(pm, p, flags);
    forall j | 0 <= j < n
      ensures |lines[j]| == PixelsPerLine(pm)
    {
      LineLength(pm, p, flags, j);
    }
    FlatLength(lines, n, PixelsPerLine(pm));
    CellsIs(n, PixelsPerLine(pm));
  }

  /** Line j, byte k, pixel i is where the row-major index names it. */
  lemma SplitIndex(j: int, k: int, i: int, h: int, bpl: int, ppb: int)
    requires 0 <= j < h && 0 <= k < bpl && 0 <= i < ppb
    ensures k * ppb + i < bpl * ppb
    ensures j * (bpl * ppb) + k * ppb + i < h * (bpl * ppb)
  {
    MulLe(k + 1, bpl, ppb);
    assert (k + 1) * ppb == k * ppb + ppb;
    MulLe(j + 1, h, bpl * ppb);
    assert (j + 1) * (bpl * ppb) == j * (bpl * ppb) + bpl * ppb;
  }

  /** Byte k's pixels follow the pixels of bytes 0 .. k - 1 in the line. */
  lemma {:induction false} LinePixelsAt(pm: PixMap, p: Platform, flags: bv8, ink: int, lb: UInt16, n: nat, k: nat, i: int)
    requires PaletteOk(pm) && LineReadable(pm, lb) && k < n <= BytesPerLine(pm) && 0 <= i < PixelsPerByte(pm)
    ensures |LinePixels(pm, p, flags, ink, lb, k)| + i < |LinePixels(pm, p, flags, ink, lb, n)|
    ensures LinePixels(pm, p, flags, ink, lb, n)[|LinePixels(pm, p, flags, ink, lb, k)| + i]
         == BytePixels(pm, p, flags, ink, pm.raw[ByteIndex(lb, k)])[i]
  {
    var front := LinePixels(pm, p, flags, ink, lb, n - 1);
    var last := BytePixels(pm, p, flags, ink, pm.raw[ByteIndex(lb, n - 1)]);
    assert LinePixels(pm, p, flags, ink, lb, n) == front + last;
    if k < n - 1 {
      LinePixelsAt(pm, p, flags, ink, lb, n - 1, k, i);
    }
  }

  /** Line j's pixels follow the pixels of lines 0 .. j - 1 in the raster. */
  lemma RasterAt(pm: PixMap, p: Platform, flags: bv8, n: nat, j: nat, x: int)
    requires Readable(pm, flags) && j < n <= pm.height && 0 <= x < |Line(pm, p, flags, j)|
    ensures |Raster(pm, p, flags, j)| + x < |Raster(pm, p, flags, n)|
    ensures Raster(pm, p, flags, n)[|Raster(pm, p, flags, j)| + x] == Line(pm, p, flags, j)[x]
  {
    var lines := Lines(pm, p, flags);
    assert lines[j] == Line(pm, p, flags, j);
    FlatAt(lines, n, j, x);
  }

  /**
   * The raster is row-major: pixel i of byte k of line j sits at index
   * j * pixelsPerLine + k * pixelsPerByte + i.
   */
  lemma PixelIndex(pm: PixMap, p: Platform, flags: bv8, j: int, k: int, i: int)
    requires Readable(pm, flags) && 0 <= j < pm.height && 0 <= k < BytesPerLine(pm) && 0 <= i < PixelsPerByte(pm)
    ensures 0 <= j * PixelsPerLine(pm) + k * PixelsPerByte(pm) + i < |Raster(pm, p, flags, pm.height)|
    ensures Raster(pm, p, flags, pm.height)[j * PixelsPerLine(pm) + k * PixelsPerByte(pm) + i] == PixelsAt(pm, p, flags, j, k)[i]
  {
    LineIndex(pm, p, flags, j, k, i);
    LineAt(pm, p, flags, j, k * PixelsPerByte(pm) + i);
  }

  /** Pixel x of line j sits at index j * pixelsPerLine + x of the raster. */
  lemma LineAt(pm: PixMap, p: Platform, flags: bv8, j: int, x: int)
    requires Readable(pm, flags) && 0 <= j < pm.height && 0 <= x < |Line(pm, p, flags, j)|
    ensures 0 <= j * PixelsPerLine(pm) + x < |Raster(pm, p, flags, pm.height)|
    ensures Raster(pm, p, flags, pm.height)[j * PixelsPerLine(pm) + x] == Line(pm, p, flags, j)[x]
  {
    RasterLength(pm, p, flags, j);
    RasterAt(pm, p, flags, pm.height, j, x);
  }

  /** Within line j, pixel i of byte k sits at index k * pixelsPerByte + i. */
  lemma LineIndex(pm: PixMap, p: Platform, flags: bv8, j: int, k: int, i: int)
    requires Readable(pm, flags) && 0 <= j < pm.height && 0 <= k < BytesPerLine(pm) && 0 <= i < PixelsPerByte(pm)
    ensures k * PixelsPerByte(pm) + i < |Line(pm, p, flags, j)|
    ensures Line(pm, p, flags, j)[k * PixelsPerByte(pm) + i] == PixelsAt(pm, p, flags, j, k)[i]
  {
    var lb := LineBase(pm, flags, j);
    ReadableLine(pm, flags, j);
    var ink := LineColour(pm, j);
    LinePixelsAt(pm, p, flags, ink, lb, BytesPerLine(pm), k, i);
    LinePixelsLength(pm, p, flags, ink, lb, k);
  }

  /** Pixel i of a two-bit byte is the palette colour its field i selects. */
  lemma {:induction false} PairPixelsAt(pal: seq<int>, p: Platform, b: bv8, n: nat, i: int)
    requires |pal| >= 4 && 0 <= i < n
    ensures PairPixels(pal, p, b, n)[i] == Getcol1(p, pal[Pair(b, i)])
  {
    if i < n - 1 {
      PairPixelsAt(pal, p, b, n - 1, i);
    }
  }

  /** Pixel i of a one-bit byte shows bit BitPos(flags, i). */
  lemma {:induction false} BitPixelsAt(ink: int, p: Platform, flags: bv8, b: bv8, n: nat, i: int)
    requires n <= 8 && 0 <= i < n
    ensures BitPixels(ink, p, flags, b, n)[i] == BitPixel(ink, p, Bit(b, BitPos(flags, i)))
  {
    if i < n - 1 {
      BitPixelsAt(ink, p, flags, b, n - 1, i);
    }
  }

  /**
   * The decoded raster, pixel by pixel: pixel i of byte k of line j is the
   * palette colour selected by two-bit field i of the packed byte, or, in the
   * one-bit format, the line's ink where bit 7 - i (bit i with BYTEREV) of the
   * packed byte is set and 0 where it is clear.
   */
  lemma Decoded(pm: PixMap, p: Platform, flags: bv8, j: int, k: int, i: int)
    requires Readable(pm, flags) && 0 <= j < pm.height && 0 <= k < BytesPerLine(pm) && 0 <= i < PixelsPerByte(pm)
    ensures 0 <= j * PixelsPerLine(pm) + k * PixelsPerByte(pm) + i < |Raster(pm, p, flags, pm.height)|
    ensures var b := PackedByte(pm, flags, j, k);
      Raster(pm, p, flags, pm.height)[j * PixelsPerLine(pm) + k * PixelsPerByte(pm) + i] ==
        if pm.pal.Some? then Getcol1(p, pm.pal.value[Pair(b, i)])
        else if Bit(b, if flags & BYTEREV != 0 then i else 7 - i) then Getcol1(p, LineColour(pm, j))
        else 0
  {
    PixelIndex(pm, p, flags, j, k, i);
    var b := PackedByte(pm, flags, j, k);
    if pm.pal.Some? {
      PairPixelsAt(pm.pal.value, p, b, 4, i);
    } else {
      BitPixelsAt(LineColour(pm, j), p, flags, b, 8, i);
    }
  }

  /** The first packed byte of frame `index`, when no uint16 arithmetic wraps. */
  function FrameStart(pm: PixMap): nat
  {
    BytesPerLine(pm) * pm.height * pm.index
  }

  /** The packed line that raster line j shows: j, or height - 1 - j with LINEREV. */
  function SourceLine(pm: PixMap, flags: bv8, j: int): int
  {
    if flags & LINEREV != 0 then pm.height - 1 - j else j
  }

  /** A value below 64 KiB is its own uint16 truncation. */
  lemma Below64K(v: int)
    requires 0 <= v < 0x1_0000
    ensures v % 0x1_0000 == v
  {
    DivModUnique(v, 0x1_0000, 0, v);
  }

  /** Line `line` of a frame of h lines of bpl bytes ends inside the frame. */
  lemma LineInFrame(line: int, h: int, bpl: int)
    requires 0 <= line < h && 0 <= bpl
    ensures (line + 1) * bpl == line * bpl + bpl
    ensures 0 <= line * bpl && line * bpl + bpl <= bpl * h
  {
    MulLe(line + 1, h, bpl);
  }

  /** When frame `index` lies below 64 KiB, line j starts at FrameStart + SourceLine(j) * bytesPerLine. */
  lemma {:induction false} LineBaseNoWrap(pm: PixMap, flags: bv8, j: nat)
    requires FrameStart(pm) + BytesPerLine(pm) * pm.height <= 0x1_0000 && j < pm.height
    ensures LineBase(pm, flags, j) == FrameStart(pm) + SourceLine(pm, flags, j) * BytesPerLine(pm)
  {
    if j == 0 {
      FrameBaseNoWrap(pm, flags);
    } else {
      LineBaseNoWrap(pm, flags, j - 1);
      LineStepNoWrap(pm, flags, j);
    }
  }

  /** Inside a frame f = bpl * h * idx below 64 KiB, neither the frame's start nor its last line's start wraps. */
  lemma FirstStart(f: int, h: int, bpl: int, idx: int)
    requires 0 <= bpl && 0 < h && 0 <= idx && f == bpl * h * idx && f + bpl * h <= 0x1_0000
    ensures f % 0x1_0000 == f
    ensures (f + (bpl * (h - 1)) % 0x1_0000) % 0x1_0000 == f + (h - 1) * bpl
  {
    MulLe(0, bpl, h);
    MulLe(0, idx, bpl * h);
    LineInFrame(h - 1, h, bpl);
    if bpl == 0 {
      assert f == 0 * h * idx == 0;
    } else {
      MulLe(1, h, bpl);
    }
    Below64K(f);
    Below64K(bpl * (h - 1));
    Below64K(f + (h - 1) * bpl);
  }

  /** The base before the first line, when frame `index` lies below 64 KiB. */
  lemma FrameBaseNoWrap(pm: PixMap, flags: bv8)
    requires FrameStart(pm) + BytesPerLine(pm) * pm.height <= 0x1_0000 && 0 < pm.height
    ensures FrameBase(pm, flags) == FrameStart(pm) + SourceLine(pm, flags, 0) * BytesPerLine(pm)
  {
    FirstStart(FrameStart(pm), pm.height, BytesPerLine(pm), pm.index);
  }

  /** Inside a frame f = bpl * h * idx below 64 KiB, stepping between the starts of lines `line` and `next` = `line + 1` does not wrap. */
  lemma NextStart(f: int, line: int, next: int, h: int, bpl: int, idx: int, b: int)
    requires 0 <= bpl && 0 <= idx && f == bpl * h * idx && 0 <= line && next == line + 1 < h && f + bpl * h <= 0x1_0000
    ensures b == f + line * bpl ==> (b + bpl) % 0x1_0000 == f + next * bpl
    ensures b == f + next * bpl ==> (b - bpl) % 0x1_0000 == f + line * bpl
  {
    MulLe(0, bpl, h);
    MulLe(0, idx, bpl * h);
    if bpl == 0 {
      assert f == 0 * h * idx == 0;
    }
    LineInFrame(line, h, bpl);
    LineInFrame(next, h, bpl);
    Below64K(f + line * bpl);
    Below64K(f + next * bpl);
  }

  /** One line's step of `base`, when frame `index` lies below 64 KiB and line j - 1 starts where it should. */
  lemma LineStepNoWrap(pm: PixMap, flags: bv8, j: nat)
    requires FrameStart(pm) + BytesPerLine(pm) * pm.height <= 0x1_0000 && 0 < j < pm.height
    requires LineBase(pm, flags, j - 1) == FrameStart(pm) + SourceLine(pm, flags, j - 1) * BytesPerLine(pm)
    ensures LineBase(pm, flags, j) == FrameStart(pm) + SourceLine(pm, flags, j) * BytesPerLine(pm)
  {
    var bpl, f, h := BytesPerLine(pm), FrameStart(pm), pm.height;
    var line, prev := SourceLine(pm, flags, j), SourceLine(pm, flags, j - 1);
    var before := LineBase(pm, flags, j - 1);
    if flags & LINEREV != 0 {
      NextStart(f, line, prev, h, bpl, pm.index, before);
      assert LineBase(pm, flags, j) == (before - bpl) % 0x1_0000;
    } else {
      NextStart(f, prev, line, h, bpl, pm.index, before);
      assert LineBase(pm, flags, j) == (before + bpl) % 0x1_0000;
    }
  }

  /**
   * When frame `index` lies below 64 KiB, byte k of line j is read from
   * index * bytesPerLine * height + SourceLine(j) * bytesPerLine + k of the packed data.
   */
  lemma ByteAddrNoWrap(pm: PixMap, flags: bv8, j: nat, k: int)
    requires FrameStart(pm) + BytesPerLine(pm) * pm.height <= 0x1_0000 && j < pm.height && 0 <= k < BytesPerLine(pm)
    ensures ByteAddr(pm, flags, j, k) == FrameStart(pm) + SourceLine(pm, flags, j) * BytesPerLine(pm) + k
  {
    var bpl := BytesPerLine(pm);
    LineBaseNoWrap(pm, flags, j);
    var line := SourceLine(pm, flags, j);
    LineInFrame(line, pm.height, bpl);
    Below64K(FrameStart(pm) + line * bpl + k);
  }

  /** The raster s with part written byte by byte from index at on (s itself if part does not fit). */
  function Put(s: seq<bv8>, at: int, part: seq<bv8>): (r: seq<bv8>)
    ensures |r| == |s|
    decreases |part|
  {
    if |part| == 0 || at < 0 || at + |part| > |s| then s
    else Put(s, at, part[..|part| - 1])[at + |part| - 1 := part[|part| - 1]]
  }

  /** Storing one byte right after part extends part by that byte. */
  lemma PutStore(s: seq<bv8>, at: int, part: seq<bv8>, v: bv8)
    requires 0 <= at && at + |part| < |s|
    ensures Put(s, at, part)[at + |part| := v] == Put(s, at, part + [v])
  {
    assert (part + [v])[..|part|] == part;
  }

  /** Put changes exactly the bytes at .. at + |part| - 1, to the bytes of part. */
  lemma {:induction false} PutAt(s: seq<bv8>, at: int, part: seq<bv8>, x: int)
    requires 0 <= at && at + |part| <= |s| && 0 <= x < |s|
    ensures Put(s, at, part)[x] == if at <= x < at + |part| then part[x - at] else s[x]
    decreases |part|
  {
    if |part| > 0 {
      PutAt(s, at, part[..|part| - 1], x);
    }
  }

  /** Writing part and then more right after it is writing part + more. */
  lemma {:induction false} PutPut(s: seq<bv8>, at: int, part: seq<bv8>, more: seq<bv8>)
    requires 0 <= at && at + |part| + |more| <= |s|
    ensures Put(Put(s, at, part), at + |part|, more) == Put(s, at, part + more)
    decreases |more|
  {
    if |more| == 0 {
      assert part + more == part;
    } else {
      var front, v := more[..|more| - 1], more[|more| - 1];
      PutPut(s, at, part, front);
      PutStore(s, at, part + front, v);
      assert part + front + [v] == part + more;
    }
  }

  /**
   * One step of the byte loop of a line: with the first k bytes of the line
   * in place, writing byte k's pixels right after them gives the first k + 1.
   */
  lemma LineStep(pm: PixMap, p: Platform, flags: bv8, ink: int, ubase: UInt16, k: int, b: bv8, at: int,
                 s0: seq<bv8>, spp: int, mid: seq<bv8>, after: seq<bv8>)
    requires PaletteOk(pm) && LineReadable(pm, ubase) && 0 <= k < BytesPerLine(pm)
    requires 0 <= spp && spp + PixelsPerLine(pm) <= |s0|
    requires b == pm.raw[ByteIndex(ubase, k)] && at == spp + k * PixelsPerByte(pm)
    requires mid == Put(s0, spp, LinePixels(pm, p, flags, ink, ubase, k))
    requires after == Put(mid, at, BytePixels(pm, p, flags, ink, b))
    ensures after == Put(s0, spp, LinePixels(pm, p, flags, ink, ubase, k + 1))
  {
    var lp := LinePixels(pm, p, flags, ink, ubase, k);
    var bp := BytePixels(pm, p, flags, ink, pm.raw[ByteIndex(ubase, k)]);
    LinePixelsLength(pm, p, flags, ink, ubase, k);
    NextRow(k, BytesPerLine(pm), PixelsPerByte(pm), PixelsPerLine(pm));
    assert LinePixels(pm, p, flags, ink, ubase, k + 1) == lp + bp;
    PutPut(s0, spp, lp, bp);
  }

  /**
   * One step of the line loop: with the first j lines in place, writing line
   * j's pixels right after them gives the first j + 1.
   */
  lemma RasterStep(pm: PixMap, p: Platform, flags: bv8, j: int, s0: seq<bv8>, mid: seq<bv8>, after: seq<bv8>)
    requires Readable(pm, flags) && 0 <= j < pm.height && Written(pm) <= |s0|
    requires mid == Put(s0, 0, Raster(pm, p, flags, j))
    requires after == Put(mid, j * PixelsPerLine(pm), Line(pm, p, flags, j))
    ensures after == Put(s0, 0, Raster(pm, p, flags, j + 1))
  {
    RasterLength(pm, p, flags, j);
    LineLength(pm, p, flags, j);
    NextRow(j, pm.height, PixelsPerLine(pm), |s0|);
    PutPut(s0, 0, Raster(pm, p, flags, j), Line(pm, p, flags, j));
    RasterNext(pm, p, flags, j + 1);
  }

  /**
   * The two-bit unpacking loop of drawPixMap's sprite path: writes the four
   * palette pixels of the packed byte ccline at raster[spp..] and nothing
   * else.  Returns the last palette colour, which the source leaves in its
   * `col`, and the advanced write cursor.
   */
  method UnpackPairs(pal: seq<int>, p: Platform, ccline: bv8, raster: array<bv8>, spp: int)
    returns (col: int, sppOut: int)
    requires |pal| >= 4
    requires 0 <= spp && spp + 4 <= raster.Length
    modifies raster
    ensures sppOut == spp + 4
    ensures raster[..] == Put(old(raster[..]), spp, PairPixels(pal, p, ccline, 4))
  {
    ghost var s0 := raster[..];
    col := 0;
    var cc := ccline;
    sppOut := spp;
    var i := 0;
    while i < 4
      invariant 0 <= i <= 4 && sppOut == spp + i
      invariant cc == Shifted(ccline, i)
      invariant raster[..] == Put(s0, spp, PairPixels(pal, p, ccline, i))
    {
      var pindex := cc & 3;
      cc := cc >> 2;
      col := pal[pindex as int];
      PutStore(s0, spp, PairPixels(pal, p, ccline, i), Getcol1(p, col));
      raster[sppOut] := Getcol1(p, col);
      sppOut := sppOut + 1;
      i := i + 1;
    }
  }

  /**
   * One pass of the one-bit loop: tests bit BitPos(flags, i) of ccline with
   * the source's mask and stores the ink or 0 right after the i pixels
   * already written from spp on.
   */
  method UnpackBit(col: int, p: Platform, flags: bv8, ccline: bv8, i: int, raster: array<bv8>, spp: int, ghost s0: seq<bv8>)
    requires 0 <= i < 8 && 0 <= spp && spp + 8 <= raster.Length == |s0|
    requires raster[..] == Put(s0, spp, BitPixels(col, p, flags, ccline, i))
    modifies raster
    ensures raster[..] == Put(s0, spp, BitPixels(col, p, flags, ccline, i + 1))
  {
    // the mask test (1 << n) & ccline, see MaskBit
    var pixcnd := if flags & BYTEREV != 0 then Bit(ccline, i) else Bit(ccline, 7 - i);
    BitPixelsNext(col, p, flags, ccline, i, pixcnd);
    var v: bv8 := if pixcnd then Getcol1(p, col) else 0;
    PutStore(s0, spp, BitPixels(col, p, flags, ccline, i), v);
    raster[spp + i] := v;
  }

  /**
   * The one-bit unpacking loop of drawPixMap's sprite path: writes the eight
   * pixels of the packed byte ccline at raster[spp..], the ink col for a set
   * bit and 0 for a clear one, and nothing else.
   */
  method UnpackBits(col: int, p: Platform, flags: bv8, ccline: bv8, raster: array<bv8>, spp: int)
    returns (sppOut: int)
    requires 0 <= spp && spp + 8 <= raster.Length
    modifies raster
    ensures sppOut == spp + 8
    ensures raster[..] == Put(old(raster[..]), spp, BitPixels(col, p, flags, ccline, 8))
  {
    ghost var s0 := raster[..];
    sppOut := spp;
    var i := 0;
    while i < 8
      invariant 0 <= i <= 8 && sppOut == spp + i
      invariant raster[..] == Put(s0, spp, BitPixels(col, p, flags, ccline, i))
    {
      UnpackBit(col, p, flags, ccline, i, raster, spp, s0);
      sppOut := sppOut + 1;
      i := i + 1;
    }
  }

  /** The byte-unpacking step of drawPixMap's sprite path, in the format the pixMap's palette selects. */
  method UnpackByte(pm: PixMap, p: Platform, flags: bv8, ghost ink: int, col: int, ccline: bv8,
                    raster: array<bv8>, spp: int) returns (colOut: int, sppOut: int)
    requires PaletteOk(pm) && (pm.pal.None? ==> col == ink)
    requires 0 <= spp && spp + PixelsPerByte(pm) <= raster.Length
    modifies raster
    ensures sppOut == spp + PixelsPerByte(pm)
    ensures raster[..] == Put(old(raster[..]), spp, BytePixels(pm, p, flags, ink, ccline))
    ensures pm.pal.None? ==> colOut == col
  {
    if pm.pal.Some? {
      colOut, sppOut := UnpackPairs(pm.pal.value, p, ccline, raster, spp);
    } else {
      colOut := col;
      sppOut := UnpackBits(col, p, flags, ccline, raster, spp);
    }
  }

  /** What one pass of the byte loop relies on: byte k is readable, its pixels fit the line, and `base` steps by one. */
  lemma NextByte(pm: PixMap, ubase: UInt16, k: int)
    requires LineReadable(pm, ubase) && 0 <= k < BytesPerLine(pm)
    ensures ByteIndex(ubase, k) < |pm.raw|
    ensures 0 <= k * PixelsPerByte(pm)
    ensures (k + 1) * PixelsPerByte(pm) == k * PixelsPerByte(pm) + PixelsPerByte(pm) <= PixelsPerLine(pm)
    ensures ByteIndex(ubase, k + 1) == if ByteIndex(ubase, k) == 0xffff then 0 else ByteIndex(ubase, k) + 1
  {
    NextRow(k, BytesPerLine(pm), PixelsPerByte(pm), PixelsPerLine(pm));
    ByteIndexNext(ubase, k);
  }

  /**
   * One pass of the byte loop of a line: with the pixels of the line's first
   * k bytes in place from spp0 on, unpacks byte k right after them.
   */
  method UnpackLineByte(pm: PixMap, p: Platform, flags: bv8, ubase: UInt16, k: int, base: UInt16, ghost ink: int, col: int,
                        raster: array<bv8>, spp0: int, spp: int, ghost s0: seq<bv8>) returns (colOut: int, sppOut: int)
    requires PaletteOk(pm) && LineReadable(pm, ubase) && 0 <= k < BytesPerLine(pm) && base == ByteIndex(ubase, k)
    requires pm.pal.None? ==> col == ink
    requires 0 <= spp0 && spp0 + PixelsPerLine(pm) <= raster.Length == |s0| && spp == spp0 + k * PixelsPerByte(pm)
    requires raster[..] == Put(s0, spp0, LinePixels(pm, p, flags, ink, ubase, k))
    modifies raster
    ensures sppOut == spp0 + (k + 1) * PixelsPerByte(pm)
    ensures raster[..] == Put(s0, spp0, LinePixels(pm, p, flags, ink, ubase, k + 1))
    ensures pm.pal.None? ==> colOut == col
  {
    NextByte(pm, ubase, k);
    var ccline := pm.raw[base];
    ghost var mid := raster[..];
    colOut, sppOut := UnpackByte(pm, p, flags, ink, col, ccline, raster, spp);
    LineStep(pm, p, flags, ink, ubase, k, ccline, spp, s0, spp0, mid, raster[..]);
  }

  /**
   * One line of drawPixMap's sprite path: starting from the line's `base`
   * ubase, unpacks its bytes into raster[spp..] and writes nothing else.
   * ink is the line's colour in the one-bit format, which col then holds.
   */
  method UnpackLine(pm: PixMap, p: Platform, flags: bv8, ubase: UInt16, ghost ink: int, col: int,
                    raster: array<bv8>, spp: int) returns (colOut: int, sppOut: int)
    requires PaletteOk(pm) && LineReadable(pm, ubase) && (pm.pal.None? ==> col == ink)
    requires 0 <= spp && spp + PixelsPerLine(pm) <= raster.Length
    modifies raster
    ensures sppOut == spp + PixelsPerLine(pm)
    ensures raster[..] == Put(old(raster[..]), spp, LinePixels(pm, p, flags, ink, ubase, BytesPerLine(pm)))
    ensures pm.pal.None? ==> colOut == col
  {
    ghost var s0 := raster[..];
    var bytesPerLine := pm.width / 8;
    colOut := col;
    var base := ubase;
    sppOut := spp;
    var k := 0;
    while k < bytesPerLine
      invariant 0 <= k <= bytesPerLine && sppOut == spp + k * PixelsPerByte(pm)
      invariant base == ByteIndex(ubase, k)
      invariant pm.pal.None? ==> colOut == col
      invariant raster[..] == Put(s0, spp, LinePixels(pm, p, flags, ink, ubase, k))
    {
      colOut, sppOut := UnpackLineByte(pm, p, flags, ubase, k, base, ink, colOut, raster, spp, sppOut, s0);
      ByteIndexNext(ubase, k);
      base := if base == 0xffff then 0 else base + 1;
      k := k + 1;
    }
    LinePixelsLength(pm, p, flags, ink, ubase, bytesPerLine);
  }

  /** The first |part| bytes of a raster that has part put at its start are part. */
  lemma PutPrefix(s: seq<bv8>, part: seq<bv8>)
    requires |part| <= |s|
    ensures Put(s, 0, part)[..|part|] == part
  {
    forall x | 0 <= x < |part|
      ensures Put(s, 0, part)[x] == part[x]
    {
      PutAt(s, 0, part, x);
    }
  }

  /** What one pass of the line loop relies on: line j is readable, fits, and the next line's base is one uint16 step away. */
  lemma NextLine(pm: PixMap, flags: bv8, j: int)
    requires Readable(pm, flags) && 0 <= j < pm.height
    ensures LineReadable(pm, LineBase(pm, flags, j))
    ensures 0 <= j * PixelsPerLine(pm)
    ensures (j + 1) * PixelsPerLine(pm) == j * PixelsPerLine(pm) + PixelsPerLine(pm) <= Written(pm)
    ensures LineBase(pm, flags, j + 1) ==
      if flags & LINEREV != 0 then (LineBase(pm, flags, j) - pm.width / 8) % 0x1_0000
      else (LineBase(pm, flags, j) + pm.width / 8) % 0x1_0000
  {
    ReadableLine(pm, flags, j);
    NextRow(j, pm.height, PixelsPerLine(pm), Written(pm));
  }

  /**
   * One pass of the line loop of drawPixMap's sprite path: with the first j
   * lines in place and `base` at line j, picks the line's ink, unpacks the
   * line right after the others and steps `base` to line j + 1 in uint16
   * arithmetic, backward with LINEREV.
   */
  method UnpackNextLine(pm: PixMap, p: Platform, flags: bv8, j: int, base: UInt16, col: int,
                        raster: array<bv8>, spp: int, ghost s0: seq<bv8>)
    returns (baseOut: UInt16, colOut: int, sppOut: int)
    requires Readable(pm, flags) && 0 <= j < pm.height && Written(pm) <= raster.Length == |s0|
    requires base == LineBase(pm, flags, j) && spp == j * PixelsPerLine(pm)
    requires raster[..] == Put(s0, 0, Raster(pm, p, flags, j))
    requires pm.pal.None? && pm.plpal.None? ==> col == pm.col
    modifies raster
    ensures baseOut == LineBase(pm, flags, j + 1) && sppOut == (j + 1) * PixelsPerLine(pm)
    ensures raster[..] == Put(s0, 0, Raster(pm, p, flags, j + 1))
    ensures pm.pal.None? && pm.plpal.None? ==> colOut == pm.col
  {
    colOut := col;
    if pm.plpal.Some? {
      colOut := pm.plpal.value[j];
    }
    NextLine(pm, flags, j);
    ghost var mid := raster[..];
    colOut, sppOut := UnpackLine(pm, p, flags, base, LineColour(pm, j), colOut, raster, spp);
    RasterStep(pm, p, flags, j, s0, mid, raster[..]);
    baseOut := NextBase(pm, flags, j, base);
  }

  /** The step of `base` at the end of a line: bytesPerLine forward, or backward with LINEREV, in uint16. */
  method NextBase(pm: PixMap, flags: bv8, j: nat, base: UInt16) returns (baseOut: UInt16)
    requires base == LineBase(pm, flags, j)
    ensures baseOut == LineBase(pm, flags, j + 1)
  {
    var bytesPerLine := pm.width / 8;
    if flags & LINEREV != 0 {
      baseOut := (base - bytesPerLine) % 0x1_0000;
    } else {
      baseOut := (base + bytesPerLine) % 0x1_0000;
    }
  }

  /** drawPixMap's uint16 `base` before its line loop: the frame's first byte, or its last line's with LINEREV. */
  method StartBase(pm: PixMap, flags: bv8) returns (base: UInt16)
    ensures base == LineBase(pm, flags, 0)
  {
    var bytesPerLine := pm.width / 8;
    base := (bytesPerLine * pm.height * pm.index) % 0x1_0000;
    var offBase: UInt16 := (bytesPerLine * (pm.height - 1)) % 0x1_0000;
    if flags & LINEREV != 0 {
      base := (base + offBase) % 0x1_0000;
    }
  }

  /**
   * The line loop of drawPixMap's sprite path: computes the uint16 `base` of
   * the frame, then unpacks line after line into the raster, and writes
   * nothing past the Written(pm) bytes it fills.
   */
  method UnpackFrame(pm: PixMap, p: Platform, flags: bv8, raster: array<bv8>)
    requires Readable(pm, flags) && Written(pm) <= raster.Length
    modifies raster
    ensures raster[..] == Put(old(raster[..]), 0, Raster(pm, p, flags, pm.height))
  {
    var spp := 0;
    var col := pm.col;
    var base := StartBase(pm, flags);
    ghost var s0 := raster[..];
    var j := 0;
    while j < pm.height
      invariant 0 <= j <= pm.height
      invariant base == LineBase(pm, flags, j)
      invariant pm.pal.None? && pm.plpal.None? ==> col == pm.col
      invariant spp == j * PixelsPerLine(pm)
      invariant raster[..] == Put(s0, 0, Raster(pm, p, flags, j))
    {
      base, col, spp := UnpackNextLine(pm, p, flags, j, base, col, raster, spp, s0);
      j := j + 1;
    }
  }

  /**
   * drawPixMap with a sprite target: sets the sprite's size, allocates
   * width * height bytes and fills the first Written(pm) of them, in order,
   * with the unpacked pixels.
   */
  method DrawPixMap(pm: PixMap, p: Platform, sp: Sprite, flags: bv8)
    requires Readable(pm, flags)
    modifies sp
    ensures sp.width == pm.width && sp.height == pm.height
    ensures fresh(sp.raw) && sp.raw.Length == pm.height * pm.width
    ensures Written(pm) <= sp.raw.Length
    ensures sp.raw[..Written(pm)] == Raster(pm, p, flags, pm.height)
  {
    sp.height := pm.height;
    sp.width := pm.width;
    var raster := new bv8[sp.height * sp.width];
    sp.raw := raster;
    ghost var s0 := raster[..];
    WrittenFits(pm);
    UnpackFrame(pm, p, flags, raster);
    RasterLength(pm, p, flags, pm.height);
    PutPrefix(s0, Raster(pm, p, flags, pm.height));
  }
}
