/**
 * The watch face's clock: the ten digit sprites makeCrap decodes from the
 * numeral table, timeAt's two scaled hour digits, the time bookkeeping of
 * render and the 56-copy trail directAccess draws before the white digits.
 */
module Clock {
  import opened Screen
  import opened Colours
  import opened Sprites
  import opened Blitter

  /** The numeral bitmaps, one entry per digit: six one-bit lines of eight pixels, leftmost pixel in the top bit. */
  const NUMERALS: seq<seq<bv8>> := [
    [0xfc, 0x84, 0x84, 0x84, 0x84, 0xfc],  // 0
    [0x30, 0x10, 0x10, 0x10, 0x10, 0x78],  // 1
    [0x7c, 0x04, 0xfc, 0x80, 0x80, 0xf8],  // 2
    [0x7c, 0x04, 0x7c, 0x04, 0x04, 0xfc],  // 3
    [0x80, 0x88, 0x88, 0xfc, 0x08, 0x08],  // 4
    [0xf8, 0x80, 0xfc, 0x04, 0x04, 0xfc],  // 5
    [0xf8, 0x80, 0xfc, 0x84, 0x84, 0xfc],  // 6
    [0xf8, 0x08, 0x10, 0x20, 0x40, 0x80],  // 7
    [0xfc, 0x84, 0xfc, 0x84, 0x84, 0xfc],  // 8
    [0xfc, 0x84, 0xfc, 0x04, 0x04, 0x7c]   // 9
  ]

  /** The seven trail colours of directAccess, one for each eight copies. */
  const PALETTE: seq<UInt32> := [0x770777, 0x004dff, 0x00ff00, 0xffff00, 0xff8000, 0xff0000, 0x000000]

  /** The number of trail copies directAccess draws: eight in each palette colour. */
  const COPIES: int := |PALETTE| * 8

  /** The centre of the screen in 12.4 fixed point: XREZ << 3, YREZ << 3. */
  const PX: Int16 := XREZ * 8
  const PY: Int16 := YREZ * 8

  /** The pixMap makeCrap decodes digit d from: 8 x 6, white ink, no palette, the numeral lines of d. */
  function Glyph(d: int): PixMap
    requires 0 <= d < 10
  {
    PixMap(8, 6, 0, NUMERALS[d], 0xffffff, None, None)
  }

  /** Every digit's pixMap can be decoded (its six lines lie in the table) and fills all 48 raster bytes. */
  lemma GlyphReadable(d: int)
    requires 0 <= d < 10
    ensures Readable(Glyph(d), 0) && Written(Glyph(d)) == 48
  {
    var pm := Glyph(d);
    forall j, k | 0 <= j < pm.height && 0 <= k < BytesPerLine(pm)
      ensures ByteAddr(pm, 0, j, k) < |pm.raw|
    {
      ByteAddrNoWrap(pm, 0, j, k);
    }
    ReadableIff(pm, 0);
  }

  /** The 48-byte raster drawPixMap decodes digit d into. */
  function DigitRaster(d: int, p: Platform): (r: seq<bv8>)
    requires 0 <= d < 10
    ensures |r| == 48
  {
    GlyphReadable(d);
    RasterLength(Glyph(d), p, 0, 6);
    Raster(Glyph(d), p, 0, 6)
  }

  /** Line j of digit d's pixMap is line j of its numeral. */
  lemma GlyphLine(d: int, j: int)
    requires 0 <= d < 10 && 0 <= j < 6 && Readable(Glyph(d), 0)
    ensures PackedByte(Glyph(d), 0, j, 0) == NUMERALS[d][j]
  {
    var pm := Glyph(d);
    assert BytesPerLine(pm) == 1 && FrameStart(pm) == 0 && SourceLine(pm, 0, j) == j;
    ByteAddrNoWrap(pm, 0, j, 0);
  }

  /** Pixel (i, j) of digit d's raster is inked exactly where bit 7 - i of line j of its numeral is set. */
  lemma GlyphPixels(d: int, p: Platform, j: int, i: int)
    requires 0 <= d < 10 && 0 <= j < 6 && 0 <= i < 8
    ensures DigitRaster(d, p)[j * 8 + i] == if Bit(NUMERALS[d][j], 7 - i) then Getcol1(p, 0xffffff) else 0
  {
    var pm := Glyph(d);
    GlyphReadable(d);
    GlyphLine(d, j);
    assert PixelsPerLine(pm) == 8 && PixelsPerByte(pm) == 8 && pm.height == 6;
    Decoded(pm, p, 0, j, 0, i);
  }

  /** The two bit patterns of digit 0: 0xfc inks columns 0 .. 5, 0x84 columns 0 and 5. */
  lemma RingBits(i: int)
    requires 0 <= i < 8
    ensures Bit(0xfc, 7 - i) == (i <= 5)
    ensures Bit(0x84, 7 - i) == (i == 0 || i == 5)
  {
    if i == 0 { assert Bit(0xfc, 7) && Bit(0x84, 7); }
    else if i == 1 { assert Bit(0xfc, 6) && !Bit(0x84, 6); }
    else if i == 2 { assert Bit(0xfc, 5) && !Bit(0x84, 5); }
    else if i == 3 { assert Bit(0xfc, 4) && !Bit(0x84, 4); }
    else if i == 4 { assert Bit(0xfc, 3) && !Bit(0x84, 3); }
    else if i == 5 { assert Bit(0xfc, 2) && Bit(0x84, 2); }
    else if i == 6 { assert !Bit(0xfc, 1) && !Bit(0x84, 1); }
    else { assert !Bit(0xfc, 0) && !Bit(0x84, 0); }
  }

  /** Digit 0 decodes to a ring: lines 0 and 5 and columns 0 and 5 of the left six columns, nothing else. */
  lemma ZeroRing(p: Platform, j: int, i: int)
    requires 0 <= j < 6 && 0 <= i < 8
    ensures DigitRaster(0, p)[j * 8 + i] ==
            if i <= 5 && (j == 0 || j == 5 || i == 0 || i == 5) then Getcol1(p, 0xffffff) else 0
  {
    GlyphPixels(0, p, j, i);
    RingBits(i);
    ZeroLines(j);
  }

  /** Digit 0's numeral lines: 0xfc at the top and bottom, 0x84 between. */
  lemma ZeroLines(j: int)
    requires 0 <= j < 6
    ensures NUMERALS[0][j] == if j == 0 || j == 5 then 0xfc else 0x84
  {
    if j == 0 { assert NUMERALS[0][0] == 0xfc; }
    else if j == 1 { assert NUMERALS[0][1] == 0x84; }
    else if j == 2 { assert NUMERALS[0][2] == 0x84; }
    else if j == 3 { assert NUMERALS[0][3] == 0x84; }
    else if j == 4 { assert NUMERALS[0][4] == 0x84; }
    else { assert NUMERALS[0][5] == 0xfc; }
  }

  /** A digit sprite as makeCrap leaves it: 8 x 6, holding the decoded digit d. */
  predicate Shaped(sp: Sprite, p: Platform, d: int)
    requires 0 <= d < 10
    reads sp, sp.raw
  {
    sp.width == 8 && sp.height == 6 && sp.raw.Length == 48 && sp.raw[..] == DigitRaster(d, p)
  }

  /** render's 12-hour normalisation: 13 .. 23 become 1 .. 11 and 0 becomes 12. */
  function Hour12(hour: int): (r: int)
    requires 0 <= hour < 24
    ensures 1 <= r <= 12 && r % 12 == hour % 12
  {
    var h := if hour > 11 then hour - 12 else hour;
    if h == 0 then 12 else h
  }

  /** The six clock digits HHMMSS: tens and units of each of h, m and s. */
  function Digits(h: int, m: int, s: int): (r: seq<UInt8>)
    requires 0 <= h < 100 && 0 <= m < 100 && 0 <= s < 100
    ensures |r| == 6 && forall i | 0 <= i < 6 :: r[i] < 10
    ensures r[0] * 10 + r[1] == h && r[2] * 10 + r[3] == m && r[4] * 10 + r[5] == s
  {
    [h / 10, h % 10, m / 10, m % 10, s / 10, s % 10]
  }

  /** A sprite's value: its size and its bytes. */
  datatype Shape = Shape(width: UInt8, height: UInt8, raw: seq<bv8>)

  /** A shape holds its width * height bytes. */
  predicate Whole(sh: Shape)
  {
    |sh.raw| >= sh.width * sh.height
  }

  function ShapeOf(sp: Sprite): (sh: Shape)
    reads sp, sp.raw
    ensures sp.raw.Length >= sp.width * sp.height ==> Whole(sh)
  {
    Shape(sp.width, sp.height, sp.raw[..])
  }

  /** timeAt's int16 txp for digit i: 6 << 6 and the gap (2 << 6) left of xp, then (gap << 1) + (6 << 6) on per digit (12.4 fixed point). */
  function DigitXp(xp: Int16, i: int): Int16
  {
    Wrap16(xp - 512 + i * 640)
  }

  /** timeAt's step of txp: 40 pixels on from digit i is digit i + 1. */
  lemma DigitNext(xp: Int16, i: int)
    ensures Wrap16(DigitXp(xp, i) + 640) == DigitXp(xp, i + 1)
  {
    WrapAdd(xp - 512 + i * 640, 640);
    assert xp - 512 + i * 640 + 640 == xp - 512 + (i + 1) * 640;
  }

  /** The frame buffer s with digit i of timeAt(xp, yp) drawn from shape sh: a 6 x 8 enlargement, x shifted 4 pixels left. */
  function DigitDrawn(s: seq<bv8>, win: Window, xp: Int16, yp: Int16, tint: bv8, sh: Shape, i: int): (r: seq<bv8>)
    requires |s| == FRAME_BYTES && Ordered(win) && Whole(sh)
    ensures |r| == FRAME_BYTES
  {
    Drawn(s, win, Shr4(DigitXp(xp, i)) - 4, Shr4(Wrap16(yp - 3 * 128)), 6 * 16, 8 * 16, sh.width, sh.height, sh.raw, tint)
  }

  /** The frame buffer s after timeAt(xp, yp): the hour digits a and b, in that order. */
  function HourDrawn(s: seq<bv8>, win: Window, xp: Int16, yp: Int16, tint: bv8, a: Shape, b: Shape): (r: seq<bv8>)
    requires |s| == FRAME_BYTES && Ordered(win) && Whole(a) && Whole(b)
    ensures |r| == FRAME_BYTES
  {
    DigitDrawn(DigitDrawn(s, win, xp, yp, tint, a, 0), win, xp, yp, tint, b, 1)
  }

  /** The frame buffer s after the first n (0 .. 2) passes of timeAt's loop. */
  function HourStage(s: seq<bv8>, win: Window, xp: Int16, yp: Int16, tint: bv8, a: Shape, b: Shape, n: int): (r: seq<bv8>)
    requires |s| == FRAME_BYTES && Ordered(win) && Whole(a) && Whole(b)
    ensures |r| == FRAME_BYTES
  {
    if n <= 0 then s
    else if n == 1 then DigitDrawn(s, win, xp, yp, tint, a, 0)
    else HourDrawn(s, win, xp, yp, tint, a, b)
  }

  /** Pass i of timeAt's loop draws hour digit i over the first i. */
  lemma StageNext(s: seq<bv8>, win: Window, xp: Int16, yp: Int16, tint: bv8, a: Shape, b: Shape, i: int)
    requires |s| == FRAME_BYTES && Ordered(win) && Whole(a) && Whole(b) && 0 <= i < 2
    ensures HourStage(s, win, xp, yp, tint, a, b, i + 1)
         == DigitDrawn(HourStage(s, win, xp, yp, tint, a, b, i), win, xp, yp, tint, if i == 0 then a else b, i)
  {
  }

  /**
   * Away from int16 wrap-around the two hour digits are drawn 40 pixels
   * apart, the first 36 pixels left of and 24 pixels above (xp, yp) / 16,
   * each a 48 x 48 enlargement of an 8 x 6 digit sprite.
   */
  lemma HourPlacement(xp: Int16, yp: Int16)
    requires -0x8000 + 512 <= xp < 0x8000 - 128 && -0x8000 + 384 <= yp
    ensures Shr4(DigitXp(xp, 0)) - 4 == (xp - 512) / 16 - 4
    ensures Shr4(DigitXp(xp, 1)) - 4 == Shr4(DigitXp(xp, 0)) - 4 + 40
    ensures Shr4(Wrap16(yp - 3 * 128)) == (yp - 384) / 16
    ensures ScaledLength(8, 6 * 16) == 48 && ScaledLength(6, 8 * 16) == 48
  {
    DivModUnique(xp - 512 + 640, 16, (xp - 512) / 16 + 40, (xp - 512) % 16);
  }

  /** Drawing a digit changes no pixel outside the clip window. */
  lemma DigitOutside(s: seq<bv8>, win: Window, xp: Int16, yp: Int16, tint: bv8, sh: Shape, i: int, cx: int, cy: int)
    requires |s| == FRAME_BYTES && Ordered(win) && Whole(sh)
    requires 0 <= cx < XREZ && 0 <= cy < YREZ && !(win.xlo <= cx < win.xhi && win.ylo <= cy < win.yhi)
    ensures DigitDrawn(s, win, xp, yp, tint, sh, i)[Offset(cx, cy)] == s[Offset(cx, cy)]
  {
    DrawnAt(s, win, Shr4(DigitXp(xp, i)) - 4, Shr4(Wrap16(yp - 3 * 128)), 6 * 16, 8 * 16, sh.width, sh.height, sh.raw, tint, cx, cy);
  }

  /** timeAt changes no pixel outside the clip window. */
  lemma HourOutside(s: seq<bv8>, win: Window, xp: Int16, yp: Int16, tint: bv8, a: Shape, b: Shape, cx: int, cy: int)
    requires |s| == FRAME_BYTES && Ordered(win) && Whole(a) && Whole(b)
    requires 0 <= cx < XREZ && 0 <= cy < YREZ && !(win.xlo <= cx < win.xhi && win.ylo <= cy < win.yhi)
    ensures HourDrawn(s, win, xp, yp, tint, a, b)[Offset(cx, cy)] == s[Offset(cx, cy)]
  {
    DigitOutside(s, win, xp, yp, tint, a, 0, cx, cy);
    DigitOutside(DigitDrawn(s, win, xp, yp, tint, a, 0), win, xp, yp, tint, b, 1, cx, cy);
  }

  /** mag: the magnitude of an int16, as a uint16 (32768 for -32768). */
  function Mag(v: Int16): UInt16
  {
    if v < 0 then -(v as int) else v
  }

  /** C's `/` on int: the quotient rounded toward zero. */
  function Quot(a: int, b: int): int
    requires b > 0
  {
    if a < 0 then -((-a) / b) else a / b
  }

  /** A magnitude m of at least 16 divided by its sixteenth (m >> 4) lies in 16 .. 31. */
  lemma ScaleBounds(m: int)
    requires m >= 16
    ensures 1 <= m / 16 && 16 <= m / (m / 16) < 32
  {
    var q := m / 16;
    DivModUnique(m, 16, q, m % 16);
    MulAtLeast(q, 16);
    var n := m / q;
    DivModUnique(m, q, n, m % q);
    if n < 16 {
      MulLe(n + 1, 16, q);
    }
    if n >= 32 {
      MulLe(32, n, q);
    }
  }

  /** Dividing by the same positive number keeps the order of two magnitudes. */
  lemma DivMono(a: int, b: int, q: int)
    requires 0 <= a <= b && 0 < q
    ensures a / q <= b / q
  {
    DivModUnique(a, q, a / q, a % q);
    DivModUnique(b, q, b / q, b % q);
    if a / q > b / q {
      MulLe(b / q + 1, a / q, q);
    }
  }

  /** A component divided, rounding toward zero, by d keeps its sign and has magnitude |v| / d. */
  lemma QuotMag(v: Int16, d: int)
    requires d > 0
    ensures -0x8000 <= Quot(v, d) < 0x8000
    ensures Quot(v, d) < 0 ==> v < 0
    ensures v < 0 ==> Quot(v, d) <= 0
    ensures (if Quot(v, d) < 0 then -Quot(v, d) else Quot(v, d)) == Mag(v) / d
  {
    var m: int := Mag(v);
    DivLe(m, d);
    if v < 0 {
      assert Quot(v, d) == -(m / d);
    } else {
      assert Quot(v, d) == m / d;
    }
  }

  /** A quotient by a positive number is no larger than the dividend. */
  lemma DivLe(a: int, d: int)
    requires 0 <= a && 0 < d
    ensures 0 <= a / d <= a
  {
    DivModUnique(a, d, a / d, a % d);
    MulLe(1, d, a / d);
  }

  /**
   * directAccess's step (tx, ty): both parts divided, rounding toward zero,
   * by a sixteenth of the larger magnitude.  The source divides by zero when
   * both magnitudes are below 16.
   */
  function Direction(tx: Int16, ty: Int16): (r: (Int16, Int16))
    requires Mag(tx) >= 16 || Mag(ty) >= 16
    ensures Mag(r.0) < 32 && Mag(r.1) < 32
    ensures 16 <= if Mag(tx) > Mag(ty) then Mag(r.0) else Mag(r.1)
    ensures (r.0 < 0 ==> tx < 0) && (tx < 0 ==> r.0 <= 0) && (r.1 < 0 ==> ty < 0) && (ty < 0 ==> r.1 <= 0)
  {
    var big := if Mag(tx) > Mag(ty) then Mag(tx) else Mag(ty);
    var d := big / 16;
    ScaleBounds(big);
    QuotMag(tx, d);
    QuotMag(ty, d);
    DivMono(Mag(tx), big, d);
    DivMono(Mag(ty), big, d);
    (Quot(tx, d), Quot(ty, d))
  }

  /** The int16 ox (or oy) of directAccess after k steps of t from -56 * t. */
  function Offs(t: Int16, k: int): Int16
  {
    Wrap16(-56 * t + k * t)
  }

  /** The march starts at -56 * t. */
  lemma OffsStart(t: Int16)
    ensures Offs(t, 0) == Wrap16(-56 * t)
  {
  }

  /** One more step of t: ox += tx in int16. */
  lemma OffsNext(t: Int16, k: int)
    ensures Wrap16(Offs(t, k) + t) == Offs(t, k + 1)
  {
    WrapAdd(-56 * t + k * t, t);
    assert -56 * t + k * t + t == -56 * t + (k + 1) * t;
  }

  /**
   * With a normalised step the march never wraps: copy k is drawn (56 - k)
   * steps out from the centre, and the last copy lands on the centre.
   */
  lemma TrailPlace(t: Int16, k: int)
    requires Mag(t) < 32 && 0 <= k <= 56
    ensures Offs(t, k) == (k - 56) * t
    ensures Wrap16(PX - Offs(t, k)) == PX + (56 - k) * t && Wrap16(PY - Offs(t, k)) == PY + (56 - k) * t
    ensures Offs(t, 56) == 0
  {
    var m := (k - 56) * t;
    assert -56 * t + k * t == m;
    SmallOffset(k, t);
    assert PX - m == PX + (56 - k) * t && PY - m == PY + (56 - k) * t;
  }

  /** At most 56 steps of magnitude below 32 stay within 56 * 31 of the start. */
  lemma SmallOffset(k: int, t: Int16)
    requires Mag(t) < 32 && 0 <= k <= 56
    ensures -1736 <= (k - 56) * t <= 1736
  {
    var u := 56 - k;
    if t < 0 {
      MulLe(u, 56, -t);
      assert (k - 56) * t == u * (-t);
    } else {
      MulLe(u, 56, t);
      assert (k - 56) * t == -(u * t);
    }
  }

  /**
   * The frame buffer s after the first n trail copies of directAccess: copy
   * k is drawn at (PX - ox, PY - oy) after k steps, in trail colour (k - 1) / 8.
   */
  function Trail(s: seq<bv8>, win: Window, p: Platform, tx: Int16, ty: Int16, a: Shape, b: Shape, n: int): (r: seq<bv8>)
    requires |s| == FRAME_BYTES && Ordered(win) && Whole(a) && Whole(b) && 0 <= n <= 56
    ensures |r| == FRAME_BYTES
    decreases n
  {
    if n == 0 then s
    else
      HourDrawn(Trail(s, win, p, tx, ty, a, b, n - 1), win, Wrap16(PX - Offs(tx, n)), Wrap16(PY - Offs(ty, n)),
                Getcol1(p, SignedOf(PALETTE[(n - 1) / 8])), a, b)
  }

  /** Copy n + 1 of the trail is drawn over the first n, at offset n + 1 and in trail colour n / 8. */
  lemma TrailNext(s: seq<bv8>, win: Window, p: Platform, tx: Int16, ty: Int16, a: Shape, b: Shape, n: int)
    requires |s| == FRAME_BYTES && Ordered(win) && Whole(a) && Whole(b) && 0 <= n < 56
    ensures Trail(s, win, p, tx, ty, a, b, n + 1) ==
      HourDrawn(Trail(s, win, p, tx, ty, a, b, n), win, Wrap16(PX - Offs(tx, n + 1)), Wrap16(PY - Offs(ty, n + 1)),
                Getcol1(p, SignedOf(PALETTE[n / 8])), a, b)
  {
  }

  /** The frame buffer after directAccess on a colour platform: the 56-copy trail, then the digits in white. */
  function Face(s: seq<bv8>, win: Window, p: Platform, tx: Int16, ty: Int16, a: Shape, b: Shape): (r: seq<bv8>)
    requires |s| == FRAME_BYTES && Ordered(win) && Whole(a) && Whole(b)
    ensures |r| == FRAME_BYTES
  {
    HourDrawn(Trail(s, win, p, tx, ty, a, b, COPIES), win, PX, PY, Getcol1(p, SignedOf(0xffff_ffff)), a, b)
  }

  /** The trail changes no pixel outside the clip window. */
  lemma {:induction false} TrailOutside(s: seq<bv8>, win: Window, p: Platform, tx: Int16, ty: Int16, a: Shape, b: Shape, n: int, cx: int, cy: int)
    requires |s| == FRAME_BYTES && Ordered(win) && Whole(a) && Whole(b) && 0 <= n <= 56
    requires 0 <= cx < XREZ && 0 <= cy < YREZ && !(win.xlo <= cx < win.xhi && win.ylo <= cy < win.yhi)
    ensures Trail(s, win, p, tx, ty, a, b, n)[Offset(cx, cy)] == s[Offset(cx, cy)]
    decreases n
  {
    if n > 0 {
      TrailOutside(s, win, p, tx, ty, a, b, n - 1, cx, cy);
      HourOutside(Trail(s, win, p, tx, ty, a, b, n - 1), win, Wrap16(PX - Offs(tx, n)), Wrap16(PY - Offs(ty, n)),
                  Getcol1(p, SignedOf(PALETTE[(n - 1) / 8])), a, b, cx, cy);
    }
  }

  /** directAccess changes no pixel outside the clip window. */
  lemma FaceOutside(s: seq<bv8>, win: Window, p: Platform, tx: Int16, ty: Int16, a: Shape, b: Shape, cx: int, cy: int)
    requires |s| == FRAME_BYTES && Ordered(win) && Whole(a) && Whole(b)
    requires 0 <= cx < XREZ && 0 <= cy < YREZ && !(win.xlo <= cx < win.xhi && win.ylo <= cy < win.yhi)
    ensures Face(s, win, p, tx, ty, a, b)[Offset(cx, cy)] == s[Offset(cx, cy)]
  {
    TrailOutside(s, win, p, tx, ty, a, b, COPIES, cx, cy);
    HourOutside(Trail(s, win, p, tx, ty, a, b, COPIES), win, PX, PY, Getcol1(p, SignedOf(0xffff_ffff)), a, b, cx, cy);
  }

  /** The watch face's global state. */
  class Engine {
    /** The clip window of drawSprite: xclip_lo, xclip_hi, yclip_lo, yclip_hi. */
    var clip: Window
    /** The six clock digits HHMMSS. */
    var clockDigits: array<UInt8>
    var lastMinute: UInt8
    var lastHour: UInt8
    var currentSecond: UInt16
    var currentMinute: UInt16
    var currentHour: UInt16
    /** numberShapes: the ten digit sprites. */
    var numberShapes: seq<Sprite>

    /** The globals' initial values; 64 in lastMinute and lastHour marks the first run. */
    constructor ()
      ensures clip == Window(0, XREZ, 16, YREZ - 1)
      ensures fresh(clockDigits) && clockDigits[..] == [0, 0, 0, 0, 0, 0]
      ensures lastMinute == 64 && lastHour == 64
      ensures currentSecond == 0 && currentMinute == 0 && currentHour == 0
      ensures numberShapes == []
    {
      clip := Window(0, XREZ, 16, YREZ - 1);
      clockDigits := new UInt8[6](_ => 0);
      lastMinute, lastHour := 64, 64;
      currentSecond, currentMinute, currentHour := 0, 0, 0;
      numberShapes := [];
    }

    /** Every clock digit names one of the ten digit sprites, each holding its width * height bytes. */
    predicate Ready()
      reads this, clockDigits, numberShapes
    {
      clockDigits.Length == 6 && (forall i | 0 <= i < 6 :: clockDigits[i] < 10) &&
      |numberShapes| == 10 &&
      forall d | 0 <= d < 10 :: numberShapes[d].raw.Length >= numberShapes[d].width * numberShapes[d].height
    }

    /** No digit sprite shares its bytes with the frame buffer. */
    predicate Apart(bits: array<bv8>)
      reads this, numberShapes
    {
      forall d | 0 <= d < |numberShapes| :: numberShapes[d].raw != bits
    }

    /** What timeAt needs: the digit sprites ready and apart from a full frame buffer, and the clip window on the screen. */
    predicate CanDraw(bits: array<bv8>)
      reads this, clockDigits, numberShapes
    {
      Ready() && Apart(bits) && bits.Length == FRAME_BYTES && OnScreen(clip)
    }

    /** The shape of hour digit i (0 or 1). */
    function HourShape(i: int): (sh: Shape)
      requires Ready() && 0 <= i < 2
      reads this, clockDigits, numberShapes, numberShapes[clockDigits[i]].raw
      ensures Whole(sh)
    {
      ShapeOf(numberShapes[clockDigits[i]])
    }

    /**
     * makeCrap: the clock digits start as 0 .. 5, and the ten digit sprites
     * are decoded from the numeral table, each into a new 8 x 6 raster.
     */
    method MakeGlyphs(p: Platform)
      requires clockDigits.Length == 6
      modifies this, clockDigits
      ensures clockDigits == old(clockDigits) && clockDigits[..] == [0, 1, 2, 3, 4, 5]
      ensures |numberShapes| == 10
      ensures forall d | 0 <= d < 10 :: fresh(numberShapes[d]) && fresh(numberShapes[d].raw) && Shaped(numberShapes[d], p, d)
      ensures Ready()
      ensures clip == old(clip) && lastMinute == old(lastMinute) && lastHour == old(lastHour)
      ensures currentSecond == old(currentSecond) && currentMinute == old(currentMinute) && currentHour == old(currentHour)
    {
      ResetDigits();
      numberShapes := MakeShapes(p);
      forall d | 0 <= d < 10
        ensures numberShapes[d].raw.Length >= numberShapes[d].width * numberShapes[d].height
      {
        assert Shaped(numberShapes[d], p, d);
      }
    }

    /** makeCrap's first loop: clock digit i starts as i. */
    method ResetDigits()
      requires clockDigits.Length == 6
      modifies clockDigits
      ensures clockDigits[..] == [0, 1, 2, 3, 4, 5]
    {
      var i := 0;
      while i < 6
        invariant 0 <= i <= 6
        invariant forall k | 0 <= k < i :: clockDigits[k] == k
      {
        clockDigits[i] := i;
        i := i + 1;
      }
    }

    /** HourChanged: the hour digits follow the current hour. */
    method HourChanged()
      requires clockDigits.Length == 6 && currentHour < 100
      modifies clockDigits
      ensures clockDigits[0] as int * 10 + clockDigits[1] as int == currentHour && clockDigits[0] < 10 && clockDigits[1] < 10
      ensures clockDigits[2..] == old(clockDigits[2..])
    {
      clockDigits[0] := currentHour / 10;
      clockDigits[1] := currentHour % 10;
    }

    /**
     * render's time bookkeeping for the local time hour:minute:second.  On
     * the first run the last hour and minute are seeded and no hook fires;
     * afterwards each hook fires exactly when its value changed.  The hooks'
     * firing is returned (minuteChanged has an empty body).
     */
    method Render(hour: int, minute: int, second: int) returns (hourHook: bool, minuteHook: bool)
      requires 0 <= hour < 24 && 0 <= minute < 60 && 0 <= second <= 61
      requires clockDigits.Length == 6
      modifies this, clockDigits
      ensures currentHour == Hour12(hour) && currentMinute == minute
      // a leap second is shown as 59 in currentSecond ...
      ensures currentSecond == if second > 59 then 59 else second
      ensures old(lastMinute) > 60 ==> !hourHook && !minuteHook
      ensures old(lastMinute) <= 60 ==> hourHook == (Hour12(hour) != old(lastHour)) && minuteHook == (minute != old(lastMinute))
      ensures lastHour == Hour12(hour) && lastMinute == minute
      // ... but the digits take the raw seconds
      ensures clockDigits[..] == Digits(Hour12(hour), minute, second)
      ensures clockDigits == old(clockDigits) && clip == old(clip) && numberShapes == old(numberShapes)
    {
      SetTime(hour, minute, second);
      hourHook, minuteHook := Track();
      if currentSecond > 59 {
        currentSecond := 59;
      }
      SetDigits(currentHour, minute, second);
    }

    /** The head of render: the current second, minute and hour, the hour on the 12-hour dial. */
    method SetTime(hour: int, minute: int, second: int)
      requires 0 <= hour < 24 && 0 <= minute < 60 && 0 <= second <= 61
      modifies this
      ensures currentHour == Hour12(hour) && currentMinute == minute && currentSecond == second
      ensures lastMinute == old(lastMinute) && lastHour == old(lastHour)
      ensures clockDigits == old(clockDigits) && clip == old(clip) && numberShapes == old(numberShapes)
    {
      currentSecond := second;
      currentMinute := minute;
      currentHour := hour;
      if currentHour > 11 {
        currentHour := currentHour - 12;
      }
      if currentHour == 0 {
        currentHour := 12;
      }
    }

    /**
     * render's change tracking: on the first run (lastMinute above 60) the
     * last hour and minute are seeded; afterwards each hook fires, and the
     * last value follows, exactly when the current value differs.
     */
    method Track() returns (hourHook: bool, minuteHook: bool)
      requires clockDigits.Length == 6 && 1 <= currentHour <= 12 && currentMinute < 60
      modifies this, clockDigits
      ensures old(lastMinute) > 60 ==> !hourHook && !minuteHook
      ensures old(lastMinute) <= 60 ==> hourHook == (currentHour != old(lastHour)) && minuteHook == (currentMinute != old(lastMinute))
      ensures lastHour == currentHour && lastMinute == currentMinute
      ensures currentHour == old(currentHour) && currentMinute == old(currentMinute) && currentSecond == old(currentSecond)
      ensures clockDigits == old(clockDigits) && clip == old(clip) && numberShapes == old(numberShapes)
    {
      hourHook, minuteHook := false, false;
      if lastMinute > 60 {
        lastMinute := currentMinute;
        lastHour := currentHour;
      } else {
        if currentHour != lastHour {
          lastHour := currentHour;
          HourChanged();
          hourHook := true;
        }
        if currentMinute != lastMinute {
          lastMinute := currentMinute;
          minuteHook := true;
        }
      }
    }

    /** The tail of render: the six clock digits HHMMSS. */
    method SetDigits(h: int, m: int, s: int)
      requires clockDigits.Length == 6 && 0 <= h < 100 && 0 <= m < 100 && 0 <= s < 100
      modifies clockDigits
      ensures clockDigits[..] == Digits(h, m, s)
    {
      clockDigits[0] := h / 10;
      clockDigits[1] := h % 10;
      clockDigits[2] := m / 10;
      clockDigits[3] := m % 10;
      clockDigits[4] := s / 10;
      clockDigits[5] := s % 10;
    }

    /**
     * timeAt: draws the two hour digits at (xp, yp), given in 12.4 fixed
     * point, enlarged 6 x 8 and tinted with the getcol1 byte of col.
     */
    method TimeAt(xp: Int16, yp: Int16, col: int, p: Platform, bits: array<bv8>)
      requires CanDraw(bits)
      modifies bits
      ensures bits[..] == HourDrawn(old(bits[..]), clip, xp, yp, Getcol1(p, col), HourShape(0), HourShape(1))
    {
      ghost var s0 := bits[..];
      ghost var a, b := HourShape(0), HourShape(1);
      var xs: UInt8, ys: UInt8 := 6, 8;
      var gap: UInt16 := 2 * 64;
      var txp := Wrap16(xp - 6 * 64 - gap);
      var typ := Wrap16(yp - 3 * 128);
      var i := 0;
      while i < 2
        invariant 0 <= i <= 2 && txp == DigitXp(xp, i)
        invariant CanDraw(bits) && a == HourShape(0) && b == HourShape(1)
        invariant bits[..] == HourStage(s0, clip, xp, yp, Getcol1(p, col), a, b, i)
      {
        StageNext(s0, clip, xp, yp, Getcol1(p, col), a, b, i);
        DrawDigit(i, txp, typ, xs, ys, Getcol1(p, col), bits, xp, yp, if i == 0 then a else b);
        DigitNext(xp, i);
        txp := Wrap16(txp + gap * 2 + 6 * 64);
        i := i + 1;
      }
    }

    /** The drawSprite call of timeAt's loop: hour digit i at (txp >> 4) - 4, typ >> 4, scaled xs << 4 by ys << 4. */
    method DrawDigit(i: int, txp: Int16, typ: Int16, xs: UInt8, ys: UInt8, tint: bv8, bits: array<bv8>,
                     ghost xp: Int16, ghost yp: Int16, ghost sh: Shape)
      requires CanDraw(bits) && 0 <= i < 2 && xs == 6 && ys == 8 && sh == HourShape(i)
      requires txp == DigitXp(xp, i) && typ == Wrap16(yp - 3 * 128)
      modifies bits
      ensures CanDraw(bits) && HourShape(0) == old(HourShape(0)) && HourShape(1) == old(HourShape(1))
      ensures bits[..] == DigitDrawn(old(bits[..]), clip, xp, yp, tint, sh, i)
    {
      assert numberShapes[clockDigits[0]].raw != bits && numberShapes[clockDigits[1]].raw != bits;
      DrawSprite(clip, Shr4(txp) - 4, Shr4(typ), xs * 16, ys * 16, numberShapes[clockDigits[i]], tint, bits);
    }

    /**
     * One pass of directAccess's loop: ox and oy step on by (dx, dy), and
     * timeAt draws copy i + 1 of the trail over the first i.
     */
    method Pass(p: Platform, dx: Int16, dy: Int16, i: int, ox: Int16, oy: Int16, bits: array<bv8>,
                ghost s0: seq<bv8>, ghost a: Shape, ghost b: Shape) returns (ox': Int16, oy': Int16)
      requires CanDraw(bits) && 0 <= i < 56 && |s0| == FRAME_BYTES && a == HourShape(0) && b == HourShape(1)
      requires ox == Offs(dx, i) && oy == Offs(dy, i)
      requires bits[..] == Trail(s0, clip, p, dx, dy, a, b, i)
      modifies bits
      ensures ox' == Offs(dx, i + 1) && oy' == Offs(dy, i + 1)
      ensures CanDraw(bits) && a == HourShape(0) && b == HourShape(1)
      ensures bits[..] == Trail(s0, clip, p, dx, dy, a, b, i + 1)
    {
      var px: Int16, py: Int16 := XREZ * 8, YREZ * 8;
      OffsNext(dx, i);
      OffsNext(dy, i);
      ox' := Wrap16(ox as int + dx);
      oy' := Wrap16(oy as int + dy);
      TrailNext(s0, clip, p, dx, dy, a, b, i);
      // palette[i >> 3]
      TimeAt(Wrap16(px - ox'), Wrap16(py - oy'), SignedOf(PALETTE[i / 8]), p, bits);
    }

    /** The end of directAccess: the white digits, drawn by timeAt at the centre over the whole trail. */
    method DrawFace(xp: Int16, yp: Int16, col: int, p: Platform, bits: array<bv8>,
                    dx: Int16, dy: Int16, ghost s0: seq<bv8>, ghost a: Shape, ghost b: Shape)
      requires CanDraw(bits)
      requires |s0| == FRAME_BYTES && a == HourShape(0) && b == HourShape(1)
      requires xp == PX && yp == PY && col == SignedOf(0xffff_ffff)
      requires bits[..] == Trail(s0, clip, p, dx, dy, a, b, COPIES)
      modifies bits
      ensures bits[..] == Face(s0, clip, p, dx, dy, a, b)
    {
      TimeAt(xp, yp, col, p, bits);
    }

    /**
     * directAccess with the trigonometry's (tx, ty) given: nothing on a
     * black-and-white platform; on a colour one the step is normalised, the
     * clip window is opened to the top of the screen, 56 copies of the hour
     * digits step from 56 steps out back to the centre in the trail colours,
     * and the white digits are drawn at the centre.
     */
    method DirectAccess(p: Platform, tx: Int16, ty: Int16, bits: array<bv8>)
      requires CanDraw(bits)
      requires Mag(tx) >= 16 || Mag(ty) >= 16
      modifies this, bits
      ensures Ready() && OnScreen(clip)
      ensures p.Mono? ==> clip == old(clip) && bits[..] == old(bits[..])
      ensures p.Colour? ==> clip == old(clip).(ylo := 0)
      ensures p.Colour? ==> bits[..] == Face(old(bits[..]), clip, p, Direction(tx, ty).0, Direction(tx, ty).1, HourShape(0), HourShape(1))
      ensures clockDigits == old(clockDigits) && numberShapes == old(numberShapes)
      ensures lastMinute == old(lastMinute) && lastHour == old(lastHour)
      ensures currentSecond == old(currentSecond) && currentMinute == old(currentMinute) && currentHour == old(currentHour)
    {
      if p.Mono? {
        return;
      }
      var step := Direction(tx, ty);
      clip := clip.(ylo := 0);
      March(p, step.0, step.1, bits);
    }

    /**
     * The drawing of directAccess for the normalised step (dx, dy): 56
     * copies of the hour digits, copy i + 1 drawn 55 - i steps out from the
     * centre in palette colour i >> 3, then the white digits at the centre.
     */
    method March(p: Platform, dx: Int16, dy: Int16, bits: array<bv8>)
      requires CanDraw(bits)
      modifies bits
      ensures bits[..] == Face(old(bits[..]), clip, p, dx, dy, HourShape(0), HourShape(1))
    {
      var px: Int16, py: Int16 := XREZ * 8, YREZ * 8;
      var ox := Wrap16(-56 * dx);
      var oy := Wrap16(-56 * dy);
      OffsStart(dx);
      OffsStart(dy);
      ghost var s0 := bits[..];
      ghost var a, b := HourShape(0), HourShape(1);
      var i := 0;
      while i < COPIES
        invariant 0 <= i <= COPIES && ox == Offs(dx, i) && oy == Offs(dy, i)
        invariant CanDraw(bits) && a == HourShape(0) && b == HourShape(1)
        invariant bits[..] == Trail(s0, clip, p, dx, dy, a, b, i)
      {
        ox, oy := Pass(p, dx, dy, i, ox, oy, bits, s0, a, b);
        i := i + 1;
      }
      DrawFace(px, py, SignedOf(0xffff_ffff), p, bits, dx, dy, s0, a, b);
    }
  }

  /** makeCrap's sprite loop: the ten digit sprites, each decoded into a new raster. */
  method MakeShapes(p: Platform) returns (shapes: seq<Sprite>)
    ensures |shapes| == 10
    ensures forall d | 0 <= d < 10 :: fresh(shapes[d]) && fresh(shapes[d].raw) && Shaped(shapes[d], p, d)
  {
    shapes := [];
    var i := 0;
    while i < 10
      invariant 0 <= i <= 10 && |shapes| == i
      invariant forall d | 0 <= d < i :: fresh(shapes[d]) && fresh(shapes[d].raw) && Shaped(shapes[d], p, d)
    {
      var sp := MakeGlyph(p, i);
      ghost var before := shapes;
      shapes := shapes + [sp];
      forall d | 0 <= d < i + 1
        ensures fresh(shapes[d]) && fresh(shapes[d].raw) && Shaped(shapes[d], p, d)
      {
        if d < i {
          assert shapes[d] == before[d];
        }
      }
      i := i + 1;
    }
  }

  /** One digit sprite of makeCrap: a new sprite decoded from digit d's pixMap. */
  method MakeGlyph(p: Platform, d: int) returns (sp: Sprite)
    requires 0 <= d < 10
    ensures fresh(sp) && fresh(sp.raw) && Shaped(sp, p, d)
  {
    sp := new Sprite();
    GlyphReadable(d);
    DrawPixMap(Glyph(d), p, sp, 0);
    assert sp.raw[..] == sp.raw[..Written(Glyph(d))];
  }
}
