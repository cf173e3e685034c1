/**
 * drawSprite: a nearest-neighbour scaled blit of a sprite into the frame
 * buffer.  Scales are 4.4 fixed point (16 is 1.0); the source position
 * advances by the 0.11 step 0x8000 / scale per destination pixel and is
 * sampled with >> 11.  The blit is first rejected or clipped against the
 * clip window; a zero source byte is transparent, any other is ANDed with
 * the tint.
 */
module Blitter {
  import opened Screen
  import opened Sprites

  /** The clip window [xlo, xhi) x [ylo, yhi) the blitter draws into. */
  datatype Window = Window(xlo: Int16, xhi: Int16, ylo: Int16, yhi: Int16)

  /** A window that lies on the screen. */
  predicate OnScreen(win: Window)
  {
    0 <= win.xlo <= win.xhi <= XREZ && 0 <= win.ylo <= win.yhi <= YREZ
  }

  /** The destination extent of a sprite dimension d at 4.4 scale s, truncated to uint8. */
  function ScaledLength(d: UInt8, s: UInt16): (r: UInt8)
    ensures r <= d * s / 16
  {
    MulLe(0, d, s);
    ModBelow(d * s / 16, 0x100);
    (d * s / 16) % 0x100
  }

  /** The 0.11 source step per destination pixel at 4.4 scale s. */
  function Step(s: UInt16): (r: UInt16)
    requires s > 0
    ensures r * s <= 0x8000
  {
    DivModUnique(0x8000, s, 0x8000 / s, 0x8000 % s);
    0x8000 / s
  }

  /** One axis of a clipped blit: its start, its length and its starting source position (u or v). */
  datatype Span = Span(pos: Int16, len: UInt8, acc: UInt16)

  /**
   * The low-edge clip of one axis, in the source's int16/uint8/uint16
   * arithmetic: a start before `lo` moves to `lo`, the length shrinks by the
   * same amount and the source position advances by that many steps.
   */
  function ClipLow(pos: Int16, len: UInt8, lo: Int16, step: UInt16): (r: Span)
    requires pos + len > lo
    ensures r.pos == (if pos < lo then lo else pos)
    ensures r.len == pos + len - r.pos && r.acc == ((r.pos - pos) * step) % 0x1_0000
  {
    if pos < lo then
      var c := Wrap16(lo - pos);
      assert c == lo - pos;
      assert Wrap16(pos + c) == lo;
      DivModUnique(len - c, 0x100, 0, len - c);
      Span(Wrap16(pos + c), (len - c) % 0x100, (c * step) % 0x1_0000)
    else Span(pos, len, 0)
  }

  /** The high-edge clip of one axis: the length is cut back to end at `hi`. */
  function ClipHigh(pos: Int16, len: UInt8, hi: Int16): (r: UInt8)
    ensures pos <= hi ==> r == if pos + len > hi then hi - pos else len
  {
    if pos + len > hi then (len - Wrap16(pos + len - hi)) % 0x100 else len
  }

  /** A blit after clipping: the destination rectangle, the starting source positions and the steps. */
  datatype Blit = Blit(x: Int16, y: Int16, pixels: UInt8, lines: UInt8, u0: UInt16, v0: UInt16, ui: UInt16, vi: UInt16)

  /** A window whose edges are in order. */
  predicate Ordered(win: Window)
  {
    win.xlo <= win.xhi && win.ylo <= win.yhi
  }

  /**
   * g is a part of the w x h sprite drawn at (x, y) with scales sx, sy: its
   * rectangle lies inside the scaled one, it steps through the source by
   * Step(sx), Step(sy), and it starts as many steps in as it has pixels
   * clipped away, in uint16 arithmetic.
   */
  predicate Clipped(g: Blit, x: int, y: int, sx: UInt16, sy: UInt16, w: UInt8, h: UInt8)
    requires sx > 0 && sy > 0
  {
    x <= g.x && g.x + g.pixels <= x + ScaledLength(w, sx) &&
    y <= g.y && g.y + g.lines <= y + ScaledLength(h, sy) &&
    g.ui == Step(sx) && g.vi == Step(sy) &&
    g.u0 == ((g.x - x) * g.ui) % 0x1_0000 && g.v0 == ((g.y - y) * g.vi) % 0x1_0000
  }

  /**
   * drawSprite's rejection and clipping of a w x h sprite drawn at (x, y)
   * with scales sx, sy.  None: the blit is rejected and nothing is drawn.
   */
  function Clip(win: Window, x: Int16, y: Int16, sx: UInt16, sy: UInt16, w: UInt8, h: UInt8): (r: Option<Blit>)
    requires sx > 0 && sy > 0 && Ordered(win)
    // rejected exactly when the scaled rectangle lies wholly outside the window
    ensures r.None? <==>
      y >= win.yhi || y + ScaledLength(h, sy) <= win.ylo || x >= win.xhi || x + ScaledLength(w, sx) <= win.xlo
    // otherwise the rectangle is cut to its intersection with the window ...
    ensures r.Some? ==>
      var g := r.value;
      g.x == Max(x, win.xlo) && g.x + g.pixels == Min(x + ScaledLength(w, sx), win.xhi) &&
      g.y == Max(y, win.ylo) && g.y + g.lines == Min(y + ScaledLength(h, sy), win.yhi) &&
      Clipped(g, x, y, sx, sy, w, h)
    // ... and every source byte it samples lies inside the sprite
    ensures r.Some? ==> SamplesInside(r.value, w, w * h)
  {
    var lines, pixels := ScaledLength(h, sy), ScaledLength(w, sx);
    var ui, vi := Step(sx), Step(sy);
    if y >= win.yhi || y + lines <= win.ylo || x >= win.xhi || x + pixels <= win.xlo then None
    else
      var ys := ClipLow(y, lines, win.ylo, vi);
      var xs := ClipLow(x, pixels, win.xlo, ui);
      var g := Blit(xs.pos, ys.pos, ClipHigh(xs.pos, xs.len, win.xhi), ClipHigh(ys.pos, ys.len, win.yhi), xs.acc, ys.acc, ui, vi);
      ClipSamples(g, x, y, sx, sy, w, h);
      Some(g)
  }

  /** A destination extent below ScaledLength(d, s) steps less than d whole source pixels (0x800 each). */
  lemma StepWithin(d: UInt8, s: UInt16, t: int)
    requires s > 0 && 0 <= t < ScaledLength(d, s)
    ensures 0 <= t * Step(s) < 0x800 * d
  {
    var q := Step(s);
    MulLe(0, t, q);
    DivModUnique(d * s, 16, d * s / 16, d * s % 16);
    assert 16 * t + 1 <= d * s;
    MulLe(q * s, 0x8000, 16 * t);
    MulLe(16 * t + 1, d * s, 0x8000);
    assert (t * q) * (16 * s) == (q * s) * (16 * t);
    assert (0x800 * d) * (16 * s) == (d * s) * 0x8000;
    MulCancel(t * q, 0x800 * d, 16 * s);
  }

  /**
   * On an axis clipped by c pixels, the uint16 source position k pixels
   * further on still names one of the sprite's d source pixels: the
   * wrap-around of the uint16 only takes it back towards 0.
   */
  lemma AxisWithin(acc0: UInt16, step: UInt16, c: int, k: int, d: UInt8, s: UInt16)
    requires s > 0 && step == Step(s) && 0 <= c && 0 <= k && c + k < ScaledLength(d, s)
    requires acc0 == (c * step) % 0x1_0000
    ensures (acc0 + k * step) % 0x1_0000 / 0x800 < d
  {
    SumMod(c, k, step);
    StepWithin(d, s, c + k);
    AccBelow((c + k) * step, d);
  }

  /** A position below d whole source pixels still is after its reduction to uint16. */
  lemma AccBelow(a: int, d: int)
    requires 0 <= a < 0x800 * d
    ensures a % 0x1_0000 / 0x800 < d
  {
    ModBelow(a, 0x1_0000);
    DivBelow(a % 0x1_0000, 0x800, d);
  }

  /** c steps, reduced to uint16, and k more steps, reduced, are c + k steps, reduced. */
  lemma SumMod(c: int, k: int, step: int)
    ensures ((c * step) % 0x1_0000 + k * step) % 0x1_0000 == ((c + k) * step) % 0x1_0000
  {
    ModAdd(c * step, k * step, 0x1_0000);
    assert c * step + k * step == (c + k) * step;
  }

  /** Reducing a non-negative number never makes it larger. */
  lemma ModBelow(a: int, m: int)
    requires 0 <= a && 0 < m
    ensures a % m <= a
  {
    DivModUnique(a, m, a / m, a % m);
    MulLe(0, a / m, m);
  }

  /** Sample j, i of a clipped blit of a w x h sprite is one of its w * h bytes. */
  lemma SampleWithin(g: Blit, x: int, y: int, sx: UInt16, sy: UInt16, w: UInt8, h: UInt8, j: int, i: int)
    requires sx > 0 && sy > 0 && Clipped(g, x, y, sx, sy, w, h)
    requires 0 <= j < g.lines && 0 <= i < g.pixels
    ensures Sample(g, w, j, i) < w * h
  {
    AxisWithin(g.v0, g.vi, g.y - y, j, h, sy);
    AxisWithin(g.u0, g.ui, g.x - x, i, w, sx);
    DivBelow(V(g, j), 0x800, 32);
    CellWithin(V(g, j) / 0x800, U(g, i) / 0x800, w, h);
  }

  /** Cell c of row r, with the uint16 row offset r * w, lies inside h rows of w cells (for r < 32 the offset does not wrap). */
  lemma CellWithin(r: int, c: int, w: UInt8, h: UInt8)
    requires 0 <= r < h && r < 32 && 0 <= c < w
    ensures (r * w) % 0x1_0000 == r * w
    ensures (r * w) % 0x1_0000 + c < w * h
  {
    MulLe(r, 31, w);
    DivModUnique(r * w, 0x1_0000, 0, r * w);
    MulLe(r + 1, h, w);
    MulSucc(r, w);
  }

  /** Every sample of a clipped blit of a w x h sprite is one of its w * h bytes. */
  lemma ClipSamples(g: Blit, x: int, y: int, sx: UInt16, sy: UInt16, w: UInt8, h: UInt8)
    requires sx > 0 && sy > 0 && Clipped(g, x, y, sx, sy, w, h)
    ensures SamplesInside(g, w, w * h)
  {
    forall j, i | 0 <= j < g.lines && 0 <= i < g.pixels
      ensures Sample(g, w, j, i) < w * h
    {
      SampleWithin(g, x, y, sx, sy, w, h, j, i);
    }
  }

  function Max(a: int, b: int): int { if a < b then b else a }
  function Min(a: int, b: int): int { if a < b then a else b }

  /** The uint16 source column position u for destination pixel i of a row. */
  function U(g: Blit, i: int): UInt16
  {
    (g.u0 + i * g.ui) % 0x1_0000
  }

  /** The uint16 source row position v for destination line j. */
  function V(g: Blit, j: int): UInt16
  {
    (g.v0 + j * g.vi) % 0x1_0000
  }

  /** The index into a sprite of width sw that destination line j, pixel i samples: uint16 lp plus u >> 11. */
  function Sample(g: Blit, sw: UInt8, j: int, i: int): nat
  {
    ((V(g, j) / 0x800) * sw) % 0x1_0000 + U(g, i) / 0x800
  }

  /** Every sample of the clipped rectangle lies below n. */
  predicate SamplesInside(g: Blit, sw: UInt8, n: int)
  {
    forall j, i | 0 <= j < g.lines && 0 <= i < g.pixels :: Sample(g, sw, j, i) < n
  }

  /** A drawn pixel: a zero source byte leaves the old byte, any other is ANDed with the tint. */
  function BlitPixel(under: bv8, ch: bv8, tint: bv8): bv8
  {
    if ch > 0 then ch & tint else under
  }

  /** Is cell (cx, cy) in lines r0 .. r0 + nr - 1, pixels 0 .. nc - 1 of the clipped rectangle? */
  predicate InArea(g: Blit, r0: int, nr: int, nc: int, cx: int, cy: int)
  {
    g.x <= cx < g.x + nc && g.y + r0 <= cy < g.y + r0 + nr
  }

  /**
   * The frame buffer s with lines r0 .. r0 + nr - 1, pixels 0 .. nc - 1 of
   * the clipped rectangle blitted from the sprite raster src of width sw.
   */
  function Area(s: seq<bv8>, g: Blit, src: seq<bv8>, sw: UInt8, tint: bv8, r0: int, nr: int, nc: int): (r: seq<bv8>)
    requires |s| == FRAME_BYTES && SamplesInside(g, sw, |src|)
    requires 0 <= r0 && r0 + nr <= g.lines && nc <= g.pixels
    ensures |r| == FRAME_BYTES
  {
    seq(FRAME_BYTES, k requires 0 <= k < FRAME_BYTES =>
      if InArea(g, r0, nr, nc, k % XREZ, k / XREZ)
      then BlitPixel(s[k], src[Sample(g, sw, k / XREZ - g.y, k % XREZ - g.x)], tint)
      else s[k])
  }

  /** The area seen pixel by pixel: inside it the blitted source byte, elsewhere the old byte. */
  lemma AreaAt(s: seq<bv8>, g: Blit, src: seq<bv8>, sw: UInt8, tint: bv8, r0: int, nr: int, nc: int, cx: int, cy: int)
    requires |s| == FRAME_BYTES && SamplesInside(g, sw, |src|)
    requires 0 <= r0 && r0 + nr <= g.lines && nc <= g.pixels
    requires 0 <= cx < XREZ && 0 <= cy < YREZ
    ensures Area(s, g, src, sw, tint, r0, nr, nc)[Offset(cx, cy)] ==
            if InArea(g, r0, nr, nc, cx, cy) then BlitPixel(s[Offset(cx, cy)], src[Sample(g, sw, cy - g.y, cx - g.x)], tint)
            else s[Offset(cx, cy)]
  {
    CellOf(cx, cy);
  }

  /**
   * Blitting pixel i of line j extends a partly blitted line by one pixel;
   * the byte it lands on still holds its value from before the line.
   */
  lemma BlitNext(t: seq<bv8>, done: seq<bv8>, g: Blit, src: seq<bv8>, sw: UInt8, tint: bv8, j: int, i: int)
    requires |done| == FRAME_BYTES && SamplesInside(g, sw, |src|)
    requires 0 <= j < g.lines && 0 <= i < g.pixels
    requires 0 <= g.x && g.x + g.pixels <= XREZ && 0 <= g.y && g.y + g.lines <= YREZ
    requires t == Area(done, g, src, sw, tint, j, 1, i)
    ensures t[Offset(g.x + i, g.y + j)] == done[Offset(g.x + i, g.y + j)]
    ensures t[Offset(g.x + i, g.y + j) := BlitPixel(done[Offset(g.x + i, g.y + j)], src[Sample(g, sw, j, i)], tint)]
            == Area(done, g, src, sw, tint, j, 1, i + 1)
  {
    CellOf(g.x + i, g.y + j);
  }

  /** A completely blitted line extends an area of j lines to j + 1 lines. */
  lemma BlitRowDone(s: seq<bv8>, g: Blit, src: seq<bv8>, sw: UInt8, tint: bv8, j: int)
    requires |s| == FRAME_BYTES && SamplesInside(g, sw, |src|) && 0 <= j < g.lines
    ensures Area(Area(s, g, src, sw, tint, 0, j, g.pixels), g, src, sw, tint, j, 1, g.pixels)
            == Area(s, g, src, sw, tint, 0, j + 1, g.pixels)
  {
  }

  /** One more step of a uint16 accumulator: a0 + (i + 1) * step, reduced, is the reduced a0 + i * step plus step, reduced. */
  lemma AccNext(a0: int, step: int, i: int)
    ensures (a0 + (i + 1) * step) % 0x1_0000 == ((a0 + i * step) % 0x1_0000 + step) % 0x1_0000
  {
    ModAdd(a0 + i * step, step, 0x1_0000);
    MulSucc(i, step);
  }

  /** Is pixel (cx, cy) both inside the window and inside the scaled rectangle of a w x h sprite drawn at (x, y)? */
  predicate Covered(win: Window, x: int, y: int, sx: UInt16, sy: UInt16, w: UInt8, h: UInt8, cx: int, cy: int)
  {
    win.xlo <= cx < win.xhi && win.ylo <= cy < win.yhi &&
    x <= cx < x + ScaledLength(w, sx) && y <= cy < y + ScaledLength(h, sy)
  }

  /**
   * The frame buffer s after drawSprite: unchanged when the blit is
   * rejected, otherwise the whole clipped rectangle blitted.
   */
  function Drawn(s: seq<bv8>, win: Window, x: Int16, y: Int16, sx: UInt16, sy: UInt16, w: UInt8, h: UInt8,
                 src: seq<bv8>, tint: bv8): (r: seq<bv8>)
    requires |s| == FRAME_BYTES && sx > 0 && sy > 0 && Ordered(win) && |src| >= w * h
    ensures |r| == FRAME_BYTES
  {
    match Clip(win, x, y, sx, sy, w, h)
    case None => s
    case Some(g) => Area(s, g, src, w, tint, 0, g.lines, g.pixels)
  }

  /**
   * drawSprite pixel by pixel: it changes only pixels inside both the clip
   * window and the scaled sprite rectangle; each of those gets the sampled
   * source byte ANDed with the tint, unless that byte is zero (transparent).
   */
  lemma DrawnAt(s: seq<bv8>, win: Window, x: Int16, y: Int16, sx: UInt16, sy: UInt16, w: UInt8, h: UInt8,
                src: seq<bv8>, tint: bv8, cx: int, cy: int)
    requires |s| == FRAME_BYTES && sx > 0 && sy > 0 && Ordered(win) && |src| >= w * h
    requires 0 <= cx < XREZ && 0 <= cy < YREZ
    ensures Drawn(s, win, x, y, sx, sy, w, h, src, tint)[Offset(cx, cy)] ==
      if Covered(win, x, y, sx, sy, w, h, cx, cy) then
        var g := Clip(win, x, y, sx, sy, w, h).value;
        var ch := src[Sample(g, w, cy - g.y, cx - g.x)];
        if ch == 0 then s[Offset(cx, cy)] else ch & tint
      else s[Offset(cx, cy)]
  {
    ClipCovers(win, x, y, sx, sy, w, h, cx, cy);
    match Clip(win, x, y, sx, sy, w, h)
    case None =>
    case Some(g) =>
      AreaAt(s, g, src, w, tint, 0, g.lines, g.pixels, cx, cy);
  }

  /** The pixels a blit covers are those inside both the window and the scaled sprite rectangle. */
  lemma ClipCovers(win: Window, x: Int16, y: Int16, sx: UInt16, sy: UInt16, w: UInt8, h: UInt8, cx: int, cy: int)
    requires sx > 0 && sy > 0 && Ordered(win)
    ensures Clip(win, x, y, sx, sy, w, h).None? ==> !Covered(win, x, y, sx, sy, w, h, cx, cy)
    ensures Clip(win, x, y, sx, sy, w, h).Some? ==>
      var g := Clip(win, x, y, sx, sy, w, h).value;
      Covered(win, x, y, sx, sy, w, h, cx, cy) <==> InArea(g, 0, g.lines, g.pixels, cx, cy)
  {
  }

  /** Byte (i, j) of a w x h sprite raster stored line by line. */
  function Texel(src: seq<bv8>, w: UInt8, h: UInt8, i: int, j: int): bv8
    requires |src| >= w * h && 0 <= i < w && 0 <= j < h
  {
    NextRow(j, h, w, |src|);
    src[j * w + i]
  }

  /** At step 0x800 from 0 the uint16 source position of pixel k < 32 names source pixel k. */
  lemma UnitStep(k: int)
    requires 0 <= k < 32
    ensures (0 + k * 0x800) % 0x1_0000 / 0x800 == k
  {
    DivModUnique(k * 0x800, 0x1_0000, 0, k * 0x800);
    DivModUnique(k * 0x800, 0x800, k, 0);
  }

  /**
   * At scale 16 (1.0) a sprite of at most 32 x 32 pixels drawn wholly inside
   * the window is copied pixel for pixel: byte (i, j) of the sprite lands on
   * (x + i, y + j).
   */
  lemma DrawnIdentity(s: seq<bv8>, win: Window, x: Int16, y: Int16, w: UInt8, h: UInt8, src: seq<bv8>, tint: bv8, i: int, j: int)
    requires |s| == FRAME_BYTES && OnScreen(win) && |src| >= w * h
    requires w <= 32 && h <= 32
    requires win.xlo <= x && x + w <= win.xhi && win.ylo <= y && y + h <= win.yhi
    requires 0 <= i < w && 0 <= j < h
    ensures Drawn(s, win, x, y, 16, 16, w, h, src, tint)[Offset(x + i, y + j)] ==
            var ch := Texel(src, w, h, i, j);
            if ch == 0 then s[Offset(x + i, y + j)] else ch & tint
  {
    UnitClip(win, x, y, w, h);
    var g := Blit(x, y, w, h, 0, 0, 0x800, 0x800);
    assert Covered(win, x, y, 16, 16, w, h, x + i, y + j);
    UnitSample(g, w, h, i, j);
    DrawnSampled(s, win, x, y, 16, 16, w, h, src, tint, x + i, y + j, j * w + i);
  }

  /** With no clipping and whole-pixel steps, sample (j, i) is byte j * w + i of a w x h sprite, w and h at most 32. */
  lemma UnitSample(g: Blit, w: UInt8, h: UInt8, i: int, j: int)
    requires g.u0 == 0 && g.v0 == 0 && g.ui == 0x800 && g.vi == 0x800
    requires w <= 32 && h <= 32 && 0 <= i < w && 0 <= j < h
    ensures Sample(g, w, j, i) == j * w + i < w * h
  {
    UnitStep(i);
    UnitStep(j);
    assert U(g, i) / 0x800 == i && V(g, j) / 0x800 == j;
    CellWithin(j, i, w, h);
  }

  /** DrawnAt for a covered pixel whose sample is known to be byte k of the source. */
  lemma DrawnSampled(s: seq<bv8>, win: Window, x: Int16, y: Int16, sx: UInt16, sy: UInt16, w: UInt8, h: UInt8,
                     src: seq<bv8>, tint: bv8, cx: int, cy: int, k: int)
    requires |s| == FRAME_BYTES && sx > 0 && sy > 0 && Ordered(win) && |src| >= w * h
    requires 0 <= cx < XREZ && 0 <= cy < YREZ && Covered(win, x, y, sx, sy, w, h, cx, cy)
    requires var g := Clip(win, x, y, sx, sy, w, h).value; Sample(g, w, cy - g.y, cx - g.x) == k
    requires 0 <= k < |src|
    ensures Drawn(s, win, x, y, sx, sy, w, h, src, tint)[Offset(cx, cy)] ==
            if src[k] == 0 then s[Offset(cx, cy)] else src[k] & tint
  {
    DrawnAt(s, win, x, y, sx, sy, w, h, src, tint, cx, cy);
  }

  /** At scale 16 a sprite inside the window is not clipped: it is blitted from source position 0 by whole source pixels. */
  lemma UnitClip(win: Window, x: Int16, y: Int16, w: UInt8, h: UInt8)
    requires Ordered(win) && 0 < w && 0 < h
    requires win.xlo <= x && x + w <= win.xhi && win.ylo <= y && y + h <= win.yhi
    ensures ScaledLength(w, 16) == w && ScaledLength(h, 16) == h
    ensures Clip(win, x, y, 16, 16, w, h) == Some(Blit(x, y, w, h, 0, 0, 0x800, 0x800))
  {
    DivModUnique(w * 16, 16, w, 0);
    DivModUnique(h * 16, 16, h, 0);
    assert ScaledLength(w, 16) == w && ScaledLength(h, 16) == h;
  }

  /**
   * The uint16 source position holds only 32 whole source pixels: at scale
   * 16 the 33rd destination pixel of a row samples source column 0 again.
   */
  lemma ColumnWrap(g: Blit)
    requires g.u0 == 0 && g.ui == 0x800 && g.v0 == 0 && g.pixels > 32
    ensures Sample(g, 40, 0, 32) == Sample(g, 40, 0, 0) == 0
  {
  }

  /** drawSprite's inner loop: line j of the clipped rectangle, pixel by pixel from pp0. */
  method BlitRow(bits: array<bv8>, src: array<bv8>, g: Blit, sw: UInt8, tint: bv8, j: int, v: UInt16, pp0: UInt16)
    returns (pp: UInt16)
    requires bits.Length == FRAME_BYTES && bits != src && SamplesInside(g, sw, src.Length)
    requires 0 <= j < g.lines && 0 <= g.x && g.x + g.pixels <= XREZ && 0 <= g.y && g.y + g.lines <= YREZ
    requires v == V(g, j) && pp0 == Offset(g.x, g.y + j)
    modifies bits
    ensures pp == pp0 + g.pixels
    ensures bits[..] == Area(old(bits[..]), g, src[..], sw, tint, j, 1, g.pixels)
  {
    ghost var done := bits[..];
    var u := g.u0;
    var lp: UInt16 := (v / 0x800 * sw) % 0x1_0000;
    pp := pp0;
    var i := 0;
    while i < g.pixels
      invariant 0 <= i <= g.pixels
      invariant u == U(g, i) && pp == pp0 + i
      invariant bits[..] == Area(done, g, src[..], sw, tint, j, 1, i)
    {
      assert lp + u / 0x800 == Sample(g, sw, j, i);
      BlitNext(bits[..], done, g, src[..], sw, tint, j, i);
      Plot(bits, pp, src[lp + u / 0x800], tint);
      UNext(g, i);
      u := (u + g.ui) % 0x1_0000;
      pp := pp + 1;
      i := i + 1;
    }
  }

  /** One pixel of the inner loop: a non-zero source byte ch is ANDed with the tint and stored at pp. */
  method Plot(bits: array<bv8>, pp: int, ch: bv8, tint: bv8)
    requires 0 <= pp < bits.Length
    modifies bits
    ensures bits[..] == old(bits[..])[pp := BlitPixel(old(bits[pp]), ch, tint)]
  {
    if ch > 0 {
      bits[pp] := ch & tint;
    }
  }

  /** u after one more pixel: the uint16 sum of u and the step. */
  lemma UNext(g: Blit, i: int)
    ensures U(g, i + 1) == (U(g, i) + g.ui) % 0x1_0000
  {
    AccNext(g.u0, g.ui, i);
  }

  /** v after one more line: the uint16 sum of v and the step. */
  lemma VNext(g: Blit, j: int)
    ensures V(g, j + 1) == (V(g, j) + g.vi) % 0x1_0000
  {
    AccNext(g.v0, g.vi, j);
  }

  /**
   * drawSprite's set-up: the scaled extent and the steps, the trivial
   * rejection, then the low and high clips of y and of x, in the source's
   * int16, uint8 and uint16 arithmetic.
   */
  method ClipSprite(win: Window, x: Int16, y: Int16, sx: UInt16, sy: UInt16, w: UInt8, h: UInt8) returns (r: Option<Blit>)
    requires sx > 0 && sy > 0 && Ordered(win)
    ensures r == Clip(win, x, y, sx, sy, w, h)
  {
    var lines := (h * sy / 16) % 0x100;
    var pixels := (w * sx / 16) % 0x100;
    var ui: UInt16, vi: UInt16 := 0x8000 / sx, 0x8000 / sy;
    if y >= win.yhi || y + lines <= win.ylo || x >= win.xhi || x + pixels <= win.xlo {
      return None;
    }
    assert lines == ScaledLength(h, sy) && pixels == ScaledLength(w, sx) && ui == Step(sx) && vi == Step(sy);
    var cy, v;
    cy, lines, v := ClipAxis(y, lines, win.ylo, win.yhi, vi);
    var cx, u;
    cx, pixels, u := ClipAxis(x, pixels, win.xlo, win.xhi, ui);
    r := Some(Blit(cx, cy, pixels, lines, u, v, ui, vi));
  }

  /**
   * The clipping of one axis in drawSprite, the same code for y and for x:
   * a start before `lo` moves to `lo`, losing as many pixels from the length
   * and advancing the source position by as many steps; then a length that
   * runs past `hi` is cut back to end there.
   */
  method ClipAxis(pos: Int16, len: UInt8, lo: Int16, hi: Int16, step: UInt16) returns (start: Int16, n: UInt8, acc: UInt16)
    requires pos + len > lo
    ensures var c := ClipLow(pos, len, lo, step); start == c.pos && acc == c.acc && n == ClipHigh(c.pos, c.len, hi)
  {
    start, n, acc := pos, len, 0;
    if start < lo {
      var c := Wrap16(lo - start);
      n := (n - c) % 0x100;
      start := Wrap16(start + c);
      acc := (acc + c * step) % 0x1_0000;
    }
    if start + n > hi {
      var c := Wrap16(start + n - hi);
      n := (n - c) % 0x100;
    }
  }

  /**
   * drawSprite's main loop: every line of the clipped rectangle, the frame
   * buffer offset pp advancing by the stride XREZ - pixels after each line.
   */
  method BlitRows(bits: array<bv8>, src: array<bv8>, g: Blit, sw: UInt8, tint: bv8)
    requires bits.Length == FRAME_BYTES && bits != src && SamplesInside(g, sw, src.Length)
    requires 0 <= g.x && g.x + g.pixels <= XREZ && 0 <= g.y && g.y + g.lines <= YREZ
    modifies bits
    ensures bits[..] == Area(old(bits[..]), g, src[..], sw, tint, 0, g.lines, g.pixels)
  {
    ghost var s0 := bits[..];
    var v := g.v0;
    var stride: UInt8 := (XREZ - g.pixels) % 0x100;
    var pp: UInt16 := (g.y * XREZ + g.x) % 0x1_0000;
    var j := 0;
    while j < g.lines
      invariant 0 <= j <= g.lines
      invariant v == V(g, j) && pp == Offset(g.x, g.y + j)
      invariant bits[..] == Area(s0, g, src[..], sw, tint, 0, j, g.pixels)
    {
      pp := BlitRow(bits, src, g, sw, tint, j, v, pp);
      BlitRowDone(s0, g, src[..], sw, tint, j);
      VNext(g, j);
      v := (v + g.vi) % 0x1_0000;
      pp := pp + stride;
      j := j + 1;
    }
  }

  /**
   * drawSprite: rejects or clips the scaled sprite against the window, then
   * blits the clipped rectangle line by line into the frame buffer.
   */
  method DrawSprite(win: Window, x: Int16, y: Int16, sx: UInt16, sy: UInt16, sp: Sprite, tint: bv8, bits: array<bv8>)
    requires bits.Length == FRAME_BYTES && OnScreen(win) && sx > 0 && sy > 0
    requires sp.raw.Length >= sp.width * sp.height && bits != sp.raw
    modifies bits
    ensures bits[..] == Drawn(old(bits[..]), win, x, y, sx, sy, sp.width, sp.height, sp.raw[..], tint)
  {
    var clipped := ClipSprite(win, x, y, sx, sy, sp.width, sp.height);
    if clipped.Some? {
      BlitRows(bits, sp.raw, clipped.value, sp.width, tint);
    }
  }
}
