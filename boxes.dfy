/**
 * Box fills: the unchecked aligned fills `box`, `box2` and `box4`, which store
 * one, two or four bytes at a time into a rectangle of the frame buffer, and
 * `box_c`, which clips a signed rectangle to the screen before dispatching to
 * one of them.
 */
module Boxes {
  import opened Screen
  import opened Colours

  /** Is pixel (cx, cy) inside the rectangle with corner (x, y), width w and height h? */
  predicate InRect(cx: int, cy: int, x: int, y: int, w: int, h: int)
  {
    x <= cx < x + w && y <= cy < y + h
  }

  /**
   * The frame buffer `s` after the repeating byte pattern `lanes` has been
   * stored into the rectangle (x, y, w, h), its first byte on column x;
   * every byte outside the rectangle keeps its value.
   */
  function FillRect(s: seq<bv8>, lanes: seq<bv8>, x: int, y: int, w: int, h: int): (r: seq<bv8>)
    requires |s| == FRAME_BYTES && |lanes| > 0
    ensures |r| == FRAME_BYTES
  {
    seq(FRAME_BYTES, p requires 0 <= p < FRAME_BYTES =>
      if InRect(p % XREZ, p / XREZ, x, y, w, h) then lanes[(p % XREZ - x) % |lanes|] else s[p])
  }

  /** The fill seen pixel by pixel: inside the rectangle the pattern, elsewhere the old byte. */
  lemma FillRectAt(s: seq<bv8>, lanes: seq<bv8>, x: int, y: int, w: int, h: int, cx: int, cy: int)
    requires |s| == FRAME_BYTES && |lanes| > 0
    requires 0 <= cx < XREZ && 0 <= cy < YREZ
    ensures FillRect(s, lanes, x, y, w, h)[Offset(cx, cy)] ==
            if InRect(cx, cy, x, y, w, h) then lanes[(cx - x) % |lanes|] else s[Offset(cx, cy)]
  {
    CellOf(cx, cy);
  }

  /** A pattern whose bytes are all `c` fills like the one-byte pattern [c]. */
  lemma FillRectUniform(s: seq<bv8>, lanes: seq<bv8>, c: bv8, x: int, y: int, w: int, h: int)
    requires |s| == FRAME_BYTES && |lanes| > 0
    requires forall i | 0 <= i < |lanes| :: lanes[i] == c
    ensures FillRect(s, lanes, x, y, w, h) == FillRect(s, [c], x, y, w, h)
  {
  }

  /** Storing the next pattern byte extends a partly filled row by one pixel. */
  lemma StoreNext(t: seq<bv8>, done: seq<bv8>, lanes: seq<bv8>, x: int, row: int, k: nat)
    requires |done| == FRAME_BYTES && |lanes| > 0 && 0 <= x && x + k < XREZ && 0 <= row < YREZ
    requires t == FillRect(done, lanes, x, row, k, 1)
    ensures t[Offset(x + k, row) := lanes[k % |lanes|]] == FillRect(done, lanes, x, row, k + 1, 1)
  {
    CellOf(x + k, row);
  }

  /** Storing a whole 16-bit word of the pattern extends a partly filled row by two pixels. */
  lemma StorePair(t: seq<bv8>, done: seq<bv8>, lanes: seq<bv8>, x: int, row: int, i: nat)
    requires |done| == FRAME_BYTES && |lanes| == 2 && 0 <= x && x + 2 * i + 2 <= XREZ && 0 <= row < YREZ
    requires t == FillRect(done, lanes, x, row, 2 * i, 1)
    ensures t[Offset(x + 2 * i, row) := lanes[0]][Offset(x + 2 * i, row) + 1 := lanes[1]]
            == FillRect(done, lanes, x, row, 2 * i + 2, 1)
  {
    var k := 2 * i;
    DivModUnique(k, 2, i, 0);
    StoreNext(t, done, lanes, x, row, k);
    DivModUnique(k + 1, 2, i, 1);
    StoreNext(t[Offset(x + k, row) := lanes[0]], done, lanes, x, row, k + 1);
  }

  /** Storing a whole 32-bit word of the pattern extends a partly filled row by |lanes| pixels. */
  lemma StoreWord(t: seq<bv8>, done: seq<bv8>, lanes: seq<bv8>, x: int, row: int, i: nat)
    requires |done| == FRAME_BYTES && |lanes| == 4 && 0 <= x && x + 4 * i + 4 <= XREZ && 0 <= row < YREZ
    requires t == FillRect(done, lanes, x, row, 4 * i, 1)
    ensures t[Offset(x + 4 * i, row) := lanes[0]][Offset(x + 4 * i, row) + 1 := lanes[1]]
             [Offset(x + 4 * i, row) + 2 := lanes[2]][Offset(x + 4 * i, row) + 3 := lanes[3]]
            == FillRect(done, lanes, x, row, 4 * i + 4, 1)
  {
    var k := 4 * i;
    DivModUnique(k, 4, i, 0);
    StoreNext(t, done, lanes, x, row, k);
    DivModUnique(k + 1, 4, i, 1);
    StoreNext(t[Offset(x + k, row) := lanes[0]], done, lanes, x, row, k + 1);
    DivModUnique(k + 2, 4, i, 2);
    StoreNext(t[Offset(x + k, row) := lanes[0]][Offset(x + k, row) + 1 := lanes[1]], done, lanes, x, row, k + 2);
    DivModUnique(k + 3, 4, i, 3);
    StoreNext(t[Offset(x + k, row) := lanes[0]][Offset(x + k, row) + 1 := lanes[1]][Offset(x + k, row) + 2 := lanes[2]],
              done, lanes, x, row, k + 3);
  }

  /** A completely filled row extends a rectangle of j rows to j + 1 rows. */
  lemma RowDone(s: seq<bv8>, lanes: seq<bv8>, x: int, y: int, w: int, j: nat)
    requires |s| == FRAME_BYTES && |lanes| > 0
    ensures FillRect(FillRect(s, lanes, x, y, w, j), lanes, x, y + j, w, 1) == FillRect(s, lanes, x, y, w, j + 1)
  {
  }

  /** box: stores `col` into every pixel of the rectangle, one byte at a time. */
  method Box(bits: array<bv8>, col: bv8, x: UInt8, y: UInt8, w: UInt8, h: UInt8)
    requires bits.Length == FRAME_BYTES
    requires x + w <= XREZ && y + h <= YREZ
    modifies bits
    ensures bits[..] == FillRect(old(bits[..]), [col], x, y, w, h)
  {
    ghost var s0 := bits[..];
    var lp := y * XREZ + x;
    var stride := XREZ - w;
    var j := 0;
    while j < h
      invariant 0 <= j <= h
      invariant lp == Offset(x, y + j)
      invariant bits[..] == FillRect(s0, [col], x, y, w, j)
    {
      lp := BoxRow(bits, col, x, y + j, w, lp);
      RowDone(s0, [col], x, y, w, j);
      lp := lp + stride;
      j := j + 1;
    }
  }

  /** One row of box: w single-byte stores from index lp on. */
  method BoxRow(bits: array<bv8>, col: bv8, x: int, row: int, w: int, lp: int) returns (lpOut: int)
    requires bits.Length == FRAME_BYTES
    requires 0 <= x && 0 <= w && x + w <= XREZ && 0 <= row < YREZ && lp == Offset(x, row)
    modifies bits
    ensures lpOut == Offset(x + w, row)
    ensures bits[..] == FillRect(old(bits[..]), [col], x, row, w, 1)
  {
    ghost var done := bits[..];
    lpOut := lp;
    var i := 0;
    while i < w
      invariant 0 <= i <= w
      invariant lpOut == Offset(x + i, row)
      invariant bits[..] == FillRect(done, [col], x, row, i, 1)
    {
      StoreNext(bits[..], done, [col], x, row, i);
      bits[lpOut] := col;
      lpOut := lpOut + 1;
      i := i + 1;
    }
  }

  /**
   * box2: halves x and w and stores the 16-bit value `col` into w/2 words per
   * row, so it fills the columns 2*(x/2) .. 2*(x/2)+2*(w/2)-1.
   */
  method Box2(bits: array<bv8>, col: bv16, x: UInt8, y: UInt8, w: UInt8, h: UInt8)
    requires bits.Length == FRAME_BYTES
    requires 2 * (x / 2) + 2 * (w / 2) <= XREZ && y + h <= YREZ
    modifies bits
    ensures bits[..] == FillRect(old(bits[..]), Lanes16(col), 2 * (x / 2), y, 2 * (w / 2), h)
  {
    ghost var s0 := bits[..];
    var lanes := Lanes16(col);
    var units := w / 2;
    var ux := x / 2;
    var lp := y * (XREZ / 2) + ux;  // index of a 16-bit word
    var stride := XREZ / 2 - units;
    var j := 0;
    while j < h
      invariant 0 <= j <= h
      invariant lp == (y + j) * (XREZ / 2) + ux
      invariant bits[..] == FillRect(s0, lanes, 2 * ux, y, 2 * units, j)
    {
      lp := Box2Row(bits, lanes, ux, y + j, units, lp);
      RowDone(s0, lanes, 2 * ux, y, 2 * units, j);
      lp := lp + stride;
      j := j + 1;
    }
  }

  /** One row of box2: `units` 16-bit stores, low byte first, from word index lp on. */
  method Box2Row(bits: array<bv8>, lanes: seq<bv8>, ux: int, row: int, units: int, lp: int) returns (lpOut: int)
    requires bits.Length == FRAME_BYTES && |lanes| == 2
    requires 0 <= ux && 0 <= units && 2 * ux + 2 * units <= XREZ && 0 <= row < YREZ
    requires lp == row * (XREZ / 2) + ux
    modifies bits
    ensures lpOut == lp + units
    ensures bits[..] == FillRect(old(bits[..]), lanes, 2 * ux, row, 2 * units, 1)
  {
    ghost var done := bits[..];
    lpOut := lp;
    var i := 0;
    while i < units
      invariant 0 <= i <= units
      invariant lpOut == lp + i
      invariant bits[..] == FillRect(done, lanes, 2 * ux, row, 2 * i, 1)
    {
      assert 2 * lpOut == Offset(2 * ux + 2 * i, row);
      StorePair(bits[..], done, lanes, 2 * ux, row, i);
      bits[2 * lpOut], bits[2 * lpOut + 1] := lanes[0], lanes[1];
      lpOut := lpOut + 1;
      i := i + 1;
    }
  }

  /**
   * box4: quarters x and w and stores the 32-bit value `col` into w/4 words
   * per row, so it fills the columns 4*(x/4) .. 4*(x/4)+4*(w/4)-1.
   */
  method Box4(bits: array<bv8>, col: bv32, x: UInt8, y: UInt8, w: UInt8, h: UInt8)
    requires bits.Length == FRAME_BYTES
    requires 4 * (x / 4) + 4 * (w / 4) <= XREZ && y + h <= YREZ
    modifies bits
    ensures bits[..] == FillRect(old(bits[..]), Lanes32(col), 4 * (x / 4), y, 4 * (w / 4), h)
  {
    ghost var s0 := bits[..];
    var lanes := Lanes32(col);
    var units := w / 4;
    var ux := x / 4;
    var lp := y * (XREZ / 4) + ux;  // index of a 32-bit word
    var stride := XREZ / 4 - units;
    var j := 0;
    while j < h
      invariant 0 <= j <= h
      invariant lp == (y + j) * (XREZ / 4) + ux
      invariant bits[..] == FillRect(s0, lanes, 4 * ux, y, 4 * units, j)
    {
      lp := Box4Row(bits, lanes, ux, y + j, units, lp);
      RowDone(s0, lanes, 4 * ux, y, 4 * units, j);
      lp := lp + stride;
      j := j + 1;
    }
  }

  /** One row of box4: `units` 32-bit stores, lowest byte first, from word index lp on. */
  method Box4Row(bits: array<bv8>, lanes: seq<bv8>, ux: int, row: int, units: int, lp: int) returns (lpOut: int)
    requires bits.Length == FRAME_BYTES && |lanes| == 4
    requires 0 <= ux && 0 <= units && 4 * ux + 4 * units <= XREZ && 0 <= row < YREZ
    requires lp == row * (XREZ / 4) + ux
    modifies bits
    ensures lpOut == lp + units
    ensures bits[..] == FillRect(old(bits[..]), lanes, 4 * ux, row, 4 * units, 1)
  {
    ghost var done := bits[..];
    lpOut := lp;
    var i := 0;
    while i < units
      invariant 0 <= i <= units
      invariant lpOut == lp + i
      invariant bits[..] == FillRect(done, lanes, 4 * ux, row, 4 * i, 1)
    {
      assert 4 * lpOut == Offset(4 * ux + 4 * i, row);
      StoreWord(bits[..], done, lanes, 4 * ux, row, i);
      PutWord(bits, lanes, 4 * lpOut);
      lpOut := lpOut + 1;
      i := i + 1;
    }
  }

  /** One 32-bit store `*lp = col` at byte offset o, lowest byte first. */
  method PutWord(bits: array<bv8>, lanes: seq<bv8>, o: int)
    requires |lanes| == 4 && 0 <= o && o + 4 <= bits.Length
    modifies bits
    ensures bits[..] == old(bits[..])[o := lanes[0]][o + 1 := lanes[1]][o + 2 := lanes[2]][o + 3 := lanes[3]]
  {
    bits[o], bits[o + 1], bits[o + 2], bits[o + 3] := lanes[0], lanes[1], lanes[2], lanes[3];
  }

  /** A rectangle in screen pixels. */
  datatype Rect = Rect(x: int, y: int, w: int, h: int)

  /**
   * One axis of box_c's clipping, in the int16_t arithmetic of the source,
   * for an origin v, an extent e and a screen size rez: move a negative
   * origin to 0 and shrink the extent by the same amount, reject a negative
   * extent, trim the far edge to rez - 1, and reject an extent that is then
   * negative or at least rez.  The result is the clipped (origin, extent).
   */
  function ClipSpan(v: Int16, e: Int16, rez: int): (r: Option<(int, int)>)
    requires 0 < rez <= 0x4000 && v < rez
    // whatever survives lies inside [0, rez - 1)
    ensures r.Some? ==> 0 <= r.value.0 && 0 <= r.value.1 && r.value.0 + r.value.1 <= rez - 1
    // an extent that is empty or negative (without int16 underflow) draws nothing
    ensures -0x8000 <= v + e <= 0 ==> r.None? || r.value.1 == 0
    // clipping only removes pixels, unless v + e underflows int16
    ensures r.Some? && v + e >= -0x8000 ==> v <= r.value.0 && r.value.0 + r.value.1 <= v + e
    // a span already inside [0, rez - 1) is left as it is
    ensures 0 <= v && 0 <= e && v + e < rez ==> r == Some((v as int, e as int))
  {
    var v1, e1 := if v < 0 then 0 else v, if v < 0 then Wrap16(e + v) else e;
    if e1 < 0 then None
    else
      var far := Wrap16(v1 + e1);
      var e2 := if far >= rez then Wrap16(e1 - ((far - rez) + 1)) else e1;
      if e2 < 0 || e2 >= rez then None
      else Some((v1 as int, e2 as int))
  }

  /**
   * The clipping of box_c: reject an origin at or beyond the right or bottom
   * edge, then clip x and w, then y and h, as ClipSpan does.  None means
   * "draw nothing".
   */
  function ClipBox(x: Int16, y: Int16, w: Int16, h: Int16): (r: Option<Rect>)
    // rejected outright
    ensures x >= XREZ || y >= YREZ ==> r.None?
    // an extent that is empty or negative (without int16 underflow) draws nothing
    ensures -0x8000 <= x + w <= 0 || -0x8000 <= y + h <= 0 ==> r.None? || r.value.w == 0 || r.value.h == 0
    // whatever survives lies inside the screen, short of the last column and row
    ensures r.Some? ==> 0 <= r.value.x && 0 <= r.value.w && r.value.x + r.value.w <= XREZ - 1
    ensures r.Some? ==> 0 <= r.value.y && 0 <= r.value.h && r.value.y + r.value.h <= YREZ - 1
    // clipping only removes pixels, unless x + w or y + h underflows int16
    ensures r.Some? && x + w >= -0x8000 && y + h >= -0x8000 ==>
              x <= r.value.x && r.value.x + r.value.w <= x + w && y <= r.value.y && r.value.y + r.value.h <= y + h
    // a rectangle already inside [0, XREZ-1) x [0, YREZ-1) is left as it is
    ensures 0 <= x && 0 <= w && x + w < XREZ && 0 <= y && 0 <= h && y + h < YREZ ==> r == Some(Rect(x, y, w, h))
  {
    if x >= XREZ || y >= YREZ then None
    else match ClipSpan(x, w, XREZ)
      case None => None
      case Some(cx) =>
        match ClipSpan(y, h, YREZ)
        case None => None
        case Some(cy) => Some(Rect(cx.0, cy.0, cx.1, cy.1))
  }

  /** Clipping twice is clipping once. */
  lemma ClipBoxIdempotent(x: Int16, y: Int16, w: Int16, h: Int16)
    requires ClipBox(x, y, w, h).Some?
    ensures var c := ClipBox(x, y, w, h).value; ClipBox(c.x, c.y, c.w, c.h) == Some(c)
  {
  }

  /**
   * A negative width that underflows int16 when the negative origin is added
   * wraps to a large positive width: box_c then fills the whole top row but
   * its last pixel although the requested rectangle is empty.
   */
  lemma ClipBoxUnderflow()
    ensures ClipBox(-1, 0, -0x8000, 1) == Some(Rect(0, 0, XREZ - 1, 1))
  {
  }

  /** The byte granularity box_c dispatches to for a `chunk` argument. */
  function Granule(chunk: UInt8): (g: int)
    ensures g == 1 || g == 2 || g == 4
  {
    if chunk == 2 then 2 else if chunk == 4 then 4 else 1
  }

  /**
   * box_c: clips (x, y, w, h) as ClipBox does and fills what survives with the
   * getcol1 byte of `col`, through box2 (chunk 2), box4 (chunk 4) or box; the
   * two wider fills round the clipped x and w down to their granularity.
   * Every store is inside the frame buffer.
   */
  method BoxC(bits: array<bv8>, p: Platform, col: int, x: Int16, y: Int16, w: Int16, h: Int16, chunk: UInt8)
    requires bits.Length == FRAME_BYTES
    modifies bits
    ensures match ClipBox(x, y, w, h)
      case None => bits[..] == old(bits[..])
      case Some(c) =>
        var g := Granule(chunk);
        bits[..] == FillRect(old(bits[..]), [Getcol1(p, col)], g * (c.x / g), c.y, g * (c.w / g), c.h)
  {
    if x >= XREZ || y >= YREZ { return; }
    var xOk, cx, cw := ClipAxis(x, w, XREZ);
    if !xOk { return; }
    var yOk, cy, ch := ClipAxis(y, h, YREZ);
    if !yOk { return; }
    FillChunk(bits, p, col, cx, cy, cw, ch, chunk);
  }

  /**
   * One axis of box_c's clipping, step by step in int16_t arithmetic; ok is
   * false where box_c returns without drawing.
   */
  method ClipAxis(v: Int16, e: Int16, rez: int) returns (ok: bool, vOut: Int16, eOut: Int16)
    requires 0 < rez <= 0x4000 && v < rez
    ensures ok <==> ClipSpan(v, e, rez).Some?
    ensures ok ==> ClipSpan(v, e, rez).value == (vOut as int, eOut as int)
  {
    var r := ClipSpan(v, e, rez);
    vOut, eOut := v, e;
    if vOut < 0 {
      eOut := Wrap16(eOut + vOut);
      vOut := 0;
    }
    if eOut < 0 {
      assert r.None?;
      return false, vOut, eOut;
    }
    var far := Wrap16(vOut + eOut);
    if far >= rez { eOut := Wrap16(eOut - ((far - rez) + 1)); }
    ok := 0 <= eOut < rez;
    assert r == if ok then Some((vOut as int, eOut as int)) else None;
  }

  /** The dispatch at the end of box_c, on a rectangle already clipped. */
  method FillChunk(bits: array<bv8>, p: Platform, col: int, x: UInt8, y: UInt8, w: UInt8, h: UInt8, chunk: UInt8)
    requires bits.Length == FRAME_BYTES
    requires x + w <= XREZ && y + h <= YREZ
    modifies bits
    ensures var g := Granule(chunk);
            bits[..] == FillRect(old(bits[..]), [Getcol1(p, col)], g * (x / g), y, g * (w / g), h)
  {
    ghost var s0 := bits[..];
    if chunk == 2 {
      Box2(bits, Getcol2(p, col), x, y, w, h);
      FillRectUniform(s0, Lanes16(Getcol2(p, col)), Getcol1(p, col), 2 * (x / 2), y, 2 * (w / 2), h);
    } else if chunk == 4 {
      Box4(bits, Getcol4(p, col), x, y, w, h);
      FillRectUniform(s0, Lanes32(Getcol4(p, col)), Getcol1(p, col), 4 * (x / 4), y, 4 * (w / 4), h);
    } else {
      Box(bits, Getcol1(p, col), x, y, w, h);
    }
  }
}
