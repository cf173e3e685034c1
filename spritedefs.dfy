/**
 * createSpriteFromDef: a sprite drawn as ASCII art.  Each character of the
 * picture is looked up in a sixteen-entry symbol table; the first matching
 * symbol's palette colour becomes the pixel.  The write cursor advances only
 * on a match, so an unmapped character leaves no pixel behind and shifts the
 * rest of the raster down.
 */
module SpriteDefs {
  import opened Screen
  import opened Colours
  import opened Sprites

  /**
   * A sprite definition: the picture's rows, the symbols and the colours
   * they stand for (sixteen each), and the size of the picture.
   */
  datatype SpriteDef = SpriteDef(
    rows: seq<seq<char>>, colourMap: seq<char>, palette: seq<UInt32>,
    totalWidth: UInt8, totalHeight: UInt8)

  /** What the source reads of a definition exists: both tables, and every character of the picture. */
  predicate WellFormed(def: SpriteDef)
  {
    |def.colourMap| == 16 && |def.palette| == 16 &&
    |def.rows| >= def.totalHeight &&
    forall i | 0 <= i < def.totalHeight :: |def.rows[i]| >= def.totalWidth
  }

  /** The first of the first n entries of the symbol table that equals ch. */
  function FirstMatch(cmap: seq<char>, ch: char, n: nat): (r: Option<nat>)
    requires n <= |cmap|
    ensures r.Some? ==> r.value < n
  {
    if n == 0 then None
    else match FirstMatch(cmap, ch, n - 1)
      case Some(k) => Some(k)
      case None => if cmap[n - 1] == ch then Some(n - 1) else None
  }

  /** FirstMatch finds an entry equal to ch with no equal entry before it, and finds none exactly when there is none. */
  lemma {:induction false} FirstMatchSpec(cmap: seq<char>, ch: char, n: nat)
    requires n <= |cmap|
    ensures var r := FirstMatch(cmap, ch, n);
      (r.Some? ==> r.value < n && cmap[r.value] == ch && forall m | 0 <= m < r.value :: cmap[m] != ch) &&
      (r.None? <==> forall m | 0 <= m < n :: cmap[m] != ch)
  {
    if n > 0 {
      FirstMatchSpec(cmap, ch, n - 1);
    }
  }

  /** A match among the first n entries is the first match among any longer prefix. */
  lemma {:induction false} FirstMatchStays(cmap: seq<char>, ch: char, n: nat, m: nat)
    requires n <= m <= |cmap| && FirstMatch(cmap, ch, n).Some?
    ensures FirstMatch(cmap, ch, m) == FirstMatch(cmap, ch, n)
  {
    if n < m {
      FirstMatchStays(cmap, ch, n, m - 1);
    }
  }

  /** The pixel a character paints: the colour of its first matching symbol, or none at all. */
  function Cell(def: SpriteDef, p: Platform, ch: char): (r: seq<bv8>)
    requires WellFormed(def)
    ensures |r| <= 1
  {
    match FirstMatch(def.colourMap, ch, |def.colourMap|)
    case None => []
    case Some(k) => [Getcol1(p, SignedOf(def.palette[k]))]
  }

  /** The pixels painted by the first n characters of row i. */
  function RowPainted(def: SpriteDef, p: Platform, i: nat, n: nat): seq<bv8>
    requires WellFormed(def) && i < def.totalHeight && n <= def.totalWidth
  {
    if n == 0 then [] else RowPainted(def, p, i, n - 1) + Cell(def, p, def.rows[i][n - 1])
  }

  /** The pixels painted by the first m rows, in row-major order. */
  function Painted(def: SpriteDef, p: Platform, m: nat): seq<bv8>
    requires WellFormed(def) && m <= def.totalHeight
  {
    Flat(RowsOf(def, p), m)
  }

  /** The pixels each row paints, row by row. */
  function RowsOf(def: SpriteDef, p: Platform): (r: seq<seq<bv8>>)
    requires WellFormed(def)
    ensures |r| == def.totalHeight
  {
    seq(def.totalHeight, i requires 0 <= i < def.totalHeight => RowPainted(def, p, i, def.totalWidth))
  }

  /** Row m - 1 follows the first m - 1 rows. */
  lemma PaintedNext(def: SpriteDef, p: Platform, m: nat)
    requires WellFormed(def) && 0 < m <= def.totalHeight
    ensures Painted(def, p, m) == Painted(def, p, m - 1) + RowPainted(def, p, m - 1, def.totalWidth)
  {
    assert RowsOf(def, p)[m - 1] == RowPainted(def, p, m - 1, def.totalWidth);
  }

  /** Each of the first n characters of row i is one of the symbols. */
  predicate RowMapped(def: SpriteDef, i: nat, n: nat)
    requires WellFormed(def) && i < def.totalHeight && n <= def.totalWidth
  {
    forall j | 0 <= j < n :: def.rows[i][j] in def.colourMap
  }

  /** Every character of the first m rows is one of the symbols. */
  predicate RowsMapped(def: SpriteDef, m: nat)
    requires WellFormed(def) && m <= def.totalHeight
  {
    forall i | 0 <= i < m :: RowMapped(def, i, def.totalWidth)
  }

  /** Every character of the picture is one of the symbols. */
  predicate Mapped(def: SpriteDef)
    requires WellFormed(def)
  {
    RowsMapped(def, def.totalHeight)
  }

  /** A character paints a pixel exactly when it is one of the symbols. */
  lemma CellPaints(def: SpriteDef, p: Platform, ch: char)
    requires WellFormed(def)
    ensures |Cell(def, p, ch)| == 1 <==> ch in def.colourMap
  {
    FirstMatchSpec(def.colourMap, ch, 16);
    if ch in def.colourMap {
      var m :| 0 <= m < 16 && def.colourMap[m] == ch;
    }
  }

  /** Row i's first n characters paint at most n pixels, and exactly n when each of them is a symbol. */
  lemma {:induction false} RowPaintedLength(def: SpriteDef, p: Platform, i: nat, n: nat)
    requires WellFormed(def) && i < def.totalHeight && n <= def.totalWidth
    ensures |RowPainted(def, p, i, n)| <= n
    ensures |RowPainted(def, p, i, n)| == n <==> RowMapped(def, i, n)
  {
    if n > 0 {
      RowPaintedLength(def, p, i, n - 1);
      CellPaints(def, p, def.rows[i][n - 1]);
    }
  }

  /** Row i of the picture paints at most width pixels, and exactly that many when it is all symbols. */
  lemma RowsOfLength(def: SpriteDef, p: Platform, m: nat)
    requires WellFormed(def) && m <= def.totalHeight
    ensures forall i | 0 <= i < m :: |RowsOf(def, p)[i]| <= def.totalWidth
    ensures (forall i | 0 <= i < m :: |RowsOf(def, p)[i]| == def.totalWidth) <==> RowsMapped(def, m)
  {
    var rows := RowsOf(def, p);
    forall i | 0 <= i < m
      ensures |rows[i]| <= def.totalWidth
      ensures |rows[i]| == def.totalWidth <==> RowMapped(def, i, def.totalWidth)
    {
      RowPaintedLength(def, p, i, def.totalWidth);
    }
  }

  /** The first m rows paint at most m * width pixels. */
  lemma PaintedLength(def: SpriteDef, p: Platform, m: nat)
    requires WellFormed(def) && m <= def.totalHeight
    ensures |Painted(def, p, m)| <= Cells(m, def.totalWidth)
  {
    RowsOfLength(def, p, m);
    FlatLength(RowsOf(def, p), m, def.totalWidth);
  }

  /** The first m rows paint exactly m * width pixels when each of their characters is a symbol, and fewer otherwise. */
  lemma PaintedFullIff(def: SpriteDef, p: Platform, m: nat)
    requires WellFormed(def) && m <= def.totalHeight
    ensures |Painted(def, p, m)| == Cells(m, def.totalWidth) <==> RowsMapped(def, m)
  {
    RowsOfLength(def, p, m);
    FlatLength(RowsOf(def, p), m, def.totalWidth);
  }

  /** The whole raster is filled (height * width pixels) exactly when every character of the picture is a symbol. */
  lemma FilledIff(def: SpriteDef, p: Platform)
    requires WellFormed(def)
    ensures |Painted(def, p, def.totalHeight)| <= def.totalHeight * def.totalWidth
    ensures |Painted(def, p, def.totalHeight)| == def.totalHeight * def.totalWidth <==> Mapped(def)
  {
    PaintedLength(def, p, def.totalHeight);
    PaintedFullIff(def, p, def.totalHeight);
    CellsIs(def.totalHeight, def.totalWidth);
  }

  /** With every character of row i a symbol, character j of the row paints pixel j. */
  lemma {:induction false} RowPaintedAt(def: SpriteDef, p: Platform, i: nat, n: nat, j: nat)
    requires WellFormed(def) && i < def.totalHeight && j < n <= def.totalWidth
    requires RowMapped(def, i, n)
    ensures |RowPainted(def, p, i, n)| == n
    ensures [RowPainted(def, p, i, n)[j]] == Cell(def, p, def.rows[i][j])
  {
    var front := RowPainted(def, p, i, n - 1);
    var last := Cell(def, p, def.rows[i][n - 1]);
    assert RowPainted(def, p, i, n) == front + last;
    RowPaintedLength(def, p, i, n - 1);
    CellPaints(def, p, def.rows[i][n - 1]);
    assert |front| == n - 1 && |last| == 1;
    if j < n - 1 {
      RowPaintedAt(def, p, i, n - 1, j);
      assert (front + last)[j] == front[j];
    } else {
      assert (front + last)[j] == last[0];
    }
  }

  /** Row i's pixels follow the pixels of rows 0 .. i - 1. */
  lemma PaintedAt(def: SpriteDef, p: Platform, m: nat, i: nat, x: nat)
    requires WellFormed(def) && i < m <= def.totalHeight && x < |RowsOf(def, p)[i]|
    ensures |Painted(def, p, i)| + x < |Painted(def, p, m)|
    ensures Painted(def, p, m)[|Painted(def, p, i)| + x] == RowsOf(def, p)[i][x]
  {
    FlatAt(RowsOf(def, p), m, i, x);
  }

  /** Entry i of RowsOf is row i's pixels. */
  lemma RowOf(def: SpriteDef, p: Platform, rows: seq<seq<bv8>>, i: nat)
    requires WellFormed(def) && i < def.totalHeight && rows == RowsOf(def, p)
    ensures i < |rows| && rows[i] == RowPainted(def, p, i, def.totalWidth)
  {
  }

  /**
   * With every character a symbol, the pixel at (j, i) is the colour of the
   * first symbol that matches character j of row i.
   */
  lemma PixelOf(def: SpriteDef, p: Platform, i: nat, j: nat)
    requires WellFormed(def) && Mapped(def) && i < def.totalHeight && j < def.totalWidth
    ensures FirstMatch(def.colourMap, def.rows[i][j], |def.colourMap|).Some?
    ensures i * def.totalWidth + j < |Painted(def, p, def.totalHeight)|
    ensures Painted(def, p, def.totalHeight)[i * def.totalWidth + j] ==
      Getcol1(p, SignedOf(def.palette[FirstMatch(def.colourMap, def.rows[i][j], |def.colourMap|).value]))
  {
    PaintedFullIff(def, p, i);
    CellsIs(i, def.totalWidth);
    RowPaintedAt(def, p, i, def.totalWidth, j);
    RowOf(def, p, RowsOf(def, p), i);
    PaintedAt(def, p, def.totalHeight, i, j);
    CellPaints(def, p, def.rows[i][j]);
    FirstMatchSpec(def.colourMap, def.rows[i][j], 16);
  }

  /**
   * The symbol search for one character: stores the colour of the first
   * matching symbol at raster[dp] and advances dp, or writes nothing when
   * no symbol matches.  The pixels already painted from `at` on are done.
   */
  method PaintCell(def: SpriteDef, p: Platform, ch: char, raster: array<bv8>, dp: int,
                   ghost s0: seq<bv8>, ghost at: int, ghost done: seq<bv8>)
    returns (dpOut: int)
    requires WellFormed(def)
    requires 0 <= at && dp == at + |done| && dp < raster.Length == |s0|
    requires raster[..] == Put(s0, at, done)
    modifies raster
    ensures dpOut == dp + |Cell(def, p, ch)|
    ensures raster[..] == Put(s0, at, done + Cell(def, p, ch))
  {
    dpOut := dp;
    var k := 0;
    while k < 16
      invariant 0 <= k <= 17
      invariant dpOut == dp ==> k <= 16 && FirstMatch(def.colourMap, ch, k).None?
      invariant dpOut == dp ==> raster[..] == Put(s0, at, done)
      invariant dpOut != dp ==> k == 17 && dpOut == dp + 1 && |Cell(def, p, ch)| == 1
      invariant dpOut != dp ==> raster[..] == Put(s0, at, done + Cell(def, p, ch))
    {
      if def.colourMap[k] == ch {
        var v := Getcol1(p, SignedOf(def.palette[k]));
        FirstMatchStays(def.colourMap, ch, k + 1, 16);
        assert Cell(def, p, ch) == [v];
        PutStore(s0, at, done, v);
        raster[dp] := v;
        dpOut := dp + 1;
        k := 16;
      }
      k := k + 1;
    }
    if dpOut == dp {
      assert Cell(def, p, ch) == [];
      assert done + Cell(def, p, ch) == done;
    }
  }

  /** The column loop for row i: paints the row's characters from dp on. */
  method PaintRow(def: SpriteDef, p: Platform, i: UInt8, raster: array<bv8>, dp: int)
    returns (dpOut: int)
    requires WellFormed(def) && i < def.totalHeight
    requires 0 <= dp && dp + def.totalWidth <= raster.Length
    modifies raster
    ensures dpOut == dp + |RowPainted(def, p, i, def.totalWidth)|
    ensures raster[..] == Put(old(raster[..]), dp, RowPainted(def, p, i, def.totalWidth))
  {
    ghost var s1 := raster[..];
    dpOut := dp;
    var j: UInt8 := 0;
    while j < def.totalWidth
      invariant 0 <= j <= def.totalWidth
      invariant dpOut == dp + |RowPainted(def, p, i, j)| && |RowPainted(def, p, i, j)| <= j
      invariant raster[..] == Put(s1, dp, RowPainted(def, p, i, j))
    {
      dpOut := PaintColumn(def, p, i, j, raster, dp, dpOut, s1);
      j := j + 1;
    }
  }

  /** One pass of the column loop: character j of row i paints after the row's first j characters. */
  method PaintColumn(def: SpriteDef, p: Platform, i: UInt8, j: UInt8, raster: array<bv8>, dp: int, cur: int,
                     ghost s1: seq<bv8>)
    returns (dpOut: int)
    requires WellFormed(def) && i < def.totalHeight && j < def.totalWidth
    requires 0 <= dp && dp + def.totalWidth <= raster.Length == |s1|
    requires cur == dp + |RowPainted(def, p, i, j)| && raster[..] == Put(s1, dp, RowPainted(def, p, i, j))
    modifies raster
    ensures dpOut == dp + |RowPainted(def, p, i, j + 1)| && |RowPainted(def, p, i, j + 1)| <= j + 1
    ensures raster[..] == Put(s1, dp, RowPainted(def, p, i, j + 1))
  {
    RowPaintedLength(def, p, i, j);
    dpOut := PaintCell(def, p, def.rows[i][j], raster, cur, s1, dp, RowPainted(def, p, i, j));
    assert RowPainted(def, p, i, j + 1) == RowPainted(def, p, i, j) + Cell(def, p, def.rows[i][j]);
  }

  /** What one pass of the row loop relies on: row i fits after the rows before it. */
  lemma RowRoom(def: SpriteDef, p: Platform, i: nat)
    requires WellFormed(def) && i < def.totalHeight
    ensures |Painted(def, p, i)| + def.totalWidth <= def.totalHeight * def.totalWidth
    ensures |Painted(def, p, i)| + |RowPainted(def, p, i, def.totalWidth)| <= def.totalHeight * def.totalWidth
  {
    var w := def.totalWidth;
    PaintedLength(def, p, i);
    RowPaintedLength(def, p, i, w);
    CellsRoom(i, def.totalHeight, w);
  }

  /** The row loop: paints every row in turn. */
  method PaintRows(def: SpriteDef, p: Platform, raster: array<bv8>)
    requires WellFormed(def) && raster.Length == def.totalHeight * def.totalWidth
    modifies raster
    ensures |Painted(def, p, def.totalHeight)| <= raster.Length
    ensures raster[..] == Put(old(raster[..]), 0, Painted(def, p, def.totalHeight))
  {
    ghost var s0 := raster[..];
    var dp := 0;
    var i: UInt8 := 0;
    while i < def.totalHeight
      invariant 0 <= i <= def.totalHeight
      invariant dp == |Painted(def, p, i)|
      invariant raster[..] == Put(s0, 0, Painted(def, p, i))
    {
      dp := PaintNextRow(def, p, i, raster, dp, s0);
      i := i + 1;
    }
    PaintedLength(def, p, def.totalHeight);
    CellsIs(def.totalHeight, def.totalWidth);
  }

  /** One pass of the row loop: rows 0 .. i - 1 are painted, and row i follows them. */
  method PaintNextRow(def: SpriteDef, p: Platform, i: UInt8, raster: array<bv8>, dp: int, ghost s0: seq<bv8>)
    returns (dpOut: int)
    requires WellFormed(def) && raster.Length == def.totalHeight * def.totalWidth && i < def.totalHeight
    requires dp == |Painted(def, p, i)| && raster[..] == Put(s0, 0, Painted(def, p, i))
    modifies raster
    ensures dpOut == |Painted(def, p, i + 1)|
    ensures raster[..] == Put(s0, 0, Painted(def, p, i + 1))
  {
    RowRoom(def, p, i);
    dpOut := PaintRow(def, p, i, raster, dp);
    PutPut(s0, 0, Painted(def, p, i), RowPainted(def, p, i, def.totalWidth));
    PaintedNext(def, p, i + 1);
  }

  /**
   * createSpriteFromDef: sizes the sprite from the definition, allocates
   * height * width bytes and fills them from the front, in row-major order,
   * with the pixels the picture's characters paint (all of them exactly when
   * every character is a symbol, see FilledIff).
   */
  method CreateSpriteFromDef(def: SpriteDef, p: Platform, s: Sprite)
    requires WellFormed(def)
    modifies s
    ensures s.width == def.totalWidth && s.height == def.totalHeight
    ensures fresh(s.raw) && s.raw.Length == def.totalHeight * def.totalWidth
    ensures |Painted(def, p, def.totalHeight)| <= s.raw.Length
    ensures s.raw[..|Painted(def, p, def.totalHeight)|] == Painted(def, p, def.totalHeight)
  {
    s.height := def.totalHeight;
    s.width := def.totalWidth;
    var raster := new bv8[s.height * s.width];
    s.raw := raster;
    ghost var s0 := raster[..];
    PaintRows(def, p, raster);
    PutPrefix(s0, Painted(def, p, def.totalHeight));
  }
}
