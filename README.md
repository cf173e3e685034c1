# moo8 raster engine, modelled in Dafny

This project models the software raster engine of the moo8 watch face
(`src/moo8.c`). The engine draws straight into a 144 x 168 frame buffer
that holds one byte per pixel. It covers:

- the colour patterns `getcol1`, `getcol2` and `getcol4`;
- the unchecked aligned fills `box`, `box2` and `box4`, and the clipped fill `box_c`;
- the sprite path of the bitmap decoder `drawPixMap`, for one-bit and two-bit packed bitmaps, with `BYTEREV`, `LINEREV` and frame `index`;
- the ASCII-art sprite constructor `createSpriteFromDef`;
- the scaled, clipped, transparent and tinted blitter `drawSprite`;
- `makeCrap`'s ten digit sprites, built from the `numerals` table;
- `timeAt`'s two scaled hour digits;
- the time bookkeeping of `render`;
- `directAccess`'s 56-copy trail, taking the trigonometry's `(tx, ty)` as inputs.

The frame buffer is an `array<bv8>` of `XREZ * YREZ` bytes. Every method
that writes it is proved against a function of the old contents. For example, `Box`
ends with `bits[..] == FillRect(old(bits[..]), [col], x, y, w, h)`. Lemmas
then state what that function means pixel by pixel.

C's integer widths are written out:

- `Wrap16` for stores into `int16_t`;
- `% 0x1_0000` for `uint16_t`;
- `% 0x100` for `uint8_t`;
- `Quot` for C's truncating `/`;
- `SignedOf` for `uint32_t` values passed as `int`.

On a colour build the platform's `GColorFromHEX` is a function field of the
`Platform` datatype. The model assumes nothing about it.

Modules:

- `Screen`: geometry, integer widths and shared arithmetic.
- `Colours`: getcol.
- `Boxes`: box, box2, box4 and box_c.
- `Sprites`: the `Sprite` class and drawPixMap.
- `SpriteDefs`: createSpriteFromDef.
- `Blitter`: drawSprite.
- `Clock`: the digit table, timeAt, render's time state and directAccess. The globals live in the `Engine` class.

Three behaviours of the code are worth knowing. The model follows the code in each case:

- `box_c` trims the far edge to `XREZ - 1` and `YREZ - 1`. It therefore never fills the last column or the last row of the screen (`ClipBox`).
- A negative `w` whose sum with a negative `x` underflows `int16_t` wraps to a large positive width. `box_c` then fills the rows up to, but not including, their last pixel (`ClipBoxUnderflow`).
- `drawSprite`'s source positions `u` and `v` are `uint16_t` in 5.11 fixed point. At scale 1.0 they wrap after 32 source pixels, so a wider sprite repeats its first columns (`ColumnWrap`). `DrawnIdentity` is stated for sprites of at most 32 x 32 pixels for this reason.

## Model

| member | source | states |
|---|---|---|
| Screen.Wrap16 | src/moo8.c:570-571 | an int stored into an int16_t keeps in-range values and otherwise differs from the value by a multiple of 65536 |
| Screen.SignedOf | src/moo8.c:625 | a uint32_t passed as int is the value modulo 2^32, in the int range |
| Screen.Shr4 | src/moo8.c:574 | an int16 shifted right by 4 is the floor of its sixteenth: r * 16 <= v < r * 16 + 16 |
| Colours.Getcol1 | src/moo8.c:116-123 | 0xff on a monochrome build, otherwise the platform's GColorFromHEX byte of the colour |
| Colours.Getcol2 | src/moo8.c:125-133 | both bytes of the 16-bit result are the getcol1 byte; 0xffff on a monochrome build |
| Colours.Getcol4 | src/moo8.c:135-144 | all four bytes of the 32-bit result are the getcol1 byte; 0xffffffff on a monochrome build |
| Boxes.FillRectAt | src/moo8.c:151-164 | after a fill, a pixel inside the rectangle holds the pattern byte of its column and every other pixel keeps its byte |
| Boxes.FillRectUniform | src/moo8.c:226-236 | a pattern whose bytes are all c fills exactly like the single byte c, so box2 and box4 with getcol2 and getcol4 paint the getcol1 byte |
| Boxes.Box | src/moo8.c:151-164 | box stores col into exactly the pixels (x+i, y+j), i < w, j < h, and changes no other byte |
| Boxes.BoxRow | src/moo8.c:158-162 | one row of box: w single-byte stores fill (x .. x+w-1, row) and leave lp at the row's end |
| Boxes.Box2 | src/moo8.c:166-181 | box2 halves x and w and fills columns 2*(x/2) .. 2*(x/2)+2*(w/2)-1 of rows y .. y+h-1 with the two bytes of col, little-endian; nothing else changes |
| Boxes.Box2Row | src/moo8.c:175-179 | one row of box2: `units` 16-bit stores fill 2*units pixels from column 2*ux |
| Boxes.Box4 | src/moo8.c:183-198 | box4 quarters x and w and fills columns 4*(x/4) .. 4*(x/4)+4*(w/4)-1 of rows y .. y+h-1 with the four bytes of col; nothing else changes |
| Boxes.Box4Row | src/moo8.c:192-196 | one row of box4: `units` 32-bit stores fill 4*units pixels from column 4*ux |
| Boxes.ClipSpan | src/moo8.c:207-224 | one axis of box_c's clip, in int16 arithmetic: what survives lies in [0, rez-1); an empty or negative extent draws nothing; clipping only removes pixels unless v+e underflows; a span already inside is kept |
| Boxes.ClipBox | src/moo8.c:205-224 | box_c rejects x >= XREZ or y >= YREZ; a surviving rectangle lies inside the screen short of the last column and row; an empty extent draws nothing; clipping only removes pixels unless the sum underflows; a rectangle already inside is kept |
| Boxes.ClipBoxIdempotent | src/moo8.c:205-224 | clipping an already clipped rectangle leaves it unchanged |
| Boxes.ClipBoxUnderflow | src/moo8.c:208-214 | x = -1, w = -32768 wraps the width to 32767 and box_c clips it to the whole top row but its last pixel |
| Boxes.Granule | src/moo8.c:225-236 | the dispatch granularity is 2 for chunk 2, 4 for chunk 4 and 1 for anything else |
| Boxes.BoxC | src/moo8.c:200-237 | box_c leaves the buffer unchanged when ClipBox rejects; otherwise it fills the clipped rectangle, rounded down to the granularity, with the getcol1 byte of col |
| Boxes.ClipAxis | src/moo8.c:207-224 | the step-by-step int16 clip of one axis returns with ok exactly when ClipSpan keeps a span, and then returns that span |
| Boxes.FillChunk | src/moo8.c:225-236 | the switch on chunk fills the rectangle through box2, box4 or box, each of which paints the getcol1 byte |
| Sprites.PixelsPerLine | src/moo8.c:267 | a line writes bytesPerLine * pixelsPerByte raster bytes, where pixelsPerByte is 4 with a palette and 8 without |
| Sprites.WrittenFits | src/moo8.c:253-333 | the bytes the decoder writes fit into the width * height bytes allocated, and a one-bit bitmap whose width is a multiple of 8 writes all of them |
| Sprites.ByteIndexNext | src/moo8.c:325 | `base++` on a uint16_t steps to the next byte index and wraps from 0xffff to 0 |
| Sprites.ReadableIff | src/moo8.c:264-282 | the decoder's reads are in range exactly when the palette has four entries, any per-line palette covers every line, and every byte of every line's uint16 range exists |
| Sprites.MaskBit | src/moo8.c:305-308 | the mask test (1 << n) & ccline reads bit n of the byte |
| Sprites.Pair | src/moo8.c:289-290 | the two-bit field after i shifts by 2 lies in 0 .. 3 |
| Sprites.BitPixelsNext | src/moo8.c:302-320 | pixel i of a one-bit byte is the ink when bit 7 - i (bit i with BYTEREV) is set and 0 otherwise |
| Sprites.LinePixelsLength | src/moo8.c:280-326 | n bytes of a line unpack to n * pixelsPerByte pixels |
| Sprites.LineLength | src/moo8.c:280-326 | a line unpacks to pixelsPerLine pixels |
| Sprites.RasterLength | src/moo8.c:272-333 | the first n lines unpack to n * pixelsPerLine pixels |
| Sprites.LinePixelsAt | src/moo8.c:280-326 | byte k's pixels follow those of bytes 0 .. k-1 in a line |
| Sprites.RasterAt | src/moo8.c:272-333 | line j's pixels follow those of lines 0 .. j-1 in the raster |
| Sprites.LineAt | src/moo8.c:272-333 | pixel x of line j is raster byte j * pixelsPerLine + x |
| Sprites.LineIndex | src/moo8.c:280-326 | pixel i of byte k of a line is line byte k * pixelsPerByte + i |
| Sprites.PixelIndex | src/moo8.c:253-333 | the raster is row-major: pixel i of byte k of line j is raster byte j * pixelsPerLine + k * pixelsPerByte + i |
| Sprites.PairPixelsAt | src/moo8.c:287-297 | pixel i of a two-bit byte is the getcol1 byte of the palette entry its field i selects |
| Sprites.BitPixelsAt | src/moo8.c:302-322 | pixel i of a one-bit byte shows bit BitPos(flags, i) |
| Sprites.Decoded | src/moo8.c:253-333 | every raster byte, pixel by pixel: the palette colour of two-bit field i, or the line's ink where bit 7 - i (i with BYTEREV) of the packed byte is set and 0 where it is clear |
| Sprites.LineBaseNoWrap | src/moo8.c:268-271 | when the frame lies below 64 KiB, line j starts at index * bpl * height + j' * bpl, where j' is j or height - 1 - j with LINEREV |
| Sprites.FrameBaseNoWrap | src/moo8.c:268-271 | the base before the first line is the frame's start, or its last line with LINEREV |
| Sprites.LineStepNoWrap | src/moo8.c:327-331 | without wrap-around, stepping base by bytesPerLine (backwards with LINEREV) moves to the next source line |
| Sprites.ByteAddrNoWrap | src/moo8.c:282 | without wrap-around, byte k of line j is read from index * bpl * height + j' * bpl + k |
| Sprites.PutAt | src/moo8.c:293 | writing a run of bytes from an index changes exactly those bytes |
| Sprites.LineStep | src/moo8.c:280-326 | writing byte k's pixels after a line's first k bytes gives the first k + 1 |
| Sprites.RasterStep | src/moo8.c:272-333 | writing line j after the first j lines gives the first j + 1 |
| Sprites.UnpackPairs | src/moo8.c:287-297 | the two-bit loop writes the four palette pixels of the byte at spp, lowest field first, and nothing else |
| Sprites.UnpackBit | src/moo8.c:302-322 | one pass of the one-bit loop stores the ink or 0 after the i pixels already written |
| Sprites.UnpackBits | src/moo8.c:302-322 | the one-bit loop writes the eight pixels of the byte at spp and nothing else |
| Sprites.UnpackByte | src/moo8.c:283-323 | a packed byte unpacks in the format the palette selects; without a palette col keeps the ink |
| Sprites.NextByte | src/moo8.c:280-325 | byte k of a readable line exists, its pixels fit in the line, and base steps by one |
| Sprites.UnpackLineByte | src/moo8.c:280-326 | one pass of the byte loop writes byte k's pixels after the line's first k bytes |
| Sprites.UnpackLine | src/moo8.c:280-326 | a line unpacks into raster[spp ..] and spp advances by pixelsPerLine |
| Sprites.NextLine | src/moo8.c:272-331 | line j is readable, fits in the raster, and the next line's base is one uint16 step away |
| Sprites.UnpackNextLine | src/moo8.c:272-333 | one pass of the line loop picks the line's ink, unpacks it after the first j lines and steps base by bytesPerLine, backwards with LINEREV |
| Sprites.StartBase | src/moo8.c:267-271 | base before the line loop is bpl * height * index, plus bpl * (height - 1) with LINEREV, in uint16 |
| Sprites.UnpackFrame | src/moo8.c:253-333 | the line loop writes the whole decoded raster from index 0 on and nothing else |
| Sprites.DrawPixMap | src/moo8.c:247-334 | with a sprite target, the sprite takes the pixMap's size and a new width * height raster whose first Written bytes are the decoded raster |
| SpriteDefs.FirstMatch | src/moo8.c:352-359 | the found entry lies among the entries searched |
| SpriteDefs.FirstMatchSpec | src/moo8.c:352-359 | the symbol search finds an entry equal to the character with no equal entry before it, and finds none exactly when there is none |
| SpriteDefs.FirstMatchStays | src/moo8.c:357 | a match among the first n entries is the match among more; `k=16` stops the search at the first |
| SpriteDefs.Cell | src/moo8.c:351-359 | a character paints at most one pixel |
| SpriteDefs.CellPaints | src/moo8.c:351-359 | a character paints a pixel exactly when it is one of the symbols |
| SpriteDefs.RowPaintedLength | src/moo8.c:349-360 | row i's first n characters paint at most n pixels, and exactly n when all are symbols |
| SpriteDefs.RowsOfLength | src/moo8.c:347-361 | every row paints at most width pixels, and all paint width exactly when every character is a symbol |
| SpriteDefs.PaintedLength | src/moo8.c:347-361 | the first m rows paint at most m * width pixels |
| SpriteDefs.PaintedFullIff | src/moo8.c:347-361 | the first m rows paint exactly m * width pixels when all their characters are symbols, and fewer otherwise |
| SpriteDefs.FilledIff | src/moo8.c:342-361 | the raster is filled exactly when every character of the picture is a symbol |
| SpriteDefs.RowPaintedAt | src/moo8.c:349-359 | with a row all symbols, character j paints pixel j of the row |
| SpriteDefs.PaintedAt | src/moo8.c:347-361 | row i's pixels follow those of rows 0 .. i-1 |
| SpriteDefs.PixelOf | src/moo8.c:347-361 | with every character a symbol, pixel (j, i) is the getcol1 byte of the palette entry of the first symbol matching character j of row i |
| SpriteDefs.PaintCell | src/moo8.c:351-359 | the symbol search stores the first match's colour at dp and advances dp, or writes nothing |
| SpriteDefs.PaintRow | src/moo8.c:349-360 | the column loop paints row i's characters from dp on |
| SpriteDefs.PaintColumn | src/moo8.c:349-359 | character j of row i paints after the row's first j characters |
| SpriteDefs.RowRoom | src/moo8.c:347-361 | row i fits in the raster after the rows before it |
| SpriteDefs.PaintRows | src/moo8.c:345-361 | the row loop writes every row's pixels from the start of the raster, in row-major order |
| SpriteDefs.PaintNextRow | src/moo8.c:347-361 | one pass of the row loop paints row i after rows 0 .. i-1 |
| SpriteDefs.CreateSpriteFromDef | src/moo8.c:336-362 | the sprite takes the definition's size and a new height * width raster whose front holds the painted pixels |
| Blitter.ScaledLength | src/moo8.c:386-387 | the scaled extent (d * s) >> 4, truncated to uint8_t, is at most d * s / 16 |
| Blitter.Step | src/moo8.c:389-390 | the reciprocal step 0x8000 / s times s does not exceed 0x8000 |
| Blitter.ClipLow | src/moo8.c:407-415 | the low-edge clip moves a start before lo to lo, shrinks the length by as much and advances the source position by that many steps, in uint16 |
| Blitter.ClipHigh | src/moo8.c:416-420 | the high-edge clip cuts a length that runs past hi back to end at hi |
| Blitter.Clip | src/moo8.c:386-437 | the blit is rejected exactly when the scaled rectangle lies outside the window; otherwise the rectangle is its intersection with the window, its source positions start as many steps in as pixels were clipped, and every sample lies inside the sprite |
| Blitter.StepWithin | src/moo8.c:389-390 | fewer than the scaled extent of steps stay below d whole source pixels |
| Blitter.AxisWithin | src/moo8.c:414-455 | on a clipped axis the uint16 source position names one of the sprite's pixels |
| Blitter.SampleWithin | src/moo8.c:450-453 | each sampled index of a clipped blit lies below width * height |
| Blitter.ClipSamples | src/moo8.c:447-460 | no sample of a clipped blit leaves the sprite |
| Blitter.AreaAt | src/moo8.c:447-460 | inside the blitted area a pixel is the sampled byte ANDed with the tint, or the old byte where the sample is 0; outside it the old byte |
| Blitter.BlitNext | src/moo8.c:451-456 | plotting pixel i of line j extends the line by one pixel |
| Blitter.BlitRowDone | src/moo8.c:447-460 | a finished line extends the area by one line |
| Blitter.AccNext | src/moo8.c:455-458 | one more uint16 step of an accumulator is one more step reduced |
| Blitter.DrawnAt | src/moo8.c:366-461 | drawSprite changes only pixels inside both the window and the scaled rectangle; each such pixel gets the sampled byte ANDed with the tint, unless that byte is 0 |
| Blitter.ClipCovers | src/moo8.c:396-437 | the clipped rectangle covers exactly the pixels inside both the window and the scaled rectangle, and a rejected blit covers none |
| Blitter.UnitStep | src/moo8.c:455 | at step 0x800 the position of pixel k < 32 names source pixel k |
| Blitter.DrawnIdentity | src/moo8.c:389-460 | at scale 16 a sprite of at most 32 x 32 inside the window is copied pixel for pixel: byte (i, j) lands on (x+i, y+j), transparent where it is 0 |
| Blitter.UnitSample | src/moo8.c:450-453 | without clipping, at whole-pixel steps, sample (j, i) is byte j * w + i |
| Blitter.DrawnSampled | src/moo8.c:453-454 | a covered pixel whose sample is byte k gets src[k] & tint, or keeps its byte when src[k] is 0 |
| Blitter.UnitClip | src/moo8.c:386-437 | at scale 16 a sprite inside the window is not clipped and starts at source position 0 |
| Blitter.ColumnWrap | src/moo8.c:381-455 | at scale 16 the 33rd destination pixel of a row samples source column 0 again |
| Blitter.BlitRow | src/moo8.c:449-457 | the inner loop blits line j of the clipped rectangle and leaves pp at the line's end |
| Blitter.Plot | src/moo8.c:453-454 | a non-zero source byte is ANDed with the tint and stored at pp; a zero byte stores nothing |
| Blitter.UNext | src/moo8.c:455 | `u+=ui` in uint16 moves to the next pixel's source position |
| Blitter.VNext | src/moo8.c:458 | `v+=vi` in uint16 moves to the next line's source position |
| Blitter.ClipSprite | src/moo8.c:386-437 | the set-up, rejection and clipping compute Clip |
| Blitter.ClipAxis | src/moo8.c:407-437 | the clipping of one axis computes ClipLow and then ClipHigh |
| Blitter.BlitRows | src/moo8.c:441-460 | the main loop blits every line of the clipped rectangle |
| Blitter.DrawSprite | src/moo8.c:366-461 | drawSprite leaves the frame buffer as Drawn: unchanged when rejected, otherwise the clipped rectangle blitted |
| Clock.GlyphReadable | src/moo8.c:519-533 | every digit's 8 x 6 one-bit pixMap lies in the numeral table and fills all 48 raster bytes |
| Clock.DigitRaster | src/moo8.c:529-534 | a digit decodes to 48 bytes |
| Clock.GlyphLine | src/moo8.c:532 | line j of digit d's pixMap is numeral byte 6 * d + j |
| Clock.GlyphPixels | src/moo8.c:465-477 | pixel (i, j) of digit d's sprite is white exactly where bit 7 - i of numeral line j of d is set, and 0 elsewhere |
| Clock.RingBits | src/moo8.c:467 | 0xfc sets columns 0 .. 5 and 0x84 sets columns 0 and 5 |
| Clock.ZeroLines | src/moo8.c:467 | digit 0's lines are 0xfc at top and bottom and 0x84 between |
| Clock.ZeroRing | src/moo8.c:467 | digit 0 decodes to a ring in its left six columns |
| Clock.Hour12 | src/moo8.c:673-675 | render's hour lies in 1 .. 12 and agrees with the 24-hour hour modulo 12 |
| Clock.Digits | src/moo8.c:701-706 | the six digits are decimal digits whose pairs spell h, m and s |
| Clock.DigitNext | src/moo8.c:575 | txp's step of 640 in int16 moves from digit i to digit i + 1 |
| Clock.StageNext | src/moo8.c:572-576 | pass i of timeAt's loop draws hour digit i over the digits before it |
| Clock.HourPlacement | src/moo8.c:570-575 | without wrap-around the hour digits sit 40 pixels apart, the first at (xp - 512) / 16 - 4, and each is a 48 x 48 enlargement |
| Clock.DigitOutside | src/moo8.c:574 | drawing a digit changes no pixel outside the clip window |
| Clock.HourOutside | src/moo8.c:559-577 | timeAt changes no pixel outside the clip window |
| Clock.ScaleBounds | src/moo8.c:604-615 | a magnitude of at least 16, divided by its sixteenth, lies in 16 .. 31 |
| Clock.QuotMag | src/moo8.c:606-613 | a component divided toward zero keeps its sign and has magnitude mag / d |
| Clock.Direction | src/moo8.c:604-615 | the normalised step has components of magnitude below 32, the larger at least 16, each with its input's sign |
| Clock.OffsNext | src/moo8.c:623-624 | `ox+=tx` in int16 is one more step of the march |
| Clock.TrailPlace | src/moo8.c:617-625 | with a normalised step nothing wraps: copy k is drawn 56 - k steps out from the centre, and the last copy lands on it |
| Clock.TrailNext | src/moo8.c:621-626 | copy n + 1 is drawn over the first n, in palette colour n >> 3 |
| Clock.TrailOutside | src/moo8.c:621-626 | the trail changes no pixel outside the clip window |
| Clock.FaceOutside | src/moo8.c:617-630 | directAccess changes no pixel outside the clip window |
| Clock.Engine.constructor | src/moo8.c:90-103 | the globals start as declared: the clip window [0, 144) x [16, 167), lastMinute and lastHour 64 |
| Clock.Engine.HourShape | src/moo8.c:574 | the sprite of a clock digit holds its width * height bytes |
| Clock.Engine.MakeGlyphs | src/moo8.c:507-537 | makeCrap sets the clock digits to 0 .. 5 and builds ten new 8 x 6 digit sprites, each holding its decoded numeral; nothing else changes |
| Clock.Engine.ResetDigits | src/moo8.c:517 | clock digit i starts as i |
| Clock.Engine.HourChanged | src/moo8.c:490-496 | hourChanged sets the first two clock digits to the tens and units of the hour and leaves the others |
| Clock.Engine.Render | src/moo8.c:668-706 | the hour is normalised into 1 .. 12; on the first run the last values are seeded and no hook fires; afterwards each hook fires exactly when its value changed; currentSecond is clamped to 59; the digits spell the hour and the unclamped minute and second |
| Clock.Engine.SetTime | src/moo8.c:668-675 | the current second, minute and hour, the hour on the 12-hour dial |
| Clock.Engine.Track | src/moo8.c:679-696 | first-run seeding, or each hook firing and each last value following exactly when its value changed |
| Clock.Engine.SetDigits | src/moo8.c:701-706 | the six clock digits are the tens and units of h, m and s |
| Clock.Engine.TimeAt | src/moo8.c:559-577 | timeAt draws hour digit 0 and then hour digit 1, each a 6 x 8 enlargement tinted with getcol1(col) at its txp |
| Clock.Engine.DrawDigit | src/moo8.c:574 | the drawSprite call of timeAt draws digit i and keeps the digit sprites apart from the frame buffer |
| Clock.Engine.Pass | src/moo8.c:621-626 | one pass of the march steps ox and oy and draws the next trail copy |
| Clock.Engine.DrawFace | src/moo8.c:630 | the white digits are drawn over the whole trail |
| Clock.Engine.DirectAccess | src/moo8.c:584-634 | nothing happens on a monochrome build; on a colour build the clip window opens to the top of the screen and the frame buffer becomes the 56-copy trail plus the white digits |
| Clock.Engine.March | src/moo8.c:617-630 | the 56 copies, copy i + 1 drawn 55 - i steps out in palette colour i >> 3, then the white digits at the centre |
| Clock.MakeShapes | src/moo8.c:529-534 | the ten digit sprites are new and each holds its decoded numeral |
| Clock.MakeGlyph | src/moo8.c:531-533 | one digit sprite: new, 8 x 6, holding the decoded digit |

## Left out

- The Pebble lifecycle is left out: `timer_callback`, `start`, the window handlers, `init`, `deinit` and `main`. It is host plumbing.
- `time()` and `localtime` are left out. `Render` takes the hour, minute and second as parameters.
- Capturing and releasing the frame buffer is left out. The buffer is a given array.
- `GColorFromHEX` is an uninterpreted function in `Platform`.
- `sin_lookup` and `cos_lookup` are left out. `DirectAccess` takes `tx` and `ty` as inputs.
- Clock.Engine.DirectAccess requires a magnitude of at least 16 in `tx` or `ty`. With smaller values the source divides by zero (`mag(..) >> 4` is 0), which has no defined result.
- The direct-to-screen branch of `drawPixMap` (`bits != NULL`) is left out, with its `ox`/`oy`, `dotPitch` and `dotWidth` arithmetic. Every caller in the file passes a sprite target.
- `destroyCrap`'s `free` calls and the unused `entity` struct and animation fields are left out. Memory release is outside the model.
- `minuteChanged` has an empty body. `Render` reports whether each hook fired instead of calling hooks.
- Clock.Engine.Render models `render` up to the call of `directAccess`. That call is the separate `DirectAccess`, because its trigonometry is left out.
- The numeral table is one byte sequence per digit (`NUMERALS[d]`) rather than one flat array. `Glyph(d)` reads the six bytes that `&numerals[i*6]` points at.
- Sprites.DrawPixMap models the sprite target only. It requires every byte the decoder reads to exist (`Readable`), which is what the source needs to avoid reading past the table. Its two-bit path ignores `plpal`, as the source does, and writes `4 * (width >> 3)` pixels per line into a `width * height` raster. A one-bit width that is not a multiple of 8 writes the lines back to back, `8 * (width >> 3)` bytes apart. Every line after the first is then shifted against the `width`-byte rows that drawSprite reads, and the last `height * (width % 8)` bytes stay unwritten. The unwritten bytes of the new raster are not specified, as `malloc` leaves them.
- SpriteDefs.CreateSpriteFromDef states the front of the raster only. The bytes past the painted pixels keep whatever `malloc` gave them.
- Blitter.DrawnIdentity is stated for sprites of at most 32 x 32 pixels. Past 32 source pixels the `uint16_t` positions wrap (`ColumnWrap`).
- Blitter.DrawSprite requires both scales `sx` and `sy` to be non-zero. The source divides 0x8000 by each of them, so a zero scale is a division by zero, which has no defined result.
- Blitter.DrawSprite requires the clip window to lie on the screen and the sprite raster to be separate from the frame buffer. Every window the file sets satisfies this.
- Boxes.ClipSpan requires `v < rez`. `box_c` checks this before clipping, which is why the clipped width and height never reach `rez`.
- Boxes.BoxC models the arithmetic in `int16_t`. It does not model a platform where `int16_t + int16_t` would not be promoted to `int`.
- SpriteDefs: the picture's characters and the symbol table are `seq<char>`. The source compares a `uint8_t` picture byte with a `char` table entry, so each character here stands for one byte, and no encoding is modelled.
