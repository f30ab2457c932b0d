# Wallpaper generator core, modelled in Dafny

This project models the deterministic core of the procedural phone-wallpaper
generator `WGenerator/Wallpaper.py`:

- **Colour utilities.** These are `clamp` and the CSS-style colour parser
  `hex_to_rgb` (`#rrggbb` and `#rgb`). Each two-character chunk is
  read as `int(chunk, 16)` reads it: surrounding whitespace, an optional sign
  and one or two hexadecimal digits.
- **The palette selector `choose_palette`.** It holds twelve hand-picked
  palettes of five colours. One palette is picked and shuffled in place by
  `random.shuffle`, then parsed.
- **The layer loop of `compose_wallpaper`.** The seven pattern generators are
  shuffled and the first 2 to 4 of them are applied in shuffled order. Each
  layer is blended with a random mode and opacity. For a mode other than
  "normal" the RGB channels are blended and the composition's own alpha
  channel is put back. The result is flattened to RGB.
- **The index structure of `pattern_triangles`.** It builds a
  (gy+1)×(gx+1) jittered point grid and splits every cell into two triangles.
- **The dot layout of `pattern_dots`.** It places rows and columns of dots
  with Python `range` semantics, and works out the dot radius and offset.

Randomness is an input everywhere:
- a shuffle is given by its swap draws, as CPython's `random.shuffle`
  performs them (for i = n-1 down to 1, swap i with a drawn j in [0, i]);
- `random.choice` is given by the chosen index or flag;
- the per-layer draws of the layer loop (blend mode, opacity, blur and its
  radius) are the fields of a `LayerDraw` record;
- the `randint` draws `n_layers`, `gx`, `gy` and `spacing` are plain
  parameters (`nLayers` of `ComposeLayers`, `gx` and `gy` of `BuildGrid` and
  `Triangulate`, `spacing` of `DotCentres`);
- the `uniform` jitter of the mesh points is folded into the `place(ix, iy)`
  parameter of `BuildGrid`.

The model's files:
- **`utilities.dfy`** (`Utilities`): the `Result` type for Python's `ValueError`, `MapAll` (a map that stops at the first error), `clamp` and `hex_to_rgb` with its round trips.
- **`shuffle.dfy`** (`Shuffle`): `random.shuffle` as a function of its draws and as an in-place array method. It proves the shuffle is a permutation.
- **`palette.dfy`** (`Palette`): the palette catalog and `choose_palette`.
- **`patterns.dfy`** (`Patterns`): the mesh of `pattern_triangles` and the dot grid of `pattern_dots`.
- **`composer.dfy`** (`Composer`): the layer loop, the blend step and the alpha-reattach rule of `compose_wallpaper`.

## Model

| member | source | states |
|---|---|---|
| Utilities.Trunc | WGenerator/Wallpaper.py:28 | `int(x)` on a number truncates toward zero: the floor for x ≥ 0, the ceiling for x < 0 |
| Utilities.Clamp | WGenerator/Wallpaper.py:27-28 | with a ≤ b the result is in [a, b]. It is `int(x)` when that lies in the range, a when below, b when above; with b < a it is always a |
| Utilities.ClampKeepsInRange | WGenerator/Wallpaper.py:27-28 | an integer already inside [a, b] comes back unchanged |
| Utilities.ClampIdempotent | WGenerator/Wallpaper.py:27-28 | clamping a clamped value changes nothing |
| Utilities.LStripHash | WGenerator/Wallpaper.py:34 | `lstrip('#')` removes exactly the leading run of '#' and leaves a suffix that does not start with '#' |
| Utilities.Doubled | WGenerator/Wallpaper.py:36 | every character of the shorthand is written twice, in order |
| Utilities.Expanded | WGenerator/Wallpaper.py:34-36 | the digits read after the '#'s are stripped: six for a 3-character shorthand, otherwise as many as remain |
| Utilities.Slice | WGenerator/Wallpaper.py:37 | a slice inside the string is s[lo..hi], one straddling the end is cut back to s[lo..], one past the end is empty |
| Utilities.StripChunk | WGenerator/Wallpaper.py:37 | the whitespace strip of `int()` on a chunk of at most two characters: the result neither starts nor ends with whitespace (with StripChunkCuts this pins it down); a one-character chunk is kept or dropped, a chunk without whitespace is kept |
| Utilities.StripChunkCuts | WGenerator/Wallpaper.py:37 | the strip keeps a contiguous piece c[i..j] of the chunk and cuts off only whitespace before i and after j |
| Utilities.ParseChannel | WGenerator/Wallpaper.py:37 | `int(chunk, 16)` on a chunk of at most two characters either yields a value in [-15, 255] or raises an error naming that chunk |
| Utilities.MapAll | WGenerator/Wallpaper.py:57 | `list(map(f, xs))` (and the generator inside `tuple()` on line 37) succeeds iff f succeeds on every element; then it holds f's results in order, and otherwise it gives the error of the first failing element |
| Utilities.Chunk | WGenerator/Wallpaper.py:37 | `int(h[i:i+2], 16)` for one offset: a value in [-15, 255] or an error |
| Utilities.ReadChannels | WGenerator/Wallpaper.py:37 | the generator over the offsets succeeds iff every chunk parses, then with one value per offset, value k being the parse of chunk k and in [-15, 255]; a failure carries the error of a chunk all of whose predecessors parse, i.e. the first failing one |
| Utilities.HexToRgb | WGenerator/Wallpaper.py:33-37 | a successful parse has three channels in [-15, 255] |
| Utilities.SpaceStrippedSeparatorNot | WGenerator/Wallpaper.py:37 | for every hexadecimal digit d, int() strips a space before or after d, but rejects d next to any ASCII separator U+001C to U+001F |
| Utilities.SignedDigit | WGenerator/Wallpaper.py:37 | `int('+d', 16)` is d and `int('-d', 16)` is -d for every hexadecimal digit d |
| Utilities.ShortInputFails | WGenerator/Wallpaper.py:33-37 | with fewer than five characters after the '#'s, other than the 3-character shorthand, the parse raises |
| Utilities.HashIgnored | WGenerator/Wallpaper.py:34 | adding a leading '#' does not change the result |
| Utilities.ShorthandDoubles | WGenerator/Wallpaper.py:35-36 | a 3-character input parses as its doubled 6-character form |
| Utilities.ShorthandAsLong | WGenerator/Wallpaper.py:35-37 | "#xyz" and "#xxyyzz" parse to the same colour |
| Utilities.DoubledDigitsColour | WGenerator/Wallpaper.py:37 | "#xxyyzz" parses to (17·x, 17·y, 17·z) |
| Utilities.ShorthandColour | WGenerator/Wallpaper.py:33-37 | "#xyz" parses to (17·x, 17·y, 17·z) |
| Utilities.ChannelOfDigits | WGenerator/Wallpaper.py:37 | two hexadecimal digits parse to 16·hi + lo |
| Utilities.SixDigitColour | WGenerator/Wallpaper.py:33-37 | a "#rrggbb" string parses to exactly the three base-16 byte values of its digit pairs, all in [0, 255] |
| Utilities.FormatHex | WGenerator/Wallpaper.py:33-37 | the partner of the parser: a byte colour formats as '#' plus six digits |
| Utilities.FormatThenParse | WGenerator/Wallpaper.py:33-37 | parsing a formatted byte colour gives the colour back |
| Utilities.ParseThenFormat | WGenerator/Wallpaper.py:33-37 | formatting the parse of a lower-case "#rrggbb" string gives the string back |
| Shuffle.Swap | WGenerator/Wallpaper.py:56 | one swap of the shuffle exchanges positions i and j and keeps every other position |
| Shuffle.Shuffled | WGenerator/Wallpaper.py:56 | `random.shuffle` as a function of its draws: draw k swaps position n-1-k with the drawn index; the length is kept |
| Shuffle.SwapPermutes | WGenerator/Wallpaper.py:56 | a swap keeps the multiset of elements |
| Shuffle.ShuffledPermutes | WGenerator/Wallpaper.py:56 | the shuffled list is a permutation of the input (same multiset) |
| Shuffle.ShuffledDistinct | WGenerator/Wallpaper.py:341 | a list without repetitions stays without repetitions |
| Shuffle.ShuffledAt | WGenerator/Wallpaper.py:56 | position k of the shuffled list holds the input element at Permutation[k], an index in range |
| Shuffle.PermutationIsPermutation | WGenerator/Wallpaper.py:56 | that index list mentions every position exactly once |
| Shuffle.ShuffleInPlace | WGenerator/Wallpaper.py:56 | the in-place swap loop leaves the array equal to the shuffle of its old contents |
| Palette.CatalogWellFormed | WGenerator/Wallpaper.py:41-54 | the catalog has twelve palettes, each of five "#rrggbb" colours |
| Palette.ParseAll | WGenerator/Wallpaper.py:57 | `list(map(hex_to_rgb, p))` succeeds iff every colour parses, then holds their parses in order, and otherwise raises with the first failing colour's error |
| Palette.MapShuffled | WGenerator/Wallpaper.py:56-57 | shuffling then parsing equals parsing then shuffling |
| Palette.WellFormedParses | WGenerator/Wallpaper.py:57 | every colour of a well-formed palette parses to a byte colour |
| Palette.CatalogColours | WGenerator/Wallpaper.py:41-57 | every catalog palette parses, to five byte colours |
| Palette.ChoosePalette | WGenerator/Wallpaper.py:39-57 | the result is the parse of the shuffled catalog entry: five byte colours equal to the parsed entry shuffled by the same draws, as a multiset the palette's own colours |
| Patterns.BuildGrid | WGenerator/Wallpaper.py:208-215 | the grid has gy+1 rows of gx+1 points, with point (ix, iy) at row iy, column ix |
| Patterns.Cell | WGenerator/Wallpaper.py:219-224 | the two triangles p00-p10-p11 and p00-p01-p11 of a cell; they share their first and last corners (the diagonal p00-p11) |
| Patterns.Triangulate | WGenerator/Wallpaper.py:217-225 | the nested loop produces exactly the cell-by-cell mesh, two triangles per cell in row-major order |
| Patterns.MeshRowAt | WGenerator/Wallpaper.py:218-225 | a row of c cells has 2c triangles, triangle 2·ix+b being triangle b of cell ix |
| Patterns.MeshSize | WGenerator/Wallpaper.py:217-225 | the mesh has 2·gx·gy triangles |
| Patterns.MeshCellAt | WGenerator/Wallpaper.py:217-225 | triangle 2·(iy·gx+ix)+b exists and is triangle b of cell (ix, iy): p00-p10-p11 or p00-p01-p11 |
| Patterns.MeshTriangleOfCell | WGenerator/Wallpaper.py:219-224 | conversely, every triangle is one of the two of some cell in range, and its first and last corners are that cell's p00 and p11 |
| Patterns.Range | WGenerator/Wallpaper.py:277-278 | Python's `range(start, stop, step)` for a positive step: start, start+step, … below stop; empty iff start ≥ stop |
| Patterns.RangeAt | WGenerator/Wallpaper.py:277-278 | `range(start, stop, step)` lists start + k·step, all in [start, stop), and the next value would reach stop |
| Patterns.RangeCovers | WGenerator/Wallpaper.py:277-278 | every value in [start, stop) lies less than one step after some element of the range |
| Patterns.DotRowAt | WGenerator/Wallpaper.py:278 | the dots of one row sit at the row's y and the columns in order |
| Patterns.DotRowsMembers | WGenerator/Wallpaper.py:277-281 | a centre is drawn iff its y is a row and its x a column |
| Patterns.DotRowsSize | WGenerator/Wallpaper.py:277-281 | there is one dot per row and column |
| Patterns.DotRadius | WGenerator/Wallpaper.py:275 | `max(1, spacing // 4)` is at least 1; two neighbouring dots' boxes stay apart iff spacing ≥ 3 |
| Patterns.DotOffset | WGenerator/Wallpaper.py:276 | `random.choice([0, spacing // 2])`: 0 or half a spacing, so at most half a spacing and inside the first spacing |
| Patterns.RowCentres | WGenerator/Wallpaper.py:278-281 | the inner loop produces the dots of its row at every column of the range |
| Patterns.DotCentres | WGenerator/Wallpaper.py:270-281 | a zero spacing raises (range step 0); otherwise the dots are the rows × columns grid of the two ranges, in loop order |
| Patterns.DotLayoutBounds | WGenerator/Wallpaper.py:276-281 | rows are 0, s, 2s, … and columns offset, offset+s, …; every centre is in [offset, w+s) × [0, h+s); the last row is ≥ h and the last column ≥ w |
| Patterns.DotLayoutCovers | WGenerator/Wallpaper.py:276-281 | every canvas pixel from the offset on lies less than one spacing below and right of a dot centre |
| Composer.ToRgba | WGenerator/Wallpaper.py:343 | converting to RGBA keeps the colours and makes every pixel fully opaque |
| Composer.ToRgb | WGenerator/Wallpaper.py:381 | converting to RGB keeps the colour channels and drops alpha |
| Composer.RgbaRoundTrip | WGenerator/Wallpaper.py:343-381 | converting to RGBA and back gives the image back |
| Composer.Blend | WGenerator/Wallpaper.py:352-375 | the blend keeps the image size; for every mode other than normal, each pixel keeps the composition's alpha |
| Composer.Step | WGenerator/Wallpaper.py:346-379 | one loop iteration keeps the image size |
| Composer.Composite | WGenerator/Wallpaper.py:345-379 | the composition after any number of layers keeps the canvas size |
| Composer.ComposeLayers | WGenerator/Wallpaper.py:332-381 | the applied layers are the first n of the shuffled generator list, n in [2, 4], with none repeated; the output is the flattened composition of exactly those layers over the opaque background |
| Composer.GeneratorsDistinct | WGenerator/Wallpaper.py:332-340 | the seven generators are pairwise different |
| Composer.CompositeKeepsAlpha | WGenerator/Wallpaper.py:357-375 | if no layer uses the normal mode and none is blurred, the final alpha equals the starting alpha at every pixel |
| Composer.OpaqueStaysOpaque | WGenerator/Wallpaper.py:343-375 | in that case the composition over the converted background is fully opaque at every pixel |

## Left out

- The imaging library is a parameter of the composer, not a model of it. Its
  ImageChops blend operations, `Image.blend`, `alpha_composite`, GaussianBlur
  and the pattern generators' drawing are given by the `Imaging` record. The
  model proves nothing about their pixel arithmetic.
- Floating point is not modelled. Jittered grid coordinates are an abstract
  `place(ix, iy)`. Opacities and blur radii are real numbers that are passed on
  untouched. `lerp` and the gradient backgrounds are not modelled.
- The value ranges of the random draws (`randint(6, 14)`, `uniform(0.25, 0.85)` and
  the like) are not modelled. Each draw is an unconstrained input, except the
  shuffle's swap indices, the layer count n in [2, 4] and the palette index of
  `random.choice(PALETTES)`, which is below the twelve palettes; the model uses
  all three.
- Seeding, `random_phone_size`, the background and paper texture, the other
  pattern generators, vignette, grain, the contrast and colour enhancement,
  `save_image`, `main` and the argument parsing are not modelled. They are
  randomness, I/O, or image processing in the imaging library.
- The other scripts of the repository (car, character, desert and grassland
  generators) are not part of this model.
- Utilities.ParseChannel: the model covers ASCII hexadecimal digits, a sign and
  the whitespace `int()` strips (ASCII tab, line feed, vertical tab, form feed,
  carriage return and space, and the Unicode whitespace characters from U+0080
  on). It does not cover the non-ASCII Unicode decimal digits that `int()` also
  accepts.
- Utilities.Clamp: `int()` of NaN or of an infinity raises in Python. The
  model takes x as a real number, which has neither.
- Composer.Blend: the per-pixel result of a normal-mode blend is left to the
  `over` parameter. The model does not state how alpha changes in that mode;
  it only states that the other modes keep it.
- Patterns.DotCentres: the colour and alpha drawn for each dot are not
  modelled; the model covers only the centres.
- Patterns.Triangulate: the colour and alpha drawn for each triangle and the
  final blur are not modelled; the model covers only the triangle corners.
- `pattern_dots` draws one offset for the whole layer (WGenerator/Wallpaper.py:276),
  so rows do not alternate their offset; the model has one offset (`DotOffset`).
- `compose_wallpaper` does not validate the size, so the model accepts any
  non-negative width and height. A negative size makes the imaging library
  raise before anything is drawn; that error is not modelled. A spacing of 0 (canvases
  whose shorter side is under 50 pixels) makes `range` raise ValueError, which
  the model returns as `Err(ZeroStep)`.
