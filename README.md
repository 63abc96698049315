# Cross-stitch pattern core, modelled in Dafny

The cross-stitch application turns a picture into a stitch chart and lets
the user edit that chart. This project models the deterministic part of
both: the image pipelines, which are loops over an RGBA pixel buffer, and
the edits on the chart, which is a sparse map from cells to hex colours.
It proves what each stage promises.

**Image pipelines.** Each converter is a chain of passes over a row-major
RGBA buffer:

- the professional converter: background removal, contour darkening,
  limited-palette quantization, white clean-up and the `x,y` grid of hex
  colours;
- the area-averaging resizers with a "dominant pixel" override, used by
  the KG-Chart, PCStitch and modern-web converters;
- the brightness-weighted resizer and Float32 Floyd–Steinberg dithering
  of the professional algorithm;
- the in-place byte Floyd–Steinberg dithering of the commercial
  converter;
- the PNG-optimised, simple and k-means converters;
- Sobel, Canny and outline edge detection, the Gaussian blur and the
  backstitch map;
- the external/internal contour classifier, the selective contour and the
  3×3 sharpen kernels.

Every byte store goes through one clamp-and-round function, `Pixels.Clamp`.
That function is the `Uint8ClampedArray` conversion: saturate to 0..255,
then round to nearest with ties to even. Distances whose square root the
source compares are compared as squares, and weighted distances as scaled
integers. The first-minimum palette search shared by every quantizer is
`Select`: the scan replaces its candidate only on a strictly smaller
distance, and ends on the first candidate at the least distance.

**DMC palette and colour codecs.** The 27 named DMC threads and their chart
symbols, the palette array, `hexToRgb`/`rgbToHex` with their round trip,
and nearest-thread mapping by euclidean RGB distance.

**Editor.** The `AppEditor.Editor` class holds the sparse grid, the
undo history of at most 20 snapshots and its index. Its edits are:

- undo;
- the graded three-layer shadow border around painted cells;
- the black contour toggle;
- the professional contour, which blackens exposed cells.

The canvas tools are pencil, eraser, colour lookup and the 4-connected
flood fill on the 100 × 100 board. The text tool renders text in a 3 × 5
bitmap font, one glyph per UTF-16 code unit as JavaScript's `split('')`
gives them, so a character beyond U+10000 draws as two spaces.

Images are `seq<Rgba>`, one record per pixel, where the source's byte
`4p + c` is channel `c` of pixel `p`. Grid keys `"x,y"` are `Cell(x, y)`.
Floating-point arithmetic is modelled over exact `real`s.

## Model

| member | source | states |
|---|---|---|
| CanvasTools.DrawPixel | cross-stitch-app/src/hooks/useCanvasTools.js:9-20 | the eraser removes the cell, the pencil stores the colour, any other tool returns the grid unchanged, and no other key changes |
| CanvasTools.PixelColor | cross-stitch-app/src/hooks/useCanvasTools.js:22-25 | a colour comes back exactly when the cell holds a non-empty string, and it is that string |
| CanvasTools.DrawThenRead | cross-stitch-app/src/hooks/useCanvasTools.js:9-25 | after the eraser the cell reads as empty; after the pencil it reads as the colour drawn (empty for the empty string) |
| CanvasTools.OnBoardOf | cross-stitch-app/src/hooks/useCanvasTools.js:49-51 | the kept neighbours are exactly those of the list that lie on the 100 x 100 board |
| CanvasTools.PushNeighbours | cross-stitch-app/src/hooks/useCanvasTools.js:48-52 | the stack grows by the on-board side neighbours, in the order right, left, below, above |
| CanvasTools.PushedOnBoard | cross-stitch-app/src/hooks/useCanvasTools.js:48-52 | after the pushes the stack still holds only the start cell and cells on the board |
| CanvasTools.PopVisited | cross-stitch-app/src/hooks/useCanvasTools.js:36-39 | popping a visited cell keeps the fill invariant |
| CanvasTools.PopOther | cross-stitch-app/src/hooks/useCanvasTools.js:40-43 | popping an unvisited cell of another colour marks it visited and keeps the fill invariant |
| CanvasTools.PopFill | cross-stitch-app/src/hooks/useCanvasTools.js:40-52 | recolouring an unvisited cell of the target colour and pushing its neighbours keeps the fill invariant, closure included |
| CanvasTools.TrailPop | cross-stitch-app/src/hooks/useCanvasTools.js:36-43 | popping a cell without recolouring it keeps the fill order and the record of which filled cell pushed each stacked cell |
| CanvasTools.TrailFill | cross-stitch-app/src/hooks/useCanvasTools.js:40-52 | recolouring a popped cell appends it to the fill order, which stays linked from the start, and every newly pushed cell is a side neighbour of it |
| CanvasTools.LinkedShape | cross-stitch-app/src/hooks/useCanvasTools.js:27-56 | a linked fill order starts with the start cell and lists no cell twice |
| CanvasTools.LinkedAppend | cross-stitch-app/src/hooks/useCanvasTools.js:40-52 | a new cell that is the start of an empty order, or a side neighbour of a listed cell, keeps the order linked |
| CanvasTools.WalkStep | cross-stitch-app/src/hooks/useCanvasTools.js:48-52 | a side-neighbour walk inside a region extended by one side step into the region is again such a walk |
| CanvasTools.LinkedReaches | cross-stitch-app/src/hooks/useCanvasTools.js:27-56 | every cell of a linked fill order is reached from the start by a walk over side neighbours through cells of the order |
| CanvasTools.FilledConnected | cross-stitch-app/src/hooks/useCanvasTools.js:27-56 | every recoloured cell is 4-connected to the start through recoloured cells |
| CanvasTools.FloodFill | cross-stitch-app/src/hooks/useCanvasTools.js:27-56 | unchanged grid when the start already has the new colour; otherwise the filled cells include the start, all had the start's colour, lie on the board (or are the start), are the only cells changed, and every on-board side neighbour of a filled cell with that colour is filled too; the fill order lists each filled cell once, starts at the start, and each later cell is a side neighbour of an earlier one, so every filled cell is reached from the start by a walk through filled cells |
| DmcColors.ColorsWellFormed | src/utils/dmcColors.js:2-30 | the palette has 27 colours, each a `#` and six hexadecimal digits |
| DmcColors.SymbolsCoverColors | src/utils/dmcColors.js:2-60 | every palette name has a symbol and every symbol key is a palette name |
| DmcColors.WhiteAndBlack | src/utils/dmcColors.js:3-29 | the palette starts with White `#FFFFFF` and ends with Black `#000000` |
| DmcColors.ColorArray | src/utils/dmcColors.js:62-68 | one entry per palette colour in declaration order, with its name, hex string and symbol |
| DmcColors.ColorArrayWellFormed | src/utils/dmcColors.js:62-68 | the array is not empty and every hex string is a stored colour |
| MapToDmc.Distance2 | src/utils/mapToDMC.js:14-28 | the squared distance is never negative |
| MapToDmc.DistanceSymmetric | src/utils/mapToDMC.js:14-28 | the distance does not depend on the order of the two colours |
| MapToDmc.DistanceZeroIff | src/utils/mapToDMC.js:14-28 | the distance is zero exactly when the three channels agree |
| MapToDmc.ObjectArrayAlike | src/utils/mapToDMC.js:15-21 | a colour given as an `{r, g, b}` object or as an array starting with r, g, b is at the same distance from anything |
| MapToDmc.Palette | src/utils/mapToDMC.js:35-36 | one match per palette colour, in order, with its name and hex, and the channels the hex string parses to |
| MapToDmc.NearestDmc | src/utils/mapToDMC.js:31-46 | the chosen match belongs to the palette, no palette colour is nearer, and it is the first among the nearest |
| MapToDmc.MapColorToDmc | src/utils/mapToDMC.js:31-46 | the running-minimum scan returns the first nearest palette match |
| MapToDmc.PaletteColorIsExact | src/utils/mapToDMC.js:31-46 | a palette colour maps to a match of exactly its channels |
| MapToDmc.AsObject | src/utils/mapToDMC.js:51-53 | the converted colour is an object with the same three channels |
| MapToDmc.MapColorsToDmc | src/utils/mapToDMC.js:49-57 | one match per input colour, in input order, each the nearest match of the colour in object form |
| MapToDmc.AsObjectSameMatch | src/utils/mapToDMC.js:49-57 | converting an array colour to an object does not change its match |
| Hex.DigitValue | src/utils/mapToDMC.js:7-9 | a hexadecimal digit of either case has a value below 16 |
| Hex.DigitRoundTrip | src/utils/mapToDMC.js:61 | each lower-case digit `toString(16)` prints reads back as its value |
| Hex.ToBase16 | src/utils/mapToDMC.js:61 | `toString(16)` prints at least one digit |
| Hex.ByteHex | cross-stitch-app/src/components/ImageConverteProfissional.jsx:326-329 | the two digits of a byte are hexadecimal and read back as the byte |
| Hex.PaddedBase16 | cross-stitch-app/src/components/ImageConverteProfissional.jsx:327-328 | `toString(16)` padded with a leading `0` to two characters is the two-digit form |
| Hex.ColorHex | cross-stitch-app/src/components/ImageConverteProfissional.jsx:326-329 | the colour string is a `#` followed by six characters |
| Hex.HexToRgb | src/utils/mapToDMC.js:4-11 | a result comes back exactly when the string is an optional `#` and six hexadecimal digits of either case |
| Hex.PairOfByte | src/utils/mapToDMC.js:7-9 | the two digits of a byte parse back to the byte |
| Hex.StoredColorValue | src/utils/mapToDMC.js:4-11 | a `#rrggbb` string parses to the values of its three digit pairs |
| Hex.HexRoundTrip | src/utils/mapToDMC.js:4-11 | parsing the colour string of three bytes gives the three bytes back |
| Hex.AppendDigit | src/utils/mapToDMC.js:61 | printing `16q + d` appends digit `d` to the digits of `q` |
| Hex.AppendByte | src/utils/mapToDMC.js:61 | printing `256q + v` appends the two digits of byte `v` to the digits of `q` |
| Hex.TwoByteDigits | src/utils/mapToDMC.js:61 | the digits of `(1 << 16) + (r << 8) + g` are `1` and the two digits of each byte |
| Hex.RgbDigits | src/utils/mapToDMC.js:61 | the digits of `(1 << 24) + (r << 16) + (g << 8) + b` are `1` and the two digits of each byte |
| Hex.PackedRgb | src/utils/mapToDMC.js:61 | the shifted sum equals the nested products the model prints |
| Hex.RgbToHexIsColorHex | src/utils/mapToDMC.js:59-62 | rgbToHex of bytes is `#` and two lower-case digits per channel |
| Hex.DropLeadingOne | src/utils/mapToDMC.js:61 | `slice(1)` removes exactly the leading `1` |
| Hex.RgbToHexRoundTrip | src/utils/mapToDMC.js:4-11 | hexToRgb of rgbToHex gives the three bytes back |
| TextTool.FontWellFormed | src/components/TextTool.jsx:3-31 | the font has the space glyph and every glyph is five rows of three inked or blank cells |
| TextTool.Glyph | src/components/TextTool.jsx:45 | the glyph of any character, unknown ones drawn as the space, is five rows of three cells |
| TextTool.Utf16 | src/components/TextTool.jsx:42 | a character below U+10000 is one code unit equal to it and not a surrogate; any other is a high and a low surrogate that decode back to it |
| TextTool.CodeUnits | src/components/TextTool.jsx:42 | `split('')` yields at least one code unit per character |
| TextTool.BmpUnits | src/components/TextTool.jsx:42 | text below U+10000 splits into its own characters |
| TextTool.UnitGlyph | src/components/TextTool.jsx:45 | every code unit gets a glyph of five rows of three cells, and a surrogate gets the space glyph |
| TextTool.AstralUnits | src/components/TextTool.jsx:42 | U+1F600 splits into the two surrogates `D83D` and `DE00` |
| TextTool.AstralDrawsTwoSpaces | src/components/TextTool.jsx:41-53 | U+1F600 draws as two space glyphs with a blank column between them |
| TextTool.UpperKeepsUnits | src/components/TextTool.jsx:42 | upper-casing keeps the number of code units |
| TextTool.BmpLinesWidth | src/components/TextTool.jsx:41-53 | each line of the drawing of `n > 0` characters below U+10000 is `4n - 1` cells wide |
| TextTool.Upper | src/components/TextTool.jsx:42 | an upper-cased character is an ASCII capital or the character itself |
| TextTool.UpperText | src/components/TextTool.jsx:42 | upper-casing keeps the length and maps each character |
| TextTool.Lines | src/components/TextTool.jsx:41-53 | a drawing has five lines |
| TextTool.RowLength | src/components/TextTool.jsx:44-53 | a row of `n > 0` code units is `4n - 1` cells wide |
| TextTool.RowCells | src/components/TextTool.jsx:44-53 | cell `4k + j` of a row is column `j` of the glyph of code unit `k`, and the cell between two glyphs is blank |
| TextTool.RowSnoc | src/components/TextTool.jsx:44-53 | a row of one more code unit is the shorter row, a blank cell unless the unit is the first, and the unit's glyph row |
| TextTool.AppendGlyph | src/components/TextTool.jsx:47-52 | each of the five lines gets a blank cell when the character is not the first, then the glyph's row for that line |
| TextTool.DrawLines | src/components/TextTool.jsx:41-53 | the nested loops over the code units of the upper-cased text build exactly its drawing |
| TextTool.GenerateTextPattern | src/components/TextTool.jsx:38-62 | nothing for blank text; otherwise a text pattern holding the text, its drawing, the colour and the size |
| TextTool.PreviewText | src/components/TextTool.jsx:67-85 | nothing for blank text; otherwise the drawing |
| TextTool.LinesShape | src/components/TextTool.jsx:41-53 | every line of the drawing of a text of `n > 0` code units is `4n - 1` cells, each inked or blank |
| TextTool.CaseInsensitive | src/components/TextTool.jsx:42 | upper and lower case draw alike |
| ProfessionalConverter.CrossStitchPalette | cross-stitch-app/src/components/ImageConverteProfissional.jsx:4-43 | the palette has 21 colours, black `Black-310` first and `White` fifth |
| ProfessionalConverter.RemoveBackground | cross-stitch-app/src/components/ImageConverteProfissional.jsx:87-113 | a pixel with alpha below 20 or all channels above 250 becomes transparent white; every other pixel is copied |
| ProfessionalConverter.CleanedIdempotent | cross-stitch-app/src/components/ImageConverteProfissional.jsx:96-109 | clearing twice is clearing once, and a cleared pixel is transparent white or an untouched visible pixel |
| ProfessionalConverter.ScanDiffExceeds | cross-stitch-app/src/components/ImageConverteProfissional.jsx:147-161 | the neighbour scan, with its early `break` on a transparent neighbour, ends above 80 exactly when some side neighbour is missing, transparent or differs by a channel sum above 80 |
| ProfessionalConverter.DetectAndEnhanceContours | cross-stitch-app/src/components/ImageConverteProfissional.jsx:116-171 | an interior visible pixel becomes opaque black exactly when it is a contour pixel; every other pixel is copied |
| ProfessionalConverter.WeightedDistance | cross-stitch-app/src/components/ImageConverteProfissional.jsx:180-184 | the weighted distance is zero exactly when the colour is the palette entry's |
| ProfessionalConverter.Closest | cross-stitch-app/src/components/ImageConverteProfissional.jsx:174-193 | the chosen entry is in the palette, no entry is nearer, and every earlier entry is strictly farther |
| ProfessionalConverter.FindClosestPaletteColor | cross-stitch-app/src/components/ImageConverteProfissional.jsx:174-193 | the scan returns the first nearest palette entry |
| ProfessionalConverter.QuantizeToLimitedPalette | cross-stitch-app/src/components/ImageConverteProfissional.jsx:196-234 | every pixel is replaced by the one-pixel rule: transparent white below alpha 20, black for near-black, otherwise the nearest palette colour, opaque |
| ProfessionalConverter.QuantizedIsStitchPixel | cross-stitch-app/src/components/ImageConverteProfissional.jsx:206-230 | a quantized pixel is transparent white or opaque with a palette colour, and opaque exactly when its alpha was at least 20 |
| ProfessionalConverter.PostProcess | cross-stitch-app/src/components/ImageConverteProfissional.jsx:237-285 | a bright interior visible pixel with at least four dark neighbours among the eight becomes white with its alpha kept; every other pixel is copied |
| ProfessionalConverter.WhitenedIsStitchPixel | cross-stitch-app/src/components/ImageConverteProfissional.jsx:275-279 | whitening a visible stitch pixel leaves a stitch pixel |
| ProfessionalConverter.StagesOfOnePixel | cross-stitch-app/src/components/ImageConverteProfissional.jsx:292-302 | after the four stages a pixel is a stitch pixel, and it is opaque exactly when it was not background |
| ProfessionalConverter.ProfessionalConversion | cross-stitch-app/src/components/ImageConverteProfissional.jsx:288-309 | every result pixel is transparent white or an opaque palette colour, opaque exactly when the input pixel was not background |
| ProfessionalConverter.GridValueDecodes | cross-stitch-app/src/components/ImageConverteProfissional.jsx:318-331 | a pixel gets a value exactly when its alpha is at least 20, and the value is its colour string, which parses back to its channels |
| ProfessionalConverter.ConvertToGrid | cross-stitch-app/src/components/ImageConverteProfissional.jsx:312-336 | a cell for exactly the pixels with alpha at least 20, holding `#` and two lower-case digits per channel, which parse back to the pixel's channels |
| ImageConverter.EntryRgbIsHexToRgb | cross-stitch-app/src/components/ImageConverter.jsx:76-78 | reading the three hex slices gives the channels the colour parser gives |
| ImageConverter.Manhattan | cross-stitch-app/src/components/ImageConverter.jsx:80 | the distance is zero exactly when the entry's channels are the pixel's |
| ImageConverter.ClosestDmc | cross-stitch-app/src/components/ImageConverter.jsx:71-89 | the chosen entry is in the palette, no entry is nearer, and it is the first among the nearest |
| ImageConverter.FindClosestDmc | cross-stitch-app/src/components/ImageConverter.jsx:71-89 | the running-minimum scan returns the first nearest entry |
| ImageConverter.PaletteColorIsExact | cross-stitch-app/src/components/ImageConverter.jsx:71-89 | a pixel of a palette colour finds an entry of exactly that colour |
| ImageConverter.CellHexInPalette | cross-stitch-app/src/components/ImageConverter.jsx:58-59 | every cell value is the hex string of some palette entry, and a stored colour |
| ImageConverter.PixelHex | cross-stitch-app/src/components/ImageConverter.jsx:58 | one pixel's lookup gives the cell value of that pixel |
| ImageConverter.VisitPixel | cross-stitch-app/src/components/ImageConverter.jsx:51-60 | visiting pixel (x, y) adds its cell exactly when it is not pure white, with its palette hex |
| ImageConverter.KeptStep | cross-stitch-app/src/components/ImageConverter.jsx:57-60 | passing one pixel adds that cell, when it is not pure white, and no other |
| ImageConverter.CellHexStep | cross-stitch-app/src/components/ImageConverter.jsx:59 | storing a pixel's palette hex under its cell keeps every cell's value right |
| ImageConverter.RowEnd | cross-stitch-app/src/components/ImageConverter.jsx:49-50 | the end of one row is the start of the next |
| ImageConverter.RowToGrid | cross-stitch-app/src/components/ImageConverter.jsx:50-61 | one row adds exactly the row's pixels that are not pure white, each with its palette hex |
| ImageConverter.PixelsToGrid | cross-stitch-app/src/components/ImageConverter.jsx:47-62 | the grid has a cell for exactly the pixels of the working image that are not pure white, each holding the hex string of its nearest palette entry |
| AppEditor.SavedFacts | cross-stitch-app/src/App.jsx:85-91 | after a save the history still holds 1 to 20 entries, ends with the saved grid, and the entry before it is the one that was current |
| AppEditor.SavedKeepsOrder | cross-stitch-app/src/App.jsx:86-88 | the new history is the old entries up to the current one, minus the oldest when the limit is passed, then the saved grid |
| AppEditor.UndoAfterSave | cross-stitch-app/src/App.jsx:85-99 | undoing right after a save brings back the grid that was current before it |
| AppEditor.Editor.constructor | cross-stitch-app/src/App.jsx:79-83 | the editor starts with an empty grid and a history holding one empty grid |
| AppEditor.Editor.SaveToHistory | cross-stitch-app/src/App.jsx:85-91 | the history becomes the saved history, its index names the saved grid, and the shown grid is unchanged |
| AppEditor.Editor.HandleUndo | cross-stitch-app/src/App.jsx:93-99 | nothing at the first entry; otherwise the index moves back one and the grid becomes that entry |
| AppEditor.Editor.AddBorder | cross-stitch-app/src/App.jsx:142-196 | nothing for an empty grid; otherwise the grid becomes the border grid of the three shadow layers, is saved, and the history index points at it |
| AppEditor.Editor.ToggleContour | cross-stitch-app/src/App.jsx:295-333 | nothing for an empty grid; otherwise the grid becomes the toggled grid, is saved, and the history index points at it |
| AppEditor.ShadowChannel | cross-stitch-app/src/App.jsx:168-170 | a shadow channel is never brighter than the original |
| AppEditor.TenthsBound | cross-stitch-app/src/App.jsx:168-170 | keeping a number of tenths of a channel stays between 0 and the channel |
| AppEditor.ShadowOrder | cross-stitch-app/src/App.jsx:151-155 | a lighter layer keeps more of every channel |
| AppEditor.Shadow | cross-stitch-app/src/App.jsx:162-171 | the shadow of a stored colour is a stored colour |
| AppEditor.Ring | cross-stitch-app/src/App.jsx:174-178 | eight positions at each distance |
| AppEditor.RingWrites | cross-stitch-app/src/App.jsx:180-189 | eight stores at each distance |
| AppEditor.FillEmptyKeeps | cross-stitch-app/src/App.jsx:185-188 | a painted cell is never changed, and no key appears that no store names |
| AppEditor.FillEmptyUntouched | cross-stitch-app/src/App.jsx:185-188 | a cell no store names is as it was |
| AppEditor.FillEmptyFirstWins | cross-stitch-app/src/App.jsx:185-188 | the first store to a position empty in the original grid wins |
| AppEditor.FirstTo | cross-stitch-app/src/App.jsx:185-188 | the index found is the first store to the position, or -1 when none stores there |
| AppEditor.LayerOrigin | cross-stitch-app/src/App.jsx:157-190 | every store of a layer is at that distance from a key and carries that key's shadow |
| AppEditor.LayerCovers | cross-stitch-app/src/App.jsx:157-190 | a layer stores at every position at its distance from a key |
| AppEditor.LayersOrigin | cross-stitch-app/src/App.jsx:157-191 | every store of the first layers comes from one of them |
| AppEditor.LayersPrefix | cross-stitch-app/src/App.jsx:157-191 | the first layers' stores are a prefix of all the stores |
| AppEditor.LayerAt | cross-stitch-app/src/App.jsx:157-191 | the stores of a layer follow those of the layers before it |
| AppEditor.LayersColored | cross-stitch-app/src/App.jsx:171-187 | every shadow store has a non-empty colour |
| AppEditor.NotInLayers | cross-stitch-app/src/App.jsx:157-191 | the first layers store nowhere that is not within their distances of a key |
| AppEditor.CoverIndex | cross-stitch-app/src/App.jsx:157-191 | a position at distance `d` from a key is stored within layer `d`'s span |
| AppEditor.EarlyStoreElsewhere | cross-stitch-app/src/App.jsx:157-191 | no store before layer `d` reaches a position at no smaller distance than `d` from every key |
| AppEditor.FirstInLayer | cross-stitch-app/src/App.jsx:157-191 | the first store to such a position lies in layer `d` |
| AppEditor.BorderLayerWins | cross-stitch-app/src/App.jsx:150-191 | the nearer layer wins: an empty position at least distance `d` from every key, and exactly `d` from one, takes a layer-`d` shadow of a key at that distance |
| AppEditor.StoreOfLayer | cross-stitch-app/src/App.jsx:157-191 | a store within layer `d`'s span is a layer-`d` shadow of a key |
| AppEditor.BorderOnlyNear | cross-stitch-app/src/App.jsx:174-189 | the border adds a position only at distance 1, 2 or 3 from a key |
| AppEditor.BorderGrid | cross-stitch-app/src/App.jsx:148-191 | the loops over layers, keys and directions build the border grid, which holds only stored colours |
| AppEditor.KeyOrderKeys | cross-stitch-app/src/App.jsx:158 | the keys in iteration order of a grid of stored colours are its keys |
| AppEditor.FillEmptyPrefix | cross-stitch-app/src/App.jsx:185-188 | one more store on a prefix of the stores |
| AppEditor.BorderColors | cross-stitch-app/src/App.jsx:148-191 | the border grid holds only stored colours |
| AppEditor.FillEmptyColors | cross-stitch-app/src/App.jsx:185-188 | storing stored colours into a grid of stored colours keeps it so |
| AppEditor.NeighboursSymmetric | cross-stitch-app/src/App.jsx:309-311 | side neighbourhood is symmetric |
| AppEditor.ToggledColors | cross-stitch-app/src/App.jsx:326-328 | the toggled grid of a grid of stored colours holds stored colours |
| AppEditor.SpotScanMember | cross-stitch-app/src/App.jsx:305-323 | after the first keys, the spots are the empty positions next to one of them |
| AppEditor.ContourSpots | cross-stitch-app/src/App.jsx:302-323 | the spot set is exactly the empty positions next to some key |
| AppEditor.PaintSpots | cross-stitch-app/src/App.jsx:301-328 | every spot becomes black and every other cell is copied |
| AppEditor.ToggledGrid | cross-stitch-app/src/App.jsx:301-328 | the result is the toggled grid: every key kept, the contour spots added in black |
| AppEditor.ContourScanKeys | cross-stitch-app/src/App.jsx:268-289 | the scan adds no key |
| AppEditor.ContourScanValue | cross-stitch-app/src/App.jsx:271-289 | after the first keys, each of them has its contour colour and every other key its own |
| AppEditor.AddProfessionalContour | cross-stitch-app/src/App.jsx:255-293 | the same keys; every cell with an empty side neighbour in the original becomes black, the others keep their colour |
| AppEditor.ProfessionalContour | cross-stitch-app/src/App.jsx:255-293 | the contour keeps the keys |
| AppEditor.ProfessionalContourIdempotent | cross-stitch-app/src/App.jsx:255-293 | over a grid without empty strings, applying the contour twice is applying it once |
| AppEditor.SameBorder | cross-stitch-app/src/App.jsx:280-283 | over a grid without empty strings the contour leaves every neighbourhood judged as before |
| AppEditor.PaintedKept | cross-stitch-app/src/App.jsx:280-286 | the contour paints exactly the cells that were painted |
| Commercial.QuantizeColors | cross-stitch-app/src/utils/commercialAlgorithm.js:71-88 | every pixel gets each colour channel at its four-wide level and keeps its alpha |
| Commercial.Quantize4Facts | cross-stitch-app/src/utils/commercialAlgorithm.js:81-83 | a quantized channel is a multiple of 4 or 255 and lies within 2 of the input; quantizing twice is quantizing once |
| Commercial.AddError | cross-stitch-app/src/utils/commercialAlgorithm.js:108-116 | adding an error share to a byte changes only that channel and never the alpha |
| Commercial.AddErrorAt | cross-stitch-app/src/utils/commercialAlgorithm.js:108-116 | one error store changes only its target pixel |
| Commercial.SpreadShares | cross-stitch-app/src/utils/commercialAlgorithm.js:106-118 | from a source pixel the right, lower left, lower and lower right pixels take 7, 3, 5 and 1 sixteenths of the error; every other pixel is unchanged |
| Commercial.SpreadForward | cross-stitch-app/src/utils/commercialAlgorithm.js:106-118 | the spread never reaches the current pixel or one before it |
| Commercial.SpreadKeepsOthers | cross-stitch-app/src/utils/commercialAlgorithm.js:99-118 | spreading a channel's error changes no other channel |
| Commercial.SpreadError | cross-stitch-app/src/utils/commercialAlgorithm.js:106-118 | the four guarded stores in place give the spread of the old buffer |
| Commercial.DitherChannel | cross-stitch-app/src/utils/commercialAlgorithm.js:100-118 | one channel of one pixel in place gives the channel step of the old buffer |
| Commercial.FloydSteinbergDither | cross-stitch-app/src/utils/commercialAlgorithm.js:91-124 | the nested in-place loops over a copy give the scan of all visits |
| Commercial.ChannelStepOthers | cross-stitch-app/src/utils/commercialAlgorithm.js:99-118 | a channel step changes no other channel, alpha included |
| Commercial.ChannelStepForward | cross-stitch-app/src/utils/commercialAlgorithm.js:100-104 | a channel step leaves the earlier pixels alone and sets its channel to the sixteen-step level |
| Commercial.ChannelStepShares | cross-stitch-app/src/utils/commercialAlgorithm.js:100-118 | a later pixel takes its weighted share of the error measured against the unsaturated multiple of 16 |
| Commercial.ChannelsFacts | cross-stitch-app/src/utils/commercialAlgorithm.js:99-119 | after the first channels of a pixel: alpha kept, earlier pixels kept, those channels quantized, the rest untouched |
| Commercial.PixelStepAlpha | cross-stitch-app/src/utils/commercialAlgorithm.js:95-120 | no visit changes an alpha byte |
| Commercial.PixelStepForward | cross-stitch-app/src/utils/commercialAlgorithm.js:95-120 | a visit quantizes a source pixel and changes no earlier pixel |
| Commercial.RunFacts | cross-stitch-app/src/utils/commercialAlgorithm.js:95-121 | the scan keeps every alpha byte, and a visited pixel no longer changes |
| Commercial.DitheredFacts | cross-stitch-app/src/utils/commercialAlgorithm.js:91-124 | the result keeps every alpha byte; a source pixel ends as the sixteen-step level of its value when reached, each channel 0, 16, ..., 240 or 255 |
| Commercial.ThreeByTwoRun | cross-stitch-app/src/utils/commercialAlgorithm.js:95-96 | on a 3 x 2 image the only source pixel is the middle of the top row |
| Commercial.ThreeByTwoShare | cross-stitch-app/src/utils/commercialAlgorithm.js:110-113 | on a 3 x 2 image the lower left pixel takes 3/16 of that pixel's error |
| Commercial.EdgesKeepError | cross-stitch-app/src/utils/commercialAlgorithm.js:95-118 | border pixels are never quantized yet take error: grey 20 gives 16 at the source and 21 at the lower left |
| Commercial.EnhanceEdges | cross-stitch-app/src/utils/commercialAlgorithm.js:127-158 | interior pixels get the clamped, rounded cross kernel -0.5/3; the border and every alpha byte are copied |
| Commercial.EnhanceEdgesKeepsFlat | cross-stitch-app/src/utils/commercialAlgorithm.js:132-136 | the kernel's weights sum to one, so a flat neighbourhood keeps its value |
| Commercial.CommercialStages | cross-stitch-app/src/utils/commercialAlgorithm.js:14-24 | quantize, dither, enhance: alpha is kept and the border holds the dithered pixels |
| Commercial.ConvertToCommercialCrossStitch | cross-stitch-app/src/utils/commercialAlgorithm.js:8-68 | the resize, whose blend is that of simpleResize, then the three stages: one pixel per target cell with the resized alpha |
| Dominant.Scores | cross-stitch-app/src/utils/kgChartAlgorithm.js:51 | one score per footprint cell, in visiting order |
| Dominant.PixelsOf | cross-stitch-app/src/utils/kgChartAlgorithm.js:45-49 | one pixel per footprint cell, in visiting order |
| Dominant.VisitSummarises | cross-stitch-app/src/utils/kgChartAlgorithm.js:60-63 | one visit keeps the best score the greatest positive score so far and the kept pixel that of its first occurrence |
| Dominant.TallyFacts | cross-stitch-app/src/utils/kgChartAlgorithm.js:37-65 | over a footprint the best score is the greatest score when one is positive, 0 otherwise; the kept pixel is that of the first cell holding it, or the placeholder |
| Dominant.TallySums | cross-stitch-app/src/utils/kgChartAlgorithm.js:53-57 | channel sums lie between the least and the greatest channel value times the count |
| Dominant.MeanBetween | cross-stitch-app/src/utils/kgChartAlgorithm.js:78-81 | a rounded mean lies in any byte range holding every summed value |
| Dominant.EmitBetween | cross-stitch-app/src/utils/kgChartAlgorithm.js:67-82 | when the dominant pixel is not chosen, each emitted channel lies between the footprint's least and greatest value of it |
| Dominant.EmitSpec | cross-stitch-app/src/utils/kgChartAlgorithm.js:67-82 | the emitted pixel is the first pixel with the greatest score when the criterion holds, the means otherwise; every cell is counted |
| Dominant.RatioTest | cross-stitch-app/src/utils/kgChartAlgorithm.js:70-71 | comparing the best score with the mean times a ratio is the integer comparison `den * best * count > num * sum` |
| Dominant.ScaleLess | cross-stitch-app/src/utils/kgChartAlgorithm.js:70-71 | scaling by a positive number keeps an order |
| Dominant.NonNegativeSums | cross-stitch-app/src/utils/kgChartAlgorithm.js:53-56 | channel sums are never negative |
| KgChart.KgResize | cross-stitch-app/src/utils/kgChartAlgorithm.js:23-87 | one target pixel per cell, each the resized pixel of its footprint |
| KgChart.KgCriterion | cross-stitch-app/src/utils/kgChartAlgorithm.js:70-71 | the integer criterion is the comparison of the greatest intensity with 1.3 times the mean intensity |
| KgChart.KgResizedPixel | cross-stitch-app/src/utils/kgChartAlgorithm.js:29-83 | a target pixel is the first brightest pixel of its footprint, alpha included, when the criterion holds, and the rounded means otherwise; over a non-empty source the footprint is not empty |
| KgChart.PositiveBest | cross-stitch-app/src/utils/kgChartAlgorithm.js:60-71 | the criterion holds only with a positive greatest intensity |
| KgChart.EnhanceDefinition | cross-stitch-app/src/utils/kgChartAlgorithm.js:116-147 | interior pixels get the clamped, rounded cross kernel -0.1/1.4; the border and every alpha byte are copied |
| KgChart.EnhanceKeepsFlat | cross-stitch-app/src/utils/kgChartAlgorithm.js:121-125 | the kernel's weights sum to one, so a flat neighbourhood keeps its value |
| KgChart.KgChartConversion | cross-stitch-app/src/utils/kgChartAlgorithm.js:6-20 | one output pixel per target cell, each with the resized alpha |
| Pcstitch.SideDiff | cross-stitch-app/src/utils/pcstitchAlgorithm.js:149 | the summed channel differences are the difference of the two intensities |
| Pcstitch.SideDiffAntisymmetric | cross-stitch-app/src/utils/pcstitchAlgorithm.js:145-157 | swapping the two sides negates the difference, and a pixel against itself gives 0 |
| Pcstitch.SwappedGradients | cross-stitch-app/src/utils/pcstitchAlgorithm.js:145-157 | exchanging the left and right neighbours negates the horizontal gradient and keeps the vertical one |
| Pcstitch.IntelligentReduction | cross-stitch-app/src/utils/pcstitchAlgorithm.js:160-222 | one target pixel per cell, each the reduced pixel of its block |
| Pcstitch.PcCriterion | cross-stitch-app/src/utils/pcstitchAlgorithm.js:206 | the integer criterion is the comparison of the greatest intensity with 1.5 times the mean intensity |
| Pcstitch.BlockArea | cross-stitch-app/src/utils/pcstitchAlgorithm.js:168-180 | the cells of a floored block are as many as its area |
| Pcstitch.BestPositive | cross-stitch-app/src/utils/pcstitchAlgorithm.js:206 | the criterion only holds with a positive greatest intensity, so the kept pixel was found in the block |
| Pcstitch.ReducedPixel | cross-stitch-app/src/utils/pcstitchAlgorithm.js:166-218 | a reduced pixel counts every pixel of its floored block, and is the block's first brightest pixel when the criterion holds and the rounded means otherwise |
| Pcstitch.SupersampledBlocks | cross-stitch-app/src/utils/pcstitchAlgorithm.js:10-16 | reading an image four times the target size, every output pixel tallies exactly 16 pixels |
| Pcstitch.OptimizeForCrossStitch | cross-stitch-app/src/utils/pcstitchAlgorithm.js:225-256 | interior pixels get the clamped, rounded cross kernel -0.25/2; the border and every alpha byte are copied |
| Pcstitch.OptimizeKeepsFlat | cross-stitch-app/src/utils/pcstitchAlgorithm.js:230-234 | the kernel's weights sum to one, so a flat neighbourhood keeps its value |
| EdgeDetection.GrayIsRoundedLuma | cross-stitch-app/src/utils/edgeDetection.js:24-31 | the grey byte is the rounded luma `0.299 r + 0.587 g + 0.114 b`, and a grey pixel keeps its level |
| EdgeDetection.GrayImage | cross-stitch-app/src/utils/edgeDetection.js:24-31 | one grey byte per pixel |
| EdgeDetection.SobelEdges | cross-stitch-app/src/utils/edgeDetection.js:21-51 | one edge byte per pixel |
| EdgeDetection.SobelEdgeDetection | cross-stitch-app/src/utils/edgeDetection.js:8-52 | the luma loop and the interior gradient loops over a zeroed buffer give the Sobel map |
| EdgeDetection.GraySampleIsLuma | cross-stitch-app/src/utils/edgeDetection.js:30 | the grey sample at a pixel is its luma |
| EdgeDetection.GradientsAreLumaDifferences | cross-stitch-app/src/utils/edgeDetection.js:9-44 | the two kernel sums are the weighted right-minus-left and bottom-minus-top luma differences |
| EdgeDetection.GradXIsLuma | cross-stitch-app/src/utils/edgeDetection.js:9-13 | the horizontal kernel sum is the weighted right-minus-left luma difference |
| EdgeDetection.GradYIsLuma | cross-stitch-app/src/utils/edgeDetection.js:15-19 | the vertical kernel sum is the weighted bottom-minus-top luma difference |
| EdgeDetection.SobelEdgesSpec | cross-stitch-app/src/utils/edgeDetection.js:34-48 | the map holds only 0 and 255 with a zero frame; inside, a pixel is an edge exactly when the squared gradient exceeds 2500 |
| EdgeDetection.Blurred | cross-stitch-app/src/utils/edgeDetection.js:87 | one pixel per input pixel |
| EdgeDetection.GaussianBlur | cross-stitch-app/src/utils/edgeDetection.js:79-114 | a zeroed buffer whose interior pixels get the blurred value of all four channels |
| EdgeDetection.BlurChannelSpec | cross-stitch-app/src/utils/edgeDetection.js:80-109 | a blurred channel is the 1-2-1 weighted sum over 16 stored as a byte; a uniform neighbourhood is kept |
| EdgeDetection.CannyEdges | cross-stitch-app/src/utils/edgeDetection.js:63 | one byte per pixel |
| EdgeDetection.CannyEdgeDetection | cross-stitch-app/src/utils/edgeDetection.js:55-76 | blur, Sobel, then 255 above the high threshold, 128 above the low one, 0 otherwise |
| EdgeDetection.CannyDefaultsAreSobel | cross-stitch-app/src/utils/edgeDetection.js:55-76 | with the thresholds 50 and 150 no weak edge appears: Canny is Sobel on the blurred image |
| EdgeDetection.OutlineEdges | cross-stitch-app/src/utils/edgeDetection.js:134 | one byte per pixel |
| EdgeDetection.DetectOutlineOnly | cross-stitch-app/src/utils/edgeDetection.js:133-179 | the pixel loop gives the outline map |
| EdgeDetection.OutlineSpec | cross-stitch-app/src/utils/edgeDetection.js:146-174 | every frame pixel is an outline pixel; an interior pixel is one exactly when a side neighbour's colour differs by more than 300 |
| EdgeDetection.OutlineIgnoresAlpha | cross-stitch-app/src/utils/edgeDetection.js:140-163 | alpha is never read: images with the same colours have the same outline |
| EdgeDetection.EdgesToBackstitch | cross-stitch-app/src/utils/edgeDetection.js:117-130 | the keys are exactly the cells whose edge value is above 0, each mapped to true |
| EdgeDetection.ProcessImageProfessional | cross-stitch-app/src/utils/edgeDetection.js:182-207 | "outline" and "canny" pick those detectors and any other name picks Sobel; the backstitch keys are the nonzero edges |
| Footprints.FootprintIsScaled | cross-stitch-app/src/utils/kgChartAlgorithm.js:26-35 | the footprint's ends are `Math.floor(x * scale)` and `Math.ceil((x + 1) * scale)` capped at the source size, in each direction |
| Footprints.FootprintInSource | cross-stitch-app/src/utils/kgChartAlgorithm.js:32-35 | each footprint of a target pixel lies inside the source, and is not empty when the source is not |
| Footprints.RectCellsLength | cross-stitch-app/src/utils/kgChartAlgorithm.js:43-57 | the loops over a footprint count its area |
| Footprints.BlockFootprintIsScaled | cross-stitch-app/src/utils/pcstitchAlgorithm.js:163-171 | the block's ends are `Math.floor(x * blockWidth)` and `Math.floor((x + 1) * blockWidth)`, in each direction |
| Footprints.BlockFootprintInSource | cross-stitch-app/src/utils/pcstitchAlgorithm.js:168-171 | each block lies inside the source although it is not capped |
| Footprints.BlocksOfFour | cross-stitch-app/src/utils/pcstitchAlgorithm.js:10-16 | with a source four times the target, every block is the 4 x 4 square at `(4x, 4y)`: 16 pixels |
| KMeans.Distance2 | cross-stitch-app/src/utils/kmeans.js:61-67 | the squared distance is zero exactly for equal colours |
| KMeans.Distance2Symmetric | cross-stitch-app/src/utils/kmeans.js:61-67 | the distance is symmetric |
| KMeans.ClusterMembers | cross-stitch-app/src/utils/kmeans.js:16-29 | a colour is in cluster `j` exactly when it is one of the pixels and centroid `j` is the first nearest to it |
| KMeans.AssignClusters | cross-stitch-app/src/utils/kmeans.js:14-29 | one cluster per centroid, each holding, in pixel order, the pixels whose scan ends on that centroid |
| KMeans.ChannelSumRange | cross-stitch-app/src/utils/kmeans.js:35-39 | a channel sum of values within a range lies within that range times the count |
| KMeans.MeanChannel | cross-stitch-app/src/utils/kmeans.js:41-45 | the rounded mean is the integer nearest the sum over the count, halves rounded up |
| KMeans.MeanInRange | cross-stitch-app/src/utils/kmeans.js:41-45 | a mean channel lies within any range that holds the cluster's values |
| KMeans.MeanOfCopies | cross-stitch-app/src/utils/kmeans.js:35-45 | a cluster of copies of one colour has that colour as its mean |
| KMeans.Step | cross-stitch-app/src/utils/kmeans.js:14-46 | a round keeps the number of centroids |
| KMeans.ConvergedIff | cross-stitch-app/src/utils/kmeans.js:49-51 | centroids are whole colours, so "every centroid moved less than 1" holds exactly when nothing moved |
| KMeans.Run | cross-stitch-app/src/utils/kmeans.js:12-56 | the rounds keep the number of centroids |
| KMeans.RunFixedPoint | cross-stitch-app/src/utils/kmeans.js:49-55 | centroids a round leaves in place stay there |
| KMeans.SingleStep | cross-stitch-app/src/utils/kmeans.js:14-46 | with one centroid a round moves it to the mean of all pixels |
| KMeans.SingleCentroid | cross-stitch-app/src/utils/kmeans.js:12-56 | one centroid ends at the mean of all pixels, whatever its start and however many rounds |
| KMeans.SingletonCluster | cross-stitch-app/src/utils/kmeans.js:16-29 | with one centroid every pixel joins it |
| KMeans.ClusterMean | cross-stitch-app/src/utils/kmeans.js:35-45 | the reduce and the rounded division give the cluster's mean |
| KMeans.NewCentroids | cross-stitch-app/src/utils/kmeans.js:32-46 | each cluster's mean, or the first current centroid for an empty cluster: the round's new centroids |
| KMeans.AllConverged | cross-stitch-app/src/utils/kmeans.js:49-51 | the `every` decides the convergence test |
| KMeans.RunStep | cross-stitch-app/src/utils/kmeans.js:53-55 | one round replaces the centroids and stops when it converged |
| KMeans.RunZero | cross-stitch-app/src/utils/kmeans.js:12 | no rounds leave the centroids as they were |
| KMeans.KMeansColors | cross-stitch-app/src/utils/kmeans.js:2-59 | no pixels give no centroids; otherwise the centroids after at most the given rounds, stopping at the first round that converged |
| KMeans.QuantizedFacts | cross-stitch-app/src/utils/kmeans.js:79-94 | the colour taken is in the palette, none is nearer, and the alpha is the pixel's own |
| KMeans.PaletteColorKept | cross-stitch-app/src/utils/kmeans.js:79-94 | a pixel of a palette colour keeps it |
| KMeans.QuantizedIdempotent | cross-stitch-app/src/utils/kmeans.js:79-94 | quantizing twice gives what quantizing once gives |
| KMeans.QuantizeImage | cross-stitch-app/src/utils/kmeans.js:69-98 | one pixel per pixel, each the first nearest palette colour with its own alpha |
| Levels.LevelFacts | cross-stitch-app/src/utils/commercialAlgorithm.js:81-83 | a level is a multiple of the step or the saturated 255, within half a step of the input |
| Levels.Level16Values | cross-stitch-app/src/utils/commercialAlgorithm.js:101-104 | with sixteen-wide steps the stored values are 0, 16, ..., 240 and 255 |
| Levels.LevelIdempotent | cross-stitch-app/src/utils/commercialAlgorithm.js:81-83 | quantizing twice is quantizing once |
| Kernels.SharpenSum | cross-stitch-app/src/utils/professionalContour.js:172-176 | the -1/9 kernel sum is nine times the centre less its eight neighbours |
| Kernels.GaussSum | cross-stitch-app/src/utils/edgeDetection.js:80-84 | the 1-2-1 kernel sum written out: four times the centre, twice the sides, once the corners |
| Kernels.SobelSums | cross-stitch-app/src/utils/edgeDetection.js:9-19 | the Sobel sums are right column less left column and bottom row less top row, the middle counting twice |
| Kernels.CrossSum | cross-stitch-app/src/utils/commercialAlgorithm.js:132-150 | a cross-shaped kernel sums to the centre weight times the centre less the side weight times the four sides |
| Sharpen.CrossChannelSpec | cross-stitch-app/src/utils/kgChartAlgorithm.js:131-142 | the stored channel is the kernel sum rounded and cut to 0..255 |
| Sharpen.FlatIsKept | cross-stitch-app/src/utils/kgChartAlgorithm.js:121-125 | a cross kernel whose weights sum to one keeps a flat neighbourhood |
| Sharpen.CrossSharpen | cross-stitch-app/src/utils/modernWebAlgorithm.js:211-241 | the border and every alpha byte are copied, interior pixels take the rounded, cut kernel sum |
| ModernWeb.ClampCoord | cross-stitch-app/src/utils/modernWebAlgorithm.js:132-133 | a coordinate is pulled onto a non-empty image |
| ModernWeb.MaxDiff | cross-stitch-app/src/utils/modernWebAlgorithm.js:136-137 | the running maximum of channel-difference sums is at most 765 |
| ModernWeb.MaxDiffSnoc | cross-stitch-app/src/utils/modernWebAlgorithm.js:137 | one more neighbour replaces the maximum only when its difference is greater |
| ModernWeb.MaxDiffIsMax | cross-stitch-app/src/utils/modernWebAlgorithm.js:125-139 | the running maximum bounds every difference and, when positive, is one of them |
| ModernWeb.LocalContrast | cross-stitch-app/src/utils/modernWebAlgorithm.js:119-142 | the contrast is at most 765 |
| ModernWeb.CalculateLocalContrast | cross-stitch-app/src/utils/modernWebAlgorithm.js:119-142 | the loops over the 3 x 3 block that skip the centre give the local contrast, at most 765 |
| ModernWeb.ContrastIsMax | cross-stitch-app/src/utils/modernWebAlgorithm.js:128-141 | every difference to the eight surrounding cells is at most the contrast, and a positive contrast is one of them |
| ModernWeb.IntelligentResize | cross-stitch-app/src/utils/modernWebAlgorithm.js:54-116 | one target pixel per cell, each the resized pixel of its footprint |
| ModernWeb.ModernResizedPixel | cross-stitch-app/src/utils/modernWebAlgorithm.js:60-112 | a target pixel is the footprint's first pixel of greatest contrast, alpha included, when that contrast exceeds 50, and the rounded means otherwise; the footprint is not empty over a non-empty source |
| ModernWeb.OptimizedQuantization | cross-stitch-app/src/utils/modernWebAlgorithm.js:191-208 | every colour channel at its sixteen-step level, alpha copied |
| ModernWeb.Quantize16Facts | cross-stitch-app/src/utils/modernWebAlgorithm.js:201-203 | quantized channels are 0, 16, ..., 240 or 255, within 8 of the input, and quantizing again changes nothing |
| ModernWeb.PostProcessForSharpness | cross-stitch-app/src/utils/modernWebAlgorithm.js:211-241 | the border and every alpha are kept; each interior channel is `round(2c - 0.25 * (four sides))` cut to 0..255 |
| ModernWeb.ModernWebConversion | cross-stitch-app/src/utils/modernWebAlgorithm.js:6-23 | one pixel per target cell whose alpha is that of the resized boosted image; the border keeps the sixteen-step values |
| PngOptimized.PreprocessForPng | cross-stitch-app/src/utils/pngOptimizedAlgorithm.js:21-52 | light pixels keep their colour exactly, the others take the boosted colour, and every alpha becomes 255 |
| PngOptimized.LevelIndex | cross-stitch-app/src/utils/pngOptimizedAlgorithm.js:135-139 | the level index `Math.round(v / (255 / 31))` lies in 0..31 and is the rounded quotient of `31 v` by 255 |
| PngOptimized.Level32Facts | cross-stitch-app/src/utils/pngOptimizedAlgorithm.js:132-142 | a 32-level channel lies within 4 of the input, and quantizing it again changes nothing |
| PngOptimized.CrossStitchQuantization | cross-stitch-app/src/utils/pngOptimizedAlgorithm.js:104-129 | near-white pixels become white, the others take 32 levels per channel, and every alpha becomes 255 |
| PngOptimized.QuantizePixelFacts | cross-stitch-app/src/utils/pngOptimizedAlgorithm.js:113-125 | a quantized pixel is opaque and each channel is 255 or within 4 of the input at a level a second quantization keeps |
| PngOptimized.SharpenForPng | cross-stitch-app/src/utils/pngOptimizedAlgorithm.js:147-192 | the interior takes nine times the channel less the eight neighbours, cut to 0..255; the border pixels' colours are copied; every alpha ends at 255 |
| PngOptimized.DiffTotalBound | cross-stitch-app/src/utils/pngOptimizedAlgorithm.js:215-217 | each counted neighbour adds at most 765 to the total |
| PngOptimized.PixelContrast | cross-stitch-app/src/utils/pngOptimizedAlgorithm.js:195-223 | the contrast lies in 0..1, and is 0 with no neighbour on the image |
| PngOptimized.VisitedStep | cross-stitch-app/src/utils/pngOptimizedAlgorithm.js:204-209 | the loops pass every cell of the 3 x 3 block except the centre |
| PngOptimized.CalculatePixelContrast | cross-stitch-app/src/utils/pngOptimizedAlgorithm.js:195-223 | the guarded loops give the pixel contrast, within 0..1 |
| PngOptimized.ContrastSnoc | cross-stitch-app/src/utils/pngOptimizedAlgorithm.js:209-218 | one more cell adds its difference and counts exactly when it lies on the image |
| PngOptimized.LonePixelContrast | cross-stitch-app/src/utils/pngOptimizedAlgorithm.js:222 | a lone pixel has contrast 0 |
| PngOptimized.ContrastWeight | cross-stitch-app/src/utils/pngOptimizedAlgorithm.js:81-82 | every weight lies in 1..3 |
| PngOptimized.IntelligentResize | cross-stitch-app/src/utils/pngOptimizedAlgorithm.js:55-101 | one target pixel per cell, each the contrast-weighted mean of its footprint |
| PngOptimized.WeightAtLeastCount | cross-stitch-app/src/utils/pngOptimizedAlgorithm.js:73-89 | the total weight is at least the number of pixels summed |
| PngOptimized.ResizedOpaque | cross-stitch-app/src/utils/pngOptimizedAlgorithm.js:91-96 | over a non-empty source every target pixel is written and opaque |
| PngOptimized.PngOptimizedConversion | cross-stitch-app/src/utils/pngOptimizedAlgorithm.js:4-18 | the result has the target size and is opaque everywhere |
| ProfessionalAlgorithm.AlgorithmPalette | cross-stitch-app/src/utils/professionalAlgorithm.js:17-46 | 48 colours, white first and black tenth |
| ProfessionalAlgorithm.IntelligentResize | cross-stitch-app/src/utils/professionalAlgorithm.js:49-95 | one target pixel per cell, each the weighted mean of its footprint |
| ProfessionalAlgorithm.AddPixelBounds | cross-stitch-app/src/utils/professionalAlgorithm.js:75-81 | adding a pixel raises the weight by at least 1 and keeps the sums within the channel range times the weight |
| ProfessionalAlgorithm.MeanStep | cross-stitch-app/src/utils/professionalAlgorithm.js:78-81 | adding `k` copies of a value within a range keeps a sum within that range times the weight |
| ProfessionalAlgorithm.SumBounds | cross-stitch-app/src/utils/professionalAlgorithm.js:65-83 | the footprint's total weight is at least its pixel count, and each weighted sum lies within the channel range times the weight |
| ProfessionalAlgorithm.ResizedChannelBounds | cross-stitch-app/src/utils/professionalAlgorithm.js:55-91 | over a non-empty source a target pixel is opaque and each channel lies between the footprint's least and greatest value of it |
| ProfessionalAlgorithm.FootprintCells | cross-stitch-app/src/utils/professionalAlgorithm.js:67-68 | the loops visit only cells of the footprint |
| ProfessionalAlgorithm.MeanBounds | cross-stitch-app/src/utils/professionalAlgorithm.js:85-90 | the rounded weighted mean lies within the channel range and the pixel is opaque |
| ProfessionalAlgorithm.FindClosestColor | cross-stitch-app/src/utils/professionalAlgorithm.js:164-187 | the first palette colour at the least weighted distance |
| ProfessionalAlgorithm.AddAt | cross-stitch-app/src/utils/professionalAlgorithm.js:130-155 | one error update changes only its target pixel |
| ProfessionalAlgorithm.DiffuseShares | cross-stitch-app/src/utils/professionalAlgorithm.js:130-156 | every pixel receives exactly its share of the error: 7/16 to the right, 3/16 lower left, 5/16 below and 1/16 lower right, each only when it exists |
| ProfessionalAlgorithm.DiffuseForward | cross-stitch-app/src/utils/professionalAlgorithm.js:130-156 | the pixels already visited, the current one included, receive nothing |
| ProfessionalAlgorithm.DitherRun | cross-stitch-app/src/utils/professionalAlgorithm.js:108-158 | the working copy keeps its size |
| ProfessionalAlgorithm.DitheredAt | cross-stitch-app/src/utils/professionalAlgorithm.js:119-122 | every output pixel is opaque |
| ProfessionalAlgorithm.DitherVisit | cross-stitch-app/src/utils/professionalAlgorithm.js:110-156 | one visit writes the nearest palette colour to the working value and its spread error gives the next working copy |
| ProfessionalAlgorithm.DitheredInPalette | cross-stitch-app/src/utils/professionalAlgorithm.js:117-122 | every dithered pixel has the RGB of a palette colour |
| ProfessionalAlgorithm.DiffuseError | cross-stitch-app/src/utils/professionalAlgorithm.js:130-156 | the four guarded updates in place give the diffusion of the old working copy |
| ProfessionalAlgorithm.CopyToFloat | cross-stitch-app/src/utils/professionalAlgorithm.js:99-106 | a fresh working copy of the channels |
| ProfessionalAlgorithm.DitherPixel | cross-stitch-app/src/utils/professionalAlgorithm.js:110-156 | one visit in place continues the run and returns the colour written |
| ProfessionalAlgorithm.FloydSteinbergDithering | cross-stitch-app/src/utils/professionalAlgorithm.js:98-161 | pixel `p` of the output is the palette colour nearest to its working value when the scan reaches it, opaque |
| ProfessionalAlgorithm.DitheredImageInPalette | cross-stitch-app/src/utils/professionalAlgorithm.js:98-161 | every pixel of the dithered image is opaque and has the RGB of a palette colour |
| ProfessionalAlgorithm.EnhanceDetails | cross-stitch-app/src/utils/professionalAlgorithm.js:190-244 | a bright pixel with at least three dark in-bounds cells in its block turns white; every other pixel keeps its RGB; every alpha becomes 255 |
| ProfessionalAlgorithm.ProfessionalConversion | cross-stitch-app/src/utils/professionalAlgorithm.js:3-14 | one pixel per target cell, each opaque and of a palette colour |
| ProfessionalContour.DetectExternalEdges | cross-stitch-app/src/utils/professionalContour.js:28-67 | the keys are exactly the visible pixels with a side neighbour off the image or not visible, each tagged external |
| ProfessionalContour.VisibleBorderIsExternal | cross-stitch-app/src/utils/professionalContour.js:44-48 | a visible pixel of the first or last row or column is always on the silhouette |
| ProfessionalContour.MaxOfExceeds | cross-stitch-app/src/utils/professionalContour.js:108-109 | `Math.max(...xs) > t` exactly when some item exceeds `t`; false for an empty list |
| ProfessionalContour.GradientsSound | cross-stitch-app/src/utils/professionalContour.js:91-105 | every gradient comes from a visible neighbour |
| ProfessionalContour.GradientsCover | cross-stitch-app/src/utils/professionalContour.js:91-105 | every visible neighbour contributes its gradient |
| ProfessionalContour.InternalIff | cross-stitch-app/src/utils/professionalContour.js:81-111 | a pixel is internal exactly when it is visible and some visible one of its eight neighbours differs by a channel sum above 120 |
| ProfessionalContour.DetectInternalFeatures | cross-stitch-app/src/utils/professionalContour.js:70-116 | the keys are exactly the interior pixels that are internal, each tagged internal |
| ProfessionalContour.CombineEdges | cross-stitch-app/src/utils/professionalContour.js:119-130 | the union of the two key sets, the silhouette tag winning where both have a key |
| ProfessionalContour.Refined | cross-stitch-app/src/utils/professionalContour.js:133-164 | pruning removes keys only and keeps the tags of the rest |
| ProfessionalContour.RefineContour | cross-stitch-app/src/utils/professionalContour.js:133-164 | each key is judged against the input map: kept when it has a side neighbour key or is external |
| ProfessionalContour.NeighbourSymmetric | cross-stitch-app/src/utils/professionalContour.js:142-144 | side neighbourhood is symmetric |
| ProfessionalContour.RefinedIdempotent | cross-stitch-app/src/utils/professionalContour.js:133-164 | pruning never drops a silhouette cell, and a second pass changes nothing |
| ProfessionalContour.CreateProfessionalContour | cross-stitch-app/src/utils/professionalContour.js:7-25 | every silhouette cell is present and tagged external; a cell is tagged internal exactly when it is an interior internal feature, not on the silhouette, with a side neighbour that is itself a silhouette or internal cell |
| ProfessionalContour.ApplyProfessionalSharpening | cross-stitch-app/src/utils/professionalContour.js:167-214 | interior pixels take nine times each channel less the eight neighbours, cut to 0..255, alpha kept; border pixels are copied |
| SelectiveContour.RgbToHsv | cross-stitch-app/src/utils/selectiveContour.js:94-120 | the value is the largest channel over 255, the saturation `(max - min) / max`, 0 for black |
| SelectiveContour.HueSectorBounds | cross-stitch-app/src/utils/selectiveContour.js:103-112 | the hue sector lies in [-1, 5], and in [-1, 1] when red is the largest channel |
| SelectiveContour.HsvBounds | cross-stitch-app/src/utils/selectiveContour.js:94-120 | every component lies in [0, 1] and the hue stays below 1 |
| SelectiveContour.DegreeBounds | cross-stitch-app/src/utils/selectiveContour.js:113 | a sector in [-1, 5] rounds to a whole degree in [-60, 300] |
| SelectiveContour.ImportantFeatureSymmetric | cross-stitch-app/src/utils/selectiveContour.js:70-91 | the test does not depend on the order of the two colours |
| SelectiveContour.ImportantFeatureIff | cross-stitch-app/src/utils/selectiveContour.js:70-91 | a pair is important exactly when the brightest channels differ by at least 77 or the saturations by more than 0.4; the dark-to-light test adds nothing |
| SelectiveContour.ShouldContour | cross-stitch-app/src/utils/selectiveContour.js:24-57 | the loop finds a transparent side neighbour or one differing by more than 150 in an important way exactly when one exists |
| SelectiveContour.CreateSelectiveContour | cross-stitch-app/src/utils/selectiveContour.js:7-67 | the keys are exactly the interior pixels with alpha at least 50 and a triggering side neighbour, each mapped to true |
| SelectiveContour.UniformIsNotContour | cross-stitch-app/src/utils/selectiveContour.js:21-57 | a visible pixel whose side neighbours all carry its own colour is never outlined |
| SimpleAlgorithm.AxisSameSize | cross-stitch-app/src/utils/simpleAlgorithm.js:17-34 | at unchanged size the sample point is the coordinate itself, with offset 0 |
| SimpleAlgorithm.BlendAtCorner | cross-stitch-app/src/utils/simpleAlgorithm.js:42-44 | with both offsets 0 the blend is the top-left value |
| SimpleAlgorithm.SimpleResize | cross-stitch-app/src/utils/simpleAlgorithm.js:14-52 | one target pixel per cell, in scan order, each channel the rounded bilinear blend of the four source pixels around the sample point |
| SimpleAlgorithm.SameSizeChannel | cross-stitch-app/src/utils/simpleAlgorithm.js:25-46 | at unchanged size each channel is the source channel |
| SimpleAlgorithm.SameSizeIsIdentity | cross-stitch-app/src/utils/simpleAlgorithm.js:14-52 | resizing to the source size returns the source pixels |
| SimpleAlgorithm.LightQuantization | cross-stitch-app/src/utils/simpleAlgorithm.js:55-83 | light pixels keep their colour, the others take sixteen-wide steps, and every alpha becomes 255 |
| SimpleAlgorithm.LightPixelLevels | cross-stitch-app/src/utils/simpleAlgorithm.js:72-76 | a dark pixel's channels are 0, 16, ..., 240 or 255, within 8 of the input |
| SimpleAlgorithm.LightPixelIdempotent | cross-stitch-app/src/utils/simpleAlgorithm.js:55-83 | quantizing a second time changes nothing |
| SimpleAlgorithm.SimpleConversion | cross-stitch-app/src/utils/simpleAlgorithm.js:3-11 | the result has the target size, is opaque, and at unchanged size is the light quantization of the source |
| Pixels.Clamp | cross-stitch-app/src/utils/edgeDetection.js:106-109 | a store into a clamped byte array saturates at 0 and 255 and rounds to the nearest integer, ties to even |
| Pixels.ClampInt | cross-stitch-app/src/utils/commercialAlgorithm.js:152 | an integer store only saturates |
| Pixels.Round | cross-stitch-app/src/utils/kgChartAlgorithm.js:78-81 | `Math.round` gives the nearest integer, halves rounded up |
| Pixels.RoundDivIsRound | cross-stitch-app/src/utils/kmeans.js:42-44 | the integer rounded division is `Math.round` of the exact quotient |
| Pixels.RoundDivBetween | cross-stitch-app/src/utils/kmeans.js:42-44 | the rounded mean of values in a range stays in the range |
| Select.FirstMinStep | src/utils/mapToDMC.js:39-42 | moving only on a strictly smaller distance keeps the first least distance of the candidates seen so far |
| Select.FirstMinUnique | src/utils/mapToDMC.js:35-46 | the first least distance is unique |
| Select.ClosestIndex | src/utils/mapToDMC.js:31-46 | the running-minimum scan, which the first comparison against `Infinity` always moves, ends on the first candidate at the least distance |
| Select.Nearest | src/utils/mapToDMC.js:31-46 | the candidate chosen is one of them, no candidate is nearer, and it is the first at that distance |
| Select.NearestSameDistances | src/utils/mapToDMC.js:31-46 | two distance functions that agree on every candidate pick the same one |

## Left out

- Image loading and canvas work are browser APIs. This covers `Image`, `drawImage`, `getImageData`, `ImageData`, the `onload` handlers and the component `smartResize` of the professional converter. Every pipeline here starts from the pixel buffer.
- React components, state hooks, event handlers, alerts, console logging, `localStorage`, `FileReader` and PDF export are UI and I/O. This covers `handleClear`, `handleExport`, `handleSave`, `handleLoad`, `clearGrid`, `setTool`, `setText` and `onAddText`. The editor keeps its state in the `Editor` class instead.
- `applyContour` is not modelled. It calls `createContourColor` (cross-stitch-app/src/App.jsx:225), which no file defines, so its behaviour is unstated.
- The HSL and HSV colour boosts are floating-point colour transforms. These are `optimizeForStitching`, `preprocessImage` of the modern-web converter and the saturation step of `preprocessForPNG`. Each pipeline takes the boost as a parameter `boost: Rgb -> Rgb`; only its alpha and bright-pixel facts are stated.
- The PCStitch `supersampleImage`, with `cubicInterpolation` and `cubicWeight`, and `analyzeFeatures`, which uses `Math.sqrt`, are float numerics. `pcstitchConversion` as a whole is therefore not modelled. Its reduction over a 4× supersampled image is (`Pcstitch.SupersampledBlocks`), and so is its final sharpen.
- The modern-web `bicubicInterpolation` is float numerics, and no pipeline calls it.
- IEEE-754 doubles and the `Float32Array` accumulator are modelled as exact rationals. Where the source rounds, compares or floors a float, the model does so on the exact value. Examples are the luma `0.299r + 0.587g + 0.114b`, the weighted distance `0.3dr² + …`, the shadow factor `1 − opacity` and the PNG contrast weights. A store that lands within one float rounding of a tie can differ.
- kMeans picks its initial centroids at random. They are the parameter `init`. `KMeans.KMeansColors` requires `init` to be non-empty when there are pixels and iterations to run; the source would read `undefined` there.
- `KMeans.QuantizeImage` requires a non-empty colour list for a non-empty image. The source would read `undefined` there.
- The filter in `kMeans` that drops centroids with `NaN` channels removes nothing in the model, because the model has no `NaN`.
- `Object.keys` order is a parameter `ks: seq<Cell>`. `addBorder` depends on it only through which layer is written first, and `AppEditor.Editor.AddBorder` is stated for any order.
- `AppEditor.Editor.AddBorder` requires every grid colour to be a stored `#rrggbb` string, since `parseInt` of other slices yields `NaN`.
- `TextTool.Upper` maps only the ASCII letters, the dotless ı and the long ſ. Every other character keeps its case, so `ß`, which `toUpperCase` turns into two letters, is drawn with one glyph. Any character the font does not know draws as a space either way.
- `MapToDmc.Distance2` is the square of `colorDistance`. For integer channels `Math.sqrt` is strictly increasing, so it makes the same comparisons.
- `MapToDmc.Channels` requires an array colour to have at least three items. The source would compute with `undefined` otherwise.
- `ImageConverter.FindClosestDmc` requires a non-empty palette of stored `#rrggbb` strings, as `getColorArray` supplies. For an empty palette the source returns `undefined`.
- `CanvasTools.FloodFill` reports the recoloured cells and their order in ghost out-parameters `filled` and `order`. The source keeps no such set or list.
- `ProfessionalConverter.ConvertToGrid` and the other grid builders produce a Dafny `map`, which has no insertion order. The source's object key order is not modelled.
