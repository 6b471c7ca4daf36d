# Image printer: palette, quantiser and print packet

This project models the core of an image printer for a block game. It has
three parts:

- **The block palette** (`AllBlocksPalette`). Every registered block that
  has a key, is not air, has a readable texture and has a collision shape
  whose bounding box is the unit cube within 1e-6 gets one palette entry. The entry holds the block and the Lab
  colour of the average of its texture's opaque pixels (alpha of at least
  128). A texture with no opaque pixel is given magenta.
- **The quantiser** (`ImageHandler`). It loads an image from the mod's
  `images/` resources. Each pixel is matched to the block of the nearest
  palette entry: the first entry strictly closer than every earlier one
  wins, and air is the fallback. The image becomes a grid of block key
  texts.
- **The print packet** (`PrintImagePacket`). It writes the grid onto the
  network buffer as a position, the height, the width and then the keys row
  by row. It reads the grid back on the server. Then, one block above the
  position, it places the block named by each known key at origin + (x, 0, y).

`Pipeline` connects the three. When the quantiser is handed the entries of
the palette built from the registry (`AllBlocksPalette.Enumerates`), every
cell of the grid names air or a block the palette build admits. The grid of
a quantised image with at least one row comes out of the decoder as it went
in.

The colour conversion and the colour difference (CIEDE2000) are not
modelled. A `ColorUtils.ColorSpace` value supplies both, and every operation
takes it as a parameter. Iteration over the palette's hash map is given as
a sequence `values`; `AllBlocksPalette.Enumerates(values, pal)` says that
it lists exactly the entries of the map `pal`, each block once. The resource manager and the image
decoder are a map `Engine.Resources` from locations to decoded images; a
missing location stands for every way loading can fail. The network buffer
is a sequence of typed tokens with a read cursor (`FriendlyByteBuf`).
A world where blocks are set is a returned list of placements
(`PlaceOutcome`), with a flag saying whether placement ran to the end.

The packet's encoder returns right after writing the height when the grid
is empty, so it writes no width (`PrintImagePacket.java`, lines 80-82). The
decoder's documentation asks for the fields to be read in the order the
encoder wrote them (line 104), yet the decoder reads a width whatever the
height (line 115). The model's `PrintImagePacket.DecodeAt` follows the code
as written, and the consequence is recorded under "## Findings" together
with a corrected decoder.

## Model

| member | source | states |
|---|---|---|
| AllBlocksPalette.IsFullCube | src/main/java/com/example/examplemod/ColorHandler/AllBlocksPalette.java:119-139 | a shape that passes is a non-empty shape with a bounding box, and each extent of that box is within 2e-6 of 1 |
| AllBlocksPalette.FullCubeExamples | src/main/java/com/example/examplemod/ColorHandler/AllBlocksPalette.java:119-139 | the unit cube counts; a half slab and the empty shape do not |
| AllBlocksPalette.TextureLocation | src/main/java/com/example/examplemod/ColorHandler/AllBlocksPalette.java:83-84 | the texture location keeps the block's namespace and embeds its path between `textures/block/` and `.png` |
| AllBlocksPalette.TextureLocationInjective | src/main/java/com/example/examplemod/ColorHandler/AllBlocksPalette.java:83-84 | two blocks with different keys never share a texture location |
| AllBlocksPalette.ComputeAverageLab | src/main/java/com/example/examplemod/ColorHandler/AllBlocksPalette.java:152-192 | the nested pixel loop returns exactly the average colour `AverageLab` of the texture |
| AllBlocksPalette.ScanIsFilterThenSum | src/main/java/com/example/examplemod/ColorHandler/AllBlocksPalette.java:160-177 | the running sums equal the channel sums and the count of just the pixels with alpha of at least 128 |
| AllBlocksPalette.TransparentPixelAddsNothing | src/main/java/com/example/examplemod/ColorHandler/AllBlocksPalette.java:162-166 | a pixel with alpha below 128 leaves the sums and the count unchanged |
| AllBlocksPalette.ScanBounds | src/main/java/com/example/examplemod/ColorHandler/AllBlocksPalette.java:160-177 | each channel sum lies between 0 and 255 times the count, and the count never exceeds the number of pixels |
| AllBlocksPalette.FlattenLength | src/main/java/com/example/examplemod/ColorHandler/AllBlocksPalette.java:156-161 | the row-major walk visits width times height pixels |
| AllBlocksPalette.TextureTotals | src/main/java/com/example/examplemod/ColorHandler/AllBlocksPalette.java:156-177 | the opaque-pixel count of a texture is at most width times height |
| AllBlocksPalette.AverageIsByte | src/main/java/com/example/examplemod/ColorHandler/AllBlocksPalette.java:186-191 | a channel sum divided by a positive count of at most 255-valued pixels is again a byte |
| AllBlocksPalette.AverageChannels | src/main/java/com/example/examplemod/ColorHandler/AllBlocksPalette.java:181-191 | with at least one opaque pixel, the average colour is the Lab of the per-channel averages of the opaque pixels, each a byte |
| AllBlocksPalette.TransparentScanIsEmpty | src/main/java/com/example/examplemod/ColorHandler/AllBlocksPalette.java:162-177 | pixels that are all transparent give zero sums and a zero count |
| AllBlocksPalette.TransparentTextureIsMagenta | src/main/java/com/example/examplemod/ColorHandler/AllBlocksPalette.java:181-183 | a texture without an opaque pixel gets the Lab colour of magenta (255, 0, 255) |
| AllBlocksPalette.Palette.constructor | src/main/java/com/example/examplemod/ColorHandler/AllBlocksPalette.java:34 | the palette starts empty |
| AllBlocksPalette.Palette.BuildPalette | src/main/java/com/example/examplemod/ColorHandler/AllBlocksPalette.java:58-107 | the loop over the registered blocks leaves the palette as the fold `Build` of the old palette over the blocks in registry order |
| AllBlocksPalette.BuildAdmitsOnlyEligible | src/main/java/com/example/examplemod/ColorHandler/AllBlocksPalette.java:63-103 | every key of the built palette was already there, or is a registered block that has a key, passes the full-cube test, is not air and has a readable texture |
| AllBlocksPalette.BuildIncludesEligible | src/main/java/com/example/examplemod/ColorHandler/AllBlocksPalette.java:63-103 | every such eligible block is in the built palette, mapped to the entry of its own block and its texture's average colour |
| AllBlocksPalette.BuildKeysMatchEntries | src/main/java/com/example/examplemod/ColorHandler/AllBlocksPalette.java:97 | each entry is stored under its own block |
| AllBlocksPalette.BuildSkipsIneligible | src/main/java/com/example/examplemod/ColorHandler/AllBlocksPalette.java:66-79 | a block without key, failing the full-cube test, that is air or has no readable texture changes nothing |
| Argb.ChannelsAreBytes | src/main/java/com/example/examplemod/ColorHandler/AllBlocksPalette.java:163-170 | each `(argb >> k) & 0xFF` channel is a byte |
| Argb.ColourIgnoresAlpha | src/main/java/com/example/examplemod/ImageLoader/ImageHandler.java:103-105 | two pixels that agree in their low 24 bits have equal red, green and blue |
| Argb.LowBits | src/main/java/com/example/examplemod/ImageLoader/ImageHandler.java:103-105 | each colour channel is computed from the low 24 bits of the pixel alone |
| ImageHandler.BestIndex | src/main/java/com/example/examplemod/ImageLoader/ImageHandler.java:110-124 | over the entries' distances in palette order (`Distances`), the chosen index has the least distance, strictly less than every earlier one and below `Double.MAX_VALUE`; no index is chosen exactly when every distance is at least `Double.MAX_VALUE` |
| ImageHandler.EmptyPaletteGivesAir | src/main/java/com/example/examplemod/ImageLoader/ImageHandler.java:127 | with an empty palette every pixel is matched to air |
| ImageHandler.NearestIsFirstArgmin | src/main/java/com/example/examplemod/ImageLoader/ImageHandler.java:101-128 | when some entry is closer than `Double.MAX_VALUE`, the match is the block of the first entry of least distance |
| ImageHandler.TieGoesToFirst | src/main/java/com/example/examplemod/ImageLoader/ImageHandler.java:120 | of two entries with the same colour, the later one is never chosen |
| ImageHandler.SingleEntryPalette | src/main/java/com/example/examplemod/ImageLoader/ImageHandler.java:110-127 | a one-entry palette at a finite distance matches every pixel to that entry |
| ImageHandler.NearestIgnoresAlpha | src/main/java/com/example/examplemod/ImageLoader/ImageHandler.java:103-108 | pixels differing only in alpha are matched to the same block |
| ImageHandler.NearestComesFromValues | src/main/java/com/example/examplemod/ImageLoader/ImageHandler.java:110-127 | the matched block is air or the block of one of the palette entries |
| ImageHandler.KeyGrid | src/main/java/com/example/examplemod/ImageLoader/ImageHandler.java:153-185 | the key grid of an image has one row per image row and one key text per pixel |
| ImageHandler.ImageHandler.FromImage | src/main/java/com/example/examplemod/ImageLoader/ImageHandler.java:44-50 | a handler holds the image it was built from |
| ImageHandler.ImageHandler.Load | src/main/java/com/example/examplemod/ImageLoader/ImageHandler.java:44-85 | a handler exists exactly when `images/<filePath>` of the mod loads; it is new and holds that image |
| ImageHandler.ImageHandler.MatchColorToBlock | src/main/java/com/example/examplemod/ImageLoader/ImageHandler.java:101-128 | the scan over the palette returns exactly `Nearest`: the first strictly nearest entry's block, or air |
| ImageHandler.ImageHandler.ConvertToJson | src/main/java/com/example/examplemod/ImageLoader/ImageHandler.java:153-185 | height rows of width key texts; cell (x, y) is the key text of the block pixel (x, y) is matched to, or `minecraft:air` when that block has no key |
| ImageHandler.GridKeysComeFromPalette | src/main/java/com/example/examplemod/ImageLoader/ImageHandler.java:168-176 | every key text in the grid is that of a palette entry's block or that of air |
| PrintImagePacket.Encode | src/main/java/com/example/examplemod/Packets/PrintImagePacket.java:69-98 | encoding succeeds exactly when no row is shorter than row 0; it then appends the position, the height, and for a positive height the width and the first width keys of each row; a failed encoding only appends |
| PrintImagePacket.GridTokensAppend | src/main/java/com/example/examplemod/Packets/PrintImagePacket.java:91-97 | the rows are written one after the other, y outer |
| PrintImagePacket.GridTokensLength | src/main/java/com/example/examplemod/Packets/PrintImagePacket.java:91-97 | height times width key tokens are written |
| PrintImagePacket.ReadRow | src/main/java/com/example/examplemod/Packets/PrintImagePacket.java:122-128 | the inner loop reads exactly the w keys `ReadIds` gives, advancing the cursor by w, and fails when any read fails |
| PrintImagePacket.Decode | src/main/java/com/example/examplemod/Packets/PrintImagePacket.java:109-136 | the decoding loops succeed exactly when `DecodeAt` does, and return its packet with the cursor at its end |
| PrintImagePacket.ReadIdsOfRow | src/main/java/com/example/examplemod/Packets/PrintImagePacket.java:123-128 | reading w keys from a written row gives back that row's first w keys |
| PrintImagePacket.ReadRowsOfGrid | src/main/java/com/example/examplemod/Packets/PrintImagePacket.java:121-131 | reading the written rows gives back each row cut to the width |
| PrintImagePacket.DecodeOfEncoding | src/main/java/com/example/examplemod/Packets/PrintImagePacket.java:69-136 | decoding an encoding of positive height gives the position and the grid cut to row 0's width, whatever tokens surround it |
| PrintImagePacket.RoundTrip | src/main/java/com/example/examplemod/Packets/PrintImagePacket.java:69-136 | a rectangular grid with at least one row is decoded as it was encoded, and the cursor stops right after it |
| PrintImagePacket.ReadIdsShape | src/main/java/com/example/examplemod/Packets/PrintImagePacket.java:123-128 | a successful read of n keys consumed n tokens that were there |
| PrintImagePacket.ReadRowsShape | src/main/java/com/example/examplemod/Packets/PrintImagePacket.java:121-131 | successfully read rows are h rows of w keys each, all inside the buffer |
| PrintImagePacket.DecodeShape | src/main/java/com/example/examplemod/Packets/PrintImagePacket.java:109-136 | a successful decode read a position and two integers and then height times width keys, all inside the buffer |
| PrintImagePacket.TruncatedEncodingFails | src/main/java/com/example/examplemod/Packets/PrintImagePacket.java:109-136 | a stream cut short before the declared number of keys fails to decode instead of giving a shorter grid |
| PrintImagePacket.EmptyGridDoesNotRoundTrip | src/main/java/com/example/examplemod/Packets/PrintImagePacket.java:80-82 | the encoding of an empty grid is a position and a zero, and the decoder fails on it |
| PrintImagePacket.EmptyGridSwallowsNextToken | src/main/java/com/example/examplemod/Packets/PrintImagePacket.java:114-115 | followed by another integer, an empty grid decodes but consumes that integer as its width |
| PrintImagePacket.DecodeFixedAgrees | src/main/java/com/example/examplemod/Packets/PrintImagePacket.java:114-115 | the corrected decoder agrees with the decoder as written whenever the height is positive |
| PrintImagePacket.DecodeFixedRoundTrip | src/main/java/com/example/examplemod/Packets/PrintImagePacket.java:69-136 | with the corrected decoder every rectangular grid round-trips, the empty grid included |
| PrintImagePacket.PlaceImage | src/main/java/com/example/examplemod/Packets/PrintImagePacket.java:188-215 | the placement loops produce exactly the placements and the completion of `PlaceSpec` |
| PrintImagePacket.PlaceRowsStops | src/main/java/com/example/examplemod/Packets/PrintImagePacket.java:193-198 | once a row shorter than row 0 throws, no later row is placed |
| PrintImagePacket.PlacementsAreCells | src/main/java/com/example/examplemod/Packets/PrintImagePacket.java:193-212 | every placement is that of a cell inside the width of row 0 whose key the registry knows, at origin + (x, 0, y), with the block that key names |
| PrintImagePacket.PlacementsDistinct | src/main/java/com/example/examplemod/Packets/PrintImagePacket.java:193-212 | placements go row by row and west to east, so no position is set twice |
| PrintImagePacket.PlacementsCoverKnownCells | src/main/java/com/example/examplemod/Packets/PrintImagePacket.java:193-212 | when placement runs to the end, every row is at least as wide as row 0 and every known key inside that width is placed |
| PrintImagePacket.CompletedMeansWideRows | src/main/java/com/example/examplemod/Packets/PrintImagePacket.java:193-198 | a run that completes met no row shorter than row 0 |
| PrintImagePacket.RowPlanCells | src/main/java/com/example/examplemod/Packets/PrintImagePacket.java:197-212 | each placement of a row is at height origin.y, in that row's z, at an x whose key is known and names the placed block |
| PrintImagePacket.RowPlanOrdered | src/main/java/com/example/examplemod/Packets/PrintImagePacket.java:197-212 | within a row, placements go strictly east |
| PrintImagePacket.RowPlanCovers | src/main/java/com/example/examplemod/Packets/PrintImagePacket.java:197-212 | every known key of a row is placed |
| PrintImagePacket.PlaceRowsCells | src/main/java/com/example/examplemod/Packets/PrintImagePacket.java:193-212 | the placements of the first n rows are cells of those rows |
| PrintImagePacket.PlaceRowsOrdered | src/main/java/com/example/examplemod/Packets/PrintImagePacket.java:193-212 | the placements of the first n rows are strictly ordered by (z, x) |
| PrintImagePacket.PlaceRowsCovers | src/main/java/com/example/examplemod/Packets/PrintImagePacket.java:193-212 | a completed run over n rows places every known key of those rows inside the width |
| PrintImagePacket.Handle | src/main/java/com/example/examplemod/Packets/PrintImagePacket.java:154-169 | without a sender nothing happens; with one the grid is placed with its corner one block above the packet's position |
| PrintImagePacket.HandlePlacesAbove | src/main/java/com/example/examplemod/Packets/PrintImagePacket.java:165 | every block handled is set in the layer one above the packet's position, inside the grid's extent east and south of it |
| Pipeline.KeyGridIsRectangular | src/main/java/com/example/examplemod/ImageLoader/ImageHandler.java:158-181 | a quantised grid is rectangular, so it can always be encoded |
| Pipeline.KeyGridUsesAdmittedBlocks | src/main/java/com/example/examplemod/ImageLoader/ImageHandler.java:114-176 | given the entries of the palette built from the registry, each cell names the block its pixel is matched to, and that block is air or a registered block with a key, passing the full-cube test, not air and with a readable texture |
| Pipeline.ImagePacketRoundTrip | src/main/java/com/example/examplemod/Packets/PrintImagePacket.java:69-136 | the packet for an image with at least one row is decoded as it was sent |
| Pipeline.ImagePacketFixedRoundTrip | src/main/java/com/example/examplemod/Packets/PrintImagePacket.java:69-136 | with the corrected decoder the packet for every image round-trips |

## Left out

- The colour conversion (`rgbToLab`) and the colour difference (`deltaE2000`) of `ColorUtils.java`: floating point. They are the parameter `ColorSpace`, so every property holds for any conversion and any distance.
- `AllBlocksPalette.AverageLab`: the source divides `long` sums by a `double` count and truncates with `(int)`. The model uses integer division, which gives the same value for non-negative sums.
- The `long` sums in `computeAverageLab` cannot overflow for a texture below 2^55 pixels, so the model uses unbounded integers.
- A block's `VoxelShape` is reduced to its bounding box, as the full-cube test only reads `shape.bounds()`; a shape that does not fill its box but whose box is the unit cube (stairs, for example) is admitted, as in the source.
- NaN and infinite distances are not modelled; the distance is a `real`.
- The iteration order of the palette's `HashMap`: the model takes the entries as a given sequence `values`.
- Parsing and normalising resource location texts, and the exception `new ResourceLocation` throws on an invalid key text, are not modelled; key texts are opaque strings.
- Whether the game's block registry returns a default block for an unknown key is not modelled: `Registry.byName` is the lookup, and a key absent from it stands for a lookup that gives no block.
- The byte-level layout of `writeVarInt`, `writeBlockPos` and `writeResourceLocation`: the buffer is a sequence of typed tokens, and a read of the wrong kind of token fails.
- `PrintImagePacket.Encode`: after a failure (a row shorter than row 0 throws), the model states only that the buffer grew, not which tokens were written before the throw.
- `level.setBlock` with its update flags, `enqueueWork`, `setPacketHandled` and logging: placement is a returned list of placements, and `Handle` runs the work at once.
- `ImageLoader.java`, `PrinterBlock.java` and `ExampleMod.MODID` are not part of this model. The mod id is the parameter `modId` of `ImageHandler.ImageHandler.Load`.
- The `Palette size` message printed at the end of `buildPalette`.

## Findings

| source | as written | input that shows it | evidently intended | confidence | as-written member | corrected member |
|---|---|---|---|---|---|---|
| src/main/java/com/example/examplemod/Packets/PrintImagePacket.java:114-115 | `decode` reads the width right after the height, even when the height is 0; `encode` writes no width for an empty grid | a packet with an empty grid, encoded alone: decoding fails; when an integer token follows the encoding, that integer is swallowed as the width | skip the width when the height is 0, mirroring the encoder's `height == 0` test, so every grid round-trips | not executed | PrintImagePacket.EmptyGridDoesNotRoundTrip | PrintImagePacket.DecodeFixedRoundTrip |
