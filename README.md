# simpleQRCode in Dafny

A model of the rendering core of the PHP library `simpleQRCode`. The library
takes the module matrix of a QR symbol from the Bacon encoder and turns it
into a PNG image with GD. It has no encoding algorithm of its own. The model
covers the parts that decide something:

- **`QrCode`.** The configuration object, as a class: its defaults, the
  setters that normalise what they store, writer lookup, and `getData`, which
  copies the encoder's matrix and derives the block size, inner and outer
  sizes and margins.
- **`Helper::hex2rgb`.** It turns a CSS-style hex colour into an RGB triple.
- **`PngWriter`.** The stages of `writeString`, as a class:
  - `cutFill` builds the gradient colour table: a loop that keeps its step in
    a field;
  - `createBaseImage` paints every true module as a rectangle into an
    `array2` canvas;
  - `createInterpolatedImage` places the base image on the outer canvas;
  - `addLogo` and `addLabel` compute their geometry and paint;
  - when `validateResult` is set (it is off by default), the bytes are
    validated by reading the QR code back.

  Each stage has a specification on snapshots of the canvas
  (`ImageStage`, `LogoStage`, `LabelStage`). `RenderSpec` composes them in
  the order `writeString` runs them, stopping at the first error. `Encoded`
  adds the PNG bytes and the validation check, and `AsDataUri` the data URI.
  Each method's contract says its result equals its stage function, and
  lemmas state what the composition guarantees.
- **`AbstractWriter`.** The logo media-type decision tree, `writeDataUri`
  (with base64) and `supportsExtension`.
- **`WriterRegistry`.** Writers stored by name in insertion order, and a
  default writer.
- **`ErrorCorrectionLevel`.** The letter handed to the Bacon encoder.

The library runs as PHP 7 code. Two consequences are modelled:

- Every source file except `Tools/Helper.php` declares `strict_types=1`.
  Two places are where this matters, and the model treats each `TypeError`
  as one more error outcome:
  - the GD calls in `PngWriter.php`, where passing `''` or `null` to a
    parameter typed `int` is a `TypeError`;
  - the `string` return type of `getMimeTypeFromUrl` in `AbstractWriter.php`,
    which a repeated `Content-Type` header (an array) violates.
- `Helper.php` uses coercive typing. Fractional lengths are truncated and
  `hexdec` skips characters that are not hex digits.

Calls into code outside the library are parameters of the model (`RenderEnv`,
`MimeEnv`, `FontFiles`, `Encoder`):

- the Bacon encoder;
- GD's resampling filter, image decoder and PNG encoder;
- FreeType's bounding box;
- the zxing reader;
- `get_headers`, `mime_content_type`, `filter_var`, `file_get_contents`,
  `realpath`/`is_file` and `mb_convert_encoding`.

Files and modules:

| file | module | what it holds |
|---|---|---|
| errors.dfy | Errors | the library's exceptions, `Result`, `Outcome`, `Option` |
| php.dfy | Php | `intval` of a quotient, `intval` of a scalar, `isset`, falsy strings |
| helper.dfy | Helper | `hexdec`, `str_replace('#', ...)`, `hex2rgb` |
| error_correction_level.dfy | ErrorCorrectionLevels | the level enum and its Bacon letter |
| label_alignment.dfy | LabelAlignments | the alignment enum and its validated constructor |
| geometry.dfy | Geometry | the size arithmetic of `getData` |
| writers.dfy | Writers | writer descriptors, media types, base64, data URIs |
| writer_registry.dfy | Registry | the registry as a table and as a class |
| canvas.dfy | Canvas | the GD primitives on `array2<Color>` |
| gradient.dfy | Gradients | the colour table `cutFill` builds, as a specification |
| raster.dfy | Raster | the image `createBaseImage` paints, as a specification |
| qr_code.dfy | QrCodes | the `QrCode` class and `getData` |
| png_writer.dfy | PngWriters | the `PngWriter` class and its painting loops |

## Model

| member | source | states |
|---|---|---|
| Php.TruncDiv | src/Writer/PngWriter.php:155-160 | `intval` of an exact quotient truncates toward zero: the bounds q·n ≤ a < q·n + n for a ≥ 0, and q·n − n < a ≤ q·n ≤ 0 for a < 0 |
| Helper.HexDec | src/Tools/Helper.php:18-20 | `hexdec` of s is a natural number below 16^\|s\|; \|s\| ≤ 2 gives a channel in 0..255 |
| Helper.StripHash | src/Tools/Helper.php:16 | the result contains no `#` and is no longer than the input |
| Helper.Hex2Rgb | src/Tools/Helper.php:15-22 | every input, valid or not, yields exactly three channels, each in 0..255 |
| Helper.ParseHex | src/Tools/Helper.php:17-21 | cutting the stripped string into three parts and repeating them gives three channels in 0..255 |
| Helper.Channel | src/Tools/Helper.php:18-20 | one `hexdec(str_repeat(substr(..)))` reads at most two digits, so it is at most 255 |
| Helper.StripHashConcat | src/Tools/Helper.php:16 | stripping `#` distributes over concatenation |
| Helper.StripHashNoHash | src/Tools/Helper.php:16 | stripping leaves a string without `#` unchanged |
| Helper.Hex2RgbIgnoresHash | src/Tools/Helper.php:16 | inserting a `#` anywhere in the input leaves the triple unchanged |
| Helper.Hex2RgbSixDigits | src/Tools/Helper.php:17-20 | for six hex digits, channel k is 16·digit(2k) + digit(2k+1) |
| Helper.Hex2RgbThreeDigits | src/Tools/Helper.php:17-20 | for three hex digits, each digit is doubled: channel k is 17·digit(k) |
| Helper.Hex2RgbDocExample | src/Tools/Helper.php:14 | `#ff00ff` and `#f0f` both give (255, 0, 255), and the `#` is optional |
| Helper.MagentaFull | src/Tools/Helper.php:14 | `ff00ff` gives (255, 0, 255), and so does `#ff00ff` |
| Helper.MagentaShort | src/Tools/Helper.php:14 | `#f0f` gives (255, 0, 255) |
| ErrorCorrectionLevels.ErrorCorrectionLevel.ToBaconLetter | src/ErrorCorrectionLevel.php:21-25 | the letter is one upper-case ASCII letter, the upper-cased first character of the level's value |
| ErrorCorrectionLevels.ToUpper | src/ErrorCorrectionLevel.php:23 | `strtoupper` on one character: a lower-case ASCII letter is shifted by 32, any other character is unchanged |
| ErrorCorrectionLevels.BaconLetters | src/ErrorCorrectionLevel.php:16-24 | low, medium, quartile and high map to L, M, Q and H |
| ErrorCorrectionLevels.BaconLetterInjective | src/ErrorCorrectionLevel.php:16-23 | distinct levels map to distinct letters |
| LabelAlignments.FromValue | src/LabelAlignment.php:11-16 | the constructor succeeds exactly for `left`, `center` and `right`, keeps that value, and otherwise throws `UnexpectedValueException` carrying the value |
| LabelAlignments.FromValueRoundTrip | src/LabelAlignment.php:11-16 | constructing from an alignment's value gives the same alignment back |
| Geometry.Derive | src/QrCode.php:452-465 | with rounding: block_size·count ≤ size < (block_size+1)·count; inner = block_size·count for both sides; outer = size + 2·margin for both sides; margin_left is the floor of half the gap; margin_left + inner + margin_right = outer, and margin_right − margin_left ∈ {0, 1} |
| Geometry.DeriveFits | src/QrCode.php:453-465 | for size ≥ 0: block_size ≥ 0, the unused width is less than one pixel per module (size − inner_width < block_count), and margin_left ≥ margin and margin_right ≥ margin |
| Geometry.TopOffsetReuseIsSymmetric | src/Writer/PngWriter.php:128 | placing the inner image at (margin_left, margin_left) leaves a bottom band exactly as wide as the right band |
| Geometry.DeriveExact | src/QrCode.php:453-465 | without rounding, in exact arithmetic: block_size·count = size, inner = size, and both margins equal margin |
| Writers.SupportsExtension | src/Writer/AbstractWriter.php:72-75 | `supportsExtension(e)` holds exactly when some entry of the writer's supported extensions equals e |
| Writers.PngSupportsOnlyPng | src/Writer/AbstractWriter.php:72-80 | `supportsExtension(e)` holds for the PNG writer exactly when e is `png`; the base list supports nothing |
| Writers.MimeTypeFromUrl | src/Writer/AbstractWriter.php:24-33 | missing headers or a missing `Content-Type` give `InvalidException`; success returns that header verbatim, with no image check and no SVG rewrite; the only other error is a strict-typing `TypeError` for a repeated header |
| Writers.MimeTypeFromPath | src/Writer/AbstractWriter.php:35-57 | the checks come in order: no sniffer gives `MissingException`, no answer gives `InvalidException`, a type outside `image/` gives `GenerateImageException`; `image/svg` becomes `image/svg+xml`; every other image type is returned unchanged |
| Writers.MimeType | src/Writer/AbstractWriter.php:15-22 | the header route exactly when the path validates as a URL, the sniffer route otherwise |
| Writers.MimeTypeFromPathIsImage | src/Writer/AbstractWriter.php:47-56 | a type found on disk always starts with `image/` and is never the bare `image/svg` |
| Writers.MimeTypeFromUrlUnchecked | src/Writer/AbstractWriter.php:15-33 | for a URL, whatever `Content-Type` the server sends is the result |
| Writers.Sextet | src/Writer/AbstractWriter.php:61 | a six-bit value maps to a character of the base64 alphabet |
| Writers.Group | src/Writer/AbstractWriter.php:61 | one to three bytes encode to four characters of the padded base64 alphabet |
| Writers.Base64 | src/Writer/AbstractWriter.php:61 | `base64_encode` yields 4·⌈n/3⌉ characters, all from the padded alphabet |
| Writers.Base64Vectors | src/Writer/AbstractWriter.php:61 | known vectors: "Man" → `TWFu`, "Ma" → `TWE=`, "M" → `TQ==`, and "ManMa" → `TWFuTWE=` across a group boundary |
| Writers.DataUri | src/Writer/AbstractWriter.php:59-64 | the URI's length is `data:` plus the content type plus `;base64,` plus the base64 text |
| Writers.PngDataUriPrefix | src/Writer/AbstractWriter.php:59-64 | a PNG data URI is `data:image/png;base64,` followed by exactly the base64 of the bytes |
| Registry.Add | src/WriterRegistry.php:39-42 | `addWriter` stores a writer under its name and replaces an earlier one of that name; other entries are unchanged; a new name is appended to the iteration order, and a known name keeps its place |
| Registry.AddAll | src/WriterRegistry.php:32-37 | `addWriters` keeps the registry's names distinct and in step with its map |
| Registry.InOrder | src/WriterRegistry.php:65-68 | `getWriters` lists one writer per name of the order list, each the writer stored under that name; that the order list is the insertion order is `Registry.Add` and `Registry.AddAllKnownKeepsOrder` |
| Registry.AddAllLastWins | src/WriterRegistry.php:32-42 | after `addWriters`, a name holds the last writer of that name in the list |
| Registry.AddAllKeepsOthers | src/WriterRegistry.php:32-42 | a name the list does not mention keeps its writer, or stays absent |
| Registry.AddAllNamesKnown | src/WriterRegistry.php:32-42 | `addWriters` never removes a name |
| Registry.AddAllKnownKeepsOrder | src/WriterRegistry.php:32-42 | re-registering names that are all known leaves the iteration order unchanged |
| Registry.WriterRegistry.constructor | src/WriterRegistry.php:12-17 | a new registry has no writers and no default |
| Registry.WriterRegistry.AddWriter | src/WriterRegistry.php:39-42 | the new contents are `Add` of the old contents |
| Registry.WriterRegistry.AddWriters | src/WriterRegistry.php:32-37 | the loop leaves `AddAll` of the old contents over the whole list |
| Registry.WriterRegistry.GetWriter | src/WriterRegistry.php:44-49 | `getWriter(n)` returns the stored writer for a registered n and throws `InvalidException` otherwise |
| Registry.WriterRegistry.GetDefaultWriter | src/WriterRegistry.php:51-58 | `getDefaultWriter` throws `InvalidException` until a default is set |
| Registry.WriterRegistry.SetDefaultWriter | src/WriterRegistry.php:60-63 | the default becomes the writer stored under the name; an unknown name leaves no default |
| Registry.WriterRegistry.LoadDefaultWriters | src/WriterRegistry.php:19-30 | on an empty registry it leaves exactly `{png}` with png as the default; on a non-empty one it changes nothing, so a second call is a no-op |
| QrCodes.CastChannels | src/QrCode.php:134-140 | the keys are the given keys plus `a`; every channel is passed through `intval`; an alpha that is missing or null becomes 0 and any other alpha is kept |
| QrCodes.FirstSupporting | src/QrCode.php:392-396 | the index of the first writer supporting the extension, or none exactly when no writer supports it |
| QrCodes.DefaultWritersByExtension | src/QrCode.php:390-401 | with only the default writers, `png` is the one extension a writer is found for |
| QrCodes.QrCode.constructor | src/QrCode.php:17-100 | the field defaults: 300, 10, black on white with alpha 0, a `vertical` gradient type, UTF-8, rounding on, level low, a centred label with margins {t 0, r 10, b 10, l 10}, and a fresh registry holding the PNG writer as default |
| QrCodes.QrCode.SetForegroundColor | src/QrCode.php:132-143 | the stored colour has the given keys plus `a`, every channel cast with `intval`, and alpha 0 when it is absent or null |
| QrCodes.QrCode.SetBackgroundColor | src/QrCode.php:178-189 | the same normalisation for the background colour |
| QrCodes.QrCode.SetGradientType | src/QrCode.php:160-166 | the gradient type changes only to one of the nine listed names; any other string leaves it unchanged |
| QrCodes.QrCode.SetLabelMargin | src/QrCode.php:329-332 | the supplied sides are overwritten, the others are kept, and all four sides stay present |
| QrCodes.QrCode.SetLogoSize | src/QrCode.php:236-240 | stores the width, and the height or null |
| QrCodes.QrCode.SetLabelFontPath | src/QrCode.php:303-312 | succeeds exactly when the resolved path is a file and stores the resolved path; otherwise it throws `InvalidException` and keeps the path |
| QrCodes.QrCode.SetLabelAlignment | src/QrCode.php:319-322 | succeeds exactly for the three alignment values; otherwise it throws `UnexpectedValueException` and keeps the alignment |
| QrCodes.QrCode.SetLabel | src/QrCode.php:262-281 | the text is always stored; the size, font path, alignment and margins follow in that order; succeeds exactly when the path and the alignment are valid; the first failure throws its exception and leaves the later parts unchanged |
| QrCodes.QrCode.GetLabel | src/QrCode.php:283-291 | never null: an unset or falsy (`''`, `'0'`) label reads as `''`, any other goes through the entity conversion |
| QrCodes.QrCode.GetWriter | src/QrCode.php:349-360 | by name through the registry; without a name, the writer set on the object, else the registry's default |
| QrCodes.QrCode.SetWriterByExtension | src/QrCode.php:390-401 | picks the first registered writer, in insertion order, that supports the extension; if none does, it throws `UnsupportedExtensionException` and keeps the current writer |
| QrCodes.QrCode.GetData | src/QrCode.php:433-468 | `matrix[row][col] == get(col, row)` for every row and column; block_count is the length of row 0; the sizes are `Derive` under rounding and `DeriveExact` otherwise; the array equals `QrCodes.DataOf` of the matrix |
| Gradients.EntryCount | src/Writer/PngWriter.php:325 | the loop runs ⌈n/step⌉ times: (c−1)·step < n ≤ c·step |
| Gradients.ExpectedFillStep | src/Writer/PngWriter.php:327-338 | an entry keeps the previous fill when the colour does not change, and otherwise allocates the new colour |
| Gradients.EntryCountPerRow | src/Writer/PngWriter.php:71-73 | as called under rounding with inner_height and block_size, the table has exactly block_count entries, one per row |
| Gradients.Interpolate | src/Writer/PngWriter.php:331-333 | one channel at line i of n: the exact value c1 + (c2−c1)·i/n truncated toward zero (`v·n ≤ e < v·n + n` for e ≥ 0, mirrored for e < 0, where e = c1·n + (c2−c1)·i), and c1 itself when the channels agree |
| Gradients.InterpolateIsFloor | src/Writer/PngWriter.php:331-333 | in exact arithmetic and with non-negative channels, `intval` of the interpolation is the Euclidean quotient (c1·n + (c2−c1)·i) / n |
| Gradients.InterpolateBetween | src/Writer/PngWriter.php:331-333 | every interpolated channel lies between the start and end channel, inclusive |
| Gradients.FirstEntry | src/Writer/PngWriter.php:322-338 | entry 0 is the start colour, or the `''` placeholder when the start colour is white |
| Gradients.StartColor | src/Writer/PngWriter.php:331 | interpolation at i = 0 gives the start channel |
| Gradients.PlaceholdersArePrefix | src/Writer/PngWriter.php:322-338 | once a colour is allocated the placeholder never returns, so the placeholders form a prefix of the table |
| Gradients.NoPlaceholderUnlessWhiteStart | src/Writer/PngWriter.php:322-338 | a start colour other than white leaves no placeholder in the table |
| Gradients.EntryBetween | src/Writer/PngWriter.php:322-338 | the channels of every allocated entry lie between those of the two ends |
| Canvas.Allocate | src/Writer/PngWriter.php:61-65 | `imagecreatetruecolor` succeeds exactly for a width and height of at least 1, giving a fresh opaque black canvas; otherwise `GenerateImageException` |
| Canvas.Flood | src/Writer/PngWriter.php:69 | `imagefill` from the corner of a one-colour canvas turns every pixel to the new colour |
| Canvas.FilledRectangle | src/Writer/PngWriter.php:81 | paints the inclusive rectangle, with corners in either order and clipped to the canvas, and keeps every other pixel |
| Canvas.CopyResampled | src/Writer/PngWriter.php:128 | writes the sampled pixels into the half-open destination block, clipped to the canvas, and keeps every other pixel |
| Raster.AfterUncovered | src/Writer/PngWriter.php:75-113 | a pixel that no earlier module paints keeps the background |
| Raster.AfterLastPainter | src/Writer/PngWriter.php:75-113 | the last module to paint a pixel decides its colour |
| Raster.LaterModulesMissCell | src/Writer/PngWriter.php:75-113 | no later module in row-major order paints the half-open cell of an earlier one |
| Raster.OwnCell | src/Writer/PngWriter.php:75-113 | in the finished base image, the half-open cell of a painting module has that module's colour |
| Raster.InteriorOnlyOwnModule | src/Writer/PngWriter.php:75-113 | only the module itself paints the interior of its footprint |
| Raster.FalseModuleInterior | src/Writer/PngWriter.php:75-77 | a module that is not 1 leaves the interior of its cell in the background colour |
| Raster.OtherGradientPaintsNothing | src/Writer/PngWriter.php:79-106 | a gradient type other than vertical or horizontal paints nothing and never throws |
| Raster.PlaceholderRowFails | src/Writer/PngWriter.php:78-85 | with a placeholder at entry 0, a true module in row 0 of a vertical or horizontal gradient throws |
| Raster.AllocatedTableNeverFails | src/Writer/PngWriter.php:78-85 | a table with an allocated colour for every row never throws |
| Raster.SolidNeverFails | src/Writer/PngWriter.php:108-110 | solid painting never throws |
| PngWriters.AllocateAlpha | src/Writer/PngWriter.php:67-68 | `imagecolorallocatealpha` succeeds exactly when all four channels are present; a missing channel is a `TypeError` |
| PngWriters.AllocateOpaque | src/Writer/PngWriter.php:191-192 | `imagecolorallocate` needs r, g and b and gives an opaque colour |
| PngWriters.GradientRendersUnlessWhiteStart | src/Writer/PngWriter.php:71-85 | under rounding, with a square matrix and a start colour other than white, gradient painting never throws |
| PngWriters.WhiteStartGradientFails | src/Writer/PngWriter.php:71-85 | under rounding, a white start colour with a true module in row 0 makes a vertical or horizontal gradient throw a `TypeError`: entry 0 is the `''` placeholder (`cutFill`, src/Writer/PngWriter.php:327-338) |
| PngWriters.LogoPlacement | src/Writer/PngWriter.php:150-160 | a null width is the source width; a null height keeps the aspect ratio, truncated in exact arithmetic; the logo is centred, with at most one pixel more on the far side |
| PngWriters.LogoAspectExample | src/Writer/PngWriter.php:154-160 | a 100×50 logo drawn 40 wide is 20 high and centred at (140, 150) on a 320×320 canvas |
| PngWriters.LabelPlacement | src/Writer/PngWriter.php:176-212 | the width is unchanged and the height grows by the box height plus the top and bottom margins; x is the left margin for left, width − box width − right margin for right, and centred otherwise; y is the height minus the bottom margin |
| PngWriters.BoxHeightQuirk | src/Writer/PngWriter.php:177 | the height is read as box[0] − box[7], so a box with 16 rows of ink reserves only 11 |
| PngWriters.PngWriter.constructor | src/Writer/PngWriter.php:17 | the step starts at 0 |
| PngWriters.PngWriter.CutFill | src/Writer/PngWriter.php:242-341 | a non-zero step argument replaces the stored step and zero reuses it; the result is exactly `GradientTable` for the parsed ends, the line count and that step |
| PngWriters.PngWriter.CreateBaseImage | src/Writer/PngWriter.php:59-116 | a canvas of block_count·block_size pixels square, or `GenerateImageException`; a missing channel is a `TypeError`; the call succeeds exactly when no module throws, and every pixel is then the colour the `Raster` specification gives; the step field changes only when a gradient is set |
| PngWriters.PngWriter.CreateImage | src/Writer/PngWriter.php:47-57 | the result is exactly `ImageStage`: `GenerateImageException` for an empty base size, a `TypeError` for a missing channel or a failing module, `GenerateImageException` for an empty outer size, and otherwise a fresh outer canvas whose snapshot is the background with the base image resampled into the inner block; the base image is `BaseImage` of the `Raster` specification; the step changes only when a gradient is set |
| PngWriters.PngWriter.CreateInterpolatedImage | src/Writer/PngWriter.php:118-132 | a background canvas of the outer size, with the resampled base image in the inner-size block at (margin_left, margin_left); its snapshot is `Interpolated` of the base image's snapshot |
| PngWriters.PngWriter.AddLogo | src/Writer/PngWriter.php:134-167 | the media-type error, or `MissingException` for an SVG without both sizes, or `GenerateImageException` for an undecodable file, in that order, with the canvas unchanged; on success the logo's block at its placement is written with the resampled logo and every other pixel is kept; the outcome and the new snapshot are `LogoStage` of the old snapshot |
| PngWriters.PngWriter.AddLabel | src/Writer/PngWriter.php:169-216 | `MissingException` without FreeType; otherwise a fresh canvas of the label layout filled with the background, with the source in its top left corner and the text drawn at the layout's (x, y) in the foreground colour; the outcome, snapshot and text are `LabelStage` of the source's snapshot |
| PngWriters.PngWriter.DrawImage | src/Writer/PngWriter.php:20 | `createImage` on `getData`'s array: the outcome and the snapshot are `ImageOf` |
| PngWriters.PngWriter.Draw | src/Writer/PngWriter.php:20-25 | the image, then `addLogo` on that same canvas when a logo path is set: the outcome and the snapshot are `DrawSpec` |
| PngWriters.PngWriter.Render | src/Writer/PngWriter.php:18-30 | the outcome, the labelled canvas's snapshot and the text are `RenderSpec`: image, logo when a path is set, label, with the first error as the result |
| PngWriters.PngWriter.WriteString | src/Writer/PngWriter.php:18-45 | the result is `Encoded` of `RenderSpec`: the PNG bytes of the drawn frame, or the first drawing error, or a `ValidationException` carrying what the reader read |
| PngWriters.PngWriter.WriteDataUri | src/Writer/AbstractWriter.php:59-64 | the result is `AsDataUri` of what `writeString` returns: the same error, or the PNG data URI of the same bytes |
| PngWriters.RenderLabel | src/Writer/PngWriter.php:27-30 | a finished drawing needs FreeType and both colours; its text is the label at the position `LabelPlacement` gives for the outer canvas, in the opaque foreground colour; the canvas is size + 2·margin wide |
| PngWriters.RenderStageOrder | src/Writer/PngWriter.php:20-30 | a `createImage` error is the result before any logo error, and a logo error before any label error; without a logo path the logo stage is skipped; with one it is `addLogo` on the image |
| PngWriters.RenderNeverValidation | src/Writer/PngWriter.php:20-30 | no drawing stage throws `ValidationException` |
| PngWriters.LabelBand | src/Writer/PngWriter.php:194-198 | above the label band the labelled canvas shows the image with its logo; the band itself is the opaque background |
| PngWriters.DrawnWithoutLogo | src/Writer/PngWriter.php:118-132 | without a logo, the inner block shows the resampled `Raster` base image and everything around it is the background colour with its alpha |
| PngWriters.EncodedValidation | src/Writer/PngWriter.php:32-44 | a drawing error passes through; with validation on the bytes are returned exactly when the reader reads the text back, and a refusal carries what it read; without validation the bytes are returned |
| PngWriters.AsDataUriPng | src/Writer/AbstractWriter.php:59-64 | an error passes through; otherwise the URI is `data:image/png;base64,` followed by the base64 of the bytes |
| PngWriters.PaintModules | src/Writer/PngWriter.php:75-113 | the row loop succeeds exactly when no module throws, and then leaves every pixel as the `Raster` specification gives it |
| PngWriters.PaintRow | src/Writer/PngWriter.php:76-112 | one row, left to right: succeeds exactly when no module of the row throws, and then advances the canvas by one row of the specification |
| PngWriters.CutFillStep | src/Writer/PngWriter.php:325-339 | one iteration of the loop carries its invariant from entry k to entry k+1 |
| PngWriters.CutFillDone | src/Writer/PngWriter.php:325-340 | when the loop stops, the list is the whole table |

## Left out

- The `roundBlockSize = false` rendering path is not modelled. It uses
  base size 25, a fractional block size and a float-accumulated loop index
  in `cutFill`, and its truncations depend on float rounding.
  `QrCodes.QrCode.GetData` computes its sizes in exact real arithmetic
  (`DeriveExact`). `CreateImage`, `DrawImage`, `Draw`, `Render`,
  `WriteString` and `WriteDataUri` require `roundBlockSize`.
- PHP floats are not modelled. `intval` of a quotient (`Php.TruncDiv`) is
  the exact quotient truncated toward zero. PHP computes several of these
  quotients as an IEEE double product, which can come out just below an
  integer and truncate one lower, on ordinary inputs.
- Gradients.Interpolate: computes `intval($r1 + ($r2 - $r1) * ($i / $line_numbers))`
  exactly. PHP's float product can truncate one lower. For example, from
  25 to 0 over 300 lines at i = 168, PHP gives 10 and the model 11; from 2
  to 200 over 11 lines at i = 3, PHP gives 55 and the model 56.
- PngWriters.LogoPlacement: computes the missing logo height
  `intval($logoSourceHeight * ($logoTargetWidth / $logoSourceWidth))`
  exactly. PHP's float product can truncate one lower. For a 3 by 15 logo
  drawn 49 wide, PHP gives 244 and the model 245.
- PngWriters.AllocateAlpha: assumes every channel is in 0..255 and alpha in
  0..127. GD packs a colour as (a << 24) + (r << 16) + (g << 8) + b, so a
  larger channel spills into the next one. For alpha 128 or more, or a
  negative channel, the call returns `false`, which `imagefill` rejects with
  a `TypeError`. Neither is modelled.
- PngWriters.AllocateOpaque: assumes every channel is in 0..255. The same
  packing and the same `false` result are not modelled.
- PHP integers are unbounded in the model. A 64-bit overflow to float is
  not modelled.
- GD's alpha blending is not modelled: painting replaces pixels.
- The pixels `imagecopyresampled` computes are not modelled. The filter is
  a parameter, and only the destination block is stated. `addLabel` copies
  the source at its own size; the model takes that copy to be exact.
- `imagesavealpha` and `imagedestroy` are not modelled. They do not change
  the pixels that are stated.
- Glyph rendering is not modelled. `imagettftext` is recorded as its
  arguments (`TextDraw`), and the bounding box is an input.
- PNG serialisation (`imagepng` and output buffering), the Bacon encoder and
  the zxing reader are uninterpreted functions.
- File and network I/O are abstract functions: `file_get_contents`,
  `get_headers`, `mime_content_type`, `filter_var`, `realpath` and
  `is_file`. `mb_convert_encoding` is one too: only the falsy-label case of
  `getLabel` is stated.
- `writeFile` (`file_put_contents`) is left out because it is I/O. The
  `QrCode` delegates `writeString`, `writeDataUri`, `writeFile` and
  `getContentType` are one call each to the writer.
- The one-line accessors are not methods of the model; the fields are read
  and assigned directly. These are `setText`, `setSize`, `setMargin`,
  `setEncoding`, `setRoundBlockSize`, `setErrorCorrectionLevel`,
  `setLogoPath`, `setLogoWidth`, `setLogoHeight`, `setLabelFontSize`,
  `setForegroundColorJb`, `setValidateResult`, `setWriter`,
  `setWriterRegistry`, `setWriterOptions` and the getters.
- `setWriterByName` is `getWriter` followed by an assignment.
  `setWriterByPath` is `pathinfo` followed by `setWriterByExtension`.
  Neither is modelled separately.
- The extension lookup compares strings exactly. `in_array`'s loose
  comparison agrees for the non-numeric names involved.
- PHP arrays remember key order; the colour and margin maps of the model do
  not. The one order that matters, the registry's, is kept.
- `array_merge` renumbers integer keys. The model takes margin keys to be
  strings and margin values to be integers.
- Colour channels are `null`, integers or booleans. Floats and numeric
  strings passed to `intval` are not modelled.
- `LABEL_FONT_PATH_DEFAULT` is kept relative; its `__DIR__` prefix is not
  modelled.
- The commented-out gradient shapes are not modelled. Only the live
  `default:` branch, which paints nothing, is.
- The parameters `$im`, `$line_width` and `$direction` of `cutFill` are
  not modelled. Only the commented-out shapes use them.
- `QrCodes.QrCode.GetData` requires the encoder's matrix to be at least one
  module wide and high. The Bacon encoder always returns such a matrix, and
  `count($matrix[0])` is undefined on an empty one.
- `PngWriters.PngWriter.CutFill` requires a positive step whenever the loop
  runs. With a step of zero or less the PHP loop never ends.
- `Registry.WriterRegistry.SetDefaultWriter` reads an unknown name as
  `null`, which leaves no default. The alternative would be to require the
  name to be registered; the model keeps the source's behaviour instead.
