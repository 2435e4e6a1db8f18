/** `PngWriter`: the stages of `writeString` on a GD canvas. The encoder, the
    image decoder, the resampling filter, FreeType, the PNG encoder and the
    QR reader are parameters (`RenderEnv`). */
module PngWriters {
  import opened Errors
  import opened Php
  import opened Helper
  import opened Writers
  import opened Geometry
  import opened Canvas
  import opened Gradients
  import opened Raster
  import opened QrCodes
  import opened LabelAlignments

  type Positive = n: int | n >= 1 witness 1

  /** A logo as `imagecreatefromstring` decodes it. */
  datatype Logo = Logo(width: Positive, height: Positive, pixels: Pixels)

  /** The array `imagettfbbox` returns: four corners, x then y. */
  type Box = s: seq<int> | |s| == 8 witness [0, 0, 0, 0, 0, 0, 0, 0]

  /** The arguments of the `imagettftext` call that draws the label. */
  datatype TextDraw = TextDraw(size: int, x: int, y: int, color: Color, fontPath: string, text: string)

  /** The calls the writer makes into code outside the library. */
  datatype RenderEnv = RenderEnv(
    encode: Encoder,
    mime: MimeEnv,
    fileContents: string -> string,              // strval(file_get_contents($path))
    createFromString: string -> Option<Logo>,    // imagecreatefromstring, None for false
    resample: (Pixels, int, int) -> Sampler,     // imagecopyresampled's filter for a target size
    hasFreeType: bool,                           // function_exists('imagettfbbox')
    ttfBBox: (int, string, string) -> Option<Box>,
    encodePng: (Pixels, TextDraw) -> seq<Byte>,  // imagepng of the canvas with the label drawn
    readQr: seq<Byte> -> Option<string>,         // (new QrReader(..))->text(), None for false
    toEntities: string -> string)                // mb_convert_encoding(.., 'html-entities', 'utf-8')

  /** `imagecolorallocatealpha` with the four channels of a colour array; a
      missing channel is null, which strict typing rejects. */
  function AllocateAlpha(c: map<string, int>): (r: Result<Color>)
    ensures r.Ok? <==> "r" in c && "g" in c && "b" in c && "a" in c
    ensures r.Ok? ==> r.value == Color(c["r"], c["g"], c["b"], c["a"])
    ensures r.Err? ==> r.error == TypeError
  {
    if "r" in c && "g" in c && "b" in c && "a" in c then Ok(Color(c["r"], c["g"], c["b"], c["a"]))
    else Err(TypeError)
  }

  /** `imagecolorallocate`: the same without alpha, so the colour is opaque. */
  function AllocateOpaque(c: map<string, int>): (r: Result<Color>)
    ensures r.Ok? <==> "r" in c && "g" in c && "b" in c
    ensures r.Ok? ==> r.value == Color(c["r"], c["g"], c["b"], 0)
    ensures r.Err? ==> r.error == TypeError
  {
    if "r" in c && "g" in c && "b" in c then Ok(Color(c["r"], c["g"], c["b"], 0)) else Err(TypeError)
  }

  /** The data `getData` returns under rounding, as `createImage` expects it. */
  ghost predicate RoundedData(data: Data) {
    && data.layout.Rounded?
    && data.blockCount >= 1
    && data.layout.geometry.blockCount == data.blockCount
    && data.layout.geometry.innerWidth == data.layout.geometry.innerHeight
         == data.layout.geometry.blockSize * data.blockCount
    && forall row :: 0 <= row < |data.matrix| ==> |data.matrix[row]| == data.blockCount
  }

  /** Under rounding, `getData`'s array is what `createImage` expects. */
  lemma DataOfIsRounded(m: ByteMatrix, size: int, margin: int)
    requires m.width >= 1 && m.height >= 1
    ensures RoundedData(DataOf(m, size, margin, true))
  {
  }

  /** How `createBaseImage` paints true modules: from the gradient table when
      gradient ends are set and the table is not empty, else in the
      foreground colour. */
  function BasePaint(ends: Option<GradientEnds>, kind: string, fg: Color, g: Geometry): Paint
    requires g.innerHeight <= 0 || g.blockSize > 0
  {
    if ends.Some? then
      var colors := GradientTable(Hex2Rgb(ends.value.start), Hex2Rgb(ends.value.end), g.innerHeight, g.blockSize);
      if |colors| > 0 then Gradient(kind, colors) else Solid(fg)
    else Solid(fg)
  }

  /** Under rounding the table has one entry per row, so a square matrix
      and a start colour other than white paint without a `TypeError`. */
  lemma GradientRendersUnlessWhiteStart(data: Data, ends: GradientEnds, kind: string, fg: Color, bg: Color)
    requires RoundedData(data) && data.layout.geometry.blockSize >= 1
    requires |data.matrix| == data.blockCount
    requires Hex2Rgb(ends.start) != White
    ensures var g := data.layout.geometry;
      !Fails(Raster(data.matrix, data.blockCount, g.blockSize, BasePaint(Some(ends), kind, fg, g), bg))
  {
    var g := data.layout.geometry;
    var paint := BasePaint(Some(ends), kind, fg, g);
    var R := Raster(data.matrix, data.blockCount, g.blockSize, paint, bg);
    if paint.Gradient? {
      EntryCountPerRow(g.blockSize, data.blockCount);
      forall k | 0 <= k < |paint.colors|
        ensures paint.colors[k].Allocated?
      {
        NoPlaceholderUnlessWhiteStart(Hex2Rgb(ends.start), Hex2Rgb(ends.end), g.innerHeight, g.blockSize, k);
      }
      AllocatedTableNeverFails(R);
    }
  }

  /** The converse case: under rounding a white start colour leaves the
      `''` placeholder at entry 0, and the first row of a matrix with a true
      module there paints it, so a vertical or horizontal gradient throws. */
  lemma WhiteStartGradientFails(data: Data, ends: GradientEnds, kind: string, fg: Color, bg: Color, c: nat)
    requires RoundedData(data) && data.layout.geometry.blockSize >= 1
    requires |data.matrix| == data.blockCount
    requires Hex2Rgb(ends.start) == White
    requires kind == "vertical" || kind == "horizontal"
    requires c < data.blockCount && data.matrix[0][c] == 1
    ensures var g := data.layout.geometry;
      Fails(Raster(data.matrix, data.blockCount, g.blockSize, BasePaint(Some(ends), kind, fg, g), bg))
  {
    var g := data.layout.geometry;
    var paint := BasePaint(Some(ends), kind, fg, g);
    var R := Raster(data.matrix, data.blockCount, g.blockSize, paint, bg);
    EntryCountPerRow(g.blockSize, data.blockCount);
    FirstEntry(Hex2Rgb(ends.start), Hex2Rgb(ends.end), g.innerHeight, g.blockSize);
    PlaceholderRowFails(R, c);
  }

  lemma PositiveFactor(a: int, b: int)
    requires b >= 1 && a * b >= 1
    ensures a >= 1
  {
    if a <= 0 {
      MulMonotone(a, 0, b);
      assert false;
    }
  }

  /** Where `addLogo` puts the logo and how large it is drawn. */
  datatype Placement = Placement(x: int, y: int, width: int, height: int)

  /** A missing width is the logo's own width; a missing height keeps the
      aspect ratio, truncated; the logo is centred with truncation. */
  function LogoPlacement(canvasWidth: int, canvasHeight: int, logo: Logo, width: Option<int>, height: Option<int>): (p: Placement)
    ensures p.width == if width.Some? then width.value else logo.width
    ensures height.Some? ==> p.height == height.value
    ensures height.None? && p.width >= 0 ==>
      p.height * logo.width <= logo.height * p.width < p.height * logo.width + logo.width
    ensures canvasWidth - p.width >= 0 ==> 0 <= (canvasWidth - p.width - p.x) - p.x <= 1
    ensures canvasHeight - p.height >= 0 ==> 0 <= (canvasHeight - p.height - p.y) - p.y <= 1
  {
    var w := if width.Some? then width.value else logo.width;
    var h := if height.Some? then height.value else TruncDiv(logo.height * w, logo.width);
    Placement(TruncDiv(canvasWidth - w, 2), TruncDiv(canvasHeight - h, 2), w, h)
  }

  /** The example of a 100 by 50 logo drawn 40 wide: 20 high. */
  lemma LogoAspectExample(pixels: Pixels)
    ensures LogoPlacement(320, 320, Logo(100, 50, pixels), Some(40), None) == Placement(140, 150, 40, 20)
  {
    assert TruncDiv(50 * 40, 100) == 20;
  }

  /** The label's size and position on the enlarged canvas. */
  datatype LabelLayout = LabelLayout(width: int, height: int, x: int, y: int)

  function BoxWidth(box: Option<Box>): int {
    if box.Some? then box.value[2] - box.value[0] else 0
  }

  /** The height as the writer computes it: lower-left x minus upper-left y. */
  function BoxHeight(box: Option<Box>): int {
    if box.Some? then box.value[0] - box.value[7] else 0
  }

  predicate HasLabelMargins(margin: map<string, int>) {
    "t" in margin && "r" in margin && "b" in margin && "l" in margin
  }

  /** `addLabel`'s geometry: the canvas keeps its width and grows by the box
      height and the top and bottom margins; the text sits on the bottom
      margin, at the left margin, against the right margin, or centred. */
  function LabelPlacement(sourceWidth: int, sourceHeight: int, box: Option<Box>, alignment: LabelAlignment,
                          margin: map<string, int>): (p: LabelLayout)
    requires HasLabelMargins(margin)
    ensures p.width == sourceWidth
    ensures p.height == sourceHeight + BoxHeight(box) + margin["t"] + margin["b"]
    ensures p.y + margin["b"] == p.height
    ensures alignment == Left ==> p.x == margin["l"]
    ensures alignment == Right ==> p.x + BoxWidth(box) + margin["r"] == p.width
    ensures alignment == Center && p.width - BoxWidth(box) >= 0 ==>
      0 <= (p.width - BoxWidth(box) - p.x) - p.x <= 1
  {
    var width := sourceWidth;
    var height := sourceHeight + BoxHeight(box) + margin["t"] + margin["b"];
    var x := match alignment
      case Left => margin["l"]
      case Right => width - BoxWidth(box) - margin["r"]
      case Center => TruncDiv(width - BoxWidth(box), 2);
    LabelLayout(width, height, x, height - margin["b"])
  }

  /** The box height quirk: for a typical box reaching 4 below and 12 above
      the baseline, whose ink is 16 high, the writer reserves 11 rows. */
  lemma BoxHeightQuirk()
    ensures var box: Box := [-1, 4, 100, 4, 100, -12, -1, -12];
      BoxHeight(Some(box)) == 11 && box[1] - box[7] == 16
  {
  }

  /** The canvas `addLabel` returns and the text drawn on it. */
  datatype Labelled = Labelled(image: array2<Color>, text: TextDraw)

  /** A finished drawing: the labelled canvas as a snapshot and the text
      `imagettftext` draws on it. */
  datatype Frame = Frame(pixels: Pixels, text: TextDraw)

  /** The raster `createBaseImage` paints for `getData`'s array and the two
      colours. */
  function BaseRaster(data: Data, ends: Option<GradientEnds>, kind: string, fg: Color, bg: Color): (R: Raster)
    requires RoundedData(data) && data.blockCount * data.layout.geometry.blockSize >= 1
    ensures Wf(R)
  {
    PositiveFactor(data.layout.geometry.blockSize, data.blockCount);
    Raster(data.matrix, data.blockCount, data.layout.geometry.blockSize,
           BasePaint(ends, kind, fg, data.layout.geometry), bg)
  }

  /** The base image, n pixels square. */
  function BaseImage(R: Raster, n: nat): Pixels
    requires Wf(R)
  {
    seq(n, x => seq(n, y => Pixel(R, x, y)))
  }

  /** `createInterpolatedImage` on snapshots: the background at the outer
      size with the base image resampled into the inner block. */
  function Interpolated(base: Pixels, g: Geometry, bg: Color, env: RenderEnv): Pixels
    requires g.outerWidth >= 1 && g.outerHeight >= 1
  {
    Place(FillPixels(g.outerWidth, g.outerHeight, bg), g.marginLeft, g.marginLeft, g.innerWidth, g.innerHeight,
          env.resample(base, g.innerWidth, g.innerHeight))
  }

  /** A canvas holding the resampled base image in the inner block and the
      background elsewhere has the snapshot `Interpolated`. */
  lemma SnapshotInterpolated(img: array2<Color>, base: Pixels, g: Geometry, bg: Color, env: RenderEnv)
    requires g.outerWidth >= 1 && g.outerHeight >= 1
    requires img.Length0 == g.outerWidth && img.Length1 == g.outerHeight
    requires forall x, y :: 0 <= x < g.outerWidth && 0 <= y < g.outerHeight ==>
      img[x, y] == if InBlock(g.marginLeft, g.marginLeft, g.innerWidth, g.innerHeight, x, y)
                   then env.resample(base, g.innerWidth, g.innerHeight)(x - g.marginLeft, y - g.marginLeft)
                   else bg
    ensures Snapshot(img) == Interpolated(base, g, bg, env)
  {
    SnapshotPlace(img, FillPixels(g.outerWidth, g.outerHeight, bg), g.marginLeft, g.marginLeft,
                  g.innerWidth, g.innerHeight, env.resample(base, g.innerWidth, g.innerHeight));
  }

  /** What `createImage` returns under rounding: an empty base size
      throws, then a colour that cannot be allocated or a failing module, then
      an empty outer size. */
  ghost function ImageStage(data: Data, foreground: map<string, int>, background: map<string, int>,
                            ends: Option<GradientEnds>, kind: string, env: RenderEnv): Result<Pixels>
    requires RoundedData(data)
  {
    var g := data.layout.geometry;
    var n := data.blockCount * g.blockSize;
    if n < 1 then Err(GenerateImageException)
    else if AllocateAlpha(foreground).Err? || AllocateAlpha(background).Err? then Err(TypeError)
    else
      var bg := AllocateAlpha(background).value;
      var R := BaseRaster(data, ends, kind, AllocateAlpha(foreground).value, bg);
      if Fails(R) then Err(TypeError)
      else if g.outerWidth < 1 || g.outerHeight < 1 then Err(GenerateImageException)
      else Ok(Interpolated(BaseImage(R, n), g, bg, env))
  }

  /** The logo stage of `writeString` on a snapshot: nothing without a path,
      else `addLogo` with its checks in order. */
  function LogoStage(img: Pixels, width: int, height: int, logoPath: Option<string>,
                     logoWidth: Option<int>, logoHeight: Option<int>, env: RenderEnv): Result<Pixels>
  {
    if logoPath.None? then Ok(img)
    else
      var mime := MimeType(logoPath.value, env.mime);
      var logo := env.createFromString(env.fileContents(logoPath.value));
      if mime.Err? then Err(mime.error)
      else if mime.value == "image/svg+xml" && (logoHeight.None? || logoWidth.None?) then Err(MissingException)
      else if logo.None? then Err(GenerateImageException)
      else
        var p := LogoPlacement(width, height, logo.value, logoWidth, logoHeight);
        Ok(Place(img, p.x, p.y, p.width, p.height, env.resample(logo.value.pixels, p.width, p.height)))
  }

  /** `addLabel` on a snapshot of a width by height canvas. */
  function LabelStage(img: Pixels, width: int, height: int, caption: string, fontPath: string, fontSize: int,
                      alignment: LabelAlignment, margin: map<string, int>,
                      foreground: map<string, int>, background: map<string, int>, env: RenderEnv): Result<Frame>
    requires HasLabelMargins(margin)
  {
    if !env.hasFreeType then Err(MissingException)
    else
      var p := LabelPlacement(width, height, env.ttfBBox(fontSize, fontPath, caption), alignment, margin);
      if p.width < 1 || p.height < 1 then Err(GenerateImageException)
      else if AllocateOpaque(foreground).Err? || AllocateOpaque(background).Err? then Err(TypeError)
      else Ok(Frame(Extend(img, p.width, p.height, AllocateOpaque(background).value),
                    TextDraw(fontSize, p.x, p.y, AllocateOpaque(foreground).value, fontPath, caption)))
  }

  /** The matrix the encoder returns for the code's text, level and
      encoding. */
  function Matrix(qr: QrCode, env: RenderEnv): ByteMatrix
    reads qr
  {
    env.encode(qr.text, qr.errorCorrectionLevel.ToBaconLetter(), qr.encoding)
  }

  /** The geometry `getData` derives for the encoder's matrix. */
  function GeometryOf(qr: QrCode, env: RenderEnv): Geometry
    reads qr
    requires Matrix(qr, env).width >= 1
  {
    Derive(qr.size, qr.margin, Matrix(qr, env).width)
  }

  /** `createImage` on `getData`'s array. */
  ghost function ImageOf(qr: QrCode, env: RenderEnv): Result<Pixels>
    reads qr
    requires qr.roundBlockSize
    requires Matrix(qr, env).width >= 1 && Matrix(qr, env).height >= 1
  {
    DataOfIsRounded(Matrix(qr, env), qr.size, qr.margin);
    ImageStage(DataOf(Matrix(qr, env), qr.size, qr.margin, true), qr.foregroundColor, qr.backgroundColor,
               qr.foregroundColorJb, qr.gradientType, env)
  }

  /** The first drawing stages of `writeString`: the image, then the logo
      when a path is set. */
  ghost function DrawSpec(qr: QrCode, env: RenderEnv): Result<Pixels>
    reads qr
    requires qr.roundBlockSize
    requires Matrix(qr, env).width >= 1 && Matrix(qr, env).height >= 1
  {
    var g := GeometryOf(qr, env);
    var image :- ImageOf(qr, env);
    LogoStage(image, g.outerWidth, g.outerHeight, qr.logoPath, qr.logoWidth, qr.logoHeight, env)
  }

  /** The drawing stages of `writeString` in order: the image, the logo when
      a path is set, the label; the first error ends the drawing. */
  ghost function RenderSpec(qr: QrCode, env: RenderEnv): Result<Frame>
    reads qr
    requires qr.roundBlockSize && HasLabelMargins(qr.labelMargin)
    requires Matrix(qr, env).width >= 1 && Matrix(qr, env).height >= 1
  {
    var g := GeometryOf(qr, env);
    var drawn :- DrawSpec(qr, env);
    LabelStage(drawn, g.outerWidth, g.outerHeight, qr.GetLabel(env.toEntities), qr.labelFontPath, qr.labelFontSize,
               qr.labelAlignment, qr.labelMargin, qr.foregroundColor, qr.backgroundColor, env)
  }

  /** `imageToString` and the optional check: the PNG bytes of a frame,
      refused when validation is on and the reader does not return the
      text. */
  function Encoded(frame: Result<Frame>, env: RenderEnv, validate: bool, text: string): Result<seq<Byte>> {
    match frame
    case Err(e) => Err(e)
    case Ok(f) =>
      var bytes := env.encodePng(f.pixels, f.text);
      if validate && env.readQr(bytes) != Some(text) then Err(ValidationException(env.readQr(bytes), text))
      else Ok(bytes)
  }

  /** `writeDataUri` on the result of `writeString`. */
  function AsDataUri(bytes: Result<seq<Byte>>): Result<string> {
    match bytes
    case Err(e) => Err(e)
    case Ok(b) => Ok(DataUri(Png, b))
  }

  /** A drawing ends with the label: it needs FreeType, its canvas is as
      wide as the outer size and taller by the label band, and the text is
      the label at the position `addLabel` computes, in the opaque
      foreground colour. */
  lemma RenderLabel(qr: QrCode, env: RenderEnv)
    requires qr.roundBlockSize && HasLabelMargins(qr.labelMargin)
    requires Matrix(qr, env).width >= 1 && Matrix(qr, env).height >= 1
    requires RenderSpec(qr, env).Ok?
    ensures var f := RenderSpec(qr, env).value;
            var outer := qr.size + 2 * qr.margin;
            var caption := qr.GetLabel(env.toEntities);
            var p := LabelPlacement(outer, outer, env.ttfBBox(qr.labelFontSize, qr.labelFontPath, caption),
                                    qr.labelAlignment, qr.labelMargin);
      && env.hasFreeType && DrawSpec(qr, env).Ok?
      && AllocateOpaque(qr.foregroundColor).Ok? && AllocateOpaque(qr.backgroundColor).Ok?
      && f.text == TextDraw(qr.labelFontSize, p.x, p.y, AllocateOpaque(qr.foregroundColor).value, qr.labelFontPath, caption)
      && |f.pixels| == outer
      && forall x :: 0 <= x < outer ==> |f.pixels[x]| == p.height
  {
  }

  /** The stages run in order and the first error is the result: an error
      of `createImage` comes before any logo error, a logo error before any
      label error; without a logo path the logo stage is skipped. */
  lemma RenderStageOrder(qr: QrCode, env: RenderEnv)
    requires qr.roundBlockSize && HasLabelMargins(qr.labelMargin)
    requires Matrix(qr, env).width >= 1 && Matrix(qr, env).height >= 1
    ensures ImageOf(qr, env).Err? ==> RenderSpec(qr, env) == Err(ImageOf(qr, env).error)
    ensures DrawSpec(qr, env).Err? ==> RenderSpec(qr, env) == Err(DrawSpec(qr, env).error)
    ensures qr.logoPath.None? ==> DrawSpec(qr, env) == ImageOf(qr, env)
    ensures ImageOf(qr, env).Ok? && qr.logoPath.Some? ==>
      var g := GeometryOf(qr, env);
      DrawSpec(qr, env) == LogoStage(ImageOf(qr, env).value, g.outerWidth, g.outerHeight, qr.logoPath,
                                     qr.logoWidth, qr.logoHeight, env)
  {
  }

  /** The drawing stages never throw a `ValidationException`; only the
      check after encoding does. */
  lemma RenderNeverValidation(qr: QrCode, env: RenderEnv)
    requires qr.roundBlockSize && HasLabelMargins(qr.labelMargin)
    requires Matrix(qr, env).width >= 1 && Matrix(qr, env).height >= 1
    ensures RenderSpec(qr, env).Err? ==> !RenderSpec(qr, env).error.ValidationException?
  {
    if qr.logoPath.Some? {
      var mime := MimeType(qr.logoPath.value, env.mime);
      assert mime.Err? ==> !mime.error.ValidationException?;
    }
  }

  /** On a drawing, the pixels above the label band are those of the image
      with its logo, and the label band is the opaque background. */
  lemma LabelBand(qr: QrCode, env: RenderEnv, x: int, y: int)
    requires qr.roundBlockSize && HasLabelMargins(qr.labelMargin)
    requires Matrix(qr, env).width >= 1 && Matrix(qr, env).height >= 1
    requires RenderSpec(qr, env).Ok?
    requires 0 <= x < |RenderSpec(qr, env).value.pixels| && 0 <= y < |RenderSpec(qr, env).value.pixels[x]|
    ensures var outer := qr.size + 2 * qr.margin;
            var p := RenderSpec(qr, env).value.pixels;
      && (y < outer ==> p[x][y] == DrawSpec(qr, env).value[x][y])
      && (y >= outer ==> p[x][y] == AllocateOpaque(qr.backgroundColor).value)
  {
    var g := GeometryOf(qr, env);
    var drawn := DrawSpec(qr, env).value;
    assert |drawn| == g.outerWidth && forall i :: 0 <= i < |drawn| ==> |drawn[i]| == g.outerHeight;
  }

  /** Without a logo the margin around the symbol keeps the background
      colour with its alpha, and the symbol block is the base image of the
      module raster, resampled to the inner size. */
  lemma DrawnWithoutLogo(qr: QrCode, env: RenderEnv, x: int, y: int)
    requires qr.roundBlockSize
    requires Matrix(qr, env).width >= 1 && Matrix(qr, env).height >= 1
    requires DrawSpec(qr, env).Ok? && qr.logoPath.None?
    requires 0 <= x < qr.size + 2 * qr.margin && 0 <= y < qr.size + 2 * qr.margin
    ensures var g := GeometryOf(qr, env);
            var data := DataOf(Matrix(qr, env), qr.size, qr.margin, true);
            var n := data.blockCount * g.blockSize;
            var fg := AllocateAlpha(qr.foregroundColor);
            var bg := AllocateAlpha(qr.backgroundColor);
      && RoundedData(data) && n >= 1 && fg.Ok? && bg.Ok?
      && DrawSpec(qr, env).value[x][y] ==
           if InBlock(g.marginLeft, g.marginLeft, g.innerWidth, g.innerHeight, x, y)
           then env.resample(BaseImage(BaseRaster(data, qr.foregroundColorJb, qr.gradientType, fg.value, bg.value), n),
                             g.innerWidth, g.innerHeight)(x - g.marginLeft, y - g.marginLeft)
           else bg.value
  {
    DataOfIsRounded(Matrix(qr, env), qr.size, qr.margin);
  }

  /** The bytes are the PNG encoding of the drawing; with validation on they
      are returned only when the reader decodes the text back, and the
      refusal carries what it read. */
  lemma EncodedValidation(frame: Result<Frame>, env: RenderEnv, validate: bool, text: string)
    ensures var e := Encoded(frame, env, validate, text);
      && (frame.Err? ==> e == Err(frame.error))
      && (e.Ok? <==> frame.Ok? && (!validate || env.readQr(env.encodePng(frame.value.pixels, frame.value.text)) == Some(text)))
      && (e.Ok? ==> e.value == env.encodePng(frame.value.pixels, frame.value.text))
      && (e.Ok? && validate ==> env.readQr(e.value) == Some(text))
      && (frame.Ok? && e.Err? ==>
            var bytes := env.encodePng(frame.value.pixels, frame.value.text);
            e.error == ValidationException(env.readQr(bytes), text))
  {
  }

  /** A data URI of the PNG writer: the prefix, then the base64 text of the
      bytes `writeString` returned. */
  lemma AsDataUriPng(bytes: Result<seq<Byte>>)
    ensures AsDataUri(bytes).Ok? <==> bytes.Ok?
    ensures bytes.Err? ==> AsDataUri(bytes) == Err(bytes.error)
    ensures bytes.Ok? ==> AsDataUri(bytes).value[..22] == "data:image/png;base64,"
                          && AsDataUri(bytes).value[22..] == Base64(bytes.value)
  {
    if bytes.Ok? {
      PngDataUriPrefix(bytes.value);
    }
  }

  class PngWriter {
    /** The gradient step, kept between calls of `cutFill`. */
    var step: int

    constructor ()
      ensures step == 0
    {
      step := 0;
    }

    /** `cutFill`: one table entry for each `i` from 0 below `lineNumbers` in
        steps of the step. A non-zero step argument replaces the stored step;
        zero reuses it. A step that is not positive never ends the loop, so
        one is required whenever the loop runs. */
    method CutFill(lineNumbers: int, start: string, end: string, stepArg: int) returns (colors: seq<Fill>)
      requires lineNumbers <= 0 || (if stepArg != 0 then stepArg else step) > 0
      modifies this`step
      ensures step == if stepArg != 0 then stepArg else old(step)
      ensures colors == GradientTable(Hex2Rgb(start), Hex2Rgb(end), lineNumbers, step)
    {
      if stepArg != 0 {
        step := stepArg;
      }
      var c1 := Hex2Rgb(start);
      var c2 := Hex2Rgb(end);
      var s := step;
      var current := White;
      colors := [];
      var fill := Placeholder;
      var i := 0;
      while i < lineNumbers
        invariant step == s
        invariant lineNumbers > 0 ==> s > 0
        invariant CutFillState(c1, c2, lineNumbers, s, i, colors, current, fill)
        decreases lineNumbers - i
      {
        var previous := current;
        current := ColorAt(c1, c2, i, lineNumbers);
        var previousFill := fill;
        if previous != current {
          fill := Allocated(current);
        }
        CutFillStep(c1, c2, lineNumbers, s, i, colors, previous, previousFill);
        colors := colors + [fill];
        i := i + s;
      }
      CutFillDone(c1, c2, lineNumbers, s, i, colors, current, fill);
    }

    /** `createBaseImage` with the block size as base size: a canvas of
        `block_count * block_size` pixels square, filled with the background,
        on which every true module paints its rectangle (see `Raster`). The
        first module whose colour is not an integer throws a `TypeError`. */
    method CreateBaseImage(baseSize: int, data: Data, qr: QrCode) returns (r: Result<array2<Color>>)
      requires RoundedData(data) && baseSize == data.layout.geometry.blockSize
      modifies this`step
      ensures var n := data.blockCount * baseSize;
              var fg := AllocateAlpha(qr.foregroundColor);
              var bg := AllocateAlpha(qr.backgroundColor);
        && (n < 1 ==> r == Err(GenerateImageException))
        && (n >= 1 && (fg.Err? || bg.Err?) ==> r == Err(TypeError))
        && (n >= 1 && fg.Ok? && bg.Ok? ==>
              var R := Raster(data.matrix, data.blockCount, baseSize,
                              BasePaint(qr.foregroundColorJb, qr.gradientType, fg.value, data.layout.geometry), bg.value);
              && Wf(R)
              && (r.Ok? <==> !Fails(R))
              && (r.Err? ==> r.error == TypeError)
              && (r.Ok? ==> && fresh(r.value) && r.value.Length0 == n && r.value.Length1 == n
                            && forall x, y :: 0 <= x < n && 0 <= y < n ==> r.value[x, y] == Pixel(R, x, y)))
      ensures step == if data.blockCount * baseSize >= 1 && AllocateAlpha(qr.foregroundColor).Ok?
                         && AllocateAlpha(qr.backgroundColor).Ok? && qr.foregroundColorJb.Some?
                      then baseSize else old(step)
    {
      var g := data.layout.geometry;
      var count := data.blockCount;
      var img :- Allocate(count * baseSize, count * baseSize);
      PositiveFactor(baseSize, count);
      var fg :- AllocateAlpha(qr.foregroundColor);
      var bg :- AllocateAlpha(qr.backgroundColor);
      Flood(img, bg);
      var paint := Solid(fg);
      if qr.foregroundColorJb.Some? {
        var colors := CutFill(g.innerHeight, qr.foregroundColorJb.value.start, qr.foregroundColorJb.value.end, g.blockSize);
        if |colors| > 0 {
          paint := Gradient(qr.gradientType, colors);
        }
      }
      var R := Raster(data.matrix, count, baseSize, paint, bg);
      assert paint == BasePaint(qr.foregroundColorJb, qr.gradientType, fg, g);
      var ok := PaintModules(img, R);
      if !ok {
        return Err(TypeError);
      }
      return Ok(img);
    }

    /** `createImage` under rounding: the base image at block size, then the
        final canvas. */
    method CreateImage(data: Data, qr: QrCode, env: RenderEnv) returns (r: Result<array2<Color>>, ghost base: Pixels)
      requires RoundedData(data)
      modifies this`step
      ensures var s := ImageStage(data, qr.foregroundColor, qr.backgroundColor, qr.foregroundColorJb, qr.gradientType, env);
              var g := data.layout.geometry;
        && (r.Ok? <==> s.Ok?)
        && (r.Err? ==> r.error == s.error)
        && (r.Ok? ==> && fresh(r.value)
                      && r.value.Length0 == g.outerWidth && r.value.Length1 == g.outerHeight
                      && Snapshot(r.value) == s.value)
      ensures var g := data.layout.geometry;
              var n := data.blockCount * g.blockSize;
              var fg := AllocateAlpha(qr.foregroundColor);
              var bg := AllocateAlpha(qr.backgroundColor);
        r.Ok? ==> && n >= 1 && fg.Ok? && bg.Ok?
                  && base == BaseImage(BaseRaster(data, qr.foregroundColorJb, qr.gradientType, fg.value, bg.value), n)
                  && forall x, y :: 0 <= x < g.outerWidth && 0 <= y < g.outerHeight ==>
                       r.value[x, y] == if InBlock(g.marginLeft, g.marginLeft, g.innerWidth, g.innerHeight, x, y)
                                        then env.resample(base, g.innerWidth, g.innerHeight)(x - g.marginLeft, y - g.marginLeft)
                                        else bg.value
      ensures step == if data.blockCount * data.layout.geometry.blockSize >= 1 && AllocateAlpha(qr.foregroundColor).Ok?
                         && AllocateAlpha(qr.backgroundColor).Ok? && qr.foregroundColorJb.Some?
                      then data.layout.geometry.blockSize else old(step)
    {
      base := [];
      var baseImage :- CreateBaseImage(data.layout.geometry.blockSize, data, qr);
      ghost var n := data.blockCount * data.layout.geometry.blockSize;
      ghost var R := BaseRaster(data, qr.foregroundColorJb, qr.gradientType,
                                AllocateAlpha(qr.foregroundColor).value, AllocateAlpha(qr.backgroundColor).value);
      SnapshotIs(baseImage, BaseImage(R, n));
      base := Snapshot(baseImage);
      r := CreateInterpolatedImage(baseImage, data, qr, env);
    }

    /** `createInterpolatedImage`: a background canvas of the outer size
        with the base image drawn at `(margin_left, margin_left)`, scaled to
        the inner size. The left margin doubles as the top offset. */
    method CreateInterpolatedImage(baseImage: array2<Color>, data: Data, qr: QrCode, env: RenderEnv) returns (r: Result<array2<Color>>)
      requires RoundedData(data)
      ensures var g := data.layout.geometry;
              var bg := AllocateAlpha(qr.backgroundColor);
        && (r.Ok? <==> g.outerWidth >= 1 && g.outerHeight >= 1 && bg.Ok?)
        && (g.outerWidth < 1 || g.outerHeight < 1 ==> r == Err(GenerateImageException))
        && (g.outerWidth >= 1 && g.outerHeight >= 1 && bg.Err? ==> r == Err(TypeError))
        && (r.Ok? ==> && fresh(r.value)
                      && r.value.Length0 == g.outerWidth && r.value.Length1 == g.outerHeight
                      && forall x, y :: 0 <= x < g.outerWidth && 0 <= y < g.outerHeight ==>
                           r.value[x, y] == if InBlock(g.marginLeft, g.marginLeft, g.innerWidth, g.innerHeight, x, y)
                                            then env.resample(Snapshot(baseImage), g.innerWidth, g.innerHeight)(x - g.marginLeft, y - g.marginLeft)
                                            else bg.value)
      ensures r.Ok? ==> Snapshot(r.value) == Interpolated(Snapshot(baseImage), data.layout.geometry,
                                                           AllocateAlpha(qr.backgroundColor).value, env)
    {
      var g := data.layout.geometry;
      var image :- Allocate(g.outerWidth, g.outerHeight);
      var bg :- AllocateAlpha(qr.backgroundColor);
      Flood(image, bg);
      var sample := env.resample(Snapshot(baseImage), g.innerWidth, g.innerHeight);
      CopyResampled(image, g.marginLeft, g.marginLeft, g.innerWidth, g.innerHeight, sample);
      SnapshotInterpolated(image, Snapshot(baseImage), g, bg, env);
      return Ok(image);
    }

    /** `addLogo`: find the media type, decode the file, refuse an SVG
        without both sizes, then draw the decoded logo resampled into its
        placement. */
    method AddLogo(image: array2<Color>, logoPath: string, logoWidth: Option<int>, logoHeight: Option<int>, env: RenderEnv)
      returns (r: Result<Placement>)
      modifies image
      ensures var mime := MimeType(logoPath, env.mime);
              var logo := env.createFromString(env.fileContents(logoPath));
              var svgUnsized := mime.Ok? && mime.value == "image/svg+xml" && (logoHeight.None? || logoWidth.None?);
        && (mime.Err? ==> r == Err(mime.error))
        && (mime.Ok? && svgUnsized ==> r == Err(MissingException))
        && (mime.Ok? && !svgUnsized && logo.None? ==> r == Err(GenerateImageException))
        && (r.Ok? <==> mime.Ok? && !svgUnsized && logo.Some?)
        && (r.Err? ==> unchanged(image) && !r.error.ValidationException?)
        && (r.Ok? ==> && r.value == LogoPlacement(image.Length0, image.Length1, logo.value, logoWidth, logoHeight)
                      && forall x, y :: 0 <= x < image.Length0 && 0 <= y < image.Length1 ==>
                           image[x, y] == if InBlock(r.value.x, r.value.y, r.value.width, r.value.height, x, y)
                                          then env.resample(logo.value.pixels, r.value.width, r.value.height)(x - r.value.x, y - r.value.y)
                                          else old(image[x, y]))
      ensures var s := LogoStage(old(Snapshot(image)), image.Length0, image.Length1, Some(logoPath), logoWidth, logoHeight, env);
        && (r.Ok? <==> s.Ok?)
        && (r.Err? ==> r.error == s.error)
        && (r.Ok? ==> Snapshot(image) == s.value)
    {
      ghost var before := Snapshot(image);
      var mimeType :- MimeType(logoPath, env.mime);
      var logo := env.createFromString(env.fileContents(logoPath));
      if mimeType == "image/svg+xml" && (logoHeight.None? || logoWidth.None?) {
        return Err(MissingException);
      }
      if logo.None? {
        return Err(GenerateImageException);
      }
      var p := LogoPlacement(image.Length0, image.Length1, logo.value, logoWidth, logoHeight);
      CopyResampled(image, p.x, p.y, p.width, p.height, env.resample(logo.value.pixels, p.width, p.height));
      SnapshotPlace(image, before, p.x, p.y, p.width, p.height, env.resample(logo.value.pixels, p.width, p.height));
      return Ok(p);
    }

    /** `addLabel`: a new canvas, taller by the label band, filled with the
        background, with the source image copied to its top left corner and
        the label text drawn on the bottom margin. */
    method AddLabel(source: array2<Color>, caption: string, fontPath: string, fontSize: int, alignment: LabelAlignment,
                    margin: map<string, int>, foreground: map<string, int>, background: map<string, int>, env: RenderEnv)
      returns (r: Result<Labelled>)
      requires HasLabelMargins(margin)
      ensures var box := env.ttfBBox(fontSize, fontPath, caption);
              var p := LabelPlacement(source.Length0, source.Length1, box, alignment, margin);
              var fg := AllocateOpaque(foreground);
              var bg := AllocateOpaque(background);
        && (!env.hasFreeType ==> r == Err(MissingException))
        && (env.hasFreeType && (p.width < 1 || p.height < 1) ==> r == Err(GenerateImageException))
        && (r.Ok? <==> env.hasFreeType && p.width >= 1 && p.height >= 1 && fg.Ok? && bg.Ok?)
        && (r.Err? ==> r.error in {MissingException, GenerateImageException, TypeError})
        && (r.Ok? ==> && fresh(r.value.image)
                      && r.value.image.Length0 == p.width && r.value.image.Length1 == p.height
                      && r.value.text == TextDraw(fontSize, p.x, p.y, fg.value, fontPath, caption)
                      && forall x, y :: 0 <= x < p.width && 0 <= y < p.height ==>
                           r.value.image[x, y] == if x < source.Length0 && y < source.Length1 then source[x, y] else bg.value)
      ensures var s := LabelStage(Snapshot(source), source.Length0, source.Length1, caption, fontPath, fontSize,
                                  alignment, margin, foreground, background, env);
        && (r.Ok? <==> s.Ok?)
        && (r.Err? ==> r.error == s.error)
        && (r.Ok? ==> Snapshot(r.value.image) == s.value.pixels && r.value.text == s.value.text)
    {
      if !env.hasFreeType {
        return Err(MissingException);
      }
      var box := env.ttfBBox(fontSize, fontPath, caption);
      var p := LabelPlacement(source.Length0, source.Length1, box, alignment, margin);
      var target :- Allocate(p.width, p.height);
      var fg :- AllocateOpaque(foreground);
      var bg :- AllocateOpaque(background);
      Flood(target, bg);
      var pixels := Snapshot(source);
      CopyResampled(target, 0, 0, source.Length0, source.Length1, (x, y) => if 0 <= x < |pixels| && 0 <= y < |pixels[x]| then pixels[x][y] else bg);
      SnapshotExtend(target, source, bg);
      return Ok(Labelled(target, TextDraw(fontSize, p.x, p.y, fg, fontPath, caption)));
    }

    /** The first line of `writeString`: `createImage` on `getData`'s array. */
    method DrawImage(qr: QrCode, env: RenderEnv) returns (r: Result<array2<Color>>)
      requires qr.roundBlockSize
      requires Matrix(qr, env).width >= 1 && Matrix(qr, env).height >= 1
      modifies this`step
      ensures var s := ImageOf(qr, env);
              var g := GeometryOf(qr, env);
        && (r.Ok? <==> s.Ok?)
        && (r.Err? ==> r.error == s.error)
        && (r.Ok? ==> && fresh(r.value) && r.value.Length0 == g.outerWidth && r.value.Length1 == g.outerHeight
                      && Snapshot(r.value) == s.value)
    {
      var data := qr.GetData(env.encode);
      DataOfIsRounded(Matrix(qr, env), qr.size, qr.margin);
      var image, _ := CreateImage(data, qr, env);
      r := image;
    }

    /** The first stages of `writeString`: the image, and the logo when a
        path is set. */
    method Draw(qr: QrCode, env: RenderEnv) returns (r: Result<array2<Color>>)
      requires qr.roundBlockSize
      requires Matrix(qr, env).width >= 1 && Matrix(qr, env).height >= 1
      modifies this`step
      ensures var s := DrawSpec(qr, env);
              var g := GeometryOf(qr, env);
        && (r.Ok? <==> s.Ok?)
        && (r.Err? ==> r.error == s.error)
        && (r.Ok? ==> && fresh(r.value) && r.value.Length0 == g.outerWidth && r.value.Length1 == g.outerHeight
                      && Snapshot(r.value) == s.value)
    {
      var canvas :- DrawImage(qr, env);
      if qr.logoPath.Some? {
        var placed := AddLogo(canvas, qr.logoPath.value, qr.logoWidth, qr.logoHeight, env);
        if placed.Err? {
          return Err(placed.error);
        }
      }
      return Ok(canvas);
    }

    /** The drawing stages of `writeString`: the image, the logo when a path
        is set, and the label, which always runs since `getLabel` never
        returns null. */
    method Render(qr: QrCode, env: RenderEnv) returns (r: Result<Labelled>)
      requires HasLabelMargins(qr.labelMargin) && qr.roundBlockSize
      requires Matrix(qr, env).width >= 1 && Matrix(qr, env).height >= 1
      modifies this`step
      ensures var s := RenderSpec(qr, env);
        && (r.Ok? <==> s.Ok?)
        && (r.Err? ==> r.error == s.error)
        && (r.Ok? ==> fresh(r.value.image) && Snapshot(r.value.image) == s.value.pixels && r.value.text == s.value.text)
    {
      var canvas :- Draw(qr, env);
      var caption := qr.GetLabel(env.toEntities);
      r := AddLabel(canvas, caption, qr.labelFontPath, qr.labelFontSize, qr.labelAlignment, qr.labelMargin,
                    qr.foregroundColor, qr.backgroundColor, env);
    }

    /** `writeString`: the drawn canvas as PNG bytes, and the optional check
        that a reader decodes the text back. */
    method WriteString(qr: QrCode, env: RenderEnv) returns (r: Result<seq<Byte>>)
      requires qr.Valid() && qr.roundBlockSize
      requires Matrix(qr, env).width >= 1 && Matrix(qr, env).height >= 1
      modifies this`step
      ensures r == Encoded(RenderSpec(qr, env), env, qr.validateResult, qr.text)
      ensures r.Ok? && qr.validateResult ==> env.readQr(r.value) == Some(qr.text)
    {
      var labelled := Render(qr, env);
      if labelled.Err? {
        return Err(labelled.error);
      }
      var shot := Snapshot(labelled.value.image);
      var bytes := env.encodePng(shot, labelled.value.text);
      if qr.validateResult {
        var read := env.readQr(bytes);
        if read != Some(qr.text) {
          return Err(ValidationException(read, qr.text));
        }
      }
      return Ok(bytes);
    }

    /** `writeDataUri`: the content type and the base64 text of the bytes. */
    method WriteDataUri(qr: QrCode, env: RenderEnv) returns (r: Result<string>)
      requires qr.Valid() && qr.roundBlockSize
      requires Matrix(qr, env).width >= 1 && Matrix(qr, env).height >= 1
      modifies this`step
      ensures r == AsDataUri(Encoded(RenderSpec(qr, env), env, qr.validateResult, qr.text))
    {
      var s := WriteString(qr, env);
      if s.Err? {
        return Err(s.error);
      }
      return Ok(DataUri(Png, s.value));
    }
  }

  /** The two `foreach` loops of `createBaseImage`: every module in row-major
      order; false when a module's colour is not an integer. */
  method PaintModules(img: array2<Color>, R: Raster) returns (ok: bool)
    requires Wf(R)
    requires forall x, y :: 0 <= x < img.Length0 && 0 <= y < img.Length1 ==> img[x, y] == R.background
    modifies img
    ensures ok <==> !Fails(R)
    ensures ok ==> forall x, y :: 0 <= x < img.Length0 && 0 <= y < img.Length1 ==> img[x, y] == Pixel(R, x, y)
  {
    var row := 0;
    while row < |R.modules|
      invariant 0 <= row <= |R.modules|
      invariant forall x, y :: 0 <= x < img.Length0 && 0 <= y < img.Length1 ==> img[x, y] == After(R, row, 0, x, y)
      invariant forall r: nat, c: nat :: r < row && c < R.width ==> !FailsAt(R, r, c)
    {
      var rowOk := PaintRow(img, R, row);
      if !rowOk {
        return false;
      }
      row := row + 1;
    }
    return true;
  }

  /** The inner loop: the modules of one row, left to right. */
  method PaintRow(img: array2<Color>, R: Raster, row: nat) returns (ok: bool)
    requires Wf(R) && row < |R.modules|
    requires forall x, y :: 0 <= x < img.Length0 && 0 <= y < img.Length1 ==> img[x, y] == After(R, row, 0, x, y)
    modifies img
    ensures ok <==> forall c: nat :: c < R.width ==> !FailsAt(R, row, c)
    ensures ok ==> forall x, y :: 0 <= x < img.Length0 && 0 <= y < img.Length1 ==> img[x, y] == After(R, row + 1, 0, x, y)
  {
    var b := R.block;
    var col := 0;
    while col < R.width
      invariant 0 <= col <= R.width
      invariant forall x, y :: 0 <= x < img.Length0 && 0 <= y < img.Length1 ==> img[x, y] == After(R, row, col, x, y)
      invariant forall c: nat :: c < col ==> !FailsAt(R, row, c)
    {
      var value := R.modules[row][col];
      if value == 1 {
        match R.paint
        case Gradient(kind, colors) =>
          if kind == "vertical" || kind == "horizontal" {
            var rect := if kind == "vertical"
              then Rect(col * b, row * b, (col + 1) * b, (row + 1) * b)
              else Rect(row * b, col * b, (row + 1) * b, (col + 1) * b);
            var color := TableColor(colors, row);
            if color.None? {
              assert FailsAt(R, row, col);
              return false;
            }
            FilledRectangle(img, rect, color.value);
          }
        case Solid(fg) =>
          FilledRectangle(img, Rect(col * b, row * b, (col + 1) * b, (row + 1) * b), fg);
      }
      col := col + 1;
    }
    return true;
  }

  /** The invariant of `cutFill`'s loop: after |colors| iterations `i` is
      |colors| steps, the table so far is right, and `current` and `fill` hold
      the last colour and the last entry. */
  ghost predicate CutFillState(c1: Rgb, c2: Rgb, n: int, s: int, i: int, colors: seq<Fill>, current: Rgb, fill: Fill) {
    && i == |colors| * s
    && (|colors| > 0 ==> n > 0 && i - s < n)
    && (forall k :: 0 <= k < |colors| ==> n > 0 && colors[k] == ExpectedFill(c1, c2, n, s, k))
    && (|colors| == 0 ==> current == White && fill == Placeholder)
    && (|colors| > 0 ==> n > 0 && current == ColorAt(c1, c2, i - s, n) && fill == colors[|colors| - 1])
  }

  lemma CutFillStep(c1: Rgb, c2: Rgb, n: int, s: int, i: int, colors: seq<Fill>, current: Rgb, fill: Fill)
    requires CutFillState(c1, c2, n, s, i, colors, current, fill)
    requires i < n && s > 0
    ensures var next := ColorAt(c1, c2, i, n);
            var nextFill := if current != next then Allocated(next) else fill;
      CutFillState(c1, c2, n, s, i + s, colors + [nextFill], next, nextFill)
  {
    var next := ColorAt(c1, c2, i, n);
    var nextFill := if current != next then Allocated(next) else fill;
    if |colors| > 0 {
      NextIndex(|colors| - 1, s);
    }
    EntryStep(c1, c2, n, s, |colors|, current, fill, next, nextFill);
    NextIndex(|colors|, s);
    AppendEntry(colors, nextFill, c1, c2, n, s);
  }

  lemma CutFillDone(c1: Rgb, c2: Rgb, n: int, s: int, i: int, colors: seq<Fill>, current: Rgb, fill: Fill)
    requires CutFillState(c1, c2, n, s, i, colors, current, fill)
    requires n > 0 ==> s > 0
    requires i >= n
    ensures colors == GradientTable(c1, c2, n, s)
  {
    if n > 0 {
      assert |colors| > 0;
      NextIndex(|colors| - 1, s);
      CountUnique(n, s, |colors|);
    }
    TableByEntries(colors, c1, c2, n, s);
  }

  /** One iteration of `cutFill`'s loop computes entry k from the colour and
      the fill the previous iteration left. */
  lemma EntryStep(c1: Rgb, c2: Rgb, n: int, s: int, k: nat, cur: Rgb, fill: Fill, next: Rgb, newFill: Fill)
    requires n > 0
    requires k == 0 ==> cur == White && fill == Placeholder
    requires k > 0 ==> cur == ColorAt(c1, c2, (k - 1) * s, n) && fill == ExpectedFill(c1, c2, n, s, k - 1)
    requires next == ColorAt(c1, c2, k * s, n)
    requires newFill == if cur != next then Allocated(next) else fill
    ensures newFill == ExpectedFill(c1, c2, n, s, k)
  {
    if k > 0 {
      ExpectedFillStep(c1, c2, n, s, k - 1);
    }
  }

  lemma AppendEntry(colors: seq<Fill>, fill: Fill, c1: Rgb, c2: Rgb, n: int, s: int)
    requires n > 0
    requires forall k :: 0 <= k < |colors| ==> colors[k] == ExpectedFill(c1, c2, n, s, k)
    requires fill == ExpectedFill(c1, c2, n, s, |colors|)
    ensures forall k :: 0 <= k < |colors| + 1 ==> (colors + [fill])[k] == ExpectedFill(c1, c2, n, s, k)
  {
  }

  lemma NextIndex(k: int, s: int)
    ensures (k + 1) * s == k * s + s
  {
  }

  lemma TableByEntries(colors: seq<Fill>, c1: Rgb, c2: Rgb, n: int, s: int)
    requires n <= 0 || s > 0
    requires |colors| == EntryCount(n, s)
    requires forall k :: 0 <= k < |colors| ==> colors[k] == ExpectedFill(c1, c2, n, s, k)
    ensures colors == GradientTable(c1, c2, n, s)
  {
  }

  /** The only t with (t - 1) * step < n <= t * step is the entry count. */
  lemma CountUnique(n: int, step: int, t: int)
    requires n > 0 && step > 0 && (t - 1) * step < n <= t * step
    ensures t == EntryCount(n, step)
  {
    var c := EntryCount(n, step);
    if t < c {
      MulMonotone(t, c - 1, step);
      assert false;
    } else if t > c {
      MulMonotone(c, t - 1, step);
      assert false;
    }
  }
}
