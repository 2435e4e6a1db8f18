/** The `QrCode` object: its configuration fields with their defaults, the
    setters that normalise what they store, the writer lookup and `getData`,
    which copies the encoder's matrix and derives the geometry. */
module QrCodes {
  import opened Errors
  import opened Php
  import opened Writers
  import opened Registry
  import opened Geometry
  import opened ErrorCorrectionLevels
  import opened LabelAlignments

  /** The matrix of the Bacon encoder: `getWidth`, `getHeight` and
      `get(x, y)`. */
  datatype ByteMatrix = ByteMatrix(width: int, height: int, get: (int, int) -> int)

  /** `Encoder::encode(text, level, encoding)`, followed by `getMatrix`. The
      level is passed as the letter Bacon's enum is looked up by. */
  type Encoder = (string, string, string) -> ByteMatrix

  /** The size fields of `getData`'s array: integers under rounding, exact
      fractions otherwise. */
  datatype Layout = Rounded(geometry: Geometry) | Exact(exact: ExactGeometry)

  /** The array `getData` returns. */
  datatype Data = Data(matrix: seq<seq<int>>, blockCount: int, layout: Layout)

  /** The array `getData` builds from a matrix: `matrix[row][col]` is
      `get(col, row)`, the block count is the matrix width. */
  function DataOf(m: ByteMatrix, size: int, margin: int, round: bool): Data
    requires m.width >= 1 && m.height >= 1
  {
    Data(seq(m.height, row => seq(m.width, col => m.get(col, row))), m.width,
         if round then Rounded(Derive(size, margin, m.width)) else Exact(DeriveExact(size, margin, m.width)))
  }

  /** The two colours stored by `setForegroundColorJb`. */
  datatype GradientEnds = GradientEnds(start: string, end: string)

  /** `realpath` (with `false` read as `''`) and `is_file`. */
  datatype FontFiles = FontFiles(realPath: string -> string, isFile: string -> bool)

  /** The names `setGradientType` accepts. */
  const GradientTypes: seq<string> :=
    ["horizontal", "vertical", "ellipse", "ellipse2", "circle", "circle2", "square", "rectangle", "diamond"]

  /** `LABEL_FONT_PATH_DEFAULT`, relative to the package directory. */
  const LabelFontPathDefault: string := "static/fonts/noto_sans.otf"

  const DefaultForegroundColor: map<string, int> := map["r" := 0, "g" := 0, "b" := 0, "a" := 0]
  const DefaultBackgroundColor: map<string, int> := map["r" := 255, "g" := 255, "b" := 255, "a" := 0]
  const DefaultLabelMargin: map<string, int> := map["t" := 0, "r" := 10, "b" := 10, "l" := 10]

  /** The colour setters' normalisation: an alpha that is missing or null
      becomes 0, then every entry is passed through `intval`. */
  method CastChannels(color: map<string, Scalar>) returns (r: map<string, int>)
    ensures r.Keys == color.Keys + {"a"}
    ensures forall k :: k in color && k != "a" ==> r[k] == IntVal(color[k])
    ensures r["a"] == if "a" in color then IntVal(color["a"]) else 0
  {
    var withAlpha := if IsSet(color, "a") then color else color["a" := Int(0)];
    r := map[];
    var rest := withAlpha.Keys;
    while rest != {}
      invariant rest <= withAlpha.Keys
      invariant r.Keys == withAlpha.Keys - rest
      invariant forall k :: k in r ==> r[k] == IntVal(withAlpha[k])
      decreases rest
    {
      var k :| k in rest;
      r := r[k := IntVal(withAlpha[k])];
      rest := rest - {k};
    }
  }

  /** The index of the first writer supporting `extension`, if any. */
  function FirstSupporting(ws: seq<Writer>, extension: string): (r: Option<nat>)
    ensures r.Some? ==> r.value < |ws| && SupportsExtension(ws[r.value], extension)
    ensures r.Some? ==> forall j :: 0 <= j < r.value ==> !SupportsExtension(ws[j], extension)
    ensures r.None? <==> forall j :: 0 <= j < |ws| ==> !SupportsExtension(ws[j], extension)
  {
    if ws == [] then None
    else if SupportsExtension(ws[0], extension) then Some(0)
    else
      match FirstSupporting(ws[1..], extension)
      case None => None
      case Some(i) => Some(i + 1)
  }

  /** With only the default writers registered, `png` is the one extension
      a writer is found for. */
  lemma DefaultWritersByExtension(extension: string)
    ensures FirstSupporting([Png], extension) == if extension == "png" then Some(0) else None
  {
  }

  class QrCode {
    var text: string
    var size: int
    var margin: int
    var foregroundColor: map<string, int>
    var foregroundColorJb: Option<GradientEnds>
    var gradientType: string
    var backgroundColor: map<string, int>
    var encoding: string
    var roundBlockSize: bool
    var errorCorrectionLevel: ErrorCorrectionLevel
    var logoPath: Option<string>
    var logoWidth: Option<int>
    var logoHeight: Option<int>
    var labelText: Option<string>
    var labelFontSize: int
    var labelFontPath: string
    var labelAlignment: LabelAlignment
    var labelMargin: map<string, int>
    var writerRegistry: WriterRegistry
    var writer: Option<Writer>
    var validateResult: bool

    /** What the setters maintain: a whitelisted gradient type, the four
        label margins, and a well-formed registry. */
    ghost predicate Valid()
      reads this, writerRegistry
    {
      && writerRegistry.Valid()
      && gradientType in GradientTypes
      && "t" in labelMargin && "r" in labelMargin && "b" in labelMargin && "l" in labelMargin
    }

    /** `__construct`: the field defaults, level low, centred label, and a
        new registry holding the PNG writer as default. */
    constructor (text: string)
      ensures Valid()
      ensures this.text == text && size == 300 && margin == 10
      ensures foregroundColor == DefaultForegroundColor && foregroundColorJb == None
      ensures gradientType == "vertical" && backgroundColor == DefaultBackgroundColor
      ensures encoding == "UTF-8" && roundBlockSize && errorCorrectionLevel == Low
      ensures logoPath == None && logoWidth == None && logoHeight == None
      ensures labelText == None && labelFontSize == 16 && labelFontPath == LabelFontPathDefault
      ensures labelAlignment == Center && labelMargin == DefaultLabelMargin
      ensures writer == None && !validateResult
      ensures fresh(writerRegistry)
      ensures writerRegistry.names == ["png"] && writerRegistry.writers == map["png" := Png]
      ensures writerRegistry.defaultWriter == Some(Png)
    {
      this.text := text;
      size := 300;
      margin := 10;
      foregroundColor := DefaultForegroundColor;
      foregroundColorJb := None;
      gradientType := "vertical";
      backgroundColor := DefaultBackgroundColor;
      encoding := "UTF-8";
      roundBlockSize := true;
      errorCorrectionLevel := Low;
      logoPath := None;
      logoWidth := None;
      logoHeight := None;
      labelText := None;
      labelFontSize := 16;
      labelFontPath := LabelFontPathDefault;
      labelAlignment := Center;
      labelMargin := DefaultLabelMargin;
      writer := None;
      validateResult := false;
      var registry := new WriterRegistry();
      writerRegistry := registry;
      new;
      registry.LoadDefaultWriters();
    }

    method SetForegroundColor(color: map<string, Scalar>)
      modifies this`foregroundColor
      ensures foregroundColor.Keys == color.Keys + {"a"}
      ensures forall k :: k in color && k != "a" ==> foregroundColor[k] == IntVal(color[k])
      ensures foregroundColor["a"] == if "a" in color then IntVal(color["a"]) else 0
    {
      foregroundColor := CastChannels(color);
    }

    method SetBackgroundColor(color: map<string, Scalar>)
      modifies this`backgroundColor
      ensures backgroundColor.Keys == color.Keys + {"a"}
      ensures forall k :: k in color && k != "a" ==> backgroundColor[k] == IntVal(color[k])
      ensures backgroundColor["a"] == if "a" in color then IntVal(color["a"]) else 0
    {
      backgroundColor := CastChannels(color);
    }

    /** `setGradientType`: a name off the whitelist is ignored. */
    method SetGradientType(kind: string)
      requires Valid()
      modifies this`gradientType
      ensures Valid()
      ensures gradientType == if kind in GradientTypes then kind else old(gradientType)
    {
      if kind in GradientTypes {
        gradientType := kind;
      }
    }

    /** `setLabelMargin`: `array_merge` with string keys, so the supplied
        sides are overwritten and the others kept. */
    method SetLabelMargin(m: map<string, int>)
      requires Valid()
      modifies this`labelMargin
      ensures Valid()
      ensures labelMargin.Keys == old(labelMargin).Keys + m.Keys
      ensures forall k :: k in labelMargin ==> labelMargin[k] == if k in m then m[k] else old(labelMargin)[k]
    {
      labelMargin := labelMargin + m;
    }

    /** `setLogoSize`: the height defaults to null. */
    method SetLogoSize(width: int, height: Option<int>)
      modifies this`logoWidth, this`logoHeight
      ensures logoWidth == Some(width) && logoHeight == height
    {
      logoWidth := Some(width);
      logoHeight := height;
    }

    /** `setLabelFontPath`: the resolved path must name a file. */
    method SetLabelFontPath(path: string, files: FontFiles) returns (o: Outcome)
      modifies this`labelFontPath
      ensures o.Pass? <==> files.isFile(files.realPath(path))
      ensures o.Pass? ==> labelFontPath == files.realPath(path)
      ensures o.Fail? ==> o.error == InvalidException && labelFontPath == old(labelFontPath)
    {
      var resolved := files.realPath(path);
      if !files.isFile(resolved) {
        return Fail(InvalidException);
      }
      labelFontPath := resolved;
      return Pass;
    }

    /** `setLabelAlignment`: through the enum constructor. */
    method SetLabelAlignment(value: string) returns (o: Outcome)
      modifies this`labelAlignment
      ensures o.Pass? <==> value in {"left", "center", "right"}
      ensures o.Pass? ==> labelAlignment.Value() == value
      ensures o.Fail? ==> o == Fail(UnexpectedValueException(value)) && labelAlignment == old(labelAlignment)
    {
      var a := FromValue(value);
      if a.Err? {
        return Fail(a.error);
      }
      labelAlignment := a.value;
      return Pass;
    }

    /** `setLabel`: the text is always stored; the optional parts follow in
        order and an exception leaves the later ones untouched. */
    method SetLabel(value: string, fontSize: Option<int>, fontPath: Option<string>, alignment: Option<string>,
                    margin: Option<map<string, int>>, files: FontFiles) returns (o: Outcome)
      requires Valid()
      modifies this`labelText, this`labelFontSize, this`labelFontPath, this`labelAlignment, this`labelMargin
      ensures Valid()
      ensures labelText == Some(value)
      ensures labelFontSize == if fontSize.Some? then fontSize.value else old(labelFontSize)
      ensures var pathOk := fontPath.None? || files.isFile(files.realPath(fontPath.value));
              var alignOk := alignment.None? || alignment.value in {"left", "center", "right"};
        && (o.Pass? <==> pathOk && alignOk)
        && labelFontPath == (if fontPath.Some? && pathOk then files.realPath(fontPath.value) else old(labelFontPath))
        && (!pathOk ==> o == Fail(InvalidException))
        && (pathOk && !alignOk ==> o == Fail(UnexpectedValueException(alignment.value)))
        && (pathOk && alignment.Some? && alignOk ==> labelAlignment.Value() == alignment.value)
        && (!(pathOk && alignment.Some? && alignOk) ==> labelAlignment == old(labelAlignment))
        && (o.Pass? && margin.Some? ==> labelMargin == old(labelMargin) + margin.value)
        && (!(o.Pass? && margin.Some?) ==> labelMargin == old(labelMargin))
    {
      labelText := Some(value);
      if fontSize.Some? {
        labelFontSize := fontSize.value;
      }
      if fontPath.Some? {
        var p := SetLabelFontPath(fontPath.value, files);
        if p.Fail? {
          return p;
        }
      }
      if alignment.Some? {
        var a := SetLabelAlignment(alignment.value);
        if a.Fail? {
          return a;
        }
      }
      if margin.Some? {
        SetLabelMargin(margin.value);
      }
      return Pass;
    }

    /** `getLabel`: never null. A label that is unset or falsy (`''`, `'0'`)
        reads as `''`; any other goes through the HTML-entity conversion
        `toEntities`. */
    function GetLabel(toEntities: string -> string): (r: string)
      reads this
      ensures labelText.None? || IsFalsyString(labelText.value) ==> r == ""
      ensures labelText.Some? && !IsFalsyString(labelText.value) ==> r == toEntities(labelText.value)
    {
      if labelText.None? || IsFalsyString(labelText.value) then "" else toEntities(labelText.value)
    }

    /** `getWriter`: by name through the registry; without a name the writer
        set on the object, else the registry's default. */
    function GetWriter(name: Option<string>): (r: Result<Writer>)
      reads this, writerRegistry
      ensures name.Some? ==> r == writerRegistry.GetWriter(name.value)
      ensures name.None? && writer.Some? ==> r == Ok(writer.value)
      ensures name.None? && writer.None? ==> r == writerRegistry.GetDefaultWriter()
    {
      if name.Some? then writerRegistry.GetWriter(name.value)
      else if writer.Some? then Ok(writer.value)
      else writerRegistry.GetDefaultWriter()
    }

    /** `setWriterByExtension`: the first registered writer, in insertion
        order, that supports the extension; none leaves the writer as it was
        and throws `UnsupportedExtensionException`. */
    method SetWriterByExtension(extension: string) returns (o: Outcome)
      requires Valid()
      modifies this`writer
      ensures var found := FirstSupporting(writerRegistry.GetWriters(), extension);
        && (o.Pass? <==> found.Some?)
        && (found.Some? ==> writer == Some(writerRegistry.GetWriters()[found.value]))
        && (found.None? ==> o == Fail(UnsupportedExtensionException(extension)) && writer == old(writer))
    {
      var ws := writerRegistry.GetWriters();
      var i := 0;
      while i < |ws|
        invariant 0 <= i <= |ws|
        invariant forall j :: 0 <= j < i ==> !SupportsExtension(ws[j], extension)
        invariant writer == old(writer)
      {
        if SupportsExtension(ws[i], extension) {
          writer := Some(ws[i]);
          assert FirstSupporting(ws, extension) == Some(i);
          return Pass;
        }
        i := i + 1;
      }
      return Fail(UnsupportedExtensionException(extension));
    }

    /** `getData`: copy the encoder's matrix row by row (`matrix[row][col] ==
        get(col, row)`) and derive the sizes from the width of row 0. The
        encoder always yields a non-empty matrix. */
    method GetData(encode: Encoder) returns (data: Data)
      requires encode(text, errorCorrectionLevel.ToBaconLetter(), encoding).width >= 1
      requires encode(text, errorCorrectionLevel.ToBaconLetter(), encoding).height >= 1
      ensures var m := encode(text, errorCorrectionLevel.ToBaconLetter(), encoding);
        && |data.matrix| == m.height
        && (forall row :: 0 <= row < m.height ==> |data.matrix[row]| == m.width)
        && (forall row, col :: 0 <= row < m.height && 0 <= col < m.width ==> data.matrix[row][col] == m.get(col, row))
        && data.blockCount == |data.matrix[0]|
        && data.layout == if roundBlockSize then Rounded(Derive(size, margin, data.blockCount))
                          else Exact(DeriveExact(size, margin, data.blockCount))
      ensures data == DataOf(encode(text, errorCorrectionLevel.ToBaconLetter(), encoding), size, margin, roundBlockSize)
    {
      var m := encode(text, errorCorrectionLevel.ToBaconLetter(), encoding);
      var matrix: seq<seq<int>> := [];
      var row := 0;
      while row < m.height
        invariant 0 <= row <= m.height
        invariant |matrix| == row
        invariant forall r :: 0 <= r < row ==> |matrix[r]| == m.width
        invariant forall r, c :: 0 <= r < row && 0 <= c < m.width ==> matrix[r][c] == m.get(c, r)
      {
        var values: seq<int> := [];
        var col := 0;
        while col < m.width
          invariant 0 <= col <= m.width
          invariant |values| == col
          invariant forall c :: 0 <= c < col ==> values[c] == m.get(c, row)
        {
          values := values + [m.get(col, row)];
          col := col + 1;
        }
        matrix := matrix + [values];
        row := row + 1;
      }
      var count := |matrix[0]|;
      var layout := if roundBlockSize then Rounded(Derive(size, margin, count)) else Exact(DeriveExact(size, margin, count));
      data := Data(matrix, count, layout);
      ghost var copy := DataOf(m, size, margin, roundBlockSize).matrix;
      forall r | 0 <= r < m.height
        ensures matrix[r] == copy[r]
      {
        assert |matrix[r]| == |copy[r]|;
      }
    }
  }
}
