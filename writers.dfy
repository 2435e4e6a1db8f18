/** What `AbstractWriter` decides without touching an image: which extensions
    a writer supports, how a logo's media type is found, and how a data URI
    is put together. A writer is described by what the registry and the
    `QrCode` object ask of it: its name, its extensions and its content type. */
module Writers {
  import opened Errors

  datatype Writer = Writer(name: string, supportedExtensions: seq<string>, contentType: string)

  /** `AbstractWriter::getSupportedExtensions`: a writer that does not
      override it supports nothing. */
  const AbstractSupportedExtensions: seq<string> := []

  /** `PngWriter::getName`, `getSupportedExtensions` and `getContentType`. */
  const Png: Writer := Writer("png", ["png"], "image/png")

  /** `supportsExtension`: `in_array` over the writer's extensions. */
  predicate SupportsExtension(w: Writer, extension: string): (b: bool)
    ensures b <==> exists k :: 0 <= k < |w.supportedExtensions| && w.supportedExtensions[k] == extension
  {
    extension in w.supportedExtensions
  }

  lemma PngSupportsOnlyPng(extension: string)
    ensures SupportsExtension(Png, extension) <==> extension == "png"
    ensures !SupportsExtension(Writer(Png.name, AbstractSupportedExtensions, Png.contentType), extension)
  {
  }

  // ---------------------------------------------------------------------
  // Media type of a logo

  /** A response header from `get_headers($url, 1)`: a header sent several
      times (after redirects) arrives as an array. */
  datatype HeaderValue = Single(text: string) | Multiple(texts: seq<string>)

  /** The system calls `getMimeType` depends on. */
  datatype MimeEnv = MimeEnv(
    isUrl: string -> bool,                                // filter_var(.., FILTER_VALIDATE_URL) !== false
    headers: string -> Option<map<string, HeaderValue>>, // get_headers($url, 1), None for false
    hasFileinfo: bool,                                    // function_exists('mime_content_type')
    mimeContentType: string -> Option<string>)            // mime_content_type, None for false

  predicate IsImageType(t: string) {
    |t| >= 6 && t[..6] == "image/"
  }

  /** `getMimeTypeFromUrl`: the `Content-Type` header verbatim. A repeated
      header is an array, which the `string` return type rejects under strict
      typing. */
  function MimeTypeFromUrl(url: string, env: MimeEnv): (r: Result<string>)
    ensures env.headers(url).None? ==> r == Err(InvalidException)
    ensures env.headers(url).Some? && "Content-Type" !in env.headers(url).value ==> r == Err(InvalidException)
    ensures r.Ok? ==> env.headers(url).Some? && "Content-Type" in env.headers(url).value
                      && env.headers(url).value["Content-Type"] == Single(r.value)
    ensures r.Err? ==> r.error in {InvalidException, TypeError}
  {
    match env.headers(url)
    case None => Err(InvalidException)
    case Some(hs) =>
      if "Content-Type" !in hs then Err(InvalidException)
      else
        match hs["Content-Type"]
        case Single(t) => Ok(t)
        case Multiple(_) => Err(TypeError)
  }

  /** `getMimeTypeFromPath`: sniff the file. The checks come in this order:
      no sniffer, no answer, not an image; `image/svg` is renamed. */
  function MimeTypeFromPath(path: string, env: MimeEnv): (r: Result<string>)
    ensures !env.hasFileinfo ==> r == Err(MissingException)
    ensures env.hasFileinfo && env.mimeContentType(path).None? ==> r == Err(InvalidException)
    ensures env.hasFileinfo && env.mimeContentType(path).Some? ==>
      var t := env.mimeContentType(path).value;
      && (r == Err(GenerateImageException) <==> !IsImageType(t))
      && (IsImageType(t) ==> r == Ok(if t == "image/svg" then "image/svg+xml" else t))
  {
    if !env.hasFileinfo then Err(MissingException)
    else
      match env.mimeContentType(path)
      case None => Err(InvalidException)
      case Some(t) =>
        if !IsImageType(t) then Err(GenerateImageException)
        else if t == "image/svg" then Ok("image/svg+xml")
        else Ok(t)
  }

  /** `getMimeType`: a string that validates as a URL is asked over the
      network, anything else is sniffed on disk. */
  function MimeType(path: string, env: MimeEnv): (r: Result<string>)
    ensures env.isUrl(path) ==> r == MimeTypeFromUrl(path, env)
    ensures !env.isUrl(path) ==> r == MimeTypeFromPath(path, env)
  {
    if env.isUrl(path) then MimeTypeFromUrl(path, env) else MimeTypeFromPath(path, env)
  }

  /** What a successful lookup can return: from disk, always an image type and
      never the bare `image/svg`; from the network, anything the server says. */
  lemma MimeTypeFromPathIsImage(path: string, env: MimeEnv)
    requires MimeTypeFromPath(path, env).Ok?
    ensures IsImageType(MimeTypeFromPath(path, env).value)
    ensures MimeTypeFromPath(path, env).value != "image/svg"
  {
  }

  lemma MimeTypeFromUrlUnchecked(url: string, t: string, env: MimeEnv)
    requires env.isUrl(url)
    requires env.headers(url).Some? && "Content-Type" in env.headers(url).value
    requires env.headers(url).value["Content-Type"] == Single(t)
    ensures MimeType(url, env) == Ok(t)
  {
  }

  // ---------------------------------------------------------------------
  // Data URI

  type Byte = b: int | 0 <= b < 256

  predicate IsBase64Digit(c: char) {
    'A' <= c <= 'Z' || 'a' <= c <= 'z' || '0' <= c <= '9' || c == '+' || c == '/'
  }

  predicate IsBase64Char(c: char) {
    IsBase64Digit(c) || c == '='
  }

  /** The character of the base64 alphabet for a six-bit value. */
  function Sextet(v: int): (c: char)
    requires 0 <= v < 64
    ensures IsBase64Digit(c)
  {
    if v < 26 then ('A' as int + v) as char
    else if v < 52 then ('a' as int + v - 26) as char
    else if v < 62 then ('0' as int + v - 52) as char
    else if v == 62 then '+'
    else '/'
  }

  /** The four characters for one group of up to three bytes. */
  function Group(s: seq<Byte>): (t: string)
    requires 1 <= |s| <= 3
    ensures |t| == 4
    ensures forall i :: 0 <= i < 4 ==> IsBase64Char(t[i])
  {
    if |s| == 1 then
      [Sextet(s[0] / 4), Sextet(s[0] % 4 * 16), '=', '=']
    else if |s| == 2 then
      [Sextet(s[0] / 4), Sextet(s[0] % 4 * 16 + s[1] / 16), Sextet(s[1] % 16 * 4), '=']
    else
      [Sextet(s[0] / 4), Sextet(s[0] % 4 * 16 + s[1] / 16), Sextet(s[1] % 16 * 4 + s[2] / 64), Sextet(s[2] % 64)]
  }

  /** PHP `base64_encode` (the standard alphabet of section 4 of RFC 4648,
      with `=` padding): every three bytes become four characters. */
  function Base64(s: seq<Byte>): (t: string)
    ensures |t| == 4 * ((|s| + 2) / 3)
    ensures forall i :: 0 <= i < |t| ==> IsBase64Char(t[i])
    decreases |s|
  {
    if |s| == 0 then ""
    else if |s| <= 3 then
      assert (|s| + 2) / 3 == 1;
      Group(s)
    else
      var head := Group(s[..3]);
      var tail := Base64(s[3..]);
      AlphabetConcat(head, tail);
      GroupCount(|s|);
      head + tail
  }

  /** Known vectors: a full group, the two padded groups, and a second group. */
  lemma Base64Vectors()
    ensures Base64([77, 97, 110]) == "TWFu"
    ensures Base64([77, 97]) == "TWE="
    ensures Base64([77]) == "TQ=="
    ensures Base64([77, 97, 110, 77, 97]) == "TWFuTWE="
  {
    var man: seq<Byte> := [77, 97, 110, 77, 97];
    assert man[..3] == [77, 97, 110] && man[3..] == [77, 97];
  }

  lemma GroupCount(n: int)
    requires n > 3
    ensures 4 + 4 * ((n - 3 + 2) / 3) == 4 * ((n + 2) / 3)
  {
    assert (n + 2) / 3 == (n - 1) / 3 + 1;
  }

  lemma AlphabetConcat(head: string, tail: string)
    requires forall i :: 0 <= i < |head| ==> IsBase64Char(head[i])
    requires forall i :: 0 <= i < |tail| ==> IsBase64Char(tail[i])
    ensures forall i :: 0 <= i < |head + tail| ==> IsBase64Char((head + tail)[i])
  {
    forall i | 0 <= i < |head + tail|
      ensures IsBase64Char((head + tail)[i])
    {
      if i >= |head| {
        assert (head + tail)[i] == tail[i - |head|];
      }
    }
  }

  /** `writeDataUri` once `writeString` has produced the bytes. */
  function DataUri(w: Writer, bytes: seq<Byte>): (uri: string)
    ensures |uri| == 5 + |w.contentType| + 8 + 4 * ((|bytes| + 2) / 3)
  {
    "data:" + w.contentType + ";base64," + Base64(bytes)
  }

  /** A PNG data URI starts with `data:image/png;base64,` and is followed by
      nothing but the base64 text of the bytes. */
  lemma PngDataUriPrefix(bytes: seq<Byte>)
    ensures var uri := DataUri(Png, bytes);
      && uri[..22] == "data:image/png;base64,"
      && uri[22..] == Base64(bytes)
  {
  }
}
