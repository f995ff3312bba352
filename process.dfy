/**
 * The `/process` handler: one operation, chosen by name, is applied to the
 * uploaded image and the result is sent back as a download, or a fixed
 * error text with a status is returned.
 */
module Process {
  import opened Wrappers
  import opened Text
  import opened Imaging
  import opened Params
  import opened Compress

  /** A download of `body`, or an error text with its HTTP status. */
  datatype Response = Sent(body: Bytes, name: string, mime: string) | Failed(message: string, status: int)

  const PngMime := "image/png"
  const CropErrorMessage := "Invalid crop values"
  const RembgMissingMessage :=
    "Background removal requires the rembg module. Please install with: pip install rembg"
  /** What the web framework answers when the handler raises. */
  const ServerErrorMessage := "Internal Server Error"

  const Operations: set<string> :=
    {"resize", "aspect", "compress", "resolution", "grayscale", "crop", "removebg"}

  /** `f"processed_{operation}.png"` */
  function DownloadName(operation: string): string {
    "processed_" + operation + ".png"
  }

  function Send(operation: string, body: Bytes): Response {
    Sent(body, DownloadName(operation), PngMime)
  }

  function ServerError(): Response {
    Failed(ServerErrorMessage, 500)
  }

  /** Sending what an encoder wrote; an encoder that raised ends the request with a server error. */
  function SendSaved(operation: string, saved: Option<Bytes>): Response {
    match saved
    case None => ServerError()
    case Some(b) => Send(operation, b)
  }

  /** Resampling, then saving as PNG; either call raising ends the request with a server error. */
  function SendResized(operation: string, codec: Codec, resized: Option<Image>): Response {
    match resized
    case None => ServerError()
    case Some(image) => SendSaved(operation, codec.savePng(image))
  }

  /** `resize`: both sizes positive resample to exactly that size; otherwise nothing is written. */
  function ResizeOutcome(codec: Codec, image: Image, form: Form): Response {
    var width := FormInt(form, "width");
    var height := FormInt(form, "height");
    if width.None? || height.None? then ServerError()
    else if width.value > 0 && height.value > 0 then
      SendResized("resize", codec, codec.resize(image, width.value, height.value))
    else Send("resize", [])
  }

  /** `aspect`: a positive width resamples to that width and the proportional height. */
  function AspectOutcome(codec: Codec, image: Image, form: Form): Response {
    var newWidth := FormInt(form, "width");
    if newWidth.None? then ServerError()
    else if newWidth.value <= 0 then Send("aspect", [])
    else if image.width == 0 then ServerError()   // the division by the width raises
    else
      var newHeight := AspectHeight(image.width, image.height, newWidth.value);
      SendResized("aspect", codec, codec.resize(image, newWidth.value, newHeight))
  }

  /** `compress`: the first JPEG encoding that fits the target, or nothing when none does. */
  function CompressOutcome(codec: Codec, image: Image, form: Form): Response {
    var target := FormInt(form, "filesize");
    if target.None? then ServerError()
    else
      match FirstFit(codec, image, target.value, Qualities())
      case Fit(_, bytes) => Send("compress", bytes)
      case NoFit => Send("compress", [])
      case EncodeFailed(_) => ServerError()
  }

  /** `resolution`: a PNG written with the parsed DPI tuple. */
  function ResolutionOutcome(codec: Codec, image: Image, form: Form): Response {
    match ParseDpi(DpiText(form))
    case None => ServerError()
    case Some(dpi) => SendSaved("resolution", codec.savePngDpi(image, dpi))
  }

  /** `grayscale`: the image converted to mode `L`. */
  function GrayscaleOutcome(codec: Codec, image: Image): Response {
    SendSaved("grayscale", codec.savePng(codec.convert(image, "L")))
  }

  /** `crop`: the cropped image, or the fixed 400 error when anything in the `try` raises. */
  function CropOutcome(codec: Codec, image: Image, form: Form): Response {
    match ParseCrop(Get(form, "crop", ""))
    case None => Failed(CropErrorMessage, 400)
    case Some(box) =>
      match codec.crop(image, box)
      case None => Failed(CropErrorMessage, 400)
      case Some(cropped) =>
        match codec.savePng(cropped)
        case None => Failed(CropErrorMessage, 400)
        case Some(b) => Send("crop", b)
  }

  /** `removebg`: the remover's output for the RGBA PNG, or the fixed 500 error without the remover. */
  function RemoveBackgroundOutcome(codec: Codec, rembg: Rembg, image: Image): Response {
    match rembg
    case Unavailable => Failed(RembgMissingMessage, 500)
    case Available(remove) =>
      match codec.savePng(codec.convert(image, "RGBA"))
      case None => ServerError()
      case Some(png) => Send("removebg", remove(png))
  }

  /**
   * The response the handler produces for `operation` on `image` with the
   * form fields `form`. Nothing written to the output stream means an empty
   * download; an operation no branch matches writes nothing.
   */
  function Outcome(codec: Codec, rembg: Rembg, image: Image, operation: string, form: Form): Response {
    if operation == "resize" then ResizeOutcome(codec, image, form)
    else if operation == "aspect" then AspectOutcome(codec, image, form)
    else if operation == "compress" then CompressOutcome(codec, image, form)
    else if operation == "resolution" then ResolutionOutcome(codec, image, form)
    else if operation == "grayscale" then GrayscaleOutcome(codec, image)
    else if operation == "crop" then CropOutcome(codec, image, form)
    else if operation == "removebg" then RemoveBackgroundOutcome(codec, rembg, image)
    else Send(operation, [])
  }

  /** The state every branch starts from: a fresh, empty output stream. */
  ghost predicate Untouched(output: ByteBuffer)
    reads output
  {
    output.Valid() && output.data == [] && output.pos == 0
  }

  /*
   * The branches of the handler. Each writes into `output` (or not) and
   * either returns early with a response (`Some`) or falls through to the
   * common send; the contract ties both to the branch's outcome.
   */

  method ResizeBranch(codec: Codec, image: Image, form: Form, output: ByteBuffer)
    returns (early: Option<Response>)
    requires Untouched(output)
    modifies output
    ensures output.Valid()
    ensures early.Some? ==> early.value == ResizeOutcome(codec, image, form)
    ensures early.None? ==> ResizeOutcome(codec, image, form) == Send("resize", output.data)
  {
    var width := FormInt(form, "width");
    if width.None? { return Some(ServerError()); }
    var height := FormInt(form, "height");
    if height.None? { return Some(ServerError()); }
    if width.value > 0 && height.value > 0 {
      var resized := codec.resize(image, width.value, height.value);
      if resized.None? { return Some(ServerError()); }
      var saved := codec.savePng(resized.value);
      if saved.None? { return Some(ServerError()); }
      output.Write(saved.value);
    }
    return None;
  }

  method AspectBranch(codec: Codec, image: Image, form: Form, output: ByteBuffer)
    returns (early: Option<Response>)
    requires Untouched(output)
    modifies output
    ensures output.Valid()
    ensures early.Some? ==> early.value == AspectOutcome(codec, image, form)
    ensures early.None? ==> AspectOutcome(codec, image, form) == Send("aspect", output.data)
  {
    var newWidth := FormInt(form, "width");
    if newWidth.None? { return Some(ServerError()); }
    if newWidth.value > 0 {
      if image.width == 0 { return Some(ServerError()); }
      var newHeight := AspectHeight(image.width, image.height, newWidth.value);
      var resized := codec.resize(image, newWidth.value, newHeight);
      if resized.None? { return Some(ServerError()); }
      var saved := codec.savePng(resized.value);
      if saved.None? { return Some(ServerError()); }
      output.Write(saved.value);
    }
    return None;
  }

  /** Falls through with `chosen`: the buffer of the fitting encoding, or the untouched `output`. */
  method CompressBranch(codec: Codec, image: Image, form: Form, output: ByteBuffer)
    returns (early: Option<Response>, chosen: ByteBuffer)
    requires Untouched(output)
    ensures chosen == output || fresh(chosen)
    ensures chosen.Valid()
    ensures early.Some? ==> early.value == CompressOutcome(codec, image, form)
    ensures early.None? ==> CompressOutcome(codec, image, form) == Send("compress", chosen.data)
  {
    chosen := output;
    var target := FormInt(form, "filesize");
    if target.None? { return Some(ServerError()), chosen; }
    var result, tried := CompressSearch(codec, image, target.value);
    match result {
      case Fit(_, bytes) =>
        // `output = buffer`: the stream the fitting encoding was written to
        var buffer := new ByteBuffer();
        buffer.Write(bytes);
        chosen := buffer;
      case NoFit =>
      case EncodeFailed(_) =>
        return Some(ServerError()), chosen;
    }
    return None, chosen;
  }

  method ResolutionBranch(codec: Codec, image: Image, form: Form, output: ByteBuffer)
    returns (early: Option<Response>)
    requires Untouched(output)
    modifies output
    ensures output.Valid()
    ensures early.Some? ==> early.value == ResolutionOutcome(codec, image, form)
    ensures early.None? ==> ResolutionOutcome(codec, image, form) == Send("resolution", output.data)
  {
    var dpi := ParseDpi(DpiText(form));
    if dpi.None? { return Some(ServerError()); }
    var saved := codec.savePngDpi(image, dpi.value);
    if saved.None? { return Some(ServerError()); }
    output.Write(saved.value);
    return None;
  }

  method GrayscaleBranch(codec: Codec, image: Image, output: ByteBuffer)
    returns (early: Option<Response>)
    requires Untouched(output)
    modifies output
    ensures output.Valid()
    ensures early.Some? ==> early.value == GrayscaleOutcome(codec, image)
    ensures early.None? ==> GrayscaleOutcome(codec, image) == Send("grayscale", output.data)
  {
    var gray := codec.convert(image, "L");
    var saved := codec.savePng(gray);
    if saved.None? { return Some(ServerError()); }
    output.Write(saved.value);
    return None;
  }

  method CropBranch(codec: Codec, image: Image, form: Form, output: ByteBuffer)
    returns (early: Option<Response>)
    requires Untouched(output)
    modifies output
    ensures output.Valid()
    ensures early.Some? ==> early.value == CropOutcome(codec, image, form)
    ensures early.None? ==> CropOutcome(codec, image, form) == Send("crop", output.data)
  {
    var box := ParseCrop(Get(form, "crop", ""));
    if box.None? { return Some(Failed(CropErrorMessage, 400)); }
    var cropped := codec.crop(image, box.value);
    if cropped.None? { return Some(Failed(CropErrorMessage, 400)); }
    var saved := codec.savePng(cropped.value);
    if saved.None? { return Some(Failed(CropErrorMessage, 400)); }
    output.Write(saved.value);
    return None;
  }

  method RemoveBackgroundBranch(codec: Codec, rembg: Rembg, image: Image, output: ByteBuffer)
    returns (early: Option<Response>)
    requires Untouched(output)
    modifies output
    ensures output.Valid()
    ensures early.Some? ==> early.value == RemoveBackgroundOutcome(codec, rembg, image)
    ensures early.None? ==> RemoveBackgroundOutcome(codec, rembg, image) == Send("removebg", output.data)
  {
    if rembg.Unavailable? { return Some(Failed(RembgMissingMessage, 500)); }
    var rgba := codec.convert(image, "RGBA");
    var imageData := new ByteBuffer();
    var saved := codec.savePng(rgba);
    if saved.None? { return Some(ServerError()); }
    imageData.Write(saved.value);
    imageData.Rewind();
    var png := imageData.Read();
    assert png == saved.value;
    output.Write(rembg.remove(png));
    return None;
  }

  /**
   * The handler itself: an output stream is opened, the branch for the
   * operation writes into it (or returns early), and the stream is rewound
   * and sent under the download name, always as `image/png`.
   */
  method Process(codec: Codec, rembg: Rembg, image: Image, operation: string, form: Form)
    returns (r: Response)
    ensures r == Outcome(codec, rembg, image, operation, form)
  {
    var output := new ByteBuffer();
    var filename := DownloadName(operation);
    var early: Option<Response> := None;

    if operation == "resize" {
      early := ResizeBranch(codec, image, form, output);
    } else if operation == "aspect" {
      early := AspectBranch(codec, image, form, output);
    } else if operation == "compress" {
      early, output := CompressBranch(codec, image, form, output);
    } else if operation == "resolution" {
      early := ResolutionBranch(codec, image, form, output);
    } else if operation == "grayscale" {
      early := GrayscaleBranch(codec, image, output);
    } else if operation == "crop" {
      early := CropBranch(codec, image, form, output);
    } else if operation == "removebg" {
      early := RemoveBackgroundBranch(codec, rembg, image, output);
    }
    if early.Some? {
      return early.value;
    }

    assert Outcome(codec, rembg, image, operation, form) == Send(operation, output.data);
    output.Rewind();
    var body := output.Read();
    r := Sent(body, filename, PngMime);
  }

  /* Properties of the handler's outcome. */

  /** Every download is named `processed_<operation>.png` and typed `image/png`, whatever its bytes. */
  lemma SentNameAndType(codec: Codec, rembg: Rembg, image: Image, operation: string, form: Form)
    ensures var r := Outcome(codec, rembg, image, operation, form);
      r.Sent? ==> r.name == "processed_" + operation + ".png" && r.mime == "image/png"
  {
    var r := Outcome(codec, rembg, image, operation, form);
    if operation == "compress" {
      assert r == CompressOutcome(codec, image, form);
    } else if operation == "crop" {
      assert r == CropOutcome(codec, image, form);
    } else if operation == "removebg" {
      assert r == RemoveBackgroundOutcome(codec, rembg, image);
    }
    assert r.Sent? ==> r == Send(operation, r.body);
  }

  /**
   * The only failures are the crop error (400), the missing-remover error
   * (500) and an uncaught exception (500); an unknown operation never fails.
   */
  lemma FailureCases(codec: Codec, rembg: Rembg, image: Image, operation: string, form: Form)
    ensures var r := Outcome(codec, rembg, image, operation, form);
      r.Failed? ==>
        operation in Operations &&
        ((r == Failed(CropErrorMessage, 400) && operation == "crop") ||
         (r == Failed(RembgMissingMessage, 500) && operation == "removebg" && rembg.Unavailable?) ||
         (r == ServerError() && operation != "crop"))
  {
  }

  /**
   * A crop fails with the fixed 400 error exactly when the text is not four
   * comma-separated integers, or the library refuses the box or the PNG;
   * otherwise the cropped PNG is sent.
   */
  lemma CropRefusedIff(codec: Codec, rembg: Rembg, image: Image, form: Form)
    ensures var text := Get(form, "crop", "");
      var r := Outcome(codec, rembg, image, "crop", form);
      (r == Failed(CropErrorMessage, 400) <==>
        ParseCrop(text).None? ||
        codec.crop(image, ParseCrop(text).value).None? ||
        codec.savePng(codec.crop(image, ParseCrop(text).value).value).None?) &&
      (r != Failed(CropErrorMessage, 400) ==>
        r == Send("crop", codec.savePng(codec.crop(image, ParseCrop(text).value).value).value))
  {
  }

  /** Without the crop field, the text is `''`, a single empty token, so the crop is refused. */
  lemma CropFieldMissing(codec: Codec, rembg: Rembg, image: Image, form: Form)
    requires "crop" !in form
    ensures Outcome(codec, rembg, image, "crop", form) == Failed(CropErrorMessage, 400)
  {
    assert Split("", ',') == [""];
  }

  /**
   * A crop text `x,y,w,h` of four rendered integers crops the box
   * `(x, y, x + w, y + h)`.
   */
  lemma CropUsesBox(codec: Codec, rembg: Rembg, image: Image, form: Form, x: int, y: int, w: int, h: int)
    requires "crop" in form && form["crop"] == Join(Rendered([x, y, w, h]), ',')
    requires codec.crop(image, Box(x, y, x + w, y + h)).Some?
    ensures var cropped := codec.crop(image, Box(x, y, x + w, y + h)).value;
      Outcome(codec, rembg, image, "crop", form) ==
        if codec.savePng(cropped).Some? then Send("crop", codec.savePng(cropped).value)
        else Failed(CropErrorMessage, 400)
  {
    ParseCropRoundTrip(x, y, w, h);
  }

  /** Without the remover, `removebg` answers the fixed install message with status 500. */
  lemma RemoveBackgroundUnavailable(codec: Codec, image: Image, form: Form)
    ensures Outcome(codec, Unavailable, image, "removebg", form) == Failed(RembgMissingMessage, 500)
  {
  }

  /** An operation no branch matches writes nothing: an empty download, status 200. */
  lemma UnknownOperationSendsNothing(codec: Codec, rembg: Rembg, image: Image, operation: string, form: Form)
    requires operation !in Operations
    ensures Outcome(codec, rembg, image, operation, form) == Sent([], DownloadName(operation), PngMime)
  {
  }

  /** `resize` with a width or height of zero or less writes nothing: an empty download. */
  lemma ResizeNonPositiveSendsNothing(codec: Codec, rembg: Rembg, image: Image, form: Form, w: int, h: int)
    requires FormInt(form, "width") == Some(w) && FormInt(form, "height") == Some(h)
    requires w <= 0 || h <= 0
    ensures Outcome(codec, rembg, image, "resize", form) == Sent([], "processed_resize.png", PngMime)
  {
  }

  /** `aspect` with a width of zero or less (a missing field reads as 0) writes nothing. */
  lemma AspectNonPositiveSendsNothing(codec: Codec, rembg: Rembg, image: Image, form: Form, w: int)
    requires FormInt(form, "width") == Some(w) && w <= 0
    ensures Outcome(codec, rembg, image, "aspect", form) == Sent([], "processed_aspect.png", PngMime)
  {
  }

  /**
   * `aspect` with a positive width asks the library for exactly that width
   * and a height that keeps the height/width ratio up to truncation.
   */
  lemma AspectRequestedSize(codec: Codec, rembg: Rembg, image: Image, form: Form, w: int)
    returns (newHeight: nat)
    requires FormInt(form, "width") == Some(w) && w > 0 && image.width > 0
    ensures newHeight * image.width <= image.height * w < (newHeight + 1) * image.width
    ensures Outcome(codec, rembg, image, "aspect", form) ==
      SendResized("aspect", codec, codec.resize(image, w, newHeight))
  {
    newHeight := AspectHeight(image.width, image.height, w);
  }

  /**
   * `aspect` to a width so narrow that the proportional height truncates to
   * 0 always fails: the library refuses to resample to a height of zero.
   */
  lemma AspectFlattenedFails(codec: Codec, rembg: Rembg, image: Image, form: Form, w: int)
    requires RefusesEmptySize(codec)
    requires FormInt(form, "width") == Some(w) && w > 0 && image.width > 0
    requires image.height * w < image.width
    ensures Outcome(codec, rembg, image, "aspect", form) == ServerError()
  {
    var newHeight := AspectHeight(image.width, image.height, w);
    assert newHeight == 0;
    assert codec.resize(image, w, newHeight).None?;
  }

  /** A 1000 by 10 image asked for width 50 gets the height `int(10 * 0.05) == 0`, hence a server error. */
  lemma AspectFlattenedExample(codec: Codec, rembg: Rembg, image: Image)
    requires RefusesEmptySize(codec)
    requires image.width == 1000 && image.height == 10
    ensures Outcome(codec, rembg, image, "aspect", map["width" := "50"]) == ServerError()
  {
    assert ParseInt("50") == Some(50) by {
      assert IntToString(50) == "50" by {
        assert NatToString(5) == "5";
        assert NatToString(50) == NatToString(5) + [DigitChar(0)];
      }
      ParseIntToString(50);
    }
    AspectFlattenedFails(codec, rembg, image, map["width" := "50"], 50);
  }

  /**
   * An empty number field is not a missing one: `int('')` raises, so the
   * request ends with a server error.
   */
  lemma BlankNumberFieldFails(codec: Codec, rembg: Rembg, image: Image, operation: string, form: Form, key: string)
    requires (operation == "resize" && (key == "width" || key == "height")) ||
      (operation == "aspect" && key == "width") ||
      (operation == "compress" && key == "filesize")
    requires key in form && form[key] == ""
    ensures Outcome(codec, rembg, image, operation, form) == ServerError()
  {
    ParseIntBlank("");
  }

  /**
   * `compress` sends the encoding at the highest quality whose size fits
   * the target, provided every higher quality encoded (too large).
   */
  lemma CompressSendsHighestFit(codec: Codec, rembg: Rembg, image: Image, form: Form, target: int, q: int)
    requires FormInt(form, "filesize") == Some(target)
    requires q in Qualities()
    requires codec.saveJpeg(image, q).Some? && Fits(|codec.saveJpeg(image, q).value|, target)
    requires forall q' :: q' in Qualities() && q' > q ==> TooBig(codec, image, target, q')
    ensures Outcome(codec, rembg, image, "compress", form) == Send("compress", codec.saveJpeg(image, q).value)
  {
    var qs := Qualities();
    QualitiesShape();
    var k := (95 - q) / 5;
    assert qs[k] == q;
    forall i | 0 <= i < k ensures TooBig(codec, image, target, qs[i]) {
      assert qs[i] > q;
    }
    FirstFitFindsFit(codec, image, target, qs, k);
  }

  /**
   * `compress` sends a non-empty download only with a fitting encoding at
   * a tried quality, no higher quality fitting; when nothing fits the
   * download is empty (not a best-effort encoding at the lowest quality).
   */
  lemma CompressSentBody(codec: Codec, rembg: Rembg, image: Image, form: Form, target: int)
    requires FormInt(form, "filesize") == Some(target)
    requires Outcome(codec, rembg, image, "compress", form).Sent?
    ensures var body := Outcome(codec, rembg, image, "compress", form).body;
      (body == [] && forall i :: 0 <= i < |Qualities()| ==> TooBig(codec, image, target, Qualities()[i])) ||
      (exists q :: q in Qualities() && codec.saveJpeg(image, q) == Some(body) && Fits(|body|, target) &&
        forall q' :: q' in Qualities() && q' > q ==> TooBig(codec, image, target, q'))
  {
    var r := FirstFit(codec, image, target, Qualities());
    FirstFitSpec(codec, image, target, Qualities());
    if r.Fit? {
      FitIsHighestQuality(codec, image, target);
      assert r.quality in Qualities();
    }
  }

  /**
   * A target of zero KB or less is never met by non-empty encodings: the
   * download is empty, unless the encoder raised.
   */
  lemma CompressNonPositiveTarget(codec: Codec, rembg: Rembg, image: Image, form: Form, target: int)
    requires FormInt(form, "filesize") == Some(target) && target <= 0
    requires forall q :: codec.saveJpeg(image, q).Some? ==> |codec.saveJpeg(image, q).value| > 0
    ensures var r := Outcome(codec, rembg, image, "compress", form);
      r == Send("compress", []) || r == ServerError()
  {
    NonPositiveTargetNeverFits(codec, image, target, Qualities());
  }

  /** Without a DPI field the text `'72'` gives the one-element tuple `(72,)`. */
  lemma ResolutionDefault(codec: Codec, rembg: Rembg, image: Image, form: Form)
    requires "dpi" !in form
    ensures Outcome(codec, rembg, image, "resolution", form) ==
      SendSaved("resolution", codec.savePngDpi(image, [72]))
  {
    assert Join(Rendered([72]), ',') == "72";
    ParseDpiRoundTrip([72]);
  }

  /** A DPI text of rendered integers separated by `,` hands exactly those integers to the PNG writer. */
  lemma ResolutionUsesDpi(codec: Codec, rembg: Rembg, image: Image, form: Form, dpi: seq<int>)
    requires |dpi| > 0 && "dpi" in form && form["dpi"] == Join(Rendered(dpi), ',')
    ensures Outcome(codec, rembg, image, "resolution", form) ==
      SendSaved("resolution", codec.savePngDpi(image, dpi))
  {
    ParseDpiRoundTrip(dpi);
  }

  /**
   * With a PNG writer that needs two DPI values, a single value, the
   * default `72` included, ends the request with a server error.
   */
  lemma ResolutionSingleValueFails(codec: Codec, rembg: Rembg, image: Image, form: Form, d: int)
    requires NeedsDpiPair(codec)
    requires ("dpi" !in form && d == 72) || ("dpi" in form && form["dpi"] == IntToString(d))
    ensures Outcome(codec, rembg, image, "resolution", form) == ServerError()
  {
    if "dpi" in form {
      assert Join(Rendered([d]), ',') == IntToString(d);
      ResolutionUsesDpi(codec, rembg, image, form, [d]);
    } else {
      ResolutionDefault(codec, rembg, image, form);
    }
  }
}
