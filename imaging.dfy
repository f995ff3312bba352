/**
 * The image library and the background remover, seen from the handlers.
 * Resampling, cropping, mode conversion and encoding are foreign code; the
 * model receives them as function values and assumes nothing about what
 * they compute. The decoded image itself is an input of the handlers.
 */
module Imaging {
  import opened Wrappers

  newtype byte = x: int | 0 <= x < 256

  type Bytes = seq<byte>

  /** The shape of `image.info['dpi']`: a tuple of numbers, or some other value. */
  datatype DpiValue = DpiTuple(items: seq<int>) | NotATuple

  /**
   * A decoded image as the handlers see it: size, colour mode, file format,
   * and the DPI entry of its info dictionary when there is one.
   */
  datatype Image = Image(
    width: nat,
    height: nat,
    mode: string,
    format: string,
    dpi: Option<DpiValue>)

  /** The rectangle `(left, upper, right, lower)` passed to `Image.crop`. */
  datatype Box = Box(left: int, upper: int, right: int, lower: int)

  /**
   * The library calls the handlers make. `None` from a partial call stands
   * for the exception the library raises (a JPEG of an RGBA image, a PNG of
   * a CMYK image, a DPI tuple the PNG writer cannot read, a crop box the
   * library refuses, a resize to a zero width or height).
   */
  datatype Codec = Codec(
    resize: (Image, int, int) -> Option<Image>,    // image.resize((w, h), LANCZOS)
    crop: (Image, Box) -> Option<Image>,           // image.crop(box)
    convert: (Image, string) -> Image,             // image.convert(mode)
    savePng: Image -> Option<Bytes>,               // image.save(buf, format='PNG')
    savePngDpi: (Image, seq<int>) -> Option<Bytes>, // image.save(buf, format='PNG', dpi=...)
    saveJpeg: (Image, int) -> Option<Bytes>)       // image.save(buf, format='JPEG', quality=q)

  /** The library's refusal to resample to a size with no pixels along one side. */
  ghost predicate RefusesEmptySize(codec: Codec) {
    forall image: Image, w: int, h: int ::
      w <= 0 || h <= 0 ==> codec.resize(image, w, h).None?
  }

  /** The PNG writer's reading of both `dpi[0]` and `dpi[1]`: a one-element DPI tuple raises. */
  ghost predicate NeedsDpiPair(codec: Codec) {
    forall image: Image, dpi: seq<int> :: |dpi| == 1 ==> codec.savePngDpi(image, dpi).None?
  }

  /** Whether the optional background remover was importable, and if so its `remove`. */
  datatype Rembg = Unavailable | Available(remove: Bytes -> Bytes)

  /**
   * An in-memory byte stream (`io.BytesIO`): its bytes and the stream position.
   */
  class ByteBuffer {
    var data: Bytes
    var pos: nat

    ghost predicate Valid()
      reads this
    {
      pos <= |data|
    }

    /** `io.BytesIO()` */
    constructor ()
      ensures Valid() && data == [] && pos == 0
    {
      data := [];
      pos := 0;
    }

    /** `write(b)`: overwrites from the position on, extending the stream when needed. */
    method Write(b: Bytes)
      requires Valid()
      modifies this
      ensures Valid()
      ensures pos == old(pos) + |b|
      ensures data == old(data[..pos]) + b +
        (if old(pos) + |b| < old(|data|) then old(data[pos + |b|..]) else [])
    {
      var tail := if pos + |b| < |data| then data[pos + |b|..] else [];
      data := data[..pos] + b + tail;
      pos := pos + |b|;
    }

    /** `tell()` */
    method Tell() returns (p: nat)
      ensures p == pos
    {
      p := pos;
    }

    /** `seek(0)` */
    method Rewind()
      requires Valid()
      modifies this
      ensures Valid() && data == old(data) && pos == 0
    {
      pos := 0;
    }

    /** `read()`: everything from the position to the end. */
    method Read() returns (b: Bytes)
      requires Valid()
      modifies this
      ensures Valid() && data == old(data) && pos == |data|
      ensures b == old(data[pos..])
    {
      b := data[pos..];
      pos := |data|;
    }
  }
}
