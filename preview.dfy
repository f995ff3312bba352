/**
 * The `/preview` endpoint's derived values: the DPI display string and the
 * file size in KB rounded to two decimals.
 */
module Preview {
  import opened Wrappers
  import opened Text
  import opened Imaging

  /** The DPI assumed when the image carries none. */
  const DefaultDpi: seq<int> := [72, 72]

  const Times := " \U{00D7} "
  const NotAvailable := "N/A"

  /**
   * `dpi = image.info.get('dpi', (72, 72))` rendered as `"a × b"` for a
   * pair, `"a"` for a one-element tuple, and `"N/A"` for anything else.
   */
  function DpiDisplay(dpi: Option<DpiValue>): string {
    var value := if dpi.None? then DpiTuple(DefaultDpi) else dpi.value;
    match value
    case DpiTuple(items) =>
      if |items| == 2 then IntToString(items[0]) + Times + IntToString(items[1])
      else if |items| == 1 then IntToString(items[0])
      else NotAvailable
    case NotATuple => NotAvailable
  }

  /** An image without DPI information is shown as 72 × 72. */
  lemma DpiDisplayDefault()
    ensures DpiDisplay(None) == "72 \U{00D7} 72"
  {
  }

  /** `"N/A"` is shown exactly when the DPI value is present but not a tuple of one or two numbers. */
  lemma DpiDisplayNotAvailable(dpi: Option<DpiValue>)
    ensures DpiDisplay(dpi) == NotAvailable <==>
      dpi == Some(NotATuple) || (dpi.Some? && dpi.value.DpiTuple? && |dpi.value.items| !in {1, 2})
  {
    if dpi.Some? && dpi.value.DpiTuple? && |dpi.value.items| in {1, 2} {
      var s := DpiDisplay(dpi);
      IntToStringChars(dpi.value.items[0]);
      assert s[0] == IntToString(dpi.value.items[0])[0];
    }
  }

  /**
   * The pair display can be read back: split on spaces it is the first
   * number, the sign `×` and the second number, and each number parses to
   * the DPI value it came from.
   */
  lemma DpiPairReadBack(a: int, b: int)
    ensures var parts := Split(DpiDisplay(Some(DpiTuple([a, b]))), ' ');
      parts == [IntToString(a), "\U{00D7}", IntToString(b)] &&
      ParseInt(parts[0]) == Some(a) && ParseInt(parts[2]) == Some(b)
  {
    PairDisplaySplits(a, b);
    ParseIntToString(a);
    ParseIntToString(b);
  }

  /** The pair display is the two numbers and `×` joined by single spaces, none of which holds a space. */
  lemma PairDisplaySplits(a: int, b: int)
    ensures Split(DpiDisplay(Some(DpiTuple([a, b]))), ' ') == [IntToString(a), "\U{00D7}", IntToString(b)]
  {
    var pieces := [IntToString(a), "\U{00D7}", IntToString(b)];
    IntToStringChars(a);
    IntToStringChars(b);
    PairDisplayJoin(a, b);
    SplitJoin(pieces, ' ');
  }

  lemma PairDisplayJoin(a: int, b: int)
    ensures Join([IntToString(a), "\U{00D7}", IntToString(b)], ' ') == DpiDisplay(Some(DpiTuple([a, b])))
  {
    var pieces := [IntToString(a), "\U{00D7}", IntToString(b)];
    assert Join(pieces[1..], ' ') == "\U{00D7}" + [' '] + IntToString(b);
  }

  /** A one-element DPI tuple is shown as its number alone, which parses back. */
  lemma DpiSingleReadBack(a: int)
    ensures ParseInt(DpiDisplay(Some(DpiTuple([a])))) == Some(a)
  {
    ParseIntToString(a);
  }

  /**
   * `round(length / 1024, 2)` in hundredths of a KB: the nearest integer to
   * `length * 100 / 1024`, ties to the even one (Python rounds the exact
   * binary value, and `length / 1024` is exact).
   */
  function SizeCentiKb(length: nat): (r: nat)
    ensures 256 * r - 128 <= 25 * length <= 256 * r + 128
    ensures (25 * length == 256 * r - 128 || 25 * length == 256 * r + 128) ==> r % 2 == 0
  {
    var n := 25 * length;
    var q := n / 256;
    var rem := n % 256;
    assert n == 256 * q + rem && 0 <= rem < 256;
    if rem > 128 || (rem == 128 && q % 2 == 1) then
      assert rem == 128 ==> (q + 1) % 2 == 0;
      q + 1
    else q
  }

  /** What `/preview` reports about an uploaded file. */
  datatype PreviewDescriptor = PreviewDescriptor(
    filename: string,
    width: nat,
    height: nat,
    format: string,
    mode: string,
    dpi: string,
    sizeCentiKb: nat)

  /** The descriptor of a file of `length` bytes named `filename` that decodes to `image`. */
  function Describe(filename: string, image: Image, length: nat): (r: PreviewDescriptor)
    ensures r.filename == filename && r.format == image.format && r.mode == image.mode
    ensures r.width == image.width && r.height == image.height
    ensures r.dpi == DpiDisplay(image.dpi)
    ensures image.dpi.None? ==> r.dpi == "72 \U{00D7} 72"
    ensures r.sizeCentiKb == SizeCentiKb(length)
    ensures 256 * r.sizeCentiKb - 128 <= 25 * length <= 256 * r.sizeCentiKb + 128
    ensures (25 * length == 256 * r.sizeCentiKb - 128 || 25 * length == 256 * r.sizeCentiKb + 128) ==>
      r.sizeCentiKb % 2 == 0
  {
    PreviewDescriptor(filename, image.width, image.height, image.format, image.mode,
      DpiDisplay(image.dpi), SizeCentiKb(length))
  }
}
