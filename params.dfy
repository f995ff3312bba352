/**
 * Reading the form fields of a `/process` request: integer fields with a
 * default, the crop rectangle `x,y,w,h`, the DPI list, and the height an
 * aspect-preserving resize derives.
 */
module Params {
  import opened Wrappers
  import opened Text
  import opened Imaging

  /** The submitted form fields (`request.form`), by name. */
  type Form = map<string, string>

  /** `request.form.get(key, default)` */
  function Get(form: Form, key: string, default: string): string {
    if key in form then form[key] else default
  }

  /**
   * `int(request.form.get(key, 0))`: a missing field reads as 0; a present
   * field must parse, and `None` is the `ValueError` for one that does not
   * (an empty field included).
   */
  function FormInt(form: Form, key: string): Option<int> {
    if key in form then ParseInt(form[key]) else Some(0)
  }

  /** A field holding a rendered integer reads back as that integer; an absent one as 0. */
  lemma FormIntReadsRendered(form: Form, key: string, n: int)
    requires key in form ==> form[key] == IntToString(n)
    ensures FormInt(form, key) == if key in form then Some(n) else Some(0)
  {
    if key in form {
      ParseIntToString(n);
    }
  }

  /** `int` applied to every token; `None` as soon as one token is not an integer. */
  function ParseAll(tokens: seq<string>): (r: Option<seq<int>>)
    ensures r.Some? ==> |r.value| == |tokens|
  {
    if tokens == [] then Some([])
    else
      match ParseInt(tokens[0])
      case None => None
      case Some(v) =>
        match ParseAll(tokens[1..])
        case None => None
        case Some(vs) => Some([v] + vs)
  }

  /** `ParseAll` succeeds exactly when every token is an integer, and then holds their values in order. */
  lemma {:induction false} ParseAllSpec(tokens: seq<string>)
    ensures ParseAll(tokens).Some? <==> forall i :: 0 <= i < |tokens| ==> ParseInt(tokens[i]).Some?
    ensures ParseAll(tokens).Some? ==>
      forall i :: 0 <= i < |tokens| ==> ParseInt(tokens[i]) == Some(ParseAll(tokens).value[i])
  {
    if tokens != [] {
      ParseAllSpec(tokens[1..]);
      assert forall i :: 1 <= i < |tokens| ==> tokens[i] == tokens[1..][i - 1];
    }
  }

  /** `tuple(map(int, text.split(',')))` */
  function ParseDpi(text: string): (r: Option<seq<int>>)
    ensures r.Some? ==> |r.value| > 0
  {
    ParseAll(Split(text, ','))
  }

  /** The DPI text of a request: the `dpi` field, `'72'` when it is absent. */
  function DpiText(form: Form): string {
    Get(form, "dpi", "72")
  }

  /**
   * `x, y, w, h = map(int, text.split(','))` followed by the box
   * `(x, y, x + w, y + h)`; `None` when the unpacking or a conversion raises.
   */
  function ParseCrop(text: string): Option<Box> {
    var tokens := Split(text, ',');
    if |tokens| != 4 then None
    else
      match ParseAll(tokens)
      case None => None
      case Some(v) => Some(Box(v[0], v[1], v[0] + v[2], v[1] + v[3]))
  }

  /**
   * The new height of an aspect-preserving resize to width `newWidth` of a
   * `width` x `height` image: `int(height * (newWidth / width))`, in exact
   * arithmetic the floor of `height * newWidth / width`, so that the
   * height/width ratio is kept up to truncation.
   */
  function AspectHeight(width: nat, height: nat, newWidth: nat): (h: nat)
    requires width > 0
    ensures h * width <= height * newWidth < (h + 1) * width
  {
    height * newWidth / width
  }

  /** Rendering a list of DPI values with `,` between them and parsing it gives the list back. */
  lemma {:induction false} ParseDpiRoundTrip(dpi: seq<int>)
    requires |dpi| > 0
    ensures ParseDpi(Join(Rendered(dpi), ',')) == Some(dpi)
  {
    NoCommaInRendered(dpi);
    SplitJoin(Rendered(dpi), ',');
    ParseAllRendered(dpi);
  }

  /** Every integer rendered in decimal. */
  function Rendered(ns: seq<int>): seq<string> {
    seq(|ns|, i requires 0 <= i < |ns| => IntToString(ns[i]))
  }

  lemma NoCommaInRendered(ns: seq<int>)
    ensures forall i :: 0 <= i < |ns| ==> ',' !in Rendered(ns)[i]
  {
    forall i | 0 <= i < |ns| ensures ',' !in Rendered(ns)[i] {
      IntToStringChars(ns[i]);
    }
  }

  lemma {:induction false} ParseAllRendered(ns: seq<int>)
    ensures ParseAll(Rendered(ns)) == Some(ns)
  {
    if ns != [] {
      var r := Rendered(ns);
      assert r[0] == IntToString(ns[0]);
      ParseIntToString(ns[0]);
      assert r[1..] == Rendered(ns[1..]);
      ParseAllRendered(ns[1..]);
      ParseAllCons(r, ns[0], ns[1..]);
      assert [ns[0]] + ns[1..] == ns;
    }
  }

  /** One step of `ParseAll`: a parsed first token followed by parsed rest. */
  lemma ParseAllCons(tokens: seq<string>, v: int, vs: seq<int>)
    requires tokens != [] && ParseInt(tokens[0]) == Some(v) && ParseAll(tokens[1..]) == Some(vs)
    ensures ParseAll(tokens) == Some([v] + vs)
  {
  }

  /** Four comma-free pieces that are all integers, joined with `,`, parse to their box. */
  lemma ParseCropOfPieces(parts: seq<string>, x: int, y: int, w: int, h: int)
    requires |parts| == 4
    requires forall i :: 0 <= i < 4 ==> ',' !in parts[i]
    requires ParseAll(parts) == Some([x, y, w, h])
    ensures ParseCrop(Join(parts, ',')) == Some(Box(x, y, x + w, y + h))
  {
    var text := Join(parts, ',');
    SplitJoin(parts, ',');
    var v := [x, y, w, h];
    CropOfTokens(text, parts, v);
    assert Box(v[0], v[1], v[0] + v[2], v[1] + v[3]) == Box(x, y, x + w, y + h);
  }

  lemma CropOfTokens(text: string, tokens: seq<string>, v: seq<int>)
    requires Split(text, ',') == tokens && |tokens| == 4
    requires ParseAll(tokens) == Some(v)
    ensures ParseCrop(text) == Some(Box(v[0], v[1], v[0] + v[2], v[1] + v[3]))
  {
  }

  /** `"x,y,w,h"` with four rendered integers parses to the box `(x, y, x + w, y + h)`. */
  lemma ParseCropRoundTrip(x: int, y: int, w: int, h: int)
    ensures ParseCrop(Join(Rendered([x, y, w, h]), ',')) == Some(Box(x, y, x + w, y + h))
  {
    NoCommaInRendered([x, y, w, h]);
    ParseAllRendered([x, y, w, h]);
    ParseCropOfPieces(Rendered([x, y, w, h]), x, y, w, h);
  }

  /** A crop text is refused exactly when it has other than four pieces or a piece is not an integer. */
  lemma ParseCropRefusedIff(text: string)
    ensures var tokens := Split(text, ',');
      ParseCrop(text).None? <==>
        |tokens| != 4 || exists i :: 0 <= i < |tokens| && ParseInt(tokens[i]).None?
  {
    ParseAllSpec(Split(text, ','));
  }

  /** `"10,10"` (too few values) is refused; `"10,10,200,200"` gives the box (10, 10, 210, 210). */
  lemma ParseCropExamples()
    ensures ParseCrop("10,10") == None
    ensures ParseCrop("10,10,200,200") == Some(Box(10, 10, 210, 210))
  {
    TwoValuesRefused();
    CropTextExample();
    ParseCropRoundTrip(10, 10, 200, 200);
  }

  lemma TwoValuesRefused()
    ensures ParseCrop("10,10") == None
  {
    assert "10,10" == Join(Rendered([10, 10]), ',') by {
      RenderedExamples();
    }
    NoCommaInRendered([10, 10]);
    SplitJoin(Rendered([10, 10]), ',');
  }

  lemma CropTextExample()
    ensures Join(Rendered([10, 10, 200, 200]), ',') == "10,10,200,200"
  {
    var parts := Rendered([10, 10, 200, 200]);
    RenderedExamples();
    assert parts == ["10", "10", "200", "200"];
    assert parts[3..] == ["200"];
    assert Join(parts[2..], ',') == "200" + [','] + "200";
    assert Join(parts[1..], ',') == "10" + [','] + "200,200";
  }

  lemma RenderedExamples()
    ensures IntToString(10) == "10" && IntToString(200) == "200"
  {
    assert NatToString(1) == "1" && NatToString(2) == "2";
    assert NatToString(10) == NatToString(1) + [DigitChar(0)];
    assert NatToString(20) == NatToString(2) + [DigitChar(0)];
    assert NatToString(200) == NatToString(20) + [DigitChar(0)];
  }
}
