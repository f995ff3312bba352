/**
 * The target-size compression search of the `compress` operation: JPEG
 * qualities are tried from 95 downwards in steps of 5 while the quality is
 * above 10, and the first encoding whose size in KB is at most the target
 * is kept.
 */
module Compress {
  import opened Wrappers
  import opened Imaging

  const FirstQuality := 95
  const QualityStep := 5
  const QualityFloor := 10

  /** How many qualities the loop visits: those from 95 down in steps of 5 that are above 10. */
  const Attempts := (FirstQuality - QualityFloor - 1) / QualityStep + 1

  /** The qualities a full search tries, in order. */
  function Qualities(): seq<int> {
    seq(Attempts, i requires 0 <= i < Attempts => FirstQuality - QualityStep * i)
  }

  /**
   * Exactly seventeen qualities are tried, 95, 90, ..., 15, each 5 below the
   * one before; 10 is never tried, and a quality is tried exactly when the
   * loop's guard lets it through.
   */
  lemma QualitiesShape()
    ensures |Qualities()| == 17
    ensures forall i :: 0 <= i < 17 ==> Qualities()[i] == 95 - 5 * i
    ensures forall i, j :: 0 <= i < j < 17 ==> Qualities()[i] > Qualities()[j]
    ensures Qualities()[16] == 15 && 10 !in Qualities()
    ensures forall q :: q in Qualities() <==> 10 < q <= 95 && q % 5 == 0
  {
    forall q | 10 < q <= 95 && q % 5 == 0 ensures q in Qualities() {
      assert Qualities()[(95 - q) / 5] == q;
    }
  }

  /**
   * `buffer.tell() / 1024 <= target_kb` for a size in bytes: in exact
   * arithmetic the same as the size being at most `target_kb * 1024`.
   */
  predicate Fits(size: nat, targetKb: int) {
    size <= targetKb * 1024
  }

  lemma FitsIsKilobyteComparison(size: nat, targetKb: int)
    ensures Fits(size, targetKb) <==> (size as real) / 1024.0 <= targetKb as real
  {
  }

  /** How a search ends. */
  datatype Search =
    | Fit(quality: int, bytes: Bytes)    // the first encoding small enough
    | NoFit                              // every quality tried, none small enough
    | EncodeFailed(quality: int)         // the JPEG encoder raised at this quality

  /** The encoding at `q` exists and is larger than the target. */
  predicate TooBig(codec: Codec, image: Image, targetKb: int, q: int) {
    codec.saveJpeg(image, q).Some? && !Fits(|codec.saveJpeg(image, q).value|, targetKb)
  }

  /** The outcome of trying the qualities `qs` in order. */
  function FirstFit(codec: Codec, image: Image, targetKb: int, qs: seq<int>): Search {
    if qs == [] then NoFit
    else
      match codec.saveJpeg(image, qs[0])
      case None => EncodeFailed(qs[0])
      case Some(b) =>
        if Fits(|b|, targetKb) then Fit(qs[0], b)
        else FirstFit(codec, image, targetKb, qs[1..])
  }

  /**
   * A found quality is one of `qs` and its encoding fits the target; a
   * failure names a quality of `qs` whose encoder raised; and the search
   * finds nothing exactly when every quality encodes too large.
   */
  lemma {:induction false} FirstFitSpec(codec: Codec, image: Image, targetKb: int, qs: seq<int>)
    ensures var r := FirstFit(codec, image, targetKb, qs);
      (r.Fit? ==>
        r.quality in qs && codec.saveJpeg(image, r.quality) == Some(r.bytes) &&
        Fits(|r.bytes|, targetKb)) &&
      (r.EncodeFailed? ==> r.quality in qs && codec.saveJpeg(image, r.quality) == None) &&
      (r.NoFit? <==> forall i :: 0 <= i < |qs| ==> TooBig(codec, image, targetKb, qs[i]))
  {
    if qs != [] && TooBig(codec, image, targetKb, qs[0]) {
      FirstFitSpec(codec, image, targetKb, qs[1..]);
      assert forall i :: 1 <= i < |qs| ==> qs[i] == qs[1..][i - 1];
    }
  }

  /** The qualities the search tries, in order, up to and including the one it stops at. */
  function Attempted(codec: Codec, image: Image, targetKb: int, qs: seq<int>): seq<int> {
    if qs == [] then []
    else if TooBig(codec, image, targetKb, qs[0]) then [qs[0]] + Attempted(codec, image, targetKb, qs[1..])
    else [qs[0]]
  }

  /**
   * The attempts are a prefix of `qs`; every attempt before the last one
   * encoded to something too large; and the search ends at the last
   * attempt (found or failed) or, having found nothing, after all of `qs`.
   */
  lemma {:induction false} AttemptedSpec(codec: Codec, image: Image, targetKb: int, qs: seq<int>)
    ensures var a := Attempted(codec, image, targetKb, qs);
      |a| <= |qs| && a == qs[..|a|] &&
      (forall i :: 0 <= i < |a| - 1 ==> TooBig(codec, image, targetKb, a[i])) &&
      match FirstFit(codec, image, targetKb, qs)
      case Fit(q, _) => a != [] && a[|a| - 1] == q
      case EncodeFailed(q) => a != [] && a[|a| - 1] == q
      case NoFit => a == qs
  {
    if qs != [] {
      AttemptedSpec(codec, image, targetKb, qs[1..]);
    }
  }

  /**
   * Over qualities in strictly descending order, a successful search
   * returns the highest quality whose encoding fits: every higher quality
   * encoded too large.
   */
  lemma {:induction false} FitIsHighest(codec: Codec, image: Image, targetKb: int, qs: seq<int>)
    requires forall i, j :: 0 <= i < j < |qs| ==> qs[i] > qs[j]
    requires FirstFit(codec, image, targetKb, qs).Fit?
    ensures forall q :: q in qs && q > FirstFit(codec, image, targetKb, qs).quality ==>
      TooBig(codec, image, targetKb, q)
  {
    var r := FirstFit(codec, image, targetKb, qs);
    if r.quality != qs[0] || !Fits(|codec.saveJpeg(image, qs[0]).value|, targetKb) {
      FitIsHighest(codec, image, targetKb, qs[1..]);
      forall q | q in qs && q > r.quality ensures TooBig(codec, image, targetKb, q) {
        if q != qs[0] {
          var j :| 0 <= j < |qs| && qs[j] == q;
          assert qs[1..][j - 1] == q;
        }
      }
    }
  }

  /** The same for the full search: nothing above the chosen quality fits. */
  lemma FitIsHighestQuality(codec: Codec, image: Image, targetKb: int)
    requires FirstFit(codec, image, targetKb, Qualities()).Fit?
    ensures forall q :: q in Qualities() && q > FirstFit(codec, image, targetKb, Qualities()).quality ==>
      TooBig(codec, image, targetKb, q)
  {
    QualitiesShape();
    FitIsHighest(codec, image, targetKb, Qualities());
  }

  /** When the highest fitting quality is `q` and nothing above it fails to encode, the search finds `q`. */
  lemma {:induction false} FirstFitFindsFit(codec: Codec, image: Image, targetKb: int, qs: seq<int>, k: nat)
    requires k < |qs|
    requires codec.saveJpeg(image, qs[k]).Some? && Fits(|codec.saveJpeg(image, qs[k]).value|, targetKb)
    requires forall i :: 0 <= i < k ==> TooBig(codec, image, targetKb, qs[i])
    ensures FirstFit(codec, image, targetKb, qs) == Fit(qs[k], codec.saveJpeg(image, qs[k]).value)
  {
    if k > 0 {
      FirstFitFindsFit(codec, image, targetKb, qs[1..], k - 1);
    }
  }

  /**
   * A target of zero KB or less is met only by an empty encoding: with
   * non-empty encodings (or a negative target) the search never finds a fit.
   */
  lemma NonPositiveTargetNeverFits(codec: Codec, image: Image, targetKb: int, qs: seq<int>)
    requires targetKb < 0 || (targetKb == 0 && forall q :: codec.saveJpeg(image, q).Some? ==> |codec.saveJpeg(image, q).value| > 0)
    ensures !FirstFit(codec, image, targetKb, qs).Fit?
  {
  }

  /** One step of the loop over `qs`: an encoding too large moves the search to the rest. */
  lemma StepPast(codec: Codec, image: Image, targetKb: int, qs: seq<int>)
    requires qs != [] && TooBig(codec, image, targetKb, qs[0])
    ensures FirstFit(codec, image, targetKb, qs) == FirstFit(codec, image, targetKb, qs[1..])
    ensures Attempted(codec, image, targetKb, qs) == [qs[0]] + Attempted(codec, image, targetKb, qs[1..])
  {
  }

  /** One step of the loop over `qs`: a failed or fitting encoding ends the search at its first quality. */
  lemma StepStop(codec: Codec, image: Image, targetKb: int, qs: seq<int>)
    requires qs != [] && !TooBig(codec, image, targetKb, qs[0])
    ensures FirstFit(codec, image, targetKb, qs) ==
      if codec.saveJpeg(image, qs[0]).None? then EncodeFailed(qs[0]) else Fit(qs[0], codec.saveJpeg(image, qs[0]).value)
    ensures Attempted(codec, image, targetKb, qs) == [qs[0]]
  {
  }

  /**
   * One attempt: a fresh stream, the JPEG encoding at `quality` written
   * into it, and its length read back with `tell()`.
   */
  method EncodeJpeg(codec: Codec, image: Image, quality: int) returns (saved: Option<Bytes>, size: nat)
    ensures saved == codec.saveJpeg(image, quality)
    ensures saved.Some? ==> size == |saved.value|
  {
    var buffer := new ByteBuffer();
    saved := codec.saveJpeg(image, quality);
    size := 0;
    if saved.Some? {
      buffer.Write(saved.value);
      size := buffer.Tell();
    }
  }

  /**
   * The search loop: qualities from 95 down in steps of 5 while above 10,
   * stopping at the first encoding that fits (or the first that raises).
   * `tried` records the qualities in the order they were attempted.
   */
  method CompressSearch(codec: Codec, image: Image, targetKb: int) returns (result: Search, tried: seq<int>)
    ensures result == FirstFit(codec, image, targetKb, Qualities())
    ensures tried == Attempted(codec, image, targetKb, Qualities())
  {
    var quality := FirstQuality;
    ghost var rest := Qualities();
    result, tried := NoFit, [];
    while quality > QualityFloor
      invariant |rest| == (quality - QualityFloor + QualityStep - 1) / QualityStep
      invariant forall i :: 0 <= i < |rest| ==> rest[i] == quality - QualityStep * i
      invariant FirstFit(codec, image, targetKb, Qualities()) == FirstFit(codec, image, targetKb, rest)
      invariant Attempted(codec, image, targetKb, Qualities()) == tried + Attempted(codec, image, targetKb, rest)
      decreases quality
    {
      var saved, size := EncodeJpeg(codec, image, quality);
      tried := tried + [quality];
      if saved.None? {
        StepStop(codec, image, targetKb, rest);
        result := EncodeFailed(quality);
        return;
      }
      if Fits(size, targetKb) {
        StepStop(codec, image, targetKb, rest);
        result := Fit(quality, saved.value);
        return;
      }
      StepPast(codec, image, targetKb, rest);
      quality, rest := quality - QualityStep, rest[1..];
    }
  }
}
