/** The image helpers of lib/storage.ts: the resize rule of `optimizeImage`
    and the guard and result selection of `uploadToCloudinary`. Decoding,
    drawing and JPEG encoding are done by the browser; here the decoded size
    arrives as a parameter (`None` when decoding failed) and the encoder is a
    function parameter. The upload's HTTP exchange is likewise a parameter. */
module Images {
  import opened Wrappers
  import Config

  /** Width and height in pixels, over exact rationals. */
  datatype Dims = Dims(width: real, height: real)

  /** The defaults of `optimizeImage`. */
  const DefaultMaxWidth := 400.0
  const DefaultMaxHeight := 400.0
  const DefaultQuality := 0.5

  /** What a value must start with for `uploadToCloudinary` to upload it. */
  const DataImagePrefix := "data:image"

  function Min(a: real, b: real): real {
    if a <= b then a else b
  }

  /** The factor `cap / side` of an image capped below its own size. */
  lemma RatioBelowOne(cap: real, side: real)
    requires 0.0 <= cap < side
    ensures 0.0 <= cap / side < 1.0
  {
  }

  lemma RatioPositive(cap: real, side: real)
    requires 0.0 < cap < side
    ensures 0.0 < cap / side
  {
  }

  lemma RatioTimesSide(cap: real, side: real)
    requires 0.0 < side
    ensures (cap / side) * side == cap
  {
  }

  /** Scaling by a factor below one never enlarges. */
  lemma ShrinkBounds(keep: real, f: real)
    requires 0.0 <= keep && 0.0 <= f < 1.0
    ensures 0.0 <= keep * f && keep * f <= keep
  {
  }

  /** Scaling by a non-negative factor keeps the order of two sides. */
  lemma ScaleMonotone(keep: real, side: real, f: real)
    requires keep <= side && 0.0 <= f
    ensures keep * f <= side * f
  {
  }

  lemma ScaleStrictlyMonotone(keep: real, side: real, f: real)
    requires keep < side && 0.0 < f
    ensures keep * f < side * f
  {
  }

  lemma ScaleProportion(keep: real, f: real, side: real, cap: real)
    requires f * side == cap
    ensures (keep * f) * side == cap * keep
  {
    assert (keep * f) * side == keep * (f * side);
  }

  /** `keep * (cap / side)`: the other side of an image whose side `side`
      is being capped at `cap`. The result is no larger than `keep`, keeps
      the proportion `keep : side`, and stays within `cap` when `keep` does
      not exceed `side`. */
  function ScaleSide(keep: real, cap: real, side: real): (r: real)
    requires 0.0 <= cap < side && 0.0 <= keep
    ensures 0.0 <= r && r <= keep
    ensures cap * keep == r * side
    ensures keep <= side ==> r <= cap
    ensures keep < side && 0.0 < cap ==> r < cap
  {
    var f := cap / side;
    RatioBelowOne(cap, side);
    RatioTimesSide(cap, side);
    ShrinkBounds(keep, f);
    ScaleProportion(keep, f, side, cap);
    if keep <= side then
      ScaleMonotone(keep, side, f);
      if keep < side && 0.0 < cap then
        RatioPositive(cap, side);
        ScaleStrictlyMonotone(keep, side, f);
        keep * f
      else keep * f
    else keep * f
  }

  /** The size `optimizeImage` draws at: a landscape image (wider than tall)
      has only its width capped at `maxWidth`, any other only its height at
      `maxHeight`, and the other side is scaled by the same factor. */
  function Fitted(d: Dims, maxWidth: real, maxHeight: real): (r: Dims)
    requires d.width >= 0.0 && d.height >= 0.0 && maxWidth >= 0.0 && maxHeight >= 0.0
    ensures 0.0 <= r.width <= d.width && 0.0 <= r.height <= d.height
    ensures r.width * d.height == r.height * d.width
    ensures d.width > d.height ==> r.width == Min(d.width, maxWidth)
    ensures d.width <= d.height ==> r.height == Min(d.height, maxHeight)
  {
    if d.width > d.height then
      if d.width > maxWidth then
        Dims(maxWidth, ScaleSide(d.height, maxWidth, d.width))
      else d
    else
      if d.height > maxHeight then
        Dims(ScaleSide(d.width, maxHeight, d.height), maxHeight)
      else d
  }

  /** The reassignments of `optimizeImage`'s `onload` handler, step by step. */
  method FitDimensions(img: Dims, maxWidth: real, maxHeight: real) returns (width: real, height: real)
    requires img.width >= 0.0 && img.height >= 0.0 && maxWidth >= 0.0 && maxHeight >= 0.0
    ensures Dims(width, height) == Fitted(img, maxWidth, maxHeight)
  {
    width := img.width;
    height := img.height;
    if width > height {
      if width > maxWidth {
        height := height * (maxWidth / width);
        assert height == ScaleSide(img.height, maxWidth, img.width);
        width := maxWidth;
      }
    } else {
      if height > maxHeight {
        width := width * (maxHeight / height);
        assert width == ScaleSide(img.width, maxHeight, img.height);
        height := maxHeight;
      }
    }
  }

  /** `optimizeImage(src, maxWidth, maxHeight, quality)`: the re-encoding of
      the image at its fitted size, or `src` itself when the image cannot be
      decoded. The box and the quality default to 400x400 and 0.5. */
  method OptimizeImage(src: string, decoded: Option<Dims>, encode: (Dims, real) -> string,
                       maxWidth: real := DefaultMaxWidth, maxHeight: real := DefaultMaxHeight,
                       quality: real := DefaultQuality) returns (out: string)
    requires decoded.Some? ==> decoded.value.width >= 0.0 && decoded.value.height >= 0.0
    requires maxWidth >= 0.0 && maxHeight >= 0.0
    ensures decoded.None? ==> out == src
    ensures decoded.Some? ==> out == encode(Fitted(decoded.value, maxWidth, maxHeight), quality)
  {
    match decoded
    case None =>
      out := src;
    case Some(img) =>
      var width, height := FitDimensions(img, maxWidth, maxHeight);
      out := encode(Dims(width, height), quality);
  }

  /** An image that already fits its box is drawn at its own size: a 100x50
      image in an 800x600 box stays 100x50. */
  lemma FittingImageUnchanged(d: Dims, maxWidth: real, maxHeight: real)
    requires d.width >= 0.0 && d.height >= 0.0
    requires d.width <= maxWidth && d.height <= maxHeight
    ensures Fitted(d, maxWidth, maxHeight) == d
  {
  }

  /** With a square box, as the defaults give, both sides end up inside it. */
  lemma FittedWithinSquareBox(d: Dims, side: real)
    requires d.width >= 0.0 && d.height >= 0.0 && side >= 0.0
    ensures Fitted(d, side, side).width <= side && Fitted(d, side, side).height <= side
  {
  }

  /** Optimizing an optimized image does not resize it again. */
  lemma FittedIdempotent(d: Dims, maxWidth: real, maxHeight: real)
    requires d.width >= 0.0 && d.height >= 0.0 && maxWidth >= 0.0 && maxHeight >= 0.0
    ensures Fitted(Fitted(d, maxWidth, maxHeight), maxWidth, maxHeight) == Fitted(d, maxWidth, maxHeight)
  {
  }

  /** The box is not a bound on both sides when it is not square: a 1000x900
      image in a 1200x300 box keeps its height of 900. */
  lemma OnlyLongerSideIsCapped()
    ensures Fitted(Dims(1000.0, 900.0), 1200.0, 300.0) == Dims(1000.0, 900.0)
  {
  }

  /** The reply of the image host: its JSON body's `secure_url`, if any, or
      an exception from `fetch` or `response.json()`. */
  datatype UploadReply = Response(secureUrl: Option<string>) | Threw

  /** `uploadToCloudinary(base64)`: a non-empty inline image is uploaded when
      the host is configured, and the host's non-empty `secure_url` replaces
      it; in every other case, failures included, the input comes back. */
  function UploadToCloudinary(input: string, cloudName: string, reply: UploadReply): (r: string)
    ensures r != input ==>
      && DataImagePrefix <= input
      && Config.IsCloudinaryConfigured(cloudName)
      && reply == Response(Some(r)) && r != ""
    ensures DataImagePrefix <= input && Config.IsCloudinaryConfigured(cloudName)
         && reply.Response? && reply.secureUrl.Some? && reply.secureUrl.value != ""
         ==> r == reply.secureUrl.value
  {
    if input == "" || !(DataImagePrefix <= input) || !Config.IsCloudinaryConfigured(cloudName) then
      input
    else
      match reply
      case Threw => input
      case Response(url) =>
        if url.Some? && url.value != "" then url.value else input
  }

  /** A value that is not an inline image, such as a hosted URL, is returned
      as it is, whatever the host would answer. */
  lemma UploadKeepsReferences(input: string, cloudName: string, reply: UploadReply)
    requires !(DataImagePrefix <= input)
    ensures UploadToCloudinary(input, cloudName, reply) == input
  {
  }

  /** A hosted URL that an upload returned is never uploaded again (the
      host answers with URLs, not inline images); an inline image that came
      back because the upload failed may be retried. */
  lemma UploadIdempotent(input: string, cloudName: string, first: UploadReply, second: UploadReply)
    requires first.Response? && first.secureUrl.Some? ==> !(DataImagePrefix <= first.secureUrl.value)
    ensures var once := UploadToCloudinary(input, cloudName, first);
      once != input ==> UploadToCloudinary(once, cloudName, second) == once
  {
  }
}
