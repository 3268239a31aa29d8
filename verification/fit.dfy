/**
 * Aspect-fit-and-centre: scale an image to fit a target box keeping its aspect ratio and
 * centre it on a white background of exactly the target size. The floating-point scale
 * factor is modelled with exact rational arithmetic (cross-multiplication).
 */
module Fit {
  import opened Wrappers

  /** The intrinsic pixel size of a decoded image. */
  datatype Image = Image(width: nat, height: nat)

  /**
   * The white box produced for a cell: `width` x `height` pixels, holding the scaled
   * image (`scaledWidth` x `scaledHeight`) pasted at (`offsetX`, `offsetY`).
   */
  datatype Box = Box(width: int, height: int, scaledWidth: int, scaledHeight: int, offsetX: int, offsetY: int)

  /** True when the width ratio is the smaller one, so the width decides the scale. */
  predicate WidthBound(image: Image, targetWidth: nat, targetHeight: nat)
  {
    targetWidth * image.height <= targetHeight * image.width
  }

  lemma {:induction false} FloorDivBounds(a: nat, b: nat, c: nat)
    requires c > 0 && a <= b * c
    ensures a / c <= b
    ensures 0 <= a - c * (a / c) < c
  {
    assert a == c * (a / c) + a % c;
  }

  /**
   * `int(image.width * scale)` and `int(image.height * scale)` with
   * `scale = min(targetWidth / image.width, targetHeight / image.height)`, in exact arithmetic;
   * `min` keeps the first ratio on a tie.
   */
  function ScaledSize(image: Image, targetWidth: nat, targetHeight: nat): (size: (nat, nat))
    requires image.width > 0 && image.height > 0
    ensures size.0 <= targetWidth && size.1 <= targetHeight
    ensures size.0 == targetWidth || size.1 == targetHeight
    ensures -(image.height as int) < image.height * size.0 - image.width * size.1 < image.width
  {
    var (iw, ih) := (image.width, image.height);
    if WidthBound(image, targetWidth, targetHeight) then
      var h := ih * targetWidth / iw;
      FloorDivBounds(ih * targetWidth, targetHeight, iw);
      assert ih * targetWidth - iw * h < iw;
      (targetWidth, h)
    else
      var w := iw * targetHeight / ih;
      FloorDivBounds(iw * targetHeight, targetWidth, ih);
      assert iw * targetHeight - ih * w < ih;
      (w, targetHeight)
  }

  /**
   * `resize_image_to_fit`. Fails (as the source raises) when the source image has a zero
   * dimension (division by zero) or the scaled size has one (the resampler refuses it).
   */
  function ResizeToFit(image: Image, targetWidth: nat, targetHeight: nat): (r: Option<Box>)
    ensures r.None? <==>
      image.width == 0 || image.height == 0 ||
      ScaledSize(image, targetWidth, targetHeight).0 == 0 ||
      ScaledSize(image, targetWidth, targetHeight).1 == 0
    ensures r.Some? ==> r.value.width == targetWidth && r.value.height == targetHeight
    ensures r.Some? ==> BoxFits(r.value) && BoxCentred(r.value)
    ensures r.Some? ==> r.value.scaledWidth == targetWidth || r.value.scaledHeight == targetHeight
    ensures r.Some? ==> AspectKept(image, r.value)
  {
    if image.width == 0 || image.height == 0 then None
    else
      var (newWidth, newHeight) := ScaledSize(image, targetWidth, targetHeight);
      if newWidth == 0 || newHeight == 0 then None
      else
        var offsetX := (targetWidth - newWidth) / 2;
        var offsetY := (targetHeight - newHeight) / 2;
        Some(Box(targetWidth, targetHeight, newWidth, newHeight, offsetX, offsetY))
  }

  /** The scaled image is non-empty and lies wholly inside the box. */
  predicate BoxFits(b: Box) {
    0 < b.scaledWidth && 0 < b.scaledHeight &&
    0 <= b.offsetX && b.offsetX + b.scaledWidth <= b.width &&
    0 <= b.offsetY && b.offsetY + b.scaledHeight <= b.height
  }

  /** The padding left and right (above and below) differ by at most one pixel, the extra one on the far side. */
  predicate BoxCentred(b: Box) {
    0 <= (b.width - b.scaledWidth - b.offsetX) - b.offsetX <= 1 &&
    0 <= (b.height - b.scaledHeight - b.offsetY) - b.offsetY <= 1
  }

  /**
   * The scaled size has the image's aspect ratio up to one pixel of rounding:
   * scaledWidth / scaledHeight differs from width / height by less than one pixel in either dimension.
   */
  predicate AspectKept(image: Image, b: Box) {
    -(image.height as int) < image.height * b.scaledWidth - image.width * b.scaledHeight < image.width
  }

  /**
   * Under exact arithmetic the scale is the largest that fits: the side with the smaller ratio
   * is filled, the other side is truncated (it does not exceed the exact ratio), and one more
   * pixel on it would.
   */
  lemma {:induction false} ScaleIsLargest(image: Image, targetWidth: nat, targetHeight: nat)
    requires image.width > 0 && image.height > 0
    ensures var (w, h) := ScaledSize(image, targetWidth, targetHeight);
      if WidthBound(image, targetWidth, targetHeight)
      then w == targetWidth && image.width * h <= image.height * targetWidth < image.width * (h + 1)
      else h == targetHeight && image.height * w <= image.width * targetHeight < image.height * (w + 1)
  {
    if WidthBound(image, targetWidth, targetHeight) {
      FloorDivBounds(image.height * targetWidth, targetHeight, image.width);
    } else {
      FloorDivBounds(image.width * targetHeight, targetWidth, image.height);
    }
  }
}
