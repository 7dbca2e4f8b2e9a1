/** The browser's `ImageData`: a width, a height and a flat RGBA byte array,
    four bytes per pixel in row-major order from the top-left corner. */
module Raster {

  /** One unsigned 8-bit channel value, as stored in a `Uint8ClampedArray`. */
  type byte = x: int | 0 <= x < 256

  /** Number of bytes `ImageData` stores per pixel (red, green, blue, alpha). */
  const BytesPerPixel: nat := 4

  datatype Pixel = Pixel(r: byte, g: byte, b: byte, a: byte) {

    /** A pixel the blank-canvas test counts as ink: some colour channel below 255.
        The alpha channel plays no part. */
    predicate NonWhite() {
      r < 255 || g < 255 || b < 255
    }

    /** Channel `c` of the pixel in `ImageData` order. */
    function Channel(c: nat): byte
      requires c < BytesPerPixel
    {
      if c == 0 then r else if c == 1 then g else if c == 2 then b else a
    }
  }

  /** Opaque white, the background the drawing surface paints. */
  const White: Pixel := Pixel(255, 255, 255, 255)

  /** Opaque black, the stroke colour of the drawing surface. */
  const Black: Pixel := Pixel(0, 0, 0, 255)

  /** What a freshly sized HTML canvas holds before anything is painted. */
  const Transparent: Pixel := Pixel(0, 0, 0, 0)

  /** The byte array of `ImageData` for a row-major sequence of pixels. */
  function Flatten(pixels: seq<Pixel>): (data: seq<byte>)
    ensures |data| == BytesPerPixel * |pixels|
    ensures forall j :: 0 <= j < |data| ==> data[j] == pixels[j / BytesPerPixel].Channel(j % BytesPerPixel)
  {
    var data := seq(BytesPerPixel * |pixels|, j requires 0 <= j < BytesPerPixel * |pixels| =>
                      pixels[j / BytesPerPixel].Channel(j % BytesPerPixel));
    data
  }

  /** Byte `c` of pixel `k` sits at index `4 * k + c` of the flattened array. */
  lemma FlattenAt(pixels: seq<Pixel>, k: nat, c: nat)
    requires k < |pixels| && c < BytesPerPixel
    ensures BytesPerPixel * k + c < |Flatten(pixels)|
    ensures Flatten(pixels)[BytesPerPixel * k + c] == pixels[k].Channel(c)
  {
    var j := BytesPerPixel * k + c;
    assert j / BytesPerPixel == k && j % BytesPerPixel == c;
  }

  /** A snapshot `getImageData(0, 0, width, height)` of a canvas. */
  datatype Image = Image(width: nat, height: nat, data: seq<byte>)

  /** A `width` by `height` bitmap filled with one pixel value. */
  function Filled(width: nat, height: nat, p: Pixel): (pixels: seq<Pixel>)
    ensures |pixels| == width * height
    ensures forall k :: 0 <= k < |pixels| ==> pixels[k] == p
  {
    seq(width * height, _ => p)
  }
}
