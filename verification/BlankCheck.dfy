/** The page controller's test of whether an emitted bitmap holds any ink:
    a scan over the RGBA bytes that looks at every fourth index. */
module BlankCheck {
  import opened Raster

  /** `data[j] < 255` as JavaScript evaluates it: reading past the end of a
      typed array yields `undefined`, and `undefined < 255` is false. */
  predicate ChannelDark(data: seq<byte>, j: nat) {
    j < |data| && data[j] < 255
  }

  /** The pixel starting at byte `i` has a red, green or blue byte below 255. */
  predicate PixelDrawn(data: seq<byte>, i: nat) {
    ChannelDark(data, i) || ChannelDark(data, i + 1) || ChannelDark(data, i + 2)
  }

  /** Reference meaning of "the image counts as drawn": some pixel start, a
      multiple of four inside the array, is not pure white. */
  predicate HasNonWhitePixel(data: seq<byte>) {
    exists i: nat :: i < |data| && i % BytesPerPixel == 0 && PixelDrawn(data, i)
  }

  /** The loop of `handleImageData`: walk the pixel starts in steps of four and
      stop at the first one with a colour byte below 255. */
  method ScanForDrawing(data: seq<byte>) returns (hasDrawing: bool)
    ensures hasDrawing <==> HasNonWhitePixel(data)
    ensures |data| == 0 ==> !hasDrawing
  {
    hasDrawing := false;
    var i: nat := 0;
    while i < |data|
      invariant i % BytesPerPixel == 0
      invariant !hasDrawing
      invariant forall k: nat :: k < i && k < |data| && k % BytesPerPixel == 0 ==> !PixelDrawn(data, k)
      decreases |data| - i
    {
      var red := data[i] < 255;
      var green := i + 1 < |data| && data[i + 1] < 255;
      var blue := i + 2 < |data| && data[i + 2] < 255;
      if red || green || blue {
        assert PixelDrawn(data, i);
        hasDrawing := true;
        break;
      }
      i := i + BytesPerPixel;
    }
  }

  /** Only the colour bytes decide: two arrays that differ at most in their
      alpha bytes (index 3 of each pixel) get the same verdict. */
  lemma AlphaIrrelevant(a: seq<byte>, b: seq<byte>)
    requires |a| == |b|
    requires forall j :: 0 <= j < |a| && j % BytesPerPixel != 3 ==> a[j] == b[j]
    ensures HasNonWhitePixel(a) <==> HasNonWhitePixel(b)
  {
    if HasNonWhitePixel(a) {
      var i: nat :| i < |a| && i % BytesPerPixel == 0 && PixelDrawn(a, i);
      assert PixelDrawn(b, i);
    }
    if HasNonWhitePixel(b) {
      var i: nat :| i < |b| && i % BytesPerPixel == 0 && PixelDrawn(b, i);
      assert PixelDrawn(a, i);
    }
  }

  /** The bytes of pixel `k` in the flattened array are drawn exactly when
      the pixel is non-white. */
  lemma PixelDrawnAt(pixels: seq<Pixel>, k: nat)
    requires k < |pixels|
    ensures PixelDrawn(Flatten(pixels), BytesPerPixel * k) <==> pixels[k].NonWhite()
  {
    FlattenAt(pixels, k, 0);
    FlattenAt(pixels, k, 1);
    FlattenAt(pixels, k, 2);
  }

  /** On the bytes of a whole bitmap the scan asks exactly whether some pixel
      is non-white. */
  lemma DrawnIffSomePixelNonWhite(pixels: seq<Pixel>)
    ensures HasNonWhitePixel(Flatten(pixels)) <==> exists k :: 0 <= k < |pixels| && pixels[k].NonWhite()
  {
    var data := Flatten(pixels);
    if HasNonWhitePixel(data) {
      var i: nat :| i < |data| && i % BytesPerPixel == 0 && PixelDrawn(data, i);
      var k: nat := i / BytesPerPixel;
      assert i == BytesPerPixel * k;
      PixelDrawnAt(pixels, k);
    }
    if exists k :: 0 <= k < |pixels| && pixels[k].NonWhite() {
      var k :| 0 <= k < |pixels| && pixels[k].NonWhite();
      PixelDrawnAt(pixels, k);
      var i: nat := BytesPerPixel * k;
      assert i < |data| && i % BytesPerPixel == 0;
    }
  }

  /** A bitmap painted in one white colour counts as blank. */
  lemma WhiteBitmapIsBlank(width: nat, height: nat)
    ensures !HasNonWhitePixel(Flatten(Filled(width, height, White)))
  {
    DrawnIffSomePixelNonWhite(Filled(width, height, White));
  }
}
