/** RGBA pixel buffers as a canvas hands them out (ImageData.data: four
    channels per pixel, red, green, blue, alpha, each 0..255), and the
    per-pixel passes both comparison pages run over them in place. */
module Raster {

  /** One pixel, channels in buffer order. */
  datatype Rgba = Rgba(r: int, g: int, b: int, a: int)

  predicate IsChannel(x: int) { 0 <= x <= 255 }

  predicate IsColor(c: Rgba) {
    IsChannel(c.r) && IsChannel(c.g) && IsChannel(c.b) && IsChannel(c.a)
  }

  /** A well-formed ImageData buffer. */
  predicate IsImageData(s: seq<int>) {
    |s| % 4 == 0 && forall i :: 0 <= i < |s| ==> IsChannel(s[i])
  }

  function Abs(x: int): int { if x < 0 then -x else x }

  /** The k-th pixel of a flat buffer: channels 4k .. 4k+3. */
  function PixelAt(s: seq<int>, k: nat): Rgba
    requires 4 * k + 4 <= |s|
  {
    Rgba(s[4 * k], s[4 * k + 1], s[4 * k + 2], s[4 * k + 3])
  }

  function Channels(p: Rgba): seq<int> { [p.r, p.g, p.b, p.a] }

  /** The buffer obtained by rewriting every pixel with f, stride 4. */
  function MapPixels(s: seq<int>, f: Rgba -> Rgba): (t: seq<int>)
    requires |s| % 4 == 0
    ensures |t| == |s|
    decreases |s|
  {
    if |s| == 0 then [] else Channels(f(PixelAt(s, 0))) + MapPixels(s[4..], f)
  }

  lemma {:induction false} MapPixelsAt(s: seq<int>, f: Rgba -> Rgba, k: nat)
    requires |s| % 4 == 0 && 4 * k + 4 <= |s|
    ensures PixelAt(MapPixels(s, f), k) == f(PixelAt(s, k))
  {
    if k > 0 {
      MapPixelsAt(s[4..], f, k - 1);
      assert PixelAt(s[4..], k - 1) == PixelAt(s, k);
      var t := MapPixels(s, f);
      assert t == Channels(f(PixelAt(s, 0))) + MapPixels(s[4..], f);
      assert PixelAt(t, k) == PixelAt(MapPixels(s[4..], f), k - 1);
    }
  }

  /** Every pixel of MapPixels(s, f) is f of the pixel at the same place. */
  lemma MapPixelsAll(s: seq<int>, f: Rgba -> Rgba)
    requires |s| % 4 == 0
    ensures forall k :: 0 <= k < |s| / 4 ==> PixelAt(MapPixels(s, f), k) == f(PixelAt(s, k))
  {
    forall k | 0 <= k < |s| / 4
      ensures PixelAt(MapPixels(s, f), k) == f(PixelAt(s, k))
    {
      MapPixelsAt(s, f, k);
    }
  }

  /** Two buffers of one length that agree pixel by pixel are equal. */
  lemma SamePixels(t: seq<int>, u: seq<int>)
    requires |t| == |u| && |t| % 4 == 0
    requires forall k :: 0 <= k < |t| / 4 ==> PixelAt(t, k) == PixelAt(u, k)
    ensures t == u
  {
    forall i | 0 <= i < |t|
      ensures t[i] == u[i]
    {
      var k := i / 4;
      assert PixelAt(t, k) == PixelAt(u, k);
    }
  }

  /** A buffer whose every pixel is f of the source pixel is MapPixels(s, f):
      this is how the in-place loops below meet their specifications. */
  lemma MapPixelsUnique(s: seq<int>, t: seq<int>, f: Rgba -> Rgba)
    requires |s| % 4 == 0 && |t| == |s|
    requires forall k :: 0 <= k < |s| / 4 ==> PixelAt(t, k) == f(PixelAt(s, k))
    ensures t == MapPixels(s, f)
  {
    MapPixelsAll(s, f);
    SamePixels(t, MapPixels(s, f));
  }

  /** A pass whose pixel rule is idempotent is idempotent on whole buffers. */
  lemma {:induction false} MapPixelsIdempotent(s: seq<int>, f: Rgba -> Rgba)
    requires |s| % 4 == 0
    requires forall p :: f(f(p)) == f(p)
    ensures MapPixels(MapPixels(s, f), f) == MapPixels(s, f)
  {
    if |s| > 0 {
      var t := MapPixels(s, f);
      var head := Channels(f(PixelAt(s, 0)));
      assert t == head + MapPixels(s[4..], f);
      assert t[4..] == MapPixels(s[4..], f);
      assert PixelAt(t, 0) == f(PixelAt(s, 0));
      MapPixelsIdempotent(s[4..], f);
    }
  }

  /** A pass whose pixel rule keeps channels in 0..255 keeps ImageData well formed. */
  lemma MapPixelsKeepsImageData(s: seq<int>, f: Rgba -> Rgba)
    requires IsImageData(s)
    requires forall p :: IsColor(p) ==> IsColor(f(p))
    ensures IsImageData(MapPixels(s, f))
  {
    var t := MapPixels(s, f);
    MapPixelsAll(s, f);
    forall i | 0 <= i < |t|
      ensures IsChannel(t[i])
    {
      var k := i / 4;
      assert IsColor(PixelAt(s, k));
      assert IsColor(PixelAt(t, k));
    }
  }

  // ---------------------------------------------------------------------
  // Line extraction: dark pixels take the tint, all others turn transparent.
  // ---------------------------------------------------------------------

  /** A pixel is ink when the mean of its colour channels is below 200. */
  predicate IsInk(p: Rgba) { (p.r + p.g + p.b) as real / 3.0 < 200.0 }

  /** On integer channels the mean test is the same as a channel sum below 600. */
  lemma InkIsSumBelow600(p: Rgba)
    ensures IsInk(p) <==> p.r + p.g + p.b < 600
  {
  }

  function ExtractPixel(tint: Rgba, p: Rgba): Rgba {
    if IsInk(p) then tint else p.(a := 0)
  }

  /** The tinted mask of a buffer. */
  function Extracted(s: seq<int>, tint: Rgba): (t: seq<int>)
    requires |s| % 4 == 0
    ensures |t| == |s|
    ensures forall k :: 0 <= k < |s| / 4 ==>
      if PixelAt(s, k).r + PixelAt(s, k).g + PixelAt(s, k).b < 600
      then PixelAt(t, k) == tint
      else PixelAt(t, k) == PixelAt(s, k).(a := 0)
  {
    MapPixelsAll(s, p => ExtractPixel(tint, p));
    MapPixels(s, p => ExtractPixel(tint, p))
  }

  /** Every pixel of a mask is the tint or fully transparent, whatever the
      tint's own alpha; with a valid tint the mask is valid ImageData. */
  lemma ExtractedIsMask(s: seq<int>, tint: Rgba)
    requires IsImageData(s) && IsColor(tint)
    ensures IsImageData(Extracted(s, tint))
    ensures forall k :: 0 <= k < |s| / 4 ==>
      PixelAt(Extracted(s, tint), k) == tint || PixelAt(Extracted(s, tint), k).a == 0
  {
    MapPixelsKeepsImageData(s, p => ExtractPixel(tint, p));
  }

  /** Re-extracting a mask with the same ink-coloured tint changes nothing. */
  lemma ExtractedIdempotent(s: seq<int>, tint: Rgba)
    requires |s| % 4 == 0 && IsInk(tint)
    ensures Extracted(Extracted(s, tint), tint) == Extracted(s, tint)
  {
    MapPixelsIdempotent(s, p => ExtractPixel(tint, p));
  }

  /** The extractor loop: rewrites the buffer into its tinted mask. */
  method ExtractLine(data: array<int>, tint: Rgba)
    requires data.Length % 4 == 0
    modifies data
    ensures data[..] == Extracted(old(data[..]), tint)
  {
    ghost var s := data[..];
    var i := 0;
    while i < data.Length
      invariant 0 <= i <= data.Length && i % 4 == 0
      invariant forall k :: 0 <= k && 4 * k < i ==> PixelAt(data[..], k) == ExtractPixel(tint, PixelAt(s, k))
      invariant forall j :: i <= j < data.Length ==> data[j] == s[j]
    {
      var br := (data[i] + data[i + 1] + data[i + 2]) as real / 3.0;
      if br < 200.0 {
        data[i], data[i + 1], data[i + 2], data[i + 3] := tint.r, tint.g, tint.b, tint.a;
      } else {
        data[i + 3] := 0;
      }
      assert PixelAt(data[..], i / 4) == ExtractPixel(tint, PixelAt(s, i / 4));
      i := i + 4;
    }
    MapPixelsUnique(s, data[..], p => ExtractPixel(tint, p));
  }

  // ---------------------------------------------------------------------
  // Overlap pass: the purple of red over blue becomes black.
  // ---------------------------------------------------------------------

  /** The colour window that the red/blue mixture falls into. */
  predicate IsOverlap(p: Rgba) {
    p.r + p.b > 180 && Abs(p.r - p.b) < 120 && p.g < 160
  }

  /** The classification does not depend on which of red and blue is which. */
  lemma OverlapSymmetric(p: Rgba)
    ensures IsOverlap(p) <==> IsOverlap(p.(r := p.b, b := p.r))
  {
  }

  /** Colour channels to zero, alpha kept. */
  function Blacken(p: Rgba): Rgba { Rgba(0, 0, 0, p.a) }

  function OverlapPixel(p: Rgba): Rgba { if IsOverlap(p) then Blacken(p) else p }

  function OverlapBlackened(s: seq<int>): (t: seq<int>)
    requires |s| % 4 == 0
    ensures |t| == |s|
    ensures forall k :: 0 <= k < |s| / 4 ==>
      if PixelAt(s, k).r + PixelAt(s, k).b > 180
         && Abs(PixelAt(s, k).r - PixelAt(s, k).b) < 120 && PixelAt(s, k).g < 160
      then PixelAt(t, k) == Rgba(0, 0, 0, PixelAt(s, k).a)
      else PixelAt(t, k) == PixelAt(s, k)
  {
    MapPixelsAll(s, OverlapPixel);
    MapPixels(s, OverlapPixel)
  }

  /** Black is outside the overlap window, so a second pass changes nothing. */
  lemma OverlapIdempotent(s: seq<int>)
    requires |s| % 4 == 0
    ensures OverlapBlackened(OverlapBlackened(s)) == OverlapBlackened(s)
  {
    MapPixelsIdempotent(s, OverlapPixel);
  }

  /** The overlap loop over a canvas buffer. */
  method BlackenOverlap(d: array<int>)
    requires d.Length % 4 == 0
    modifies d
    ensures d[..] == OverlapBlackened(old(d[..]))
  {
    ghost var s := d[..];
    var i := 0;
    while i < d.Length
      invariant 0 <= i <= d.Length && i % 4 == 0
      invariant forall k :: 0 <= k && 4 * k < i ==> PixelAt(d[..], k) == OverlapPixel(PixelAt(s, k))
      invariant forall j :: i <= j < d.Length ==> d[j] == s[j]
    {
      var r, g, b := d[i], d[i + 1], d[i + 2];
      if r + b > 180 && Abs(r - b) < 120 && g < 160 {
        d[i], d[i + 1], d[i + 2] := 0, 0, 0;
      }
      assert PixelAt(d[..], i / 4) == OverlapPixel(PixelAt(s, i / 4));
      i := i + 4;
    }
    MapPixelsUnique(s, d[..], OverlapPixel);
  }

  // ---------------------------------------------------------------------
  // Export pass: every pixel with little green becomes black.
  // ---------------------------------------------------------------------

  function LowGreenPixel(p: Rgba): Rgba { if p.g < 100 then Blacken(p) else p }

  function LowGreenBlackened(s: seq<int>): (t: seq<int>)
    requires |s| % 4 == 0
    ensures |t| == |s|
    ensures forall k :: 0 <= k < |s| / 4 ==>
      if PixelAt(s, k).g < 100
      then PixelAt(t, k) == Rgba(0, 0, 0, PixelAt(s, k).a)
      else PixelAt(t, k) == PixelAt(s, k)
  {
    MapPixelsAll(s, LowGreenPixel);
    MapPixels(s, LowGreenPixel)
  }

  lemma LowGreenIdempotent(s: seq<int>)
    requires |s| % 4 == 0
    ensures LowGreenBlackened(LowGreenBlackened(s)) == LowGreenBlackened(s)
  {
    MapPixelsIdempotent(s, LowGreenPixel);
  }

  /** The export loop that blackens low-green pixels. */
  method BlackenLowGreen(d: array<int>)
    requires d.Length % 4 == 0
    modifies d
    ensures d[..] == LowGreenBlackened(old(d[..]))
  {
    ghost var s := d[..];
    var i := 0;
    while i < d.Length
      invariant 0 <= i <= d.Length && i % 4 == 0
      invariant forall k :: 0 <= k && 4 * k < i ==> PixelAt(d[..], k) == LowGreenPixel(PixelAt(s, k))
      invariant forall j :: i <= j < d.Length ==> d[j] == s[j]
    {
      var g := d[i + 1];
      if g < 100 {
        d[i], d[i + 1], d[i + 2] := 0, 0, 0;
      }
      assert PixelAt(d[..], i / 4) == LowGreenPixel(PixelAt(s, i / 4));
      i := i + 4;
    }
    MapPixelsUnique(s, d[..], LowGreenPixel);
  }

  // ---------------------------------------------------------------------
  // Background flatten: near-transparent or near-white becomes opaque white.
  // ---------------------------------------------------------------------

  const OpaqueWhite := Rgba(255, 255, 255, 255)

  predicate IsBackground(p: Rgba) { p.a < 10 || p.r + p.g + p.b > 730 }

  function FlattenPixel(p: Rgba): Rgba { if IsBackground(p) then OpaqueWhite else p }

  function Flattened(s: seq<int>): (t: seq<int>)
    requires |s| % 4 == 0
    ensures |t| == |s|
    ensures forall k :: 0 <= k < |s| / 4 ==>
      if PixelAt(s, k).a < 10 || PixelAt(s, k).r + PixelAt(s, k).g + PixelAt(s, k).b > 730
      then PixelAt(t, k) == Rgba(255, 255, 255, 255)
      else PixelAt(t, k) == PixelAt(s, k)
  {
    MapPixelsAll(s, FlattenPixel);
    MapPixels(s, FlattenPixel)
  }

  /** Opaque white has channel sum 765, so flattening twice is flattening once. */
  lemma FlattenIdempotent(s: seq<int>)
    requires |s| % 4 == 0
    ensures Flattened(Flattened(s)) == Flattened(s)
  {
    MapPixelsIdempotent(s, FlattenPixel);
  }

  /** After flattening no pixel is left nearly transparent. */
  lemma FlattenedIsOpaque(s: seq<int>)
    requires |s| % 4 == 0
    ensures forall k :: 0 <= k < |s| / 4 ==> PixelAt(Flattened(s), k).a >= 10
  {
  }

  /** The flatten loop of the export. */
  method FlattenBackground(d: array<int>)
    requires d.Length % 4 == 0
    modifies d
    ensures d[..] == Flattened(old(d[..]))
  {
    ghost var s := d[..];
    var i := 0;
    while i < d.Length
      invariant 0 <= i <= d.Length && i % 4 == 0
      invariant forall k :: 0 <= k && 4 * k < i ==> PixelAt(d[..], k) == FlattenPixel(PixelAt(s, k))
      invariant forall j :: i <= j < d.Length ==> d[j] == s[j]
    {
      var r, g, b, a := d[i], d[i + 1], d[i + 2], d[i + 3];
      if a < 10 || r + g + b > 730 {
        d[i], d[i + 1], d[i + 2], d[i + 3] := 255, 255, 255, 255;
      }
      assert PixelAt(d[..], i / 4) == FlattenPixel(PixelAt(s, i / 4));
      i := i + 4;
    }
    MapPixelsUnique(s, d[..], FlattenPixel);
  }
}
