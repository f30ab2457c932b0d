/** The layer loop of compose_wallpaper: the seven pattern generators are
    shuffled, the first n of them (2 <= n <= 4) are rendered and blended onto
    the background one after the other, and the result is flattened to RGB.
    Image operations of the imaging library are parameters (an `Imaging`
    value); images are sequences of pixels, one per position. */
module Composer {
  import opened Utilities
  import opened Shuffle

  /** The pattern generators, in the order compose_wallpaper lists them. */
  datatype Pattern = ScatterCircles | Stripes | Concentric | Triangles | Waves | SoftBlobs | Dots

  const Generators: seq<Pattern> := [ScatterCircles, Stripes, Concentric, Triangles, Waves, SoftBlobs, Dots]

  /** The blend modes random.choice picks from. */
  datatype BlendMode = Normal | Multiply | Screen | Overlay | SoftLight | Add | Subtract

  datatype Pixel = Pixel(r: int, g: int, b: int, a: int)

  type Image = seq<Pixel>

  /** The imaging operations the composer calls, as functions of pixels and images.
      - chop: the per-pixel ImageChops operation of a blend mode other than normal
      - mix: ImageChops.blend of one pixel, base to blended by opacity
      - over: alpha_composite of the base pixel with the layer pixel faded by opacity
      - soften: GaussianBlur of an image with a radius
      - render: the image generator `p` draws when it is the i-th layer */
  datatype Imaging = Imaging(
    chop: (BlendMode, Rgb, Rgb) -> Rgb,
    mix: (Rgb, Rgb, real) -> Rgb,
    over: (Pixel, Pixel, real) -> Pixel,
    soften: (Image, real) -> Image,
    render: (Pattern, nat) -> Image)

  /** Every generator draws an image of the canvas size and blurring keeps the size. */
  ghost predicate WellFormed(im: Imaging, size: nat) {
    (forall p: Pattern, i: nat :: |im.render(p, i)| == size) &&
    (forall img: Image, radius: real :: |img| == size ==> |im.soften(img, radius)| == size)
  }

  /** The random choices of one layer: its blend mode, its opacity and whether
      (and how strongly) the composition is blurred after it. */
  datatype LayerDraw = LayerDraw(mode: BlendMode, opacity: real, soften: bool, radius: real)

  function DropAlpha(p: Pixel): (c: Rgb) {
    Rgb(p.r, p.g, p.b)
  }

  /** convert("RGBA") of an RGB image: every pixel fully opaque. */
  function ToRgba(img: seq<Rgb>): (r: Image)
    ensures |r| == |img|
    ensures forall k :: 0 <= k < |img| ==> DropAlpha(r[k]) == img[k] && r[k].a == 255
  {
    seq(|img|, k requires 0 <= k < |img| => Pixel(img[k].r, img[k].g, img[k].b, 255))
  }

  /** convert("RGB") of an RGBA image: the alpha channel is discarded. */
  function ToRgb(img: Image): (r: seq<Rgb>)
    ensures |r| == |img|
    ensures forall k :: 0 <= k < |img| ==> r[k] == DropAlpha(img[k])
  {
    seq(|img|, k requires 0 <= k < |img| => DropAlpha(img[k]))
  }

  /** Converting an RGB image to RGBA and back gives the image back. */
  lemma RgbaRoundTrip(img: seq<Rgb>)
    ensures ToRgb(ToRgba(img)) == img
  {
    assert forall k :: 0 <= k < |img| ==> ToRgb(ToRgba(img))[k] == img[k];
  }

  /** One blend of a layer onto the composition. A normal layer is
      alpha-composited; any other mode blends the RGB channels and then puts
      the composition's own alpha channel back, so the alpha is untouched. */
  function Blend(im: Imaging, comp: Image, layer: Image, mode: BlendMode, opacity: real): (r: Image)
    requires |layer| == |comp|
    ensures |r| == |comp|
    ensures mode != Normal ==> forall k :: 0 <= k < |comp| ==> r[k].a == comp[k].a
  {
    if mode == Normal then
      seq(|comp|, k requires 0 <= k < |comp| => im.over(comp[k], layer[k], opacity))
    else
      seq(|comp|, k requires 0 <= k < |comp| =>
        var base := DropAlpha(comp[k]);
        var blended := im.mix(base, im.chop(mode, base, DropAlpha(layer[k])), opacity);
        Pixel(blended.r, blended.g, blended.b, comp[k].a))
  }

  /** One iteration of the layer loop: render, blend, maybe blur. */
  function Step(im: Imaging, comp: Image, p: Pattern, i: nat, d: LayerDraw): (r: Image)
    requires WellFormed(im, |comp|)
    ensures |r| == |comp|
  {
    var blended := Blend(im, comp, im.render(p, i), d.mode, d.opacity);
    if d.soften then im.soften(blended, d.radius) else blended
  }

  /** The composition after the layers `applied`, with their draws. */
  function Composite(im: Imaging, base: Image, applied: seq<Pattern>, draws: seq<LayerDraw>): (r: Image)
    requires WellFormed(im, |base|) && |draws| == |applied|
    ensures |r| == |base|
  {
    if applied == [] then base
    else
      var n := |applied| - 1;
      Step(im, Composite(im, base, applied[..n], draws[..n]), applied[n], n, draws[n])
  }

  /** One more layer is one more step. */
  lemma CompositeStep(im: Imaging, base: Image, applied: seq<Pattern>, p: Pattern, draws: seq<LayerDraw>)
    requires WellFormed(im, |base|) && |draws| == |applied| + 1
    ensures Composite(im, base, applied + [p], draws) ==
            Step(im, Composite(im, base, applied, draws[..|applied|]), p, |applied|, draws[|applied|])
  {
    var longer := applied + [p];
    assert |longer| - 1 == |applied| && longer[|applied|] == p;
    assert longer[..|applied|] == applied;
  }

  /** The layer loop of compose_wallpaper. `shuffle` are the draws of
      random.shuffle(patterns), nLayers the draw of randint(2, 4), and `draws`
      the per-layer draws. The layers applied are the first nLayers generators
      of the shuffled list, each at most once, and the picture is the
      composition of those layers over the opaque background, flattened to RGB. */
  method ComposeLayers(im: Imaging, bg: seq<Rgb>, shuffle: seq<nat>, nLayers: nat, draws: seq<LayerDraw>)
      returns (applied: seq<Pattern>, out: seq<Rgb>)
    requires WellFormed(im, |bg|)
    requires ValidDraws(|Generators|, shuffle)
    requires 2 <= nLayers <= 4 && |draws| == nLayers
    ensures applied == Shuffled(Generators, shuffle)[..nLayers]
    ensures |applied| == nLayers && Distinct(applied)
    ensures out == ToRgb(Composite(im, ToRgba(bg), applied, draws))
  {
    var patterns := new Pattern[7](i requires 0 <= i < 7 => Generators[i]);
    assert patterns[..] == Generators;
    ShuffleInPlace(patterns, shuffle);
    ghost var order := patterns[..];
    assert order == Shuffled(Generators, shuffle);
    var comp := ToRgba(bg);
    applied := [];
    var i := 0;
    while i < nLayers
      invariant 0 <= i <= nLayers
      invariant patterns[..] == order
      invariant applied == order[..i]
      invariant comp == Composite(im, ToRgba(bg), applied, draws[..i])
    {
      var p := patterns[i];
      var d := draws[i];
      var layer := im.render(p, i);
      var blended := Blend(im, comp, layer, d.mode, d.opacity);
      if d.soften {
        comp := im.soften(blended, d.radius);
      } else {
        comp := blended;
      }
      CompositeStep(im, ToRgba(bg), applied, p, draws[..i + 1]);
      assert draws[..i + 1][..i] == draws[..i];
      applied := applied + [p];
      i := i + 1;
    }
    assert draws[..nLayers] == draws;
    out := ToRgb(comp);
    GeneratorsDistinct();
    ShuffledDistinct(Generators, shuffle);
  }

  lemma GeneratorsDistinct()
    ensures Distinct(Generators)
  {
  }

  /** When no layer is blended in normal mode and none is blurred, every step
      reattaches the old alpha channel: the final alpha equals the base alpha. */
  lemma {:induction false} CompositeKeepsAlpha(im: Imaging, base: Image, applied: seq<Pattern>, draws: seq<LayerDraw>)
    requires WellFormed(im, |base|) && |draws| == |applied|
    requires forall j :: 0 <= j < |draws| ==> draws[j].mode != Normal && !draws[j].soften
    ensures forall k :: 0 <= k < |base| ==> Composite(im, base, applied, draws)[k].a == base[k].a
  {
    if applied != [] {
      var n := |applied| - 1;
      CompositeKeepsAlpha(im, base, applied[..n], draws[..n]);
    }
  }

  /** In particular, over the opaque background such a picture stays fully
      opaque, so flattening it to RGB discards nothing. */
  lemma OpaqueStaysOpaque(im: Imaging, bg: seq<Rgb>, applied: seq<Pattern>, draws: seq<LayerDraw>)
    requires WellFormed(im, |bg|) && |draws| == |applied|
    requires forall j :: 0 <= j < |draws| ==> draws[j].mode != Normal && !draws[j].soften
    ensures forall k :: 0 <= k < |bg| ==> Composite(im, ToRgba(bg), applied, draws)[k].a == 255
  {
    CompositeKeepsAlpha(im, ToRgba(bg), applied, draws);
  }
}
