/**
 * The viewport mappers and renderers of src/main.rs: `scale_image_async`
 * (centred crop, ignores pan) and `crop_and_scale` (centred crop shifted by
 * the pan offset and clamped into the source). Both resize the crop back to
 * the full source size. Pixels are opaque: the resampling kernel is an
 * abstract function that yields a raster of the requested size and records
 * what it was made from, and PNG encoding wraps that raster.
 */
module Geometry {
  import opened Wrappers

  const U32_MAX: int := 0xFFFF_FFFF

  /** The slider's range; its value divided by 50 is the zoom factor. */
  const SLIDER_MIN: int := 50
  const SLIDER_MAX: int := 150

  /** `ResamplingType`, one variant per kernel of the `resize` crate. */
  datatype Alg = Point | Triangle | Catrom | Mitchell | Lanczos3

  /** A crop rectangle in source pixels (`img.view(x, y, w, h)`). */
  datatype Rect = Rect(x: nat, y: nat, w: nat, h: nat)

  /** A decoded RGB8 image; `id` stands for its pixels. */
  datatype Image = Image(id: nat, width: nat, height: nat)

  /** iced's `Vector` / `Point`, over exact reals. */
  datatype Vec2 = Vec2(x: real, y: real) {
    function Plus(v: Vec2): Vec2 { Vec2(x + v.x, y + v.y) }
    function Minus(v: Vec2): Vec2 { Vec2(x - v.x, y - v.y) }
  }

  /**
   * A resampled RGB8 raster: its size, the length of its sample buffer, and
   * the source, crop and kernel it was computed from.
   */
  datatype Raster = Raster(width: nat, height: nat, samples: nat, source: nat, crop: Rect, alg: Alg)

  /** The encoded byte buffers of the viewer: empty, or the PNG encoding of a raster. */
  datatype Bytes = Empty | Png(raster: Raster)

  /** A decoded image the renderers accept: `u32` dimensions, none of them zero. */
  predicate ValidImage(img: Image) {
    1 <= img.width <= U32_MAX && 1 <= img.height <= U32_MAX
  }

  predicate Inside(r: Rect, w: nat, h: nat) {
    r.x + r.w <= w && r.y + r.h <= h
  }

  predicate NonEmpty(r: Rect) {
    r.w >= 1 && r.h >= 1
  }

  function Max(a: real, b: real): real { if a >= b then a else b }
  function Min(a: real, b: real): real { if a <= b then a else b }

  /** Rust's saturating `as u32` cast of a finite float. */
  function AsU32(v: real): (n: nat)
    ensures n <= U32_MAX
    ensures v <= 0.0 ==> n == 0
    ensures 0.0 <= v <= U32_MAX as real ==> n as real <= v < n as real + 1.0
  {
    if v <= 0.0 then 0 else if v >= U32_MAX as real then U32_MAX else v.Floor
  }

  /**
   * The resampling kernel (`resize::new(..).resize(..)`): a raster of exactly
   * the requested size, with a buffer of three samples per pixel. The crate
   * refuses a zero dimension, and the crop must lie inside the source.
   */
  function Resample(img: Image, crop: Rect, dstW: nat, dstH: nat, alg: Alg): (r: Raster)
    requires NonEmpty(crop) && Inside(crop, img.width, img.height)
    requires dstW >= 1 && dstH >= 1
    ensures r.width == dstW && r.height == dstH && r.samples == dstW * dstH * 3
    ensures r.source == img.id && r.crop == crop && r.alg == alg
  {
    Raster(dstW, dstH, dstW * dstH * 3, img.id, crop, alg)
  }

  function SaturatingSub(a: nat, b: nat): nat { if a >= b then a - b else 0 }

  // ---------------------------------------------------------------------
  // scale_image_async

  /**
   * The crop of `scale_image_async` as written: `floor(W / (slider / 50))`
   * wide, centred with `W.saturating_sub(crop_w) / 2`.
   */
  function CenterCropAsWritten(w: nat, h: nat, slider: nat): (r: Rect)
    requires slider >= 1
    ensures r.w * slider <= w * 50 < (r.w + 1) * slider
    ensures r.h * slider <= h * 50 < (r.h + 1) * slider
    ensures r.w <= w ==> 2 * r.x <= w - r.w <= 2 * r.x + 1
    ensures r.h <= h ==> 2 * r.y <= h - r.h <= 2 * r.y + 1
  {
    var cw := w * 50 / slider;
    var ch := h * 50 / slider;
    Rect(SaturatingSub(w, cw) / 2, SaturatingSub(h, ch) / 2, cw, ch)
  }

  /**
   * The crop of `scale_image_async` with the size kept at one pixel or more,
   * as `crop_and_scale` does with `max(1.0)`.
   */
  function CenterCrop(w: nat, h: nat, slider: nat): (r: Rect)
    requires slider >= 1
    ensures r.w >= 1 && r.h >= 1
    ensures r == CenterCropAsWritten(w, h, slider) <==> w * 50 >= slider && h * 50 >= slider
  {
    DivIsPositive(w * 50, slider);
    DivIsPositive(h * 50, slider);
    var cw := if w * 50 / slider >= 1 then w * 50 / slider else 1;
    var ch := if h * 50 / slider >= 1 then h * 50 / slider else 1;
    Rect(SaturatingSub(w, cw) / 2, SaturatingSub(h, ch) / 2, cw, ch)
  }

  /** A quotient is positive exactly when the divisor fits in the dividend. */
  lemma DivIsPositive(a: nat, c: nat)
    requires c >= 1
    ensures a / c >= 1 <==> a >= c
  {
    assert a == (a / c) * c + a % c;
  }

  /** `a / c <= b` whenever `a <= b * c`. */
  lemma DivAtMost(a: nat, b: nat, c: nat)
    requires c >= 1 && a <= b * c
    ensures a / c <= b
  {
    assert a == (a / c) * c + a % c;
  }

  /** `a / c == 0` whenever `a < c`. */
  lemma DivBelow(a: nat, c: nat)
    requires a < c
    ensures a / c == 0
  {
    assert a == (a / c) * c + a % c;
  }

  /** Zooming in (slider 50 or more) never asks for more than the source. */
  lemma ZoomedSizeFits(w: nat, slider: nat)
    requires slider >= SLIDER_MIN
    ensures w * 50 / slider <= w
  {
    assert w * 50 <= w * slider;
    DivAtMost(w * 50, w, slider);
  }

  /**
   * For slider values in range, the as-written crop is `floor(W*50/slider)`
   * by `floor(H*50/slider)`, centred, and inside the source.
   */
  lemma CenterCropAsWrittenInside(w: nat, h: nat, slider: nat)
    requires SLIDER_MIN <= slider <= SLIDER_MAX
    ensures var r := CenterCropAsWritten(w, h, slider);
      && r.w == w * 50 / slider && r.h == h * 50 / slider
      && r.x == (w - r.w) / 2 && r.y == (h - r.h) / 2
      && Inside(r, w, h)
  {
    ZoomedSizeFits(w, slider);
    ZoomedSizeFits(h, slider);
  }

  /** Zoom 2.0 of a 200x100 source crops the central 100x50 window. */
  lemma CenterCropExample()
    ensures CenterCropAsWritten(200, 100, 100) == Rect(50, 25, 100, 50)
  {
  }

  /**
   * As written, a source one pixel wide gets a crop zero pixels wide as soon
   * as the slider leaves 50 (and one two pixels wide past 100); `resize::new`
   * then refuses the zero width and its `unwrap` panics.
   */
  lemma ThinSourceCropsToNothing(w: nat, h: nat, slider: nat)
    requires 1 <= w && w * 50 < slider
    ensures CenterCropAsWritten(w, h, slider).w == 0
    ensures !NonEmpty(CenterCropAsWritten(w, h, slider))
  {
    DivBelow(w * 50, slider);
  }

  lemma ThinSourceExample()
    ensures CenterCropAsWritten(1, 1, 51) == Rect(0, 0, 0, 0)
  {
  }

  /**
   * The corrected crop is inside the source and never empty, and it is the
   * as-written crop whenever that one is not empty.
   */
  lemma CenterCropInside(w: nat, h: nat, slider: nat)
    requires 1 <= w && 1 <= h && SLIDER_MIN <= slider <= SLIDER_MAX
    ensures NonEmpty(CenterCrop(w, h, slider))
    ensures Inside(CenterCrop(w, h, slider), w, h)
    ensures NonEmpty(CenterCropAsWritten(w, h, slider)) ==>
      CenterCrop(w, h, slider) == CenterCropAsWritten(w, h, slider)
  {
    ZoomedSizeFits(w, slider);
    ZoomedSizeFits(h, slider);
  }

  /**
   * `scale_image_async`: no image gives an empty buffer; otherwise the
   * centred crop for the slider value, resized to the full source size with
   * the given kernel and PNG-encoded.
   */
  function ScaleImage(original: Option<Image>, slider: nat, alg: Alg): (b: Bytes)
    requires SLIDER_MIN <= slider <= SLIDER_MAX
    requires original.Some? ==> ValidImage(original.value)
    ensures b == Empty <==> original.None?
    ensures original.Some? ==>
      var img := original.value;
      && b.raster.width == img.width && b.raster.height == img.height
      && b.raster.samples == img.width * img.height * 3
      && b.raster.source == img.id && b.raster.alg == alg
      && b.raster.crop == CenterCrop(img.width, img.height, slider)
      && NonEmpty(b.raster.crop) && Inside(b.raster.crop, img.width, img.height)
  {
    match original
    case None => Empty
    case Some(img) =>
      CenterCropInside(img.width, img.height, slider);
      Png(Resample(img, CenterCrop(img.width, img.height, slider), img.width, img.height, alg))
  }

  // ---------------------------------------------------------------------
  // crop_and_scale

  /**
   * The crop of `crop_and_scale`: a window `max(W/scale, 1)` wide, centred,
   * moved by `-offset/scale`, its corner clamped to `[0, W - window]` and
   * truncated to `u32`, its size cut to what is left of the source.
   */
  function PanCrop(w: nat, h: nat, scale: real, offset: Vec2): (r: Rect)
    requires scale > 0.0
    ensures r.x <= U32_MAX && r.y <= U32_MAX && r.w <= U32_MAX && r.h <= U32_MAX
  {
    var viewW := Max(w as real / scale, 1.0);
    var viewH := Max(h as real / scale, 1.0);
    var x := AsU32(Min(Max(w as real / 2.0 - viewW / 2.0 - offset.x / scale, 0.0), w as real - viewW));
    var y := AsU32(Min(Max(h as real / 2.0 - viewH / 2.0 - offset.y / scale, 0.0), h as real - viewH));
    Rect(x, y, AsU32(Min(viewW, w as real - x as real)), AsU32(Min(viewH, h as real - y as real)))
  }

  /** One axis of PanCrop: the clamped corner and the size left for the window. */
  lemma {:induction false} PanAxisInside(w: nat, view: real, shifted: real)
    requires 1 <= w <= U32_MAX && view >= 1.0
    ensures var x := AsU32(Min(Max(shifted, 0.0), w as real - view));
      var c := AsU32(Min(view, w as real - x as real));
      && x + c <= w && c >= 1
      && (view <= w as real ==> c == AsU32(view))
  {
    var v := Min(Max(shifted, 0.0), w as real - view);
    var x := AsU32(v);
    if view <= w as real {
      assert 0.0 <= v <= w as real - view;
      assert x as real <= v;
      assert Min(view, w as real - x as real) == view;
    } else {
      assert v < 0.0;
      assert x == 0;
      assert Min(view, w as real - x as real) == w as real;
    }
  }

  /**
   * Whatever the zoom and however far the pan offset goes, the crop of
   * `crop_and_scale` lies inside the source and is at least one pixel.
   */
  lemma PanCropInside(w: nat, h: nat, scale: real, offset: Vec2)
    requires 1 <= w <= U32_MAX && 1 <= h <= U32_MAX && scale > 0.0
    ensures NonEmpty(PanCrop(w, h, scale, offset))
    ensures Inside(PanCrop(w, h, scale, offset), w, h)
  {
    var viewW := Max(w as real / scale, 1.0);
    var viewH := Max(h as real / scale, 1.0);
    PanAxisInside(w, viewW, w as real / 2.0 - viewW / 2.0 - offset.x / scale);
    PanAxisInside(h, viewH, h as real / 2.0 - viewH / 2.0 - offset.y / scale);
  }

  /** At zoom 1.0 the crop is the whole source, whatever the pan offset. */
  lemma PanCropNeutral(w: nat, h: nat, offset: Vec2)
    requires 1 <= w <= U32_MAX && 1 <= h <= U32_MAX
    ensures PanCrop(w, h, 1.0, offset) == Rect(0, 0, w, h)
  {
    assert w as real / 1.0 == w as real;
    assert h as real / 1.0 == h as real;
  }

  /**
   * Dragging the content right (a larger x offset) never moves the window
   * right within the source: the crop's corner is antitone in the offset.
   */
  lemma PanCropAntitone(w: nat, h: nat, scale: real, a: Vec2, b: Vec2)
    requires 1 <= w <= U32_MAX && 1 <= h <= U32_MAX && scale > 0.0
    requires a.x <= b.x && a.y <= b.y
    ensures PanCrop(w, h, scale, b).x <= PanCrop(w, h, scale, a).x
    ensures PanCrop(w, h, scale, b).y <= PanCrop(w, h, scale, a).y
  {
    assert b.x / scale - a.x / scale == (b.x - a.x) / scale;
    assert b.y / scale - a.y / scale == (b.y - a.y) / scale;
    var viewW := Max(w as real / scale, 1.0);
    var viewH := Max(h as real / scale, 1.0);
    AsU32Monotone(Min(Max(w as real / 2.0 - viewW / 2.0 - b.x / scale, 0.0), w as real - viewW),
                  Min(Max(w as real / 2.0 - viewW / 2.0 - a.x / scale, 0.0), w as real - viewW));
    AsU32Monotone(Min(Max(h as real / 2.0 - viewH / 2.0 - b.y / scale, 0.0), h as real - viewH),
                  Min(Max(h as real / 2.0 - viewH / 2.0 - a.y / scale, 0.0), h as real - viewH));
  }

  lemma AsU32Monotone(u: real, v: real)
    requires u <= v
    ensures AsU32(u) <= AsU32(v)
  {
    if 0.0 < u && v < U32_MAX as real {
      assert u.Floor <= v.Floor;
    }
  }

  /**
   * `crop_and_scale`: the pan crop, resized to the full source size with the
   * given kernel and PNG-encoded.
   */
  function CropAndScale(img: Image, scale: real, offset: Vec2, alg: Alg): (b: Bytes)
    requires ValidImage(img) && scale > 0.0
    ensures b.Png?
    ensures b.raster.width == img.width && b.raster.height == img.height
    ensures b.raster.samples == img.width * img.height * 3
    ensures b.raster.source == img.id && b.raster.alg == alg
    ensures b.raster.crop == PanCrop(img.width, img.height, scale, offset)
    ensures NonEmpty(b.raster.crop) && Inside(b.raster.crop, img.width, img.height)
  {
    PanCropInside(img.width, img.height, scale, offset);
    Png(Resample(img, PanCrop(img.width, img.height, scale, offset), img.width, img.height, alg))
  }

  /** The zoom factor `slider_value as f32 / 50.0`. */
  function Zoom(slider: nat): real {
    slider as real / 50.0
  }

  /**
   * At the neutral slider value both renderers crop the whole source: the
   * slider render and the pan render agree, whatever the pan offset.
   */
  lemma RenderersAgreeAtNeutralZoom(img: Image, offset: Vec2, alg: Alg)
    requires ValidImage(img)
    ensures ScaleImage(Some(img), SLIDER_MIN, alg) == CropAndScale(img, Zoom(SLIDER_MIN), offset, alg)
    ensures CropAndScale(img, Zoom(SLIDER_MIN), offset, alg).raster.crop == Rect(0, 0, img.width, img.height)
  {
    assert Zoom(SLIDER_MIN) == 1.0;
    PanCropNeutral(img.width, img.height, offset);
    assert img.width * 50 / 50 == img.width;
    assert img.height * 50 / 50 == img.height;
  }

  /** The real quotient of two naturals truncates to their integer quotient. */
  lemma RealDivFloor(a: nat, c: nat)
    requires c >= 1
    ensures AsU32(a as real / c as real) == if a / c <= U32_MAX then a / c else U32_MAX
  {
    var q, r := a / c, a % c;
    assert a == q * c + r;
    assert a as real / c as real == q as real + r as real / c as real;
    assert 0.0 <= r as real / c as real < 1.0;
  }

  /**
   * With no pan, the pan renderer picks the same crop size as the slider
   * renderer, and its corner lies at most one pixel above or left of the
   * slider renderer's (the real-valued centre is truncated, the integer one
   * halves a truncated size).
   */
  lemma PanCropMatchesCenterCrop(w: nat, h: nat, slider: nat)
    requires 1 <= w <= U32_MAX && 1 <= h <= U32_MAX && SLIDER_MIN <= slider <= SLIDER_MAX
    ensures var p := PanCrop(w, h, Zoom(slider), Vec2(0.0, 0.0));
      var c := CenterCrop(w, h, slider);
      && p.w == c.w && p.h == c.h
      && c.x - 1 <= p.x <= c.x && c.y - 1 <= p.y <= c.y
  {
    PanAxisMatches(w, slider);
    PanAxisMatches(h, slider);
  }

  /** One axis of PanCropMatchesCenterCrop. */
  lemma PanAxisMatches(w: nat, slider: nat)
    requires 1 <= w <= U32_MAX && SLIDER_MIN <= slider <= SLIDER_MAX
    ensures var view := Max(w as real / Zoom(slider), 1.0);
      var x := AsU32(Min(Max(w as real / 2.0 - view / 2.0 - 0.0 / Zoom(slider), 0.0), w as real - view));
      var size := if w * 50 / slider >= 1 then w * 50 / slider else 1;
      && AsU32(Min(view, w as real - x as real)) == size
      && (w - size) / 2 - 1 <= x <= (w - size) / 2
  {
    var view := Max(w as real / Zoom(slider), 1.0);
    var size := if w * 50 / slider >= 1 then w * 50 / slider else 1;
    ZoomedView(w, slider);
    var v := w as real / 2.0 - view / 2.0;
    assert w as real / 2.0 - view / 2.0 - 0.0 / Zoom(slider) == v;
    PanAxisInside(w, view, v);
    CentredCorner(w, size, view);
  }

  /** The zoomed window of one axis, before truncation, and the integer size it truncates to. */
  lemma ZoomedView(w: nat, slider: nat)
    requires 1 <= w <= U32_MAX && SLIDER_MIN <= slider <= SLIDER_MAX
    ensures var view := Max(w as real / Zoom(slider), 1.0);
      var size := if w * 50 / slider >= 1 then w * 50 / slider else 1;
      && 1.0 <= view <= w as real
      && size as real <= view < size as real + 1.0
      && AsU32(view) == size
  {
    var a := w * 50;
    var d := a as real / slider as real;
    ZoomIsQuotient(w, slider);
    ZoomedSizeFits(w, slider);
    RealDivFloor(a, slider);
    RealDivBounds(a, slider);
    assert a <= w * slider;
    RealDivAtMost(a, slider, w);
    var q := a / slider;
    assert q as real <= d < q as real + 1.0 && d <= w as real;
    if q >= 1 {
      assert 1.0 <= d;
      assert Max(d, 1.0) == d;
    } else {
      assert d < 1.0;
      assert Max(d, 1.0) == 1.0;
    }
  }

  /** Dividing by the zoom `slider / 50` is dividing `w * 50` by the slider. */
  lemma ZoomIsQuotient(w: nat, slider: nat)
    requires slider >= 1
    ensures w as real / Zoom(slider) == (w * 50) as real / slider as real
  {
  }

  /** The real quotient lies within one of the integer quotient. */
  lemma RealDivBounds(a: nat, c: nat)
    requires c >= 1
    ensures (a / c) as real <= a as real / c as real < (a / c) as real + 1.0
  {
    var q, r := a / c, a % c;
    assert a == q * c + r;
    assert a as real / c as real == q as real + r as real / c as real;
    assert 0.0 <= r as real / c as real < 1.0;
  }

  /** The real quotient is below any `b` with `a <= b * c`. */
  lemma RealDivAtMost(a: nat, c: nat, b: nat)
    requires c >= 1 && a <= b * c
    ensures a as real / c as real <= b as real
  {
    var d := a as real / c as real;
    assert d * c as real == a as real;
    assert (b * c) as real == b as real * c as real;
    if d > b as real {
      assert d * c as real > b as real * c as real;
    }
  }

  /** The truncated real-valued corner of a window centred in `w`, next to the integer one. */
  lemma CentredCorner(w: nat, size: nat, view: real)
    requires w <= U32_MAX && size as real <= view < size as real + 1.0 && view <= w as real
    ensures size <= w
    ensures var v := w as real / 2.0 - view / 2.0;
      && 0.0 <= v <= w as real - view
      && (w - size) / 2 - 1 <= AsU32(v) <= (w - size) / 2
  {
    var v := w as real / 2.0 - view / 2.0;
    assert 0.0 <= v <= w as real - view;
    var x := AsU32(v);
    assert x as real <= v < x as real + 1.0;
    assert 2 * x <= w - size;
    assert 2 * x + 3 > w - size;
  }
}
