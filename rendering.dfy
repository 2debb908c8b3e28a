/** `overlay_mask`, `draw_bboxes` and `apply_heatmap` of
    custom_libs/ImageComparision.py. Contour finding, rectangle rasterisation,
    `addWeighted` blending and the JET colour map are parameters. */
module Rendering {
  import opened Raster
  import opened Regions

  /** The OpenCV calls the renderer makes. */
  datatype DrawOps = DrawOps(
    // findContours(mask, RETR_EXTERNAL, CHAIN_APPROX_SIMPLE), each with contourArea and boundingRect
    findContours: GrayImage -> seq<Contour>,
    stroke: StrokePx,
    // addWeighted(src1, alpha, src2, beta, 0) on one pixel pair
    blend: (Bgr, real, Bgr, real) -> Bgr,
    // applyColorMap(_, COLORMAP_JET) on one pixel
    jet: Byte -> Bgr)

  /** The colour layer of `overlay_mask`: `color` where the mask is 255, black elsewhere. */
  function ColorLayer(mask: GrayImage, color: Bgr): (layer: ColorImage)
    ensures layer.SameSize(mask)
  {
    MapPixels(mask, (v: Byte) => if v == 255 then color else Black)
  }

  /** The layer holds `color` exactly at the pixels where the mask is 255
      and zeros at every other pixel. */
  lemma ColorLayerExact(mask: GrayImage, color: Bgr, i: int, j: int)
    requires 0 <= i < mask.height && 0 <= j < mask.width
    ensures mask.px[i][j] == 255 ==> ColorLayer(mask, color).px[i][j] == color
    ensures mask.px[i][j] != 255 ==> ColorLayer(mask, color).px[i][j] == Black
    ensures color != Black ==> (ColorLayer(mask, color).px[i][j] == color <==> mask.px[i][j] == 255)
  {
  }

  /** `color_layer = np.zeros_like(image); color_layer[mask == 255] = color`,
      written into a fresh array. */
  method PaintColorLayer(image: ColorImage, mask: GrayImage, color: Bgr) returns (layer: array2<Bgr>)
    requires mask.SameSize(image)
    ensures fresh(layer)
    ensures layer.Length0 == image.height && layer.Length1 == image.width
    ensures forall i, j :: 0 <= i < image.height && 0 <= j < image.width ==>
      layer[i, j] == ColorLayer(mask, color).px[i][j]
  {
    layer := new Bgr[image.height, image.width]((i, j) => Black);
    for i := 0 to image.height
      invariant forall i', j :: 0 <= i' < i && 0 <= j < image.width ==>
        layer[i', j] == ColorLayer(mask, color).px[i'][j]
      invariant forall i', j :: i <= i' < image.height && 0 <= j < image.width ==> layer[i', j] == Black
    {
      for j := 0 to image.width
        invariant forall i', j' :: 0 <= i' < i && 0 <= j' < image.width ==>
          layer[i', j'] == ColorLayer(mask, color).px[i'][j']
        invariant forall j' :: 0 <= j' < j ==> layer[i, j'] == ColorLayer(mask, color).px[i][j']
        invariant forall i', j' :: i <= i' < image.height && 0 <= j' < image.width && (i' > i || j' >= j) ==>
          layer[i', j'] == Black
      {
        if mask.px[i][j] == 255 {
          layer[i, j] := color;
        }
      }
    }
  }

  /** `cv2.addWeighted(top, alpha, base, 1 - alpha, 0)` over two equal-size images. */
  function Blend(top: ColorImage, alpha: real, base: ColorImage, ops: DrawOps): (r: ColorImage)
    requires top.SameSize(base)
    ensures r.SameSize(base)
    ensures forall i, j :: 0 <= i < base.height && 0 <= j < base.width ==>
      r.px[i][j] == ops.blend(top.px[i][j], alpha, base.px[i][j], 1.0 - alpha)
  {
    var px := seq(base.height, i requires 0 <= i < base.height =>
      seq(base.width, j requires 0 <= j < base.width =>
        ops.blend(top.px[i][j], alpha, base.px[i][j], 1.0 - alpha)));
    assert forall i :: 0 <= i < |px| ==> |px[i]| == base.width;
    Image(base.height, base.width, px)
  }

  /** `overlay_mask(image, mask, color, alpha)`. The result is a new image;
      the caller's image is a value and stays as it was. */
  method OverlayMask(image: ColorImage, mask: GrayImage, color: Bgr, alpha: real, ops: DrawOps)
    returns (overlay: ColorImage)
    requires mask.SameSize(image)
    ensures overlay == Blend(ColorLayer(mask, color), alpha, image, ops)
    ensures forall i, j :: 0 <= i < image.height && 0 <= j < image.width && mask.px[i][j] != 255 ==>
      overlay.px[i][j] == ops.blend(Black, alpha, image.px[i][j], 1.0 - alpha)
    ensures forall i, j :: 0 <= i < image.height && 0 <= j < image.width && mask.px[i][j] == 255 ==>
      overlay.px[i][j] == ops.blend(color, alpha, image.px[i][j], 1.0 - alpha)
  {
    var layer := PaintColorLayer(image, mask, color);
    var rows := seq(image.height, i requires 0 <= i < image.height reads layer =>
      seq(image.width, j requires 0 <= j < image.width reads layer => layer[i, j]));
    var expected := ColorLayer(mask, color);
    forall i | 0 <= i < image.height ensures rows[i] == expected.px[i] {
      assert forall j :: 0 <= j < image.width ==> rows[i][j] == expected.px[i][j];
    }
    assert rows == expected.px;
    var top: ColorImage := Image(image.height, image.width, rows);
    assert top == expected;
    overlay := Blend(top, alpha, image, ops);
  }

  /** One contour more: it is outlined, and counted, exactly when its area
      reaches `minArea`. */
  lemma BoxStep(image: ColorImage, contours: seq<Contour>, k: nat, minArea: real, color: Bgr, thickness: nat,
                stroke: StrokePx)
    requires k < |contours|
    ensures var kept, kept' := Kept(contours[..k], minArea), Kept(contours[..k + 1], minArea);
      var before := DrawAll(image, Boxes(kept), color, thickness, stroke);
      if contours[k].area >= minArea
      then |kept'| == |kept| + 1
        && DrawAll(image, Boxes(kept'), color, thickness, stroke) ==
             DrawRectangle(before, contours[k].box, color, thickness, stroke)
      else kept' == kept
  {
    var c := contours[k];
    assert contours[..k + 1] == contours[..k] + [c];
    var kept := Kept(contours[..k], minArea);
    KeptSnoc(contours[..k], c, minArea);
    if c.area >= minArea {
      BoxesSnoc(kept, c);
      DrawAllSnoc(image, Boxes(kept), c.box, color, thickness, stroke);
    } else {
      assert Kept(contours[..k + 1], minArea) == kept;
    }
  }

  /** `draw_bboxes(image, mask, min_area, color, thickness)`: outlines every
      contour whose area is at least `min_area`, on a copy of `image`, and
      counts them. */
  method DrawBBoxes(image: ColorImage, mask: GrayImage, minArea: real, color: Bgr, thickness: nat, ops: DrawOps)
    returns (boxed: ColorImage, regions: nat)
    ensures regions == |Kept(ops.findContours(mask), minArea)|
    ensures regions <= |ops.findContours(mask)|
    ensures boxed == DrawAll(image, Boxes(Kept(ops.findContours(mask), minArea)), color, thickness, ops.stroke)
    ensures boxed.SameSize(image)
  {
    var contours := ops.findContours(mask);
    boxed := image;
    regions := 0;
    ghost var kept: seq<Contour> := [];
    for k := 0 to |contours|
      invariant kept == Kept(contours[..k], minArea)
      invariant regions == |kept|
      invariant boxed == DrawAll(image, Boxes(kept), color, thickness, ops.stroke)
    {
      BoxStep(image, contours, k, minArea, color, thickness, ops.stroke);
      if contours[k].area >= minArea {
        boxed := DrawRectangle(boxed, contours[k].box, color, thickness, ops.stroke);
        regions := regions + 1;
      }
      kept := Kept(contours[..k + 1], minArea);
    }
    assert contours[..|contours|] == contours;
  }

  /** `apply_heatmap(diff, base, alpha)`: the JET-coloured diff blended over the base. */
  function Heatmap(diff: GrayImage, base: ColorImage, alpha: real, ops: DrawOps): (r: ColorImage)
    requires diff.SameSize(base)
    ensures r.SameSize(base)
    ensures forall i, j :: 0 <= i < base.height && 0 <= j < base.width ==>
      r.px[i][j] == ops.blend(ops.jet(diff.px[i][j]), alpha, base.px[i][j], 1.0 - alpha)
  {
    Blend(MapPixels(diff, ops.jet), alpha, base, ops)
  }
}
