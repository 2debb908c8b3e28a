/** Contours as the two comparison scripts use them, the area filters they
    apply, and the drawing of bounding rectangles in discovery order. */
module Regions {
  import opened Raster

  /** `cv2.boundingRect`: x, y, width, height. */
  datatype Rect = Rect(x: int, y: int, w: int, h: int)

  /** One contour from `cv2.findContours`, seen through `cv2.contourArea`
      and `cv2.boundingRect`. */
  datatype Contour = Contour(area: real, box: Rect)

  /** `cv2.rectangle(img, (x, y), (x + w, y + h), color, thickness)`:
      pixel (i, j) of the drawn image. */
  type StrokePx = (ColorImage, Rect, Bgr, nat, int, int) -> Bgr

  function DrawRectangle(img: ColorImage, rect: Rect, color: Bgr, thickness: nat, stroke: StrokePx)
    : (r: ColorImage)
    ensures r.SameSize(img)
  {
    Tabulate(img.height, img.width, (i, j) => stroke(img, rect, color, thickness, i, j))
  }

  /** The rectangles drawn one after another, first one first. */
  function DrawAll(img: ColorImage, rects: seq<Rect>, color: Bgr, thickness: nat, stroke: StrokePx)
    : (r: ColorImage)
    ensures r.SameSize(img)
  {
    if rects == [] then img
    else
      var n := |rects| - 1;
      DrawRectangle(DrawAll(img, rects[..n], color, thickness, stroke), rects[n], color, thickness, stroke)
  }

  function Boxes(cs: seq<Contour>): (rects: seq<Rect>)
    ensures |rects| == |cs|
    ensures forall k :: 0 <= k < |cs| ==> rects[k] == cs[k].box
  {
    seq(|cs|, k requires 0 <= k < |cs| => cs[k].box)
  }

  /** The contours `draw_bboxes` keeps: area at least `minArea`, in order. */
  function Kept(cs: seq<Contour>, minArea: real): (r: seq<Contour>)
    ensures |r| <= |cs|
    ensures forall c :: c in r <==> c in cs && c.area >= minArea
  {
    if cs == [] then []
    else
      var n := |cs| - 1;
      assert cs == cs[..n] + [cs[n]];
      Kept(cs[..n], minArea) + (if cs[n].area >= minArea then [cs[n]] else [])
  }

  lemma KeptSnoc(cs: seq<Contour>, c: Contour, minArea: real)
    ensures Kept(cs + [c], minArea) == Kept(cs, minArea) + (if c.area >= minArea then [c] else [])
  {
    assert (cs + [c])[..|cs|] == cs;
  }

  lemma AboveSnoc(cs: seq<Contour>, c: Contour, bound: real)
    ensures Above(cs + [c], bound) == Above(cs, bound) + (if c.area > bound then [c] else [])
  {
    assert (cs + [c])[..|cs|] == cs;
  }

  lemma BoxesSnoc(cs: seq<Contour>, c: Contour)
    ensures Boxes(cs + [c]) == Boxes(cs) + [c.box]
  {
  }

  lemma DrawAllSnoc(img: ColorImage, rects: seq<Rect>, rect: Rect, color: Bgr, thickness: nat, stroke: StrokePx)
    ensures DrawAll(img, rects + [rect], color, thickness, stroke)
         == DrawRectangle(DrawAll(img, rects, color, thickness, stroke), rect, color, thickness, stroke)
  {
    assert (rects + [rect])[..|rects|] == rects;
  }

  /** The positions of the contours with area at least `minArea`, in increasing order. */
  function KeptIndices(cs: seq<Contour>, minArea: real): (ix: seq<nat>)
    ensures forall k :: 0 <= k < |ix| ==> ix[k] < |cs| && cs[ix[k]].area >= minArea
    ensures forall k, l :: 0 <= k < l < |ix| ==> ix[k] < ix[l]
    ensures forall i :: 0 <= i < |cs| && cs[i].area >= minArea ==> i in ix
  {
    if cs == [] then []
    else
      var n := |cs| - 1;
      assert forall i :: 0 <= i < n ==> cs[..n][i] == cs[i];
      KeptIndices(cs[..n], minArea) + (if cs[n].area >= minArea then [n] else [])
  }

  /** `draw_bboxes` keeps exactly the contours at the qualifying positions,
      in order, so `regions` is the number of qualifying positions. */
  lemma {:induction false} KeptByIndex(cs: seq<Contour>, minArea: real)
    ensures |Kept(cs, minArea)| == |KeptIndices(cs, minArea)|
    ensures forall k :: 0 <= k < |Kept(cs, minArea)| ==> Kept(cs, minArea)[k] == cs[KeptIndices(cs, minArea)[k]]
  {
    if cs != [] {
      var n := |cs| - 1;
      var init := cs[..n];
      KeptByIndex(init, minArea);
      var kept, ix := Kept(init, minArea), KeptIndices(init, minArea);
      var passes := cs[n].area >= minArea;
      var r, rx := Kept(cs, minArea), KeptIndices(cs, minArea);
      assert r == kept + (if passes then [cs[n]] else []);
      assert rx == ix + (if passes then [n] else []);
      forall k | 0 <= k < |r| ensures r[k] == cs[rx[k]] {
        if k < |kept| {
          assert r[k] == kept[k] && rx[k] == ix[k] && ix[k] < n;
          assert init[ix[k]] == cs[ix[k]];
        }
      }
    }
  }

  /** Raising the threshold never keeps more contours. */
  lemma {:induction false} KeptMonotone(cs: seq<Contour>, lo: real, hi: real)
    requires lo <= hi
    ensures |Kept(cs, hi)| <= |Kept(cs, lo)|
  {
    if cs != [] {
      KeptMonotone(cs[..|cs| - 1], lo, hi);
    }
  }

  /** The contours the OCR script outlines: area strictly above `bound`, in order. */
  function Above(cs: seq<Contour>, bound: real): (r: seq<Contour>)
    ensures |r| <= |cs|
    ensures forall c :: c in r <==> c in cs && c.area > bound
  {
    if cs == [] then []
    else
      var n := |cs| - 1;
      assert cs == cs[..n] + [cs[n]];
      Above(cs[..n], bound) + (if cs[n].area > bound then [cs[n]] else [])
  }

  /** The positions of the contours with area above `bound`, in increasing order. */
  function AboveIndices(cs: seq<Contour>, bound: real): (ix: seq<nat>)
    ensures forall k :: 0 <= k < |ix| ==> ix[k] < |cs| && cs[ix[k]].area > bound
    ensures forall k, l :: 0 <= k < l < |ix| ==> ix[k] < ix[l]
    ensures forall i :: 0 <= i < |cs| && cs[i].area > bound ==> i in ix
  {
    if cs == [] then []
    else
      var n := |cs| - 1;
      assert forall i :: 0 <= i < n ==> cs[..n][i] == cs[i];
      AboveIndices(cs[..n], bound) + (if cs[n].area > bound then [n] else [])
  }

  /** The OCR script outlines exactly the contours at the positions above the bound, in order. */
  lemma {:induction false} AboveByIndex(cs: seq<Contour>, bound: real)
    ensures |Above(cs, bound)| == |AboveIndices(cs, bound)|
    ensures forall k :: 0 <= k < |Above(cs, bound)| ==> Above(cs, bound)[k] == cs[AboveIndices(cs, bound)[k]]
  {
    if cs != [] {
      var n := |cs| - 1;
      var init := cs[..n];
      AboveByIndex(init, bound);
      var above, ix := Above(init, bound), AboveIndices(init, bound);
      var passes := cs[n].area > bound;
      var r, rx := Above(cs, bound), AboveIndices(cs, bound);
      assert r == above + (if passes then [cs[n]] else []);
      assert rx == ix + (if passes then [n] else []);
      forall k | 0 <= k < |r| ensures r[k] == cs[rx[k]] {
        if k < |above| {
          assert r[k] == above[k] && rx[k] == ix[k] && ix[k] < n;
          assert init[ix[k]] == cs[ix[k]];
        }
      }
    }
  }

  /** A contour whose area equals the threshold is kept by `draw_bboxes`
      (area >= min_area) but not by the OCR script's filter (area > 50). */
  lemma BoundaryAreaFilters(c: Contour)
    requires c.area == 50.0
    ensures Kept([c], 50.0) == [c] && Above([c], 50.0) == []
  {
    assert [c][..0] == [];
  }
}
