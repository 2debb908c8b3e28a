/** `ensure_same_size` and `align_images` of custom_libs/ImageComparision.py:
    the gates around ORB feature matching and homography estimation. ORB,
    the brute-force matcher, RANSAC, the warp and the resize are parameters. */
module Alignment {
  import opened Wrappers
  import opened Raster

  datatype Point = Point(x: real, y: real)

  /** The 3x3 matrix `cv2.findHomography` returns, row by row. */
  datatype Homography = Homography(m: seq<real>)

  /** ORB keypoints and descriptors of one image; `descriptors` is None when
      ORB returns `None` for them. */
  datatype Features = Features(keypoints: seq<Point>, descriptors: Option<seq<seq<Byte>>>)

  /** A `cv2.DMatch`: the distance is a Hamming distance, hence an integer. */
  datatype DMatch = DMatch(queryIdx: nat, trainIdx: nat, distance: nat)

  /** The OpenCV calls `align_images` makes. */
  datatype AlignOps = AlignOps(
    // grayscale conversion then ORB_create(nfeatures=max_features).detectAndCompute
    detect: ColorImage -> Features,
    // BFMatcher(NORM_HAMMING).knnMatch(desA, desB, 2); None when it raises
    knnMatch: (seq<seq<Byte>>, seq<seq<Byte>>) -> Option<seq<seq<DMatch>>>,
    // findHomography(src, dst, RANSAC, 5.0); None when it returns None
    findHomography: (seq<Point>, seq<Point>) -> Option<Homography>,
    // warpPerspective(src, H, (width, height), INTER_LINEAR): pixel (i, j) of the output
    warpPx: (ColorImage, Homography, int, int, int, int) -> Bgr,
    // resize(src, (width, height), INTER_AREA): pixel (i, j) of the output
    resizePx: (ColorImage, int, int, int, int) -> Bgr)

  const MinKeypoints: nat := 10
  const MinGoodMatches: nat := 10
  /** The default `good_match_ratio`. */
  const DefaultRatio: real := 0.75

  /** `cv2.resize(img, (w, h))`: an h-by-w image. */
  function Resize(img: ColorImage, h: nat, w: nat, ops: AlignOps): (r: ColorImage)
    ensures r.height == h && r.width == w
  {
    Tabulate(h, w, (i, j) => ops.resizePx(img, h, w, i, j))
  }

  /** `cv2.warpPerspective(img, H, (w, h))`: an h-by-w image. */
  function Warp(img: ColorImage, hom: Homography, h: nat, w: nat, ops: AlignOps): (r: ColorImage)
    ensures r.height == h && r.width == w
  {
    Tabulate(h, w, (i, j) => ops.warpPx(img, hom, h, w, i, j))
  }

  /** `ensure_same_size(imgA, imgB)`: imgB brought to imgA's height and width,
      and imgB itself when those already agree. */
  function EnsureSameSize(imgA: ColorImage, imgB: ColorImage, ops: AlignOps): (r: ColorImage)
    ensures r.SameSize(imgA)
    ensures imgA.SameSize(imgB) ==> r == imgB
    ensures !imgA.SameSize(imgB) ==> r == Resize(imgB, imgA.height, imgA.width, ops)
  {
    if !imgA.SameSize(imgB) then Resize(imgB, imgA.height, imgA.width, ops) else imgB
  }

  // ---------------------------------------------------------------------------
  // Lowe's ratio test

  /** A k-NN entry passes when it has two neighbours and the first is
      closer than `ratio` times the second. */
  predicate PassesRatio(neighbours: seq<DMatch>, ratio: real) {
    |neighbours| >= 2
    && (neighbours[0].distance as real) < ratio * (neighbours[1].distance as real)
  }

  /** The `good` list: first neighbours of the passing entries, in order. */
  function RatioTest(knn: seq<seq<DMatch>>, ratio: real): (good: seq<DMatch>)
    ensures |good| <= |knn|
  {
    if knn == [] then []
    else
      var last := knn[|knn| - 1];
      RatioTest(knn[..|knn| - 1], ratio) + (if PassesRatio(last, ratio) then [last[0]] else [])
  }

  /** The positions in `knn` of the entries that pass, in increasing order. */
  function PassingIndices(knn: seq<seq<DMatch>>, ratio: real): (ix: seq<nat>)
    ensures forall k :: 0 <= k < |ix| ==> ix[k] < |knn| && PassesRatio(knn[ix[k]], ratio)
    ensures forall k, l :: 0 <= k < l < |ix| ==> ix[k] < ix[l]
    ensures forall i :: 0 <= i < |knn| && PassesRatio(knn[i], ratio) ==> i in ix
  {
    if knn == [] then []
    else
      var n := |knn| - 1;
      var init := knn[..n];
      assert forall i :: 0 <= i < n ==> knn[i] == init[i];
      PassingIndices(init, ratio) + (if PassesRatio(knn[n], ratio) then [n] else [])
  }

  /** `good` is exactly the in-order subsequence of first neighbours taken
      from the entries that pass the ratio test. */
  lemma {:induction false} RatioTestSubsequence(knn: seq<seq<DMatch>>, ratio: real)
    ensures |RatioTest(knn, ratio)| == |PassingIndices(knn, ratio)|
    ensures forall k :: 0 <= k < |RatioTest(knn, ratio)| ==>
      RatioTest(knn, ratio)[k] == knn[PassingIndices(knn, ratio)[k]][0]
  {
    if knn != [] {
      var n := |knn| - 1;
      var init := knn[..n];
      RatioTestSubsequence(init, ratio);
      var good, ix := RatioTest(init, ratio), PassingIndices(init, ratio);
      var passes := PassesRatio(knn[n], ratio);
      assert RatioTest(knn, ratio) == good + (if passes then [knn[n][0]] else []);
      assert PassingIndices(knn, ratio) == ix + (if passes then [n] else []);
      forall k | 0 <= k < |good| ensures init[ix[k]] == knn[ix[k]] {
        assert ix[k] < n;
      }
    }
  }

  /** With the default ratio the test is the integer comparison 4*d1 < 3*d2. */
  lemma DefaultRatioIsIntegral(neighbours: seq<DMatch>)
    ensures PassesRatio(neighbours, DefaultRatio) <==>
      |neighbours| >= 2 && 4 * neighbours[0].distance < 3 * neighbours[1].distance
  {
  }

  /** Every match refers to keypoints that exist (BFMatcher's guarantee). */
  predicate IndexedBy(ms: seq<DMatch>, nA: nat, nB: nat) {
    forall k :: 0 <= k < |ms| ==> ms[k].queryIdx < nA && ms[k].trainIdx < nB
  }

  predicate MatchesInRange(knn: seq<seq<DMatch>>, nA: nat, nB: nat) {
    forall i :: 0 <= i < |knn| ==> IndexedBy(knn[i], nA, nB)
  }

  lemma {:induction false} RatioTestInRange(knn: seq<seq<DMatch>>, ratio: real, nA: nat, nB: nat)
    requires MatchesInRange(knn, nA, nB)
    ensures IndexedBy(RatioTest(knn, ratio), nA, nB)
  {
    if knn != [] {
      var n := |knn| - 1;
      assert forall i :: 0 <= i < n ==> knn[..n][i] == knn[i];
      RatioTestInRange(knn[..n], ratio, nA, nB);
    }
  }

  // ---------------------------------------------------------------------------
  // The gates of align_images

  /** OpenCV's guarantee that the matcher's indices stay within the keypoint lists. */
  predicate MatcherSound(imgA: ColorImage, imgB: ColorImage, ops: AlignOps) {
    var fA, fB := ops.detect(imgA), ops.detect(imgB);
    fA.descriptors.Some? && fB.descriptors.Some?
      && ops.knnMatch(fA.descriptors.value, fB.descriptors.value).Some? ==>
      MatchesInRange(ops.knnMatch(fA.descriptors.value, fB.descriptors.value).value,
                     |fA.keypoints|, |fB.keypoints|)
  }

  /** The first gate: both descriptor sets exist and both images have ten keypoints. */
  predicate EnoughFeatures(fA: Features, fB: Features) {
    fA.descriptors.Some? && fB.descriptors.Some?
      && |fA.keypoints| >= MinKeypoints && |fB.keypoints| >= MinKeypoints
  }

  /** `[kps[m.queryIdx].pt for m in good]`, and the same for trainIdx. */
  function QueryPoints(good: seq<DMatch>, kps: seq<Point>): (pts: seq<Point>)
    requires forall k :: 0 <= k < |good| ==> good[k].queryIdx < |kps|
    ensures |pts| == |good|
  {
    seq(|good|, k requires 0 <= k < |good| => kps[good[k].queryIdx])
  }

  function TrainPoints(good: seq<DMatch>, kps: seq<Point>): (pts: seq<Point>)
    requires forall k :: 0 <= k < |good| ==> good[k].trainIdx < |kps|
    ensures |pts| == |good|
  {
    seq(|good|, k requires 0 <= k < |good| => kps[good[k].trainIdx])
  }

  /** What `align_images(imgA, imgB)` returns. */
  function Align(imgA: ColorImage, imgB: ColorImage, ops: AlignOps, ratio: real): (r: (ColorImage, bool))
    requires MatcherSound(imgA, imgB, ops)
    ensures r.0.SameSize(imgA)
    ensures !r.1 ==> r.0 == EnsureSameSize(imgA, imgB, ops)
  {
    var fA, fB := ops.detect(imgA), ops.detect(imgB);
    if !EnoughFeatures(fA, fB) then (EnsureSameSize(imgA, imgB, ops), false)
    else
      match ops.knnMatch(fA.descriptors.value, fB.descriptors.value)
      case None => (EnsureSameSize(imgA, imgB, ops), false)
      case Some(knn) =>
        var good := RatioTest(knn, ratio);
        if |good| < MinGoodMatches then (EnsureSameSize(imgA, imgB, ops), false)
        else
          RatioTestInRange(knn, ratio, |fA.keypoints|, |fB.keypoints|);
          match ops.findHomography(QueryPoints(good, fA.keypoints), TrainPoints(good, fB.keypoints))
          case None => (EnsureSameSize(imgA, imgB, ops), false)
          case Some(hom) => (Warp(imgB, hom, imgA.height, imgA.width, ops), true)
  }

  /** `align_images`: the ratio-test loop and the four early exits. */
  method AlignImages(imgA: ColorImage, imgB: ColorImage, ops: AlignOps, ratio: real)
    returns (aligned: ColorImage, ok: bool)
    requires MatcherSound(imgA, imgB, ops)
    ensures (aligned, ok) == Align(imgA, imgB, ops, ratio)
    ensures aligned.SameSize(imgA)
    ensures !ok ==> aligned == EnsureSameSize(imgA, imgB, ops)
  {
    var fA := ops.detect(imgA);
    var fB := ops.detect(imgB);
    if fA.descriptors.None? || fB.descriptors.None?
      || |fA.keypoints| < MinKeypoints || |fB.keypoints| < MinKeypoints
    {
      return EnsureSameSize(imgA, imgB, ops), false;
    }

    var knnMatches := ops.knnMatch(fA.descriptors.value, fB.descriptors.value);
    if knnMatches.None? {
      return EnsureSameSize(imgA, imgB, ops), false;
    }
    var knn := knnMatches.value;

    var good: seq<DMatch> := [];
    for i := 0 to |knn|
      invariant good == RatioTest(knn[..i], ratio)
    {
      assert knn[..i + 1][..i] == knn[..i];
      var neighbours := knn[i];
      if |neighbours| < 2 {
        continue;
      }
      var m, n := neighbours[0], neighbours[1];
      if (m.distance as real) < ratio * (n.distance as real) {
        good := good + [m];
      }
    }
    assert knn[..|knn|] == knn;

    if |good| < MinGoodMatches {
      return EnsureSameSize(imgA, imgB, ops), false;
    }

    RatioTestInRange(knn, ratio, |fA.keypoints|, |fB.keypoints|);
    var srcPts := QueryPoints(good, fA.keypoints);
    var dstPts := TrainPoints(good, fB.keypoints);
    var hom := ops.findHomography(srcPts, dstPts);
    if hom.None? {
      return EnsureSameSize(imgA, imgB, ops), false;
    }
    aligned := Warp(imgB, hom.value, imgA.height, imgA.width, ops);
    ok := true;
  }

  /** A success is reported only after every gate has passed. */
  lemma AlignedOnlyAfterAllGates(imgA: ColorImage, imgB: ColorImage, ops: AlignOps, ratio: real)
    requires MatcherSound(imgA, imgB, ops)
    ensures Align(imgA, imgB, ops, ratio).1 ==>
      var fA, fB := ops.detect(imgA), ops.detect(imgB);
      && EnoughFeatures(fA, fB)
      && ops.knnMatch(fA.descriptors.value, fB.descriptors.value).Some?
      && var good := RatioTest(ops.knnMatch(fA.descriptors.value, fB.descriptors.value).value, ratio);
      && |good| >= MinGoodMatches
      && IndexedBy(good, |fA.keypoints|, |fB.keypoints|)
      && ops.findHomography(QueryPoints(good, fA.keypoints), TrainPoints(good, fB.keypoints)).Some?
  {
    var fA, fB := ops.detect(imgA), ops.detect(imgB);
    if EnoughFeatures(fA, fB) && ops.knnMatch(fA.descriptors.value, fB.descriptors.value).Some? {
      RatioTestInRange(ops.knnMatch(fA.descriptors.value, fB.descriptors.value).value, ratio,
                       |fA.keypoints|, |fB.keypoints|);
    }
  }

  /** An image with fewer than ten keypoints (a blank one, say) is never
      aligned: the result is the size-normalised candidate and False. */
  lemma FewKeypointsFallBack(imgA: ColorImage, imgB: ColorImage, ops: AlignOps, ratio: real)
    requires MatcherSound(imgA, imgB, ops)
    requires |ops.detect(imgA).keypoints| < MinKeypoints || |ops.detect(imgB).keypoints| < MinKeypoints
    ensures Align(imgA, imgB, ops, ratio) == (EnsureSameSize(imgA, imgB, ops), false)
  {
  }
}
