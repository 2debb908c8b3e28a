/** Change-mask extraction of custom_libs/ImageComparision.py: choosing the
    strategy by name, the scikit-image availability guard, the shared
    threshold-and-morphology step, and the changed-pixel statistics. The
    blur, the absolute difference, SSIM, Otsu's threshold and the
    morphology are parameters. */
module ChangeMask {
  import opened Wrappers
  import opened Raster

  /** The two mask strategies `compare_images` can run. */
  datatype Strategy = AbsDiff | Ssim

  function LowerChar(c: char): char {
    if 'A' <= c <= 'Z' then (c as int + 32) as char else c
  }

  /** `str.lower()` on ASCII letters. */
  function Lower(s: string): (r: string)
    ensures |r| == |s|
    ensures forall i :: 0 <= i < |s| ==> r[i] == LowerChar(s[i])
  {
    if s == [] then [] else [LowerChar(s[0])] + Lower(s[1..])
  }

  /** `method.lower() == 'ssim'` selects SSIM; every other name selects
      absdiff. The names that select SSIM are exactly the sixteen casings of
      "ssim". */
  function SelectStrategy(name: string): (s: Strategy)
    ensures s == Ssim <==>
      && |name| == 4
      && (name[0] == 's' || name[0] == 'S')
      && (name[1] == 's' || name[1] == 'S')
      && (name[2] == 'i' || name[2] == 'I')
      && (name[3] == 'm' || name[3] == 'M')
  {
    LowerSpellsSsim(name);
    if Lower(name) == "ssim" then Ssim else AbsDiff
  }

  /** A name lower-cases to "ssim" exactly when it is one of the sixteen
      casings of "ssim". */
  lemma LowerSpellsSsim(name: string)
    ensures Lower(name) == "ssim" <==>
      && |name| == 4
      && (name[0] == 's' || name[0] == 'S')
      && (name[1] == 's' || name[1] == 'S')
      && (name[2] == 'i' || name[2] == 'I')
      && (name[3] == 'm' || name[3] == 'M')
  {
    if |name| == 4 {
      var low := Lower(name);
      LowerCharIs(name[0], 's');
      LowerCharIs(name[1], 's');
      LowerCharIs(name[2], 'i');
      LowerCharIs(name[3], 'm');
      SsimByLetters(low);
    }
  }

  lemma SsimByLetters(w: string)
    ensures w == "ssim" <==> |w| == 4 && w[0] == 's' && w[1] == 's' && w[2] == 'i' && w[3] == 'm'
  {
    if |w| == 4 && w[0] == 's' && w[1] == 's' && w[2] == 'i' && w[3] == 'm' {
      assert w == "ssim";
    }
  }

  /** A character lower-cases to the lower-case letter `l` exactly when it is
      `l` or its upper-case form. */
  lemma LowerCharIs(c: char, l: char)
    requires 'a' <= l <= 'z'
    ensures LowerChar(c) == l <==> c == l || c == (l as int - 32) as char
  {
  }

  /** The foreign calls of `compute_absdiff_mask` and `compute_ssim_mask`. */
  datatype MaskOps = MaskOps(
    // absdiff(GaussianBlur(a, (5, 5), 0), GaussianBlur(b, (5, 5), 0)) at pixel (i, j)
    absdiffPx: (GrayImage, GrayImage, int, int) -> Byte,
    // the mean score of structural_similarity(a, b, full=True)
    ssimScore: (GrayImage, GrayImage) -> real,
    // uint8(clip((1 - S) * 255, 0, 255)) of the SSIM map S at pixel (i, j)
    ssimPx: (GrayImage, GrayImage, int, int) -> Byte,
    // Otsu threshold to 0/255, MORPH_CLOSE twice, dilate once, 5x5 rectangle: pixel (i, j)
    cleanPx: (GrayImage, int, int) -> Byte)

  /** The diff map and mask a strategy yields, and the SSIM score when it is SSIM. */
  datatype MaskOutput = MaskOutput(score: Option<real>, diff: GrayImage, mask: GrayImage)

  /** The `RuntimeError` of `compute_ssim_mask` when scikit-image is missing. */
  datatype ConfigError = SsimUnavailable {
    function Message(): (m: string)
      ensures m == "SSIM method selected but is not installed."
    {
      "SSIM method selected but is not installed."
    }
  }

  /** The threshold-and-morphology step both strategies share. */
  function CleanMask(diff: GrayImage, ops: MaskOps): (mask: GrayImage)
    ensures mask.SameSize(diff)
  {
    Tabulate(diff.height, diff.width, (i, j) => ops.cleanPx(diff, i, j))
  }

  /** `compute_absdiff_mask` or `compute_ssim_mask`, as the strategy says. */
  function ComputeMask(strategy: Strategy, haveSkimage: bool, grayA: GrayImage, grayB: GrayImage, ops: MaskOps)
    : (r: Result<MaskOutput, ConfigError>)
    requires grayA.SameSize(grayB)
    ensures r.Failure? <==> strategy == Ssim && !haveSkimage
    ensures r.Success? ==> r.value.diff.SameSize(grayA) && r.value.mask.SameSize(grayA)
    ensures r.Success? ==> r.value.mask == CleanMask(r.value.diff, ops)
    ensures r.Success? ==> (r.value.score.Some? <==> strategy == Ssim)
  {
    match strategy
    case Ssim =>
      if !haveSkimage then Failure(SsimUnavailable)
      else
        var diff := Tabulate(grayA.height, grayA.width, (i, j) => ops.ssimPx(grayA, grayB, i, j));
        Success(MaskOutput(Some(ops.ssimScore(grayA, grayB)), diff, CleanMask(diff, ops)))
    case AbsDiff =>
      var diff := Tabulate(grayA.height, grayA.width, (i, j) => ops.absdiffPx(grayA, grayB, i, j));
      Success(MaskOutput(None, diff, CleanMask(diff, ops)))
  }

  // ---------------------------------------------------------------------------
  // Mask statistics

  /** `np.count_nonzero` of one row. */
  function RowNonzero(row: seq<Byte>): (n: nat)
    ensures n <= |row|
    ensures n == 0 <==> forall j :: 0 <= j < |row| ==> row[j] == 0
    ensures n == |row| <==> forall j :: 0 <= j < |row| ==> row[j] != 0
  {
    if row == [] then 0
    else
      assert forall j :: 1 <= j < |row| ==> row[j] == row[1..][j - 1];
      (if row[0] != 0 then 1 else 0) + RowNonzero(row[1..])
  }

  /** `np.count_nonzero` of a list of rows that all have `w` entries. */
  function RowsNonzero(rows: seq<seq<Byte>>, w: nat): (n: nat)
    requires forall i :: 0 <= i < |rows| ==> |rows[i]| == w
    ensures n <= |rows| * w
    ensures n == 0 <==> forall i, j :: 0 <= i < |rows| && 0 <= j < w ==> rows[i][j] == 0
    ensures n == |rows| * w <==> forall i, j :: 0 <= i < |rows| && 0 <= j < w ==> rows[i][j] != 0
  {
    if rows == [] then 0
    else
      var rest := RowsNonzero(rows[1..], w);
      var here := RowNonzero(rows[0]);
      ProductStep(|rows[1..]|, w);
      assert forall i :: 1 <= i < |rows| ==> rows[i] == rows[1..][i - 1];
      here + rest
  }

  lemma ProductStep(k: nat, w: nat)
    ensures (k + 1) * w == w + k * w
  {
  }

  /** The ratio of a count to a positive total lies in [0, 1], and is 0 or 1
      exactly at the extremes. */
  lemma RatioBounds(c: real, t: real)
    requires 0.0 <= c <= t && t > 0.0
    ensures 0.0 <= c / t <= 1.0
    ensures c / t == 0.0 <==> c == 0.0
    ensures c / t == 1.0 <==> c == t
  {
    var q := c / t;
    assert q * t == c;
  }

  /** `changed_pixels = int(np.count_nonzero(mask))`. */
  function ChangedPixels(mask: GrayImage): (n: nat)
    ensures n <= mask.Size()
  {
    RowsNonzero(mask.px, mask.width)
  }

  /** `changed_percent = changed_pixels / total_pixels * 100.0`, exactly. */
  function ChangedPercent(mask: GrayImage): (p: real)
    requires mask.Size() > 0
    ensures 0.0 <= p <= 100.0
    ensures p == 0.0 <==> forall i, j :: 0 <= i < mask.height && 0 <= j < mask.width ==> mask.px[i][j] == 0
    ensures p == 100.0 <==> forall i, j :: 0 <= i < mask.height && 0 <= j < mask.width ==> mask.px[i][j] != 0
  {
    var c, t := ChangedPixels(mask), mask.Size();
    RatioBounds(c as real, t as real);
    assert c == 0 <==> forall i, j :: 0 <= i < mask.height && 0 <= j < mask.width ==> mask.px[i][j] == 0;
    assert c == t <==> forall i, j :: 0 <= i < mask.height && 0 <= j < mask.width ==> mask.px[i][j] != 0;
    (c as real / t as real) * 100.0
  }
}
