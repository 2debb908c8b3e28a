/** `compare_images` of custom_libs/ImageComparision.py: loading, alignment
    or size normalisation, the change mask, the statistics, the artifacts
    and their fixed paths, with the errors that abort a run. */
module ImageComparison {
  import opened Wrappers
  import opened Raster
  import opened ImageLoading
  import opened Alignment
  import opened ChangeMask
  import opened Regions
  import opened Rendering

  /** All foreign image operations of one run. */
  datatype Cv = Cv(
    toGray: Bgr -> Byte,   // cvtColor(_, COLOR_BGR2GRAY) on one pixel
    align: AlignOps,
    mask: MaskOps,
    draw: DrawOps)

  /** What the run sees of its output location. */
  datatype OutputEnv = OutputEnv(
    defaultRoot: string,                // Path(__file__).resolve().parents[1]
    join: (string, string) -> string,   // os.path.join
    imwrite: string -> bool)            // whether cv2.imwrite to that path reports success

  const OverlayColor: Bgr := Bgr(0, 0, 255)
  const BoxColor: Bgr := Bgr(0, 255, 0)
  const OverlayAlpha: real := 0.4
  const HeatmapAlpha: real := 0.6
  const BoxThickness: nat := 2
  const DefaultMinArea: real := 100.0
  const DefaultMethod: string := "absdiff"

  /** The alignment method named in the report. */
  datatype Status = ByHomography | ByResize | NoAlignment {
    function Name(): string {
      match this
      case ByHomography => "homography"
      case ByResize => "resize"
      case NoAlignment => "disabled"
    }
  }

  function AlignmentStatus(align: bool, homographyOk: bool): (s: Status)
    ensures s.Name() == "disabled" <==> !align
    ensures s.Name() == "homography" <==> align && homographyOk
    ensures s.Name() == "resize" <==> align && !homographyOk
  {
    if align then (if homographyOk then ByHomography else ByResize) else NoAlignment
  }

  /** The returned `DiffResult`. */
  datatype DiffResult = DiffResult(
    changedPercent: real,
    regionsCount: nat,
    ssimScore: Option<real>,
    outputPaths: map<string, string>)

  /** The facts the text report states. */
  datatype Report = Report(
    pathA: string, pathB: string, alignment: string, methodName: string,
    changedPixels: nat, totalPixels: nat, regions: nat, ssimScore: Option<real>)

  /** The images written to the output directory. */
  datatype Artifacts = Artifacts(
    alignedB: ColorImage, mask: GrayImage, overlay: ColorImage, bboxes: ColorImage, heatmap: ColorImage)

  datatype Comparison = Comparison(result: DiffResult, report: Report, artifacts: Artifacts)

  /** The exceptions that abort a run. */
  datatype CompareError =
    | LoadFailed(load: LoadError)       // FileNotFoundError from load_image
    | ConfigFailed(config: ConfigError) // RuntimeError from compute_ssim_mask
    | SaveFailed(path: string)          // IOError from save_image
  {
    function Message(): (m: string)
      ensures this.LoadFailed? ==> m == load.Message()
      ensures this.ConfigFailed? ==> m == "SSIM method selected but is not installed."
      ensures this.SaveFailed? ==> m == "Failed to save image to: " + path
    {
      match this
      case LoadFailed(e) => e.Message()
      case ConfigFailed(e) => e.Message()
      case SaveFailed(p) => "Failed to save image to: " + p
    }
  }

  /** `output_dir`, or `<repo root>/output` when it is None or empty. */
  function OutputDir(outputDir: Option<string>, out: OutputEnv): (dir: string)
    ensures outputDir.None? || outputDir.value == "" ==> dir == out.join(out.defaultRoot, "output")
    ensures outputDir.Some? && outputDir.value != "" ==> dir == outputDir.value
  {
    if outputDir.None? || outputDir.value == "" then out.join(out.defaultRoot, "output")
    else outputDir.value
  }

  /** The fixed artifact table: logical name and file name. */
  const ArtifactFiles: seq<(string, string)> := [
    ("alignedB", "aligned_B.png"), ("diff_mask", "diff_mask.png"), ("overlay", "overlay.png"),
    ("bboxes", "bboxes.png"), ("heatmap", "heatmap.png"), ("report", "report.txt")]

  function OutputPaths(dir: string, out: OutputEnv): (paths: map<string, string>)
    ensures paths.Keys == {"alignedB", "diff_mask", "overlay", "bboxes", "heatmap", "report"}
    ensures forall k :: 0 <= k < |ArtifactFiles| ==> paths[ArtifactFiles[k].0] == out.join(dir, ArtifactFiles[k].1)
  {
    map["alignedB" := out.join(dir, "aligned_B.png"),
        "diff_mask" := out.join(dir, "diff_mask.png"),
        "overlay" := out.join(dir, "overlay.png"),
        "bboxes" := out.join(dir, "bboxes.png"),
        "heatmap" := out.join(dir, "heatmap.png"),
        "report" := out.join(dir, "report.txt")]
  }

  /** The six logical names, and the six file names, are pairwise distinct:
      the box-annotated overlay has a file of its own. */
  lemma ArtifactNamesDistinct()
    ensures forall k, l :: 0 <= k < l < |ArtifactFiles| ==>
      ArtifactFiles[k].0 != ArtifactFiles[l].0 && ArtifactFiles[k].1 != ArtifactFiles[l].1
  {
  }

  /** `save_image(path, image)`: raises exactly when the write reports failure. */
  function SaveImage(path: string, out: OutputEnv): (err: Option<CompareError>)
    ensures err.Some? <==> !out.imwrite(path)
    ensures err.Some? ==> err.value == SaveFailed(path)
  {
    if out.imwrite(path) then None else Some(SaveFailed(path))
  }

  // ---------------------------------------------------------------------------
  // The run, as a function of its inputs

  /** The aligned (or size-normalised) candidate and the alignment status. */
  function AlignStep(imgA: ColorImage, imgB: ColorImage, align: bool, cv: Cv): (r: (ColorImage, Status))
    requires MatcherSound(imgA, imgB, cv.align)
    ensures r.0.SameSize(imgA)
    ensures r.1 == AlignmentStatus(align, align && Align(imgA, imgB, cv.align, DefaultRatio).1)
  {
    if align then
      var (alignedB, ok) := Align(imgA, imgB, cv.align, DefaultRatio);
      (alignedB, AlignmentStatus(true, ok))
    else (EnsureSameSize(imgA, imgB, cv.align), NoAlignment)
  }

  /** The part of the run after the aligned candidate has been written. */
  function Analyze(pathA: string, pathB: string, imgA: Decoded, alignedB: ColorImage, status: Status,
                   dir: string, name: string, minArea: real, out: OutputEnv, cv: Cv, haveSkimage: bool)
    : Result<Comparison, CompareError>
    requires alignedB.SameSize(imgA)
  {
    var grayA, grayB := MapPixels(imgA, cv.toGray), MapPixels(alignedB, cv.toGray);
    match ComputeMask(SelectStrategy(name), haveSkimage, grayA, grayB, cv.mask)
    case Failure(e) => Failure(ConfigFailed(e))
    case Success(m) =>
      PositiveSize(imgA, m.mask);
      var overlay := Blend(ColorLayer(m.mask, OverlayColor), OverlayAlpha, imgA, cv.draw);
      var kept := Kept(cv.draw.findContours(m.mask), minArea);
      var bboxes := DrawAll(overlay, Boxes(kept), BoxColor, BoxThickness, cv.draw.stroke);
      var heatmap := Heatmap(m.diff, imgA, HeatmapAlpha, cv.draw);
      var paths := OutputPaths(dir, out);
      if !out.imwrite(paths["diff_mask"]) then Failure(SaveFailed(paths["diff_mask"]))
      else if !out.imwrite(paths["overlay"]) then Failure(SaveFailed(paths["overlay"]))
      else if !out.imwrite(paths["bboxes"]) then Failure(SaveFailed(paths["bboxes"]))
      else if !out.imwrite(paths["heatmap"]) then Failure(SaveFailed(paths["heatmap"]))
      else
        Success(Comparison(
          DiffResult(ChangedPercent(m.mask), |kept|, m.score, paths),
          Report(pathA, pathB, status.Name(), name, ChangedPixels(m.mask), m.mask.Size(), |kept|, m.score),
          Artifacts(alignedB, m.mask, overlay, bboxes, heatmap)))
  }

  lemma PositiveSize(imgA: Decoded, mask: GrayImage)
    requires mask.SameSize(imgA)
    ensures mask.Size() > 0
  {
    assert mask.height * mask.width >= 1 * mask.width;
  }

  /** OpenCV's matcher guarantee for the two images this run decodes. */
  predicate InputsSound(pathA: string, pathB: string, env: LoadEnv, cv: Cv) {
    LoadSpec(env, pathA).Success? && LoadSpec(env, pathB).Success? ==>
      MatcherSound(LoadSpec(env, pathA).value, LoadSpec(env, pathB).value, cv.align)
  }

  /** What `compare_images` returns or raises. */
  function CompareSpec(pathA: string, pathB: string, outputDir: Option<string>, name: string, align: bool,
                       minArea: real, env: LoadEnv, out: OutputEnv, cv: Cv, haveSkimage: bool)
    : Result<Comparison, CompareError>
    requires InputsSound(pathA, pathB, env, cv)
  {
    var dir := OutputDir(outputDir, out);
    match LoadSpec(env, pathA)
    case Failure(e) => Failure(LoadFailed(e))
    case Success(imgA) =>
      match LoadSpec(env, pathB)
      case Failure(e) => Failure(LoadFailed(e))
      case Success(imgB) =>
        var (alignedB, status) := AlignStep(imgA, imgB, align, cv);
        if !out.imwrite(out.join(dir, "aligned_B.png")) then Failure(SaveFailed(out.join(dir, "aligned_B.png")))
        else Analyze(pathA, pathB, imgA, alignedB, status, dir, name, minArea, out, cv, haveSkimage)
  }

  /** `compare_images(pathA, pathB, output_dir, method, align, min_area)`. */
  method CompareImages(pathA: string, pathB: string, outputDir: Option<string>, name: string, align: bool,
                       minArea: real, env: LoadEnv, out: OutputEnv, cv: Cv, haveSkimage: bool)
    returns (r: Result<Comparison, CompareError>)
    requires InputsSound(pathA, pathB, env, cv)
    ensures r == CompareSpec(pathA, pathB, outputDir, name, align, minArea, env, out, cv, haveSkimage)
  {
    var dir := OutputDir(outputDir, out);
    var loadedA := LoadImage(env, pathA);
    if loadedA.Failure? {
      return Failure(LoadFailed(loadedA.error));
    }
    var loadedB := LoadImage(env, pathB);
    if loadedB.Failure? {
      return Failure(LoadFailed(loadedB.error));
    }
    var imgA, imgB := loadedA.value, loadedB.value;

    var alignedB: ColorImage;
    var status: Status;
    if align {
      var homographyOk;
      alignedB, homographyOk := AlignImages(imgA, imgB, cv.align, DefaultRatio);
      status := if homographyOk then ByHomography else ByResize;
    } else {
      alignedB := EnsureSameSize(imgA, imgB, cv.align);
      status := NoAlignment;
    }
    assert (alignedB, status) == AlignStep(imgA, imgB, align, cv);

    var saved := SaveImage(out.join(dir, "aligned_B.png"), out);
    if saved.Some? {
      return Failure(saved.value);
    }

    r := AnalyzeImages(pathA, pathB, imgA, alignedB, status, dir, name, minArea, out, cv, haveSkimage);
  }

  /** The steps of `compare_images` after the aligned candidate is saved. */
  method AnalyzeImages(pathA: string, pathB: string, imgA: Decoded, alignedB: ColorImage, status: Status,
                       dir: string, name: string, minArea: real, out: OutputEnv, cv: Cv, haveSkimage: bool)
    returns (r: Result<Comparison, CompareError>)
    requires alignedB.SameSize(imgA)
    ensures r == Analyze(pathA, pathB, imgA, alignedB, status, dir, name, minArea, out, cv, haveSkimage)
  {
    var grayA := MapPixels(imgA, cv.toGray);
    var grayB := MapPixels(alignedB, cv.toGray);
    var masks := ComputeMask(SelectStrategy(name), haveSkimage, grayA, grayB, cv.mask);
    if masks.Failure? {
      return Failure(ConfigFailed(masks.error));
    }
    var ssimScore, diff, mask := masks.value.score, masks.value.diff, masks.value.mask;

    PositiveSize(imgA, mask);
    var changedPixels := ChangedPixels(mask);
    var totalPixels := mask.Size();
    var changedPercent := ChangedPercent(mask);

    var overlay := OverlayMask(imgA, mask, OverlayColor, OverlayAlpha, cv.draw);
    var bboxes, regions := DrawBBoxes(overlay, mask, minArea, BoxColor, BoxThickness, cv.draw);
    var heatmap := Heatmap(diff, imgA, HeatmapAlpha, cv.draw);

    var paths := OutputPaths(dir, out);
    var saved := SaveImage(paths["diff_mask"], out);
    if saved.Some? {
      return Failure(saved.value);
    }
    saved := SaveImage(paths["overlay"], out);
    if saved.Some? {
      return Failure(saved.value);
    }
    saved := SaveImage(paths["bboxes"], out);
    if saved.Some? {
      return Failure(saved.value);
    }
    saved := SaveImage(paths["heatmap"], out);
    if saved.Some? {
      return Failure(saved.value);
    }

    r := Success(Comparison(
      DiffResult(changedPercent, regions, ssimScore, paths),
      Report(pathA, pathB, status.Name(), name, changedPixels, totalPixels, regions, ssimScore),
      Artifacts(alignedB, mask, overlay, bboxes, heatmap)));
  }

  // ---------------------------------------------------------------------------
  // Properties of a run

  /** What a successful analysis reports, and when it fails for want of
      scikit-image. */
  lemma AnalyzeOutcome(pathA: string, pathB: string, imgA: Decoded, alignedB: ColorImage, status: Status,
                       dir: string, name: string, minArea: real, out: OutputEnv, cv: Cv, haveSkimage: bool)
    requires alignedB.SameSize(imgA)
    ensures var r := Analyze(pathA, pathB, imgA, alignedB, status, dir, name, minArea, out, cv, haveSkimage);
      && (r.Failure? && r.error.ConfigFailed? <==> Lower(name) == "ssim" && !haveSkimage)
      && (r.Success? ==>
        && r.value.report.alignment == status.Name()
        && (r.value.result.ssimScore.Some? <==> Lower(name) == "ssim")
        && 0.0 <= r.value.result.changedPercent <= 100.0
        && r.value.result.regionsCount <= |cv.draw.findContours(r.value.artifacts.mask)|
        && r.value.result.regionsCount == |Kept(cv.draw.findContours(r.value.artifacts.mask), minArea)|
        && r.value.result.outputPaths == OutputPaths(dir, out)
        && r.value.artifacts.alignedB == alignedB
        && r.value.artifacts.mask.SameSize(imgA))
  {
    var grayA, grayB := MapPixels(imgA, cv.toGray), MapPixels(alignedB, cv.toGray);
    var m := ComputeMask(SelectStrategy(name), haveSkimage, grayA, grayB, cv.mask);
    assert SelectStrategy(name) == Ssim <==> Lower(name) == "ssim";
    if m.Success? {
      assert |Kept(cv.draw.findContours(m.value.mask), minArea)| <= |cv.draw.findContours(m.value.mask)|;
    }
  }

  /** Once both images load and the aligned candidate is written, the run
      is the analysis of that candidate; before that it can fail only by
      loading or by saving. */
  lemma {:induction false} CompareSteps(pathA: string, pathB: string, outputDir: Option<string>, name: string,
                                        align: bool, minArea: real, env: LoadEnv, out: OutputEnv, cv: Cv,
                                        haveSkimage: bool)
    requires InputsSound(pathA, pathB, env, cv)
    ensures var r := CompareSpec(pathA, pathB, outputDir, name, align, minArea, env, out, cv, haveSkimage);
      var dir := OutputDir(outputDir, out);
      if LoadSpec(env, pathA).Success? && LoadSpec(env, pathB).Success? && out.imwrite(out.join(dir, "aligned_B.png"))
      then
        var step := AlignStep(LoadSpec(env, pathA).value, LoadSpec(env, pathB).value, align, cv);
        r == Analyze(pathA, pathB, LoadSpec(env, pathA).value, step.0, step.1, dir, name, minArea, out, cv, haveSkimage)
      else r.Failure? && (r.error.LoadFailed? || r.error.SaveFailed?)
  {
    var dir := OutputDir(outputDir, out);
    if LoadSpec(env, pathA).Success? && LoadSpec(env, pathB).Success? {
      var imgA, imgB := LoadSpec(env, pathA).value, LoadSpec(env, pathB).value;
      var step := AlignStep(imgA, imgB, align, cv);
      assert step.0.SameSize(imgA);
    }
  }

  /** The report names "disabled" exactly when alignment is off, and
      "homography" exactly when it is on and `align_images` succeeded. */
  lemma StatusRule(pathA: string, pathB: string, outputDir: Option<string>, name: string, align: bool,
                   minArea: real, env: LoadEnv, out: OutputEnv, cv: Cv, haveSkimage: bool)
    requires InputsSound(pathA, pathB, env, cv)
    ensures var r := CompareSpec(pathA, pathB, outputDir, name, align, minArea, env, out, cv, haveSkimage);
      r.Success? ==>
        && LoadSpec(env, pathA).Success? && LoadSpec(env, pathB).Success?
        && (r.value.report.alignment == "disabled" <==> !align)
        && (r.value.report.alignment == "homography" <==>
              align && Align(LoadSpec(env, pathA).value, LoadSpec(env, pathB).value, cv.align, DefaultRatio).1)
        && (r.value.report.alignment == "resize" <==>
              align && !Align(LoadSpec(env, pathA).value, LoadSpec(env, pathB).value, cv.align, DefaultRatio).1)
  {
    CompareSteps(pathA, pathB, outputDir, name, align, minArea, env, out, cv, haveSkimage);
    var dir := OutputDir(outputDir, out);
    if LoadSpec(env, pathA).Success? && LoadSpec(env, pathB).Success? && out.imwrite(out.join(dir, "aligned_B.png")) {
      var imgA, imgB := LoadSpec(env, pathA).value, LoadSpec(env, pathB).value;
      var step := AlignStep(imgA, imgB, align, cv);
      AnalyzeOutcome(pathA, pathB, imgA, step.0, step.1, dir, name, minArea, out, cv, haveSkimage);
    }
  }

  /** A successful run carries an SSIM score exactly when the method name
      lower-cases to "ssim"; its percentage lies in [0, 100]; its region
      count never exceeds the number of contours; its paths are the table. */
  lemma ResultShape(pathA: string, pathB: string, outputDir: Option<string>, name: string, align: bool,
                    minArea: real, env: LoadEnv, out: OutputEnv, cv: Cv, haveSkimage: bool)
    requires InputsSound(pathA, pathB, env, cv)
    ensures var r := CompareSpec(pathA, pathB, outputDir, name, align, minArea, env, out, cv, haveSkimage);
      r.Success? ==>
        && (r.value.result.ssimScore.Some? <==> Lower(name) == "ssim")
        && 0.0 <= r.value.result.changedPercent <= 100.0
        && r.value.result.regionsCount <= |cv.draw.findContours(r.value.artifacts.mask)|
        && r.value.result.regionsCount == |Kept(cv.draw.findContours(r.value.artifacts.mask), minArea)|
        && r.value.result.outputPaths == OutputPaths(OutputDir(outputDir, out), out)
        && r.value.artifacts.alignedB.SameSize(LoadSpec(env, pathA).value)
        && r.value.artifacts.mask.SameSize(LoadSpec(env, pathA).value)
  {
    CompareSteps(pathA, pathB, outputDir, name, align, minArea, env, out, cv, haveSkimage);
    var dir := OutputDir(outputDir, out);
    if LoadSpec(env, pathA).Success? && LoadSpec(env, pathB).Success? && out.imwrite(out.join(dir, "aligned_B.png")) {
      var imgA, imgB := LoadSpec(env, pathA).value, LoadSpec(env, pathB).value;
      var step := AlignStep(imgA, imgB, align, cv);
      AnalyzeOutcome(pathA, pathB, imgA, step.0, step.1, dir, name, minArea, out, cv, haveSkimage);
    }
  }

  /** Without scikit-image an SSIM run fails with the configuration error
      once both images are loaded and the aligned candidate is written, and
      no other run fails that way. */
  lemma SsimRequiresSkimage(pathA: string, pathB: string, outputDir: Option<string>, name: string, align: bool,
                            minArea: real, env: LoadEnv, out: OutputEnv, cv: Cv, haveSkimage: bool)
    requires InputsSound(pathA, pathB, env, cv)
    ensures var r := CompareSpec(pathA, pathB, outputDir, name, align, minArea, env, out, cv, haveSkimage);
      (r.Failure? && r.error.ConfigFailed?) <==>
        && LoadSpec(env, pathA).Success? && LoadSpec(env, pathB).Success?
        && out.imwrite(out.join(OutputDir(outputDir, out), "aligned_B.png"))
        && Lower(name) == "ssim" && !haveSkimage
  {
    CompareSteps(pathA, pathB, outputDir, name, align, minArea, env, out, cv, haveSkimage);
    var dir := OutputDir(outputDir, out);
    if LoadSpec(env, pathA).Success? && LoadSpec(env, pathB).Success? && out.imwrite(out.join(dir, "aligned_B.png")) {
      var imgA, imgB := LoadSpec(env, pathA).value, LoadSpec(env, pathB).value;
      var step := AlignStep(imgA, imgB, align, cv);
      AnalyzeOutcome(pathA, pathB, imgA, step.0, step.1, dir, name, minArea, out, cv, haveSkimage);
    }
  }

  /** `compare_images(pathA, pathB)` with every default (no output
      directory, method "absdiff", alignment on, `min_area=100`) never needs
      scikit-image, reports no SSIM score, counts the contours of area at
      least 100 and writes under `<repo root>/output`. */
  lemma DefaultsRun(pathA: string, pathB: string, env: LoadEnv, out: OutputEnv, cv: Cv, haveSkimage: bool)
    requires InputsSound(pathA, pathB, env, cv)
    ensures var r := CompareSpec(pathA, pathB, None, DefaultMethod, true, DefaultMinArea, env, out, cv, haveSkimage);
      && !(r.Failure? && r.error.ConfigFailed?)
      && (r.Success? ==>
        && r.value.result.ssimScore.None?
        && r.value.result.regionsCount == |Kept(cv.draw.findContours(r.value.artifacts.mask), 100.0)|
        && r.value.result.outputPaths == OutputPaths(out.join(out.defaultRoot, "output"), out))
  {
    assert |Lower(DefaultMethod)| == 7;
    SsimRequiresSkimage(pathA, pathB, None, DefaultMethod, true, DefaultMinArea, env, out, cv, haveSkimage);
    ResultShape(pathA, pathB, None, DefaultMethod, true, DefaultMinArea, env, out, cv, haveSkimage);
  }

  /** A save failure after the analysis names one of the four analysis artifacts. */
  lemma AnalyzeSaveFailure(pathA: string, pathB: string, imgA: Decoded, alignedB: ColorImage, status: Status,
                           dir: string, name: string, minArea: real, out: OutputEnv, cv: Cv, haveSkimage: bool)
    requires alignedB.SameSize(imgA)
    ensures var r := Analyze(pathA, pathB, imgA, alignedB, status, dir, name, minArea, out, cv, haveSkimage);
      r.Failure? && r.error.SaveFailed? ==>
        && !out.imwrite(r.error.path)
        && r.error.path in {out.join(dir, "diff_mask.png"), out.join(dir, "overlay.png"),
                            out.join(dir, "bboxes.png"), out.join(dir, "heatmap.png")}
  {
  }

  /** A save failure names a path of the artifact table whose write failed. */
  lemma {:induction false} SaveFailureNamesArtifact(pathA: string, pathB: string, outputDir: Option<string>, name: string,
                                 align: bool, minArea: real, env: LoadEnv, out: OutputEnv, cv: Cv, haveSkimage: bool)
    requires InputsSound(pathA, pathB, env, cv)
    ensures var r := CompareSpec(pathA, pathB, outputDir, name, align, minArea, env, out, cv, haveSkimage);
      r.Failure? && r.error.SaveFailed? ==>
        && !out.imwrite(r.error.path)
        && r.error.path in OutputPaths(OutputDir(outputDir, out), out).Values
  {
    var r := CompareSpec(pathA, pathB, outputDir, name, align, minArea, env, out, cv, haveSkimage);
    var dir := OutputDir(outputDir, out);
    var paths := OutputPaths(dir, out);
    if r.Failure? && r.error.SaveFailed? && LoadSpec(env, pathA).Success? && LoadSpec(env, pathB).Success? {
      var imgA, imgB := LoadSpec(env, pathA).value, LoadSpec(env, pathB).value;
      var (alignedB, status) := AlignStep(imgA, imgB, align, cv);
      assert paths["alignedB"] in paths.Values && paths["diff_mask"] in paths.Values;
      assert paths["overlay"] in paths.Values && paths["bboxes"] in paths.Values;
      assert paths["heatmap"] in paths.Values;
      if out.imwrite(out.join(dir, "aligned_B.png")) {
        assert r == Analyze(pathA, pathB, imgA, alignedB, status, dir, name, minArea, out, cv, haveSkimage);
        AnalyzeSaveFailure(pathA, pathB, imgA, alignedB, status, dir, name, minArea, out, cv, haveSkimage);
      }
    }
  }
}
