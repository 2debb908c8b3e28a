/** `compare_images` of custom_libs/compare_images.py: the SSIM score of
    the two screenshots, the highlighted regions when they differ, the
    OCR text difference, and the final decision. */
module OcrComparison {
  import opened Wrappers
  import opened Raster
  import opened Regions
  import opened OcrText

  /** The foreign calls of one run. */
  datatype OcrOps = OcrOps(
    imread: string -> Option<Decoded>,                 // cv2.imread; None when it cannot read the file
    toGray: Bgr -> Byte,                               // cvtColor(_, COLOR_BGR2GRAY) on one pixel
    resizePx: (ColorImage, nat, nat, int, int) -> Bgr, // cv2.resize to (w, h): pixel (i, j)
    ssimScore: (GrayImage, GrayImage) -> real,         // the score of structural_similarity(a, b, full=True)
    ssimPx: (GrayImage, GrayImage, int, int) -> Byte,  // (S * 255).astype("uint8") of the SSIM map S at (i, j)
    diffContours: GrayImage -> seq<Contour>,           // THRESH_BINARY_INV | THRESH_OTSU, then findContours
    stroke: StrokePx,                                  // cv2.rectangle on one pixel
    ocr: ColorImage -> string,                         // pytesseract.image_to_string
    ndiff: (seq<string>, seq<string>) -> seq<string>)  // difflib.ndiff

  /** Where the run writes: `Path(__file__).resolve().parents[1]` and `os.path.join`. */
  datatype OutputEnv = OutputEnv(defaultRoot: string, join: (string, string) -> string)

  const HighlightColor: Bgr := Bgr(0, 0, 255)
  const HighlightThickness: nat := 2
  const NoiseArea: real := 50.0

  const DifferencesNote: string := "Differences detected. Highlighting regions..."
  const SavedNote: string := "Highlighted differences saved to "
  const IdenticalNote: string := "\U{2705} UI looks identical (SSIM=1.0)."

  /** The entries of the debug log. */
  datatype LogEntry =
    | Timestamp                                          // "Timestamp: ..."
    | Score(score: real)                                 // "SSIM Score: ..."
    | Note(text: string)
    | TextDiffers(removed: seq<string>, added: seq<string>) // "OCR: Text difference detected!" with both lists
    | TextSame                                           // "OCR: No text differences detected."

  /** The returned results dictionary, without its timestamp. */
  datatype OcrResults = OcrResults(
    ssimScore: real,
    diffImage: string,
    highlightedImage: Option<string>,
    removed: seq<string>,
    added: seq<string>,
    ocrResult: Option<bool>,
    finalDecision: Option<bool>)

  /** A finished run: the results, the log, the compared current image
      (resized when needed), the images written and the files written, in order. */
  datatype OcrRun = OcrRun(
    results: OcrResults,
    log: seq<LogEntry>,
    current: ColorImage,
    diff: GrayImage,
    highlighted: Option<ColorImage>,
    writes: seq<string>)

  /** `baseline.shape` or `current.shape` on the None that `imread` returned. */
  datatype OcrError = NoImage(path: string)

  function OutputDir(outputDir: Option<string>, out: OutputEnv): (dir: string)
    ensures outputDir.None? || outputDir.value == "" ==> dir == out.join(out.defaultRoot, "output")
    ensures outputDir.Some? && outputDir.value != "" ==> dir == outputDir.value
  {
    if outputDir.None? || outputDir.value == "" then out.join(out.defaultRoot, "output")
    else outputDir.value
  }

  /** The current image brought to the baseline's size, resized only when
      the shapes differ. */
  function Conformed(baseline: ColorImage, current: ColorImage, ops: OcrOps): (r: ColorImage)
    ensures r.SameSize(baseline)
    ensures baseline.SameSize(current) ==> r == current
  {
    if baseline.SameSize(current) then current
    else Tabulate(baseline.height, baseline.width,
                  (i, j) => ops.resizePx(current, baseline.height, baseline.width, i, j))
  }

  /** The SSIM map as an 8-bit image of the baseline's size. */
  function SsimMap(grayBase: GrayImage, grayCurr: GrayImage, ops: OcrOps): (r: GrayImage)
    ensures r.SameSize(grayBase)
  {
    Tabulate(grayBase.height, grayBase.width, (i, j) => ops.ssimPx(grayBase, grayCurr, i, j))
  }

  /** One more contour adds its rectangle exactly when its area is above 50. */
  lemma HighlightStep(current: ColorImage, contours: seq<Contour>, k: nat, stroke: StrokePx)
    requires k < |contours|
    ensures DrawAll(current, Boxes(Above(contours[..k + 1], NoiseArea)), HighlightColor, HighlightThickness, stroke) ==
      var before := DrawAll(current, Boxes(Above(contours[..k], NoiseArea)), HighlightColor, HighlightThickness, stroke);
      if contours[k].area > NoiseArea
      then DrawRectangle(before, contours[k].box, HighlightColor, HighlightThickness, stroke)
      else before
  {
    var c := contours[k];
    assert contours[..k + 1] == contours[..k] + [c];
    var drawn := Above(contours[..k], NoiseArea);
    AboveSnoc(contours[..k], c, NoiseArea);
    if c.area > NoiseArea {
      BoxesSnoc(drawn, c);
      DrawAllSnoc(current, Boxes(drawn), c.box, HighlightColor, HighlightThickness, stroke);
    } else {
      assert Above(contours[..k + 1], NoiseArea) == drawn;
    }
  }

  /** The loop drawing a red rectangle around every contour of area above 50
      on a copy of the current image. */
  method HighlightDifferences(current: ColorImage, contours: seq<Contour>, stroke: StrokePx)
    returns (highlighted: ColorImage)
    ensures highlighted == DrawAll(current, Boxes(Above(contours, NoiseArea)), HighlightColor, HighlightThickness, stroke)
    ensures highlighted.SameSize(current)
  {
    highlighted := current;
    ghost var drawn: seq<Contour> := [];
    for k := 0 to |contours|
      invariant drawn == Above(contours[..k], NoiseArea)
      invariant highlighted == DrawAll(current, Boxes(drawn), HighlightColor, HighlightThickness, stroke)
    {
      HighlightStep(current, contours, k, stroke);
      if contours[k].area > NoiseArea {
        highlighted := DrawRectangle(highlighted, contours[k].box, HighlightColor, HighlightThickness, stroke);
      }
      drawn := Above(contours[..k + 1], NoiseArea);
    }
    assert contours[..|contours|] == contours;
  }

  /** The steps after SSIM reported a difference: highlight, OCR, classify. */
  function Differing(baseline: ColorImage, current: ColorImage, diff: GrayImage, highlightedOutput: string,
                     dir: string, out: OutputEnv, ops: OcrOps, results: OcrResults, log: seq<LogEntry>)
    : (OcrResults, seq<LogEntry>, ColorImage, string)
  {
    var highlighted := DrawAll(current, Boxes(Above(ops.diffContours(diff), NoiseArea)),
                               HighlightColor, HighlightThickness, ops.stroke);
    var lines := ops.ndiff(ExtractCleanText(ops.ocr(baseline)), ExtractCleanText(ops.ocr(current)));
    var removed, added := Tagged(lines, RemovedTag), Tagged(lines, AddedTag);
    var same := removed == [] && added == [];
    (results.(highlightedImage := Some(highlightedOutput), removed := removed, added := added,
              ocrResult := Some(same), finalDecision := Some(same)),
     log + [Note(DifferencesNote), Note(SavedNote + highlightedOutput),
            if same then TextSame else TextDiffers(removed, added)],
     highlighted,
     out.join(dir, highlightedOutput))
  }

  /** The run once both images are read. */
  function Examine(baseline: Decoded, read: Decoded, diffOutput: string, highlightedOutput: string,
                   logFile: string, dir: string, out: OutputEnv, ops: OcrOps): OcrRun
  {
    var current := Conformed(baseline, read, ops);
    var grayBase, grayCurr := MapPixels(baseline, ops.toGray), MapPixels(current, ops.toGray);
    var score := ops.ssimScore(grayBase, grayCurr);
    var diff := SsimMap(grayBase, grayCurr, ops);
    var results := OcrResults(score, diffOutput, None, [], [], None, None);
    var log := [Timestamp, Score(score)];
    if score < 1.0 then
      var (results', log', highlighted, written) :=
        Differing(baseline, current, diff, highlightedOutput, dir, out, ops, results, log);
      OcrRun(results', log', current, diff, Some(highlighted),
             [out.join(dir, diffOutput), written, out.join(dir, logFile)])
    else
      OcrRun(results.(finalDecision := Some(true)), log + [Note(IdenticalNote)], current, diff, None,
             [out.join(dir, diffOutput), out.join(dir, logFile)])
  }

  /** What `compare_images(baseline_path, current_path, diff_output,
      highlighted_output, log_file, output_dir)` returns or raises. */
  function OcrSpec(baselinePath: string, currentPath: string, diffOutput: string, highlightedOutput: string,
                   logFile: string, outputDir: Option<string>, out: OutputEnv, ops: OcrOps)
    : Result<OcrRun, OcrError>
  {
    if ops.imread(baselinePath).None? then Failure(NoImage(baselinePath))
    else if ops.imread(currentPath).None? then Failure(NoImage(currentPath))
    else Success(Examine(ops.imread(baselinePath).value, ops.imread(currentPath).value,
                         diffOutput, highlightedOutput, logFile, OutputDir(outputDir, out), out, ops))
  }

  method CompareWithOcr(baselinePath: string, currentPath: string, diffOutput: string, highlightedOutput: string,
                        logFile: string, outputDir: Option<string>, out: OutputEnv, ops: OcrOps)
    returns (r: Result<OcrRun, OcrError>)
    ensures r == OcrSpec(baselinePath, currentPath, diffOutput, highlightedOutput, logFile, outputDir, out, ops)
  {
    var dir := OutputDir(outputDir, out);
    var loadedBase := ops.imread(baselinePath);
    var loadedCurr := ops.imread(currentPath);
    if loadedBase.None? {
      return Failure(NoImage(baselinePath));
    }
    if loadedCurr.None? {
      return Failure(NoImage(currentPath));
    }
    var run := ExamineImages(loadedBase.value, loadedCurr.value, diffOutput, highlightedOutput, logFile, dir, out, ops);
    r := Success(run);
  }

  /** The body of `compare_images` from the shape check on. */
  method ExamineImages(baseline: Decoded, read: Decoded, diffOutput: string, highlightedOutput: string,
                       logFile: string, dir: string, out: OutputEnv, ops: OcrOps)
    returns (run: OcrRun)
    ensures run == Examine(baseline, read, diffOutput, highlightedOutput, logFile, dir, out, ops)
  {
    var current: ColorImage := read;
    if !baseline.SameSize(current) {
      current := Tabulate(baseline.height, baseline.width,
                          (i, j) => ops.resizePx(read, baseline.height, baseline.width, i, j));
    }
    assert current == Conformed(baseline, read, ops);
    var grayBase := MapPixels(baseline, ops.toGray);
    var grayCurr := MapPixels(current, ops.toGray);

    var score := ops.ssimScore(grayBase, grayCurr);
    var diff := SsimMap(grayBase, grayCurr, ops);
    var writes := [out.join(dir, diffOutput)];
    var log := [Timestamp, Score(score)];
    var results := OcrResults(score, diffOutput, None, [], [], None, None);

    if score < 1.0 {
      var highlighted, written;
      results, log, highlighted, written := InspectDifferences(baseline, current, diff, highlightedOutput, dir, out, ops, results, log);
      writes := writes + [written, out.join(dir, logFile)];
      run := OcrRun(results, log, current, diff, Some(highlighted), writes);
    } else {
      log := log + [Note(IdenticalNote)];
      results := results.(finalDecision := Some(true));
      writes := writes + [out.join(dir, logFile)];
      run := OcrRun(results, log, current, diff, None, writes);
    }
  }

  /** The branch taken when SSIM is below 1.0. */
  method InspectDifferences(baseline: ColorImage, current: ColorImage, diff: GrayImage, highlightedOutput: string,
                            dir: string, out: OutputEnv, ops: OcrOps, results0: OcrResults, log0: seq<LogEntry>)
    returns (results: OcrResults, log: seq<LogEntry>, highlighted: ColorImage, written: string)
    ensures (results, log, highlighted, written) ==
      Differing(baseline, current, diff, highlightedOutput, dir, out, ops, results0, log0)
  {
    results, log := results0, log0;
    log := log + [Note(DifferencesNote)];
    var contours := ops.diffContours(diff);
    highlighted := HighlightDifferences(current, contours, ops.stroke);
    written := out.join(dir, highlightedOutput);
    log := log + [Note(SavedNote + highlightedOutput)];
    results := results.(highlightedImage := Some(highlightedOutput));

    var textBase := ExtractCleanText(ops.ocr(baseline));
    var textCurr := ExtractCleanText(ops.ocr(current));
    var removed, added := ClassifyDiff(ops.ndiff(textBase, textCurr));
    results := results.(removed := removed, added := added);
    assert log == log0 + [Note(DifferencesNote), Note(SavedNote + highlightedOutput)];
    if removed != [] || added != [] {
      log := log + [TextDiffers(removed, added)];
      results := results.(ocrResult := Some(false));
    } else {
      log := log + [TextSame];
      results := results.(ocrResult := Some(true));
    }
    results := results.(finalDecision := results.ocrResult);
    ghost var expected := Differing(baseline, current, diff, highlightedOutput, dir, out, ops, results0, log0);
    assert expected.2 == highlighted && expected.3 == written;
    assert expected.1 == log;
    assert expected.0 == results;
  }

  // ---------------------------------------------------------------------------
  // Properties of a run

  /** The run fails exactly when one of the images cannot be read; the
      error records the baseline when its read returned nothing, and the
      current image otherwise. */
  lemma LoadFailure(baselinePath: string, currentPath: string, diffOutput: string, highlightedOutput: string,
                    logFile: string, outputDir: Option<string>, out: OutputEnv, ops: OcrOps)
    ensures var r := OcrSpec(baselinePath, currentPath, diffOutput, highlightedOutput, logFile, outputDir, out, ops);
      && (r.Failure? <==> ops.imread(baselinePath).None? || ops.imread(currentPath).None?)
      && (r.Failure? ==> r.error.path == (if ops.imread(baselinePath).None? then baselinePath else currentPath))
  {
  }

  /** The decision rules: an OCR verdict exists exactly when SSIM is below
      1.0, and it is true exactly when nothing was removed or added; the
      final decision is that verdict, or true when SSIM is 1.0 or more, in
      which case nothing is highlighted and no text difference is reported. */
  lemma Decision(baselinePath: string, currentPath: string, diffOutput: string, highlightedOutput: string,
                 logFile: string, outputDir: Option<string>, out: OutputEnv, ops: OcrOps)
    ensures var r := OcrSpec(baselinePath, currentPath, diffOutput, highlightedOutput, logFile, outputDir, out, ops);
      r.Success? ==>
        var res := r.value.results;
        && (res.ocrResult.Some? <==> res.ssimScore < 1.0)
        && (res.ocrResult.Some? ==> (res.ocrResult.value <==> res.removed == [] && res.added == []))
        && res.finalDecision == Some(if res.ssimScore < 1.0 then res.ocrResult.value else true)
        && (res.highlightedImage.Some? <==> res.ssimScore < 1.0)
        && (res.highlightedImage.Some? ==> res.highlightedImage.value == highlightedOutput)
        && (res.ssimScore >= 1.0 ==> res.removed == [] && res.added == [] && r.value.highlighted.None?)
        && res.diffImage == diffOutput
  {
  }

  /** Below SSIM 1.0 the lists are the tagged ndiff lines of the cleaned OCR
      text of the baseline and of the (resized) current image, each removed
      entry `x` coming from a line `"- " + x` and each added one from `"+ " + x`. */
  lemma TextDifference(baselinePath: string, currentPath: string, diffOutput: string, highlightedOutput: string,
                       logFile: string, outputDir: Option<string>, out: OutputEnv, ops: OcrOps)
    ensures var r := OcrSpec(baselinePath, currentPath, diffOutput, highlightedOutput, logFile, outputDir, out, ops);
      r.Success? && r.value.results.ssimScore < 1.0 ==>
        var lines := ops.ndiff(ExtractCleanText(ops.ocr(ops.imread(baselinePath).value)),
                               ExtractCleanText(ops.ocr(r.value.current)));
        && r.value.results.removed == Tagged(lines, RemovedTag)
        && r.value.results.added == Tagged(lines, AddedTag)
        && (forall x :: x in r.value.results.removed <==> RemovedTag + x in lines)
        && (forall x :: x in r.value.results.added <==> AddedTag + x in lines)
  {
    var r := OcrSpec(baselinePath, currentPath, diffOutput, highlightedOutput, logFile, outputDir, out, ops);
    if r.Success? && r.value.results.ssimScore < 1.0 {
      var lines := ops.ndiff(ExtractCleanText(ops.ocr(ops.imread(baselinePath).value)),
                             ExtractCleanText(ops.ocr(r.value.current)));
      forall x
        ensures x in Tagged(lines, RemovedTag) <==> RemovedTag + x in lines
        ensures x in Tagged(lines, AddedTag) <==> AddedTag + x in lines
      {
        TaggedMembership(lines, RemovedTag, x);
        TaggedMembership(lines, AddedTag, x);
      }
    }
  }

  /** The compared current image has the baseline's size and is the file as
      read when the shapes already agree; only contours of area above 50 are
      boxed on it, in red with thickness 2. */
  lemma ImagesCompared(baselinePath: string, currentPath: string, diffOutput: string, highlightedOutput: string,
                       logFile: string, outputDir: Option<string>, out: OutputEnv, ops: OcrOps)
    ensures var r := OcrSpec(baselinePath, currentPath, diffOutput, highlightedOutput, logFile, outputDir, out, ops);
      r.Success? ==>
        var baseline, read := ops.imread(baselinePath).value, ops.imread(currentPath).value;
        && r.value.current.SameSize(baseline)
        && (baseline.SameSize(read) ==> r.value.current == read)
        && r.value.diff.SameSize(baseline)
        && (r.value.highlighted.Some? ==>
              r.value.highlighted.value == DrawAll(r.value.current, Boxes(Above(ops.diffContours(r.value.diff), NoiseArea)),
                                                   HighlightColor, HighlightThickness, ops.stroke))
  {
  }

  /** The files written, in order: the SSIM map, the highlighted image when
      SSIM is below 1.0, and the log, all in the output directory. */
  lemma FilesWritten(baselinePath: string, currentPath: string, diffOutput: string, highlightedOutput: string,
                     logFile: string, outputDir: Option<string>, out: OutputEnv, ops: OcrOps)
    ensures var r := OcrSpec(baselinePath, currentPath, diffOutput, highlightedOutput, logFile, outputDir, out, ops);
      var dir := OutputDir(outputDir, out);
      r.Success? ==>
        r.value.writes == [out.join(dir, diffOutput)]
                          + (if r.value.results.ssimScore < 1.0 then [out.join(dir, highlightedOutput)] else [])
                          + [out.join(dir, logFile)]
  {
  }
}
