# Visual screenshot comparison, modelled in Dafny

This project models the visual-regression core of a screenshot-testing
repository. The core is two Python modules:

- `custom_libs/ImageComparision.py` compares a baseline screenshot A with a
  candidate B. It loads both images through a chain of fallback locations,
  aligns B to A by ORB feature matching and a RANSAC homography, or just
  resizes B. It then builds a binary change mask (blurred absolute
  difference, or SSIM), computes the changed-pixel percentage and draws the
  overlay, bounding-box and heatmap artifacts. It writes those artifacts to
  fixed file names and returns a `DiffResult`.
- `custom_libs/compare_images.py` is an older variant. It scores the two
  screenshots by SSIM and boxes the differing regions. It OCRs both
  images, cleans the text, splits the `difflib.ndiff` output into removed
  and added lines, and decides pass or fail. It also holds
  `find_project_root`, which walks up the directory tree.

Images are values (`Raster.Image`, rows of pixels). The OpenCV,
scikit-image and Tesseract calls are function-valued fields of "ops" records.
A foreign call that produces an image is a per-pixel kernel, tabulated to the
output shape the call promises. The model therefore proves the decision
logic written around those calls, with the calls themselves left
uninterpreted. The file system is modelled the same way: existence and
decoding become predicates (`pathExists`, `imread`), a write becomes a
success predicate (`imwrite`), and the module and working directories are
parameters.

The two pipelines are written as they run. Each one is a method: a loop
over `sys.path`, a de-duplication loop, the ratio-test loop, an in-place
colour-layer write on an `array2`, the box-drawing loops, the ndiff
classification loop and the upward directory walk. Each method is proved
equal to a specification function, and the promised properties are proved
about those functions as lemmas.

## Behaviour worth noting

- Any method name other than `ssim` (after lower-casing) selects the
  absolute-difference strategy. It is not an error.
- The overlay and the box-annotated overlay go to two different files,
  `overlay.png` and `bboxes.png`.
- `draw_bboxes` keeps contours with area `>= min_area`. The OCR variant
  boxes contours with area `> 50`. `Regions.BoundaryAreaFilters` shows a
  contour of area exactly 50 that the first rule keeps and the second drops.
- In the OCR variant, the text message labels the removed lines "After" and
  the added lines "Before". The model records the two lists, not the labels.

## Model

| member | source | states |
|---|---|---|
| ImageLoading.Candidates | custom_libs/ImageComparision.py:28-62 | one candidate per fixed location and per `sys.path` entry, position by position in the order tried: the path as given, then under the repo root, under the cwd, and under each `sys.path` entry in turn |
| ImageLoading.Dedup | custom_libs/ImageComparision.py:71-74 | the de-duplicated list has exactly the elements of the input and no repeats |
| ImageLoading.DedupInOrder | custom_libs/ImageComparision.py:71-74 | the `tried_unique` loop computes exactly `Dedup` |
| ImageLoading.DedupFirstOccurrence | custom_libs/ImageComparision.py:71-74 | de-duplication keeps the order of first occurrence |
| ImageLoading.LoadImage | custom_libs/ImageComparision.py:23-79 | the fallback chain, with its `sys.path` loop and early returns, computes `LoadSpec` |
| ImageLoading.SearchSysPath | custom_libs/ImageComparision.py:55-62 | the `sys.path` loop returns the image of the first candidate that loads, and when none does it has tried every candidate location, in order |
| ImageLoading.TryLoad | custom_libs/ImageComparision.py:33-36 | one attempt gives an image exactly when the location exists and decodes, and then the decoded image |
| ImageLoading.TryCandidate | custom_libs/ImageComparision.py:30-62 | trying candidate i, when the earlier ones failed, either gives the result of `load_image` or leaves the search to the candidates after it |
| ImageLoading.FirstLoadStep | custom_libs/ImageComparision.py:30-62 | the first loading candidate from position i on is candidate i when it loads, and otherwise lies after it |
| ImageLoading.NoCandidateLoads | custom_libs/ImageComparision.py:64-79 | when no candidate loads, the result is the raw `cv2.imread` image, or else the error listing the de-duplicated tried locations |
| ImageLoading.FirstLoadAt | custom_libs/ImageComparision.py:30-62 | when candidate k is the first that exists and decodes, its image is returned |
| ImageLoading.FirstLoadNone | custom_libs/ImageComparision.py:30-62 | no candidate yields an image exactly when none exists and decodes |
| ImageLoading.LoadImageFirstSuccess | custom_libs/ImageComparision.py:28-62 | `load_image` returns the image of the first candidate that exists and decodes |
| ImageLoading.LoadImageFailure | custom_libs/ImageComparision.py:64-79 | it raises exactly when no candidate loads and the raw `imread` fails; the error then lists every tried location exactly once, in first-attempt order |
| ImageLoading.Bullets | custom_libs/ImageComparision.py:76 | each tried location becomes one line `" - " + location` |
| ImageLoading.JoinLines | custom_libs/ImageComparision.py:76 | `"\n".join` of no lines is empty; otherwise it starts with the first line, and its length is the lines' total plus one per gap |
| ImageLoading.LoadError.Message | custom_libs/ImageComparision.py:76-78 | the message starts with "Image not found or could not be opened: ", the path and the "Tried the following locations:" header, and ends with "Current working dir: " and the working directory |
| ImageLoading.MessageMiddle | custom_libs/ImageComparision.py:76-78 | between that header and that footer the message holds exactly the joined bullet lines |
| ImageLoading.JoinLinesAt | custom_libs/ImageComparision.py:76 | line k of `"\n".join(lines)` is `lines[k]`, at the offset of the earlier lines and their separators |
| ImageLoading.JoinLinesBreakBefore | custom_libs/ImageComparision.py:76 | every line but the first follows a "\n" in the joined text |
| ImageLoading.JoinLinesSnoc | custom_libs/ImageComparision.py:76 | joining one more line appends a "\n" and that line |
| ImageLoading.MessageListsTried | custom_libs/ImageComparision.py:76-78 | every tried location appears in the message as its own line `" - " + location`, in the order of `tried`, each after a "\n" |
| ImageLoading.JoinedLineInText | custom_libs/ImageComparision.py:76-78 | a line of the joined list, placed after a header that ends a line, is a line of the whole message |
| ImageLoading.EmbeddedLine | custom_libs/ImageComparision.py:78 | a line of the middle part, placed after a header that ends a line, is a line of the whole text |
| ImageLoading.HeaderEndsLine | custom_libs/ImageComparision.py:78 | the header ends with the line break that starts the list of locations |
| ImageLoading.FirstIndexExtend | custom_libs/ImageComparision.py:72-74 | appending a location does not move the first occurrence of one already tried |
| ImageLoading.FirstIndex | custom_libs/ImageComparision.py:72-74 | the position of the first occurrence of a tried location: it holds the location and no earlier position does |
| Alignment.EnsureSameSize | custom_libs/ImageComparision.py:82-86 | the result has A's height and width; it is B itself when the sizes already agree, and the resize of B otherwise |
| Alignment.Resize | custom_libs/ImageComparision.py:85 | `cv2.resize` yields an image of the requested height and width |
| Alignment.Warp | custom_libs/ImageComparision.py:128 | `warpPerspective` yields an image of A's size |
| Alignment.RatioTest | custom_libs/ImageComparision.py:110-116 | `good` is never longer than the k-NN list |
| Alignment.PassingIndices | custom_libs/ImageComparision.py:110-116 | the passing entries are exactly those with two neighbours and `d1 < ratio*d2`, in increasing order |
| Alignment.RatioTestSubsequence | custom_libs/ImageComparision.py:110-116 | `good` is the in-order list of first neighbours of the passing entries |
| Alignment.DefaultRatioIsIntegral | custom_libs/ImageComparision.py:110-116 | with the default 0.75 the test is `4*d1 < 3*d2` on the integer Hamming distances |
| Alignment.RatioTestInRange | custom_libs/ImageComparision.py:121-122 | when the matcher's indices are in range, every good match indexes existing keypoints |
| Alignment.QueryPoints | custom_libs/ImageComparision.py:121 | there is one source point per good match |
| Alignment.TrainPoints | custom_libs/ImageComparision.py:122 | there is one destination point per good match |
| Alignment.Align | custom_libs/ImageComparision.py:89-129 | the aligned image always has A's size; on every early exit it is `ensure_same_size(A, B)` |
| Alignment.AlignImages | custom_libs/ImageComparision.py:89-129 | the method with the ratio-test loop computes `Align` |
| Alignment.AlignedOnlyAfterAllGates | custom_libs/ImageComparision.py:100-129 | True is returned only when both descriptor sets exist, both images have at least 10 keypoints, knnMatch did not raise, at least 10 matches are good and a homography was found |
| Alignment.FewKeypointsFallBack | custom_libs/ImageComparision.py:100-101 | with fewer than 10 keypoints in either image the result is `(ensure_same_size(A, B), False)` |
| ChangeMask.Lower | custom_libs/ImageComparision.py:215 | lower-casing is per character and keeps the length |
| ChangeMask.SelectStrategy | custom_libs/ImageComparision.py:215-219 | SSIM is selected exactly by the sixteen casings of "ssim"; every other name, "absdiff" included, selects the absolute difference |
| ChangeMask.LowerSpellsSsim | custom_libs/ImageComparision.py:215 | `method.lower() == 'ssim'` holds exactly for the sixteen casings of "ssim" |
| ChangeMask.SsimByLetters | custom_libs/ImageComparision.py:215 | a string equals "ssim" exactly when it has those four letters, in order |
| ChangeMask.LowerCharIs | custom_libs/ImageComparision.py:215 | a character lower-cases to a lower-case ASCII letter exactly when it is that letter or its upper-case form |
| ChangeMask.CleanMask | custom_libs/ImageComparision.py:132-155 | the Otsu and morphology clean-up keeps the image size |
| ChangeMask.ComputeMask | custom_libs/ImageComparision.py:132-155 | the result is a failure exactly for SSIM without scikit-image; otherwise the diff and mask have the inputs' size, the mask is the cleaned diff, and a score is present exactly for SSIM |
| ChangeMask.ConfigError.Message | custom_libs/ImageComparision.py:146 | the `RuntimeError` text is "SSIM method selected but is not installed." |
| ChangeMask.RowNonzero | custom_libs/ImageComparision.py:221 | the nonzero count of a row is bounded by its length, and is 0 or full exactly when the row is all zero or all nonzero |
| ChangeMask.RowsNonzero | custom_libs/ImageComparision.py:221 | the same facts over all rows: `count_nonzero` is at most `mask.size`, 0 iff all pixels are zero, and `mask.size` iff none is |
| ChangeMask.ProductStep | custom_libs/ImageComparision.py:221 | one more row of width `w` adds `w` to the pixel count, which bounds `count_nonzero` row by row |
| ChangeMask.ChangedPixels | custom_libs/ImageComparision.py:221-222 | the changed count never exceeds `mask.size` |
| ChangeMask.RatioBounds | custom_libs/ImageComparision.py:223 | a count over a positive total gives a ratio in [0, 1], 0 exactly for no count and 1 exactly for the full total |
| ChangeMask.ChangedPercent | custom_libs/ImageComparision.py:221-223 | the percentage lies in [0, 100]; it is 0 iff the mask is all zero and 100 iff every pixel is nonzero |
| Regions.DrawRectangle | custom_libs/ImageComparision.py:174 | drawing a rectangle keeps the image size |
| Regions.DrawAll | custom_libs/ImageComparision.py:170-175 | drawing a list of rectangles keeps the image size |
| Regions.Boxes | custom_libs/ImageComparision.py:173 | there is one bounding rectangle per contour, in order |
| Regions.Kept | custom_libs/ImageComparision.py:170-172 | the kept contours are exactly those with area `>= min_area`, and are no more than all contours |
| Regions.KeptIndices | custom_libs/ImageComparision.py:170-172 | the positions of the contours with area `>= min_area`: each qualifies, they increase, and every qualifying position is listed |
| Regions.KeptByIndex | custom_libs/ImageComparision.py:170-175 | the kept contours are exactly those at the qualifying positions, in order, so `regions` is the number of qualifying contours, equal contours counted each time |
| Regions.KeptSnoc | custom_libs/ImageComparision.py:170-175 | one more contour is kept exactly when its area reaches `min_area` |
| Regions.KeptMonotone | custom_libs/ImageComparision.py:171 | raising `min_area` never increases the region count |
| Regions.Above | custom_libs/compare_images.py:72-73 | the boxed contours are exactly those with area `> 50` |
| Regions.AboveIndices | custom_libs/compare_images.py:72-73 | the positions of the contours with area `> 50`: each qualifies, they increase, and every qualifying position is listed |
| Regions.AboveByIndex | custom_libs/compare_images.py:72-75 | the outlined contours are exactly those at the positions above the bound, in order |
| Regions.AboveSnoc | custom_libs/compare_images.py:72-75 | one more contour is boxed exactly when its area exceeds the bound |
| Regions.BoxesSnoc | custom_libs/ImageComparision.py:173 | the rectangles of a longer contour list extend those of the shorter one |
| Regions.DrawAllSnoc | custom_libs/ImageComparision.py:174 | drawing one more rectangle draws it on top of the earlier ones |
| Regions.BoundaryAreaFilters | custom_libs/ImageComparision.py:171 | a contour of area exactly 50 is kept by `>= 50` but not boxed by `> 50` (as in compare_images.py:73) |
| Rendering.ColorLayer | custom_libs/ImageComparision.py:160-161 | the colour layer has the mask's size |
| Rendering.ColorLayerExact | custom_libs/ImageComparision.py:160-161 | the layer holds `color` exactly where the mask is 255 and zeros elsewhere |
| Rendering.PaintColorLayer | custom_libs/ImageComparision.py:160-161 | the in-place write into a fresh zero array produces exactly `ColorLayer` |
| Rendering.Blend | custom_libs/ImageComparision.py:162 | `addWeighted` blends each pixel pair with weights alpha and 1-alpha |
| Rendering.OverlayMask | custom_libs/ImageComparision.py:158-163 | the overlay is the blend of the colour layer over the image; masked pixels blend `color`, the others blend black |
| Rendering.DrawBBoxes | custom_libs/ImageComparision.py:166-177 | `regions` is the number of contours with area `>= min_area`, at most the contour count; the boxed image is the input with exactly those boxes drawn, in order |
| Rendering.BoxStep | custom_libs/ImageComparision.py:170-175 | one more contour is outlined, and counted, exactly when its area reaches `min_area`; otherwise the kept list is unchanged |
| Rendering.Heatmap | custom_libs/ImageComparision.py:180-183 | each pixel blends the JET colour of the diff with the base image |
| ImageComparison.AlignmentStatus | custom_libs/ImageComparision.py:201-206 | the status is "disabled" iff alignment is off, "homography" iff it is on and succeeded, and "resize" iff it is on and failed |
| ImageComparison.OutputDir | custom_libs/ImageComparision.py:194-195 | no output directory, or `""`, gives `join(repo root, "output")`; any other value is kept as given |
| ImageComparison.CompareError.Message | custom_libs/ImageComparision.py:189 | a save failure reads "Failed to save image to: " and the path; the other errors carry the text of the exception they wrap |
| ImageComparison.OutputPaths | custom_libs/ImageComparision.py:229-236 | the paths table has exactly the six keys, each joined to its fixed file name |
| ImageComparison.ArtifactNamesDistinct | custom_libs/ImageComparision.py:229-236 | the six keys and the six file names are pairwise distinct |
| ImageComparison.SaveImage | custom_libs/ImageComparision.py:186-189 | saving raises, naming the path, exactly when the write reports failure |
| ImageComparison.AlignStep | custom_libs/ImageComparision.py:201-206 | the candidate has A's size, and the status follows the alignment rule |
| ImageComparison.CompareImages | custom_libs/ImageComparision.py:192-260 | the whole run, with its early exits, computes `CompareSpec` |
| ImageComparison.AnalyzeImages | custom_libs/ImageComparision.py:211-260 | the steps after the aligned image is saved compute `Analyze` |
| ImageComparison.PositiveSize | custom_libs/ImageComparision.py:222 | the mask of a decoded image has at least one pixel |
| ImageComparison.AnalyzeOutcome | custom_libs/ImageComparision.py:211-260 | the analysis fails with the configuration error iff SSIM is selected without scikit-image; a successful one reports the given status, a score iff SSIM, a percentage in [0, 100], the `>= min_area` region count, the path table, and A-sized images |
| ImageComparison.CompareSteps | custom_libs/ImageComparision.py:192-209 | once both images load and the aligned image is saved, the run is the analysis of the aligned candidate; before that it can fail only by a load or a save error |
| ImageComparison.StatusRule | custom_libs/ImageComparision.py:201-206 | a successful run reports "disabled", "homography" or "resize" by the alignment rule applied to the loaded images |
| ImageComparison.ResultShape | custom_libs/ImageComparision.py:214-260 | a successful result carries an SSIM score iff the method lower-cases to "ssim"; its percentage is in [0, 100]; its region count is the `>= min_area` contour count and at most the contour count; its paths are the table; the aligned image and the mask have A's size |
| ImageComparison.SsimRequiresSkimage | custom_libs/ImageComparision.py:144-146 | the run fails with the configuration error exactly when both images load, the aligned image is saved, SSIM is selected and scikit-image is missing |
| ImageComparison.AnalyzeSaveFailure | custom_libs/ImageComparision.py:238-241 | a save failure after the analysis names one of the four artifact paths, and its write failed |
| ImageComparison.SaveFailureNamesArtifact | custom_libs/ImageComparision.py:209-241 | any save failure names a path of the artifact table whose write failed |
| ImageComparison.DefaultsRun | custom_libs/ImageComparision.py:192 | with the defaults (no output directory, method "absdiff", alignment on, `min_area=100`) the run never raises the scikit-image error, reports no SSIM score, counts the contours of area at least 100, and writes under `<repo root>/output` |
| OcrText.LineBreakIsSpace | custom_libs/compare_images.py:131-132 | every line boundary is also whitespace |
| OcrText.LineEnd | custom_libs/compare_images.py:132 | a line runs up to, and not including, the first boundary |
| OcrText.NextLine | custom_libs/compare_images.py:132 | the next line starts strictly after the boundary and within the text; that "\r\n" counts as one boundary is by definition, and `SplitLinesAtCrLf` states its effect |
| OcrText.SplitLines | custom_libs/compare_images.py:132 | `splitlines` yields no more lines than characters, and no line contains a boundary |
| OcrText.LineEndAt | custom_libs/compare_images.py:132 | a line ends at the first boundary of the text and nowhere else |
| OcrText.SplitLinesOfLine | custom_libs/compare_images.py:132 | a non-empty text without a boundary is exactly one line |
| OcrText.SplitLinesAtBreak | custom_libs/compare_images.py:132 | a boundary other than "\r" before "\n" ends the line before it and starts the next, so lines break exactly at boundaries and the text "a\nb" gives two lines while "ab" gives one |
| OcrText.SplitLinesAtCrLf | custom_libs/compare_images.py:132 | "\r\n" ends the line before it and starts the next, as one boundary and not two |
| OcrText.NonBreaksAppend | custom_libs/compare_images.py:132 | dropping the boundaries of a concatenation drops them from each part |
| OcrText.NonBreaksOfLine | custom_libs/compare_images.py:132 | a line without boundaries is left as it is |
| OcrText.NonBreaksOfBreaks | custom_libs/compare_images.py:132 | a run of boundaries disappears entirely |
| OcrText.SeparatorVanishes | custom_libs/compare_images.py:132 | the one- or two-character boundary between two lines leaves nothing behind |
| OcrText.NonBreaksFirstLine | custom_libs/compare_images.py:132 | dropping the boundaries of a text keeps its first line and then the rest with its boundaries dropped |
| OcrText.SplitLinesLosesOnlyBreaks | custom_libs/compare_images.py:132 | the lines, concatenated, are the text with exactly its boundary characters removed |
| OcrText.StripLeft | custom_libs/compare_images.py:131-132 | the result is a suffix, everything dropped is whitespace, and it does not start with whitespace |
| OcrText.StripRight | custom_libs/compare_images.py:131-132 | the result is a prefix, everything dropped is whitespace, and it does not end with whitespace |
| OcrText.Strip | custom_libs/compare_images.py:131-132 | `strip()` leaves no whitespace at either end, and is empty exactly for an all-whitespace string |
| OcrText.StripUnchanged | custom_libs/compare_images.py:131 | `strip()` is the identity on a string without outer whitespace |
| OcrText.RemoveSymbols | custom_libs/compare_images.py:131 | the substitution keeps only ASCII letters, digits and whitespace, and is the identity on strings of those |
| OcrText.RemoveSymbolsAppend | custom_libs/compare_images.py:131 | the substitution works character by character: on a concatenation it is the concatenation of its results |
| OcrText.RemoveSymbolsOfChar | custom_libs/compare_images.py:131 | a single character is kept exactly when it is an ASCII letter, an ASCII digit or whitespace |
| OcrText.AllowedIndices | custom_libs/compare_images.py:131 | the positions of the letters, digits and whitespace of a line: each qualifies, they increase, and every qualifying position is listed |
| OcrText.RemoveSymbolsByIndex | custom_libs/compare_images.py:131 | the substitution keeps every letter, digit and whitespace character of the line, in order, and nothing else, so "Total: 5" gives "Total 5" |
| OcrText.AlnumIsNotSpace | custom_libs/compare_images.py:131 | `[A-Za-z0-9]` and `\s` do not overlap |
| OcrText.Clean | custom_libs/compare_images.py:131 | a cleaned line has only letters, digits and whitespace, with a letter or digit at each end |
| OcrText.CleanEmpty | custom_libs/compare_images.py:131 | cleaning a line gives the empty string exactly when it has no ASCII letter or digit |
| OcrText.StripGivesClean | custom_libs/compare_images.py:131 | stripping a line of letters, digits and whitespace leaves only such characters, with a letter or digit at each end |
| OcrText.CleanIdempotent | custom_libs/compare_images.py:131 | cleaning a cleaned line changes nothing |
| OcrText.AllSpaceEach | custom_libs/compare_images.py:132 | a line is blank exactly when every character is whitespace |
| OcrText.NotBlankStrip | custom_libs/compare_images.py:132 | the guard `if line.strip()` holds exactly for non-blank lines |
| OcrText.CleanLines | custom_libs/compare_images.py:131-133 | there are no more entries than lines, each entry clean |
| OcrText.ExtractCleanText | custom_libs/compare_images.py:127-133 | every entry has only letters, digits and whitespace, with a letter or digit at each end |
| OcrText.NonBlankIndices | custom_libs/compare_images.py:132 | the indices of the non-blank lines, all of them, increasing |
| OcrText.CleanLinesInOrder | custom_libs/compare_images.py:131-133 | there is one entry per non-blank line, in order: entry k is the cleaned k-th non-blank line |
| OcrText.SymbolsOnlyGiveEmptyEntry | custom_libs/compare_images.py:131-132 | a symbols-only line gives an empty entry, because the blank-line guard runs before the symbols are removed |
| OcrText.BlankLineGivesNoEntry | custom_libs/compare_images.py:131-132 | a whitespace-only line gives no entry at all |
| OcrText.Tagged | custom_libs/compare_images.py:86-92 | no more entries than diff lines |
| OcrText.TaggedIndices | custom_libs/compare_images.py:88-92 | the positions of the diff lines carrying the tag: each carries it, they increase, and every such position is listed |
| OcrText.TaggedByIndex | custom_libs/compare_images.py:88-92 | entry k of a list is the text after the tag of the k-th tagged line, so repeated lines are collected once per occurrence, in order |
| OcrText.ClassifyDiff | custom_libs/compare_images.py:86-92 | the loop puts into `removed` the text after "- " of the lines carrying it, and into `added` the text after "+ " |
| OcrText.TaggedMembership | custom_libs/compare_images.py:89-92 | x is collected under a tag exactly when `tag + x` is one of the diff lines, so lines with any other prefix go to neither list |
| OcrText.TaggedAppend | custom_libs/compare_images.py:88-92 | collecting distributes over concatenation of the diff, so input order is kept |
| OcrText.TaggedDisjoint | custom_libs/compare_images.py:89-92 | a line goes to at most one list: the counts of removed and added lines sum to at most the diff length |
| OcrComparison.Conformed | custom_libs/compare_images.py:28-31 | the current image gets the baseline's size, and is left as read when the shapes already agree |
| OcrComparison.SsimMap | custom_libs/compare_images.py:38-42 | the 8-bit SSIM map has the baseline's size |
| OcrComparison.OutputDir | custom_libs/compare_images.py:19-20 | no output directory, or `""`, gives `join(repo root, "output")`; any other value is kept as given |
| OcrComparison.HighlightStep | custom_libs/compare_images.py:72-75 | one more contour adds its red rectangle exactly when its area exceeds 50 |
| OcrComparison.HighlightDifferences | custom_libs/compare_images.py:71-75 | the loop draws a red, thickness-2 box around exactly the contours of area above 50, in order, on a copy of the current image |
| OcrComparison.CompareWithOcr | custom_libs/compare_images.py:13-125 | the run, including its failure on an unreadable image, computes `OcrSpec` |
| OcrComparison.ExamineImages | custom_libs/compare_images.py:28-125 | the body after loading computes `Examine` |
| OcrComparison.InspectDifferences | custom_libs/compare_images.py:62-110 | the branch for SSIM below 1.0 computes `Differing` |
| OcrComparison.LoadFailure | custom_libs/compare_images.py:25-29 | the run fails exactly when one image cannot be read; the error records the baseline when its read returned nothing, else the current image |
| OcrComparison.Decision | custom_libs/compare_images.py:51-115 | an OCR verdict exists iff SSIM < 1.0, and it is True iff nothing was removed or added; the final decision is that verdict, or True when SSIM >= 1.0; the highlighted image is set iff SSIM < 1.0; at SSIM >= 1.0 the text differences stay empty |
| OcrComparison.TextDifference | custom_libs/compare_images.py:81-95 | below 1.0, the lists are the tagged ndiff lines of the cleaned OCR text of the baseline and the (resized) current image |
| OcrComparison.ImagesCompared | custom_libs/compare_images.py:28-79 | the compared image and the SSIM map have the baseline's size; only contours above area 50 are boxed |
| OcrComparison.FilesWritten | custom_libs/compare_images.py:43-118 | the run writes the SSIM map, then the highlighted image only when SSIM < 1.0, then the log, all in the output directory |
| ProjectRoot.AfterLastSlash | custom_libs/compare_images.py:156 | marks the end of the head of `dirname`: it follows the last '/', with no '/' after it |
| ProjectRoot.TrimTrailingSlashes | custom_libs/compare_images.py:156 | `rstrip('/')` yields a prefix, drops only slashes, and does not end with '/' |
| ProjectRoot.DirName | custom_libs/compare_images.py:156-159 | the parent is a prefix of the path, and is either the path itself (the fixed point) or strictly shorter |
| ProjectRoot.DirNameExamples | custom_libs/compare_images.py:156-157 | `/` is its own parent; the parent of `/srv/app` is `/srv`, and that of a plain name is empty |
| ProjectRoot.Join | custom_libs/compare_images.py:154 | POSIX join returns an absolute second part as it is; otherwise the result starts with the directory and ends with the name |
| ProjectRoot.Ancestors | custom_libs/compare_images.py:151-159 | the directories visited start at the start path; each is the parent of the one before, differs from it, and the last is a fixed point |
| ProjectRoot.FindProjectRoot | custom_libs/compare_images.py:135-159 | the `while True` walk with its marker loop computes `RootFrom` on the defaulted arguments |
| ProjectRoot.StartOf | custom_libs/compare_images.py:136-140 | no start path means the module's directory; a given start path is used as it is |
| ProjectRoot.MarkersOf | custom_libs/compare_images.py:141-150 | no markers means the seven defaults, `.git` to `.svn`; given markers are used as they are |
| ProjectRoot.AnyMarker | custom_libs/compare_images.py:153-155 | the marker loop finds a marker exactly when some marker exists in the directory |
| ProjectRoot.WalkIsFirstMarked | custom_libs/compare_images.py:151-159 | the walk returns the first directory on the way up, the start included, that holds a marker, and the start path when none does |
| ProjectRoot.FirstMarkedOrAt | custom_libs/compare_images.py:153-155 | when entry `k` is the first directory holding a marker, the first-marked choice is entry `k` |
| ProjectRoot.NearestMarked | custom_libs/compare_images.py:151-159 | the result is the first directory on the way up, the start included, that holds a marker |
| ProjectRoot.NoMarkerGivesStart | custom_libs/compare_images.py:156-158 | when no visited directory holds a marker, the result is the start path |
| ProjectRoot.AncestorsBounded | custom_libs/compare_images.py:152-159 | the walk visits at most `len(start) + 1` directories, so it terminates |

Members without a row, such as `ImageLoading.TotalLength` and `ImageLoading.LineStart`, are proof
helpers. They state nothing of their own about the code.

## Left out

- OpenCV, scikit-image and Tesseract internals are abstract parameters:
  ORB detection, BFMatcher, RANSAC `findHomography`, `warpPerspective`,
  `resize` interpolation, `cvtColor`, `GaussianBlur`, `absdiff`, the Otsu
  threshold, morphology, `findContours`/`contourArea`/`boundingRect`,
  rectangle rasterisation, `applyColorMap`, `addWeighted`,
  `structural_similarity` and `image_to_string`. They are foreign code with
  floating-point numerics.
- The foreign calls are total functions in the model: they never raise.
  In the code they can. `structural_similarity` raises `ValueError` when a
  side of the image is smaller than its default 7-pixel window. That is
  reached by ChangeMask.ComputeMask under SSIM (ImageComparision.py:147) and
  by every run of compare_images.py (line 38). `pytesseract.image_to_string`
  raises when the Tesseract executable set at compare_images.py:11 is
  missing. Neither exception is a failure case of the model.
- The `difflib.ndiff` algorithm is a parameter. Only the classification of
  its output lines is modelled.
- Alignment.AlignImages: requires that the matcher's query and train
  indices are in range for the keypoint lists. OpenCV guarantees this, and
  the Python code indexes `kpA`/`kpB` without a check.
- Alignment.AlignImages: the `max_features` argument only configures ORB
  detection, which is a parameter, so it does not appear.
- The SSIM inversion, scale and clip at ImageComparision.py:147-149
  (`np.uint8(np.clip((1 - diff) * 255, 0, 255))`) are part of the per-pixel
  SSIM kernel and are not modelled arithmetically.
- compare_images.py:42 computes `(diff * 255).astype("uint8")`. The map is
  neither inverted nor clipped; the cast of a negative value is
  platform-dependent in NumPy.
  This conversion is part of the per-pixel kernel `ssimPx` and is not
  modelled arithmetically.
- Floating-point rounding is not modelled. The percentage and the blend
  weights are exact reals. `float(f'{score:.4f}')` is not applied to the
  stored score, and the decision uses the unrounded score, as the code does.
- Report and log text formatting is not modelled: the `:.4f` numbers, the
  Python list repr inside the OCR message, and the report lines. The report
  keeps its facts (paths, status, method, counts, score) and the log keeps
  its entries in order, without their text.
- Timestamps (`datetime.now()`) are a constructor without a value.
- File-system effects are not modelled: `os.makedirs`, `Path.exists`,
  `imread`, `imwrite`, and the report and log file writes. They are
  predicates, or the list of paths written. `abspath`, `Path.resolve()` and
  `os.getcwd()` are given strings, and the repo root is given rather than
  derived from `__file__`. In compare_images.py, the return value of
  `imwrite` is ignored, as in the code.
- ChangeMask.Lower: lower-cases ASCII letters only. No other character
  turns into one of `s`, `i`, `m` when lower-cased on its own. The one
  exception would be a character whose lower-case form is several
  characters long, and there is none that yields "ssim".
- OcrComparison.Conformed: compares height and width only. The imread
  result is always three-channel, so in the code the full shape check is
  the same test.
- The module-level script at compare_images.py:162-167 runs at import time
  and prints. It is left out.
- The console `print` calls of compare_images.py at lines 30, 39, 63, 106
  and 113 are left out. They only echo the resize, the score and the
  messages that the log also records.
- OcrComparison.LoadFailure: when `cv2.imread` returns None, the code at
  compare_images.py:29 fails with `AttributeError: 'NoneType' object has no
  attribute 'shape'`, which names no path. `NoImage(path)` only records
  which of the two reads returned nothing.
- ProjectRoot.DirName and ProjectRoot.Join follow POSIX `os.path`
  (`posixpath`). compare_images.py:11 sets a Windows Tesseract path, so the
  module evidently runs where `os.path` is `ntpath`. Drive letters,
  backslash separators and UNC paths are not modelled.
- ProjectRoot.StartOf: the `NameError` fallback to `os.getcwd()` at
  compare_images.py:139-140 is not modelled. `__file__` is defined whenever
  the module is imported from a file, and the module directory is a
  parameter.
- `custom_libs/browserstack_connection_helper.py`, `browserstackExecutor.js`,
  `listeners/simple_logger.py` and `tests/test.py` are not part of this
  model. They are network, tunnel, browser and test-harness plumbing.
- `draw_bboxes` and `overlay_mask` leave the caller's image unmodified.
  This holds by construction: images are values. Only the colour layer's
  in-place write is modelled on an array.
