# t-r-c-f screenshot pipeline, modelled in Dafny

t-r-c-f is a browser tool. It turns screenshots of game results into records: rank, grade, score, play time, coin or side grade, and the characters fielded. This project models the deterministic logic between the tool's canvas, Tesseract and ONNX calls. Those calls become inputs: OCR strings, RGBA byte sequences and embedding vectors.

The model covers:

- **OCR field parsers** (`function.js`), with the duration repair rules. The five-pattern grade extractor (`extractGradeRobust`) is in `ocrFunction.js`.
- **In-place pixel filters** (`invertColors`, `applyBinarization`, `preprocessCanvas`, `applyAdaptiveBinarization`). Each is a method over an `array<Byte>`, proved against a function on the old contents.
- **Rectangle tables** of `sliceCells.js`.
- **Colour disambiguator** (`colorCompareFunction.js`) and **digit template matcher** (`template.js`). Both are arg-min scans with first-wins ties.
- **The two processing components** (`ProcessFrontierComponent.js`, `ProcessClashV2Component.js`). Each is a class whose `HandleFiles` loop appends one record per file. It writes the debug map through an ordered list of `setResultDebug` writes. The model covers:
  - reconstruction of the reference store;
  - the best-match scan and acceptance threshold;
  - the 우로스 colour branch;
  - rank derivation;
  - the rank-inversion, malformed-record, coin and low-similarity flags.
- **The embedding builder** (`ConvertJsonComponent.js`): output-key probing, the label taken from the file name, the skip-on-failure accumulation, and the order in which `embeddings.json` lists the names.
- **The slicing tool** (`ImageSliceComponent.js`): type dispatch and per-file error entries, including the `undefined` error a failed image load leaves.

Behaviour worth knowing:

- **Rank inversion.** One message is written, under the earlier record's rank only. The record it compares with is `results[rank - 1]` of the list shown when the files were selected, and `rank - 1` is the file's own position.
- **Frontier low-similarity entry.** The Frontier component writes it for every cell whatever its score. The ClashV2 code writes it for every cell at or below 0.935, accepted or not.
- **Checks that throw.** In the Frontier component, the lookup of `results[rank - 1]` throws when that index lies outside the list, and the file then gets the placeholder.
- **ClashV2 flags.** The ClashV2 record has no `coin`, so its coin check never fires. Its grade is a number, so the length test never fires either.
- **Score and coin.** Unreadable text yields `NaN`, never `null`, so it is never flagged as malformed.
- **Reference order.** `embeddings.json` lists names in JavaScript property order: names that are array indices ("7") in ascending value first, then the others in the order their first picture succeeded. Re-storing a name keeps its place. The processing components read the file back with `Object.entries` in that same order, and on equal scores the best-match scan keeps the earliest reference, so this order breaks ties.

## Model

| member | source | states |
|---|---|---|
| JsBuiltins.RunEnd | src/utils/function.js:16 | the longest run of matching characters from a position: every character in it matches and the one after it does not |
| JsBuiltins.NatToDecimal | src/utils/template.js:50 | `num.toString()` is a non-empty string of digits |
| JsBuiltins.DecimalRoundTrip | src/utils/template.js:50 | printing a number in decimal and reading it back gives the number |
| JsBuiltins.ParseIntOfDigits | src/utils/function.js:18 | `parseInt` of a non-empty digit string is its decimal value |
| JsBuiltins.ParseIntNaN | src/utils/function.js:91 | `parseInt` is NaN exactly when no digit follows the leading white space and optional sign |
| JsBuiltins.RoundRatioBounds | src/utils/colorCompareFunction.js:22-24 | `Math.round(a / b)` of a ratio between two integers stays between them |
| JsBuiltins.ClampToByte | src/utils/ocrFunction.js:12 | storing into a clamped byte array gives 0 at or below 0, 255 at or above 255, and otherwise a byte within one half of the value |
| JsBuiltins.RemoveAll | src/utils/function.js:90 | `replace(/[,.]/g, '')` leaves no removed character and never lengthens the text |
| JsBuiltins.RemoveAllAbsent | src/utils/function.js:23 | removing characters that do not occur changes nothing |
| JsBuiltins.RemoveAllAppend | src/utils/function.js:97 | removal distributes over concatenation |
| JsBuiltins.BeforeFirst | src/components/ProcessFrontierComponent.js:144 | `split('_')[0]` is a prefix without the separator, ended by the separator or by the end of the text |
| JsBuiltins.FindExtension | src/components/ProcessFrontierComponent.js:166 | a position from which `\.[^<stop>]+$` matches, with '.' in `stop`, or none: `stop = {'.'}` for `/\.[^.]+$/` here, `stop = {'/', '.'}` for `/\.[^/.]+$/` at src/components/ConvertJsonComponent.js:63 |
| JsBuiltins.StripExtensionSpec | src/components/ProcessFrontierComponent.js:166 | the extension replace removes exactly the suffix from the one matching dot, and nothing when no dot matches |
| JsBuiltins.SortBy | src/utils/template.js:18 | the comparator sort keeps the length and is a permutation |
| JsBuiltins.SortBySorted | src/components/ProcessFrontierComponent.js:29 | the sort orders by the numeric key |
| JsBuiltins.SortByIdentity | src/utils/template.js:18 | a list already in key order is left as it is (stability) |
| Scan.FirstMin | src/utils/template.js:48-51 | the strict `<` scan returns a smallest element, and every earlier element is strictly larger |
| Scan.FirstMinSnoc | src/utils/colorCompareFunction.js:52-55 | one more element wins only when strictly smaller than the current best |
| Scan.FirstMinUnique | src/utils/colorCompareFunction.js:50-56 | the first-smallest position is the only one with those two properties |
| FieldParser.StageFrom | src/utils/function.js:16 | the leftmost start of a `(\d+)\s*단계` match, none before it, none at all when absent |
| FieldParser.ParseStageSpec | src/utils/function.js:14-20 | a grade is read exactly when some `<digits><spaces>단계` occurs, and is the value of the leftmost such digit run |
| FieldParser.ParseStageExamples | src/utils/function.js:166-169 | "12단계" gives 12, "x 7 단계" gives 7, "단계" gives null |
| FieldParser.ClockColon | src/utils/function.js:105 | where the colon of an `M:SS`/`MM:SS` reading sits, or that neither shape matches |
| FieldParser.DurationOf | src/utils/function.js:105-141 | a play time, when read, is at most 99*60+99 = 6039 seconds |
| FieldParser.ParseDuration | src/utils/function.js:105-141 | the play-time reading of `parseFrontierInfo` and `parseClashV2Info`: clock shape first, then three or four digits; at most 6039 seconds |
| FieldParser.ParseClashDuration | src/utils/function.js:21-64 | the play-time reading of `parseClashInfo`: `@` removed for the clock shape only; at most 6039 seconds |
| FieldParser.DurationFoundIff | src/utils/function.js:119-140 | a play time is read exactly when the clock shape or the 3-4 digit shape matches |
| FieldParser.ClockRoundTrip | src/utils/function.js:105-116 | "MM:SS" reads back as MM*60+SS |
| FieldParser.ShortClockRoundTrip | src/utils/function.js:105-116 | "M:SS" with a one-digit minute reads back as M*60+SS |
| FieldParser.ClockShortSeconds | src/utils/function.js:105-116 | "MM:S" with a minute other than "00" reads as MM*60+S, with no 10 added |
| FieldParser.CompactRoundTrip | src/utils/function.js:134-139 | "MMSS" reads back as MM*60+SS |
| FieldParser.TeenSecondsRule | src/utils/function.js:113-115 | "00:d" and "00d" give 10+d, while "0:d" gives d |
| FieldParser.ThreeDigitRule | src/utils/function.js:119-139 | three digits not starting with "00" read as one minute digit and two second digits: "d1d2d3" is 60·d1 + 10·d2 + d3 |
| FieldParser.DurationExamples | src/utils/function.js:105-141 | "1:05" is 65, "123" is 83, "0173" is 133, "1234" is 754, "1:2:3" is null |
| FieldParser.ClashDurationWithAt | src/utils/function.js:23-41 | with an `@` in the text only the cleaned clock shape can succeed, because the 3-4 digit test reads the uncleaned text |
| FieldParser.ClashDurationWithoutAt | src/utils/function.js:21-63 | without an `@`, `parseClashInfo` reads play time like the other parsers |
| FieldParser.ClashDurationCleansClock | src/utils/function.js:22-38 | "00@:42" gives 42 |
| FieldParser.ClashDurationKeepsCompactAt | src/utils/function.js:41 | "0@28" gives null although "028" gives 28 |
| FieldParser.CompactWithoutAt | src/utils/function.js:124-133 | "028" takes the three-digit branch and gives 28 |
| FieldParser.CountRoundTrip | src/utils/function.js:90-91 | a printed count reads back as itself |
| FieldParser.CountIgnoresSeparator | src/utils/function.js:90 | a `,` or `.` anywhere does not change the score or coin |
| FieldParser.CountExamples | src/utils/function.js:88-98 | "1,234" is 1234, "12.5" is 125, "" is NaN (never null) |
| FieldParser.ParseClashInfo | src/utils/function.js:8-67 | the definition of `parseClashInfo`: the stage of region 1 and the `@`-cleaned play time of region 2, at most 6039 seconds |
| FieldParser.ClashInfoSpec | src/utils/function.js:8-67 | `parseClashInfo`: grade iff a stage occurs; duration at most 6039; the `@` rule |
| FieldParser.ParseFrontierInfo | src/utils/function.js:70-148 | the definition of `parseFrontierInfo`: grade by `extractGradeRobust`, score and coin by the separator-free count, play time at most 6039 seconds |
| FieldParser.FrontierInfoSpec | src/utils/function.js:70-148 | `parseFrontierInfo`: grade iff a Hangul syllable precedes 맛, in grade shape; duration bound; printed score and coin read back |
| FieldParser.ParseClashV2Info | src/utils/function.js:156-226 | the definition of `parseClashV2Info`: two stages, the score and a play time of at most 6039 seconds |
| FieldParser.ClashV2InfoSpec | src/utils/function.js:156-226 | `parseClashV2Info`: both stages found iff present; duration and score as `parseFrontierInfo` reads them |
| GradeExtractor.TrailingDigitStart | src/utils/ocrFunction.js:201 | `replace(/\d+$/, '')` cuts exactly the trailing digit run |
| GradeExtractor.FirstDigitFrom | src/utils/ocrFunction.js:204 | the leftmost digit, with no digit before it, or none at all |
| GradeExtractor.GradeDigit | src/utils/ocrFunction.js:204-205 | the grade digit is always a digit ("1" by default) |
| GradeExtractor.MatTailWitness | src/utils/ocrFunction.js:180-192 | a successful tail has its 맛 inside the group |
| GradeExtractor.MatTailFinds | src/utils/ocrFunction.js:183 | a 맛 in range makes the tail succeed for the digit-optional patterns |
| GradeExtractor.GroupWitness | src/utils/ocrFunction.js:180-192 | a matched group is Hangul syllables up to a 맛, then digits |
| GradeExtractor.GroupFinds | src/utils/ocrFunction.js:183-189 | a Hangul run ending in 맛 is a group for the digit-optional patterns |
| GradeExtractor.SearchWitness | src/utils/ocrFunction.js:196 | a found match comes from some start position |
| GradeExtractor.SearchFinds | src/utils/ocrFunction.js:196 | a match at any start makes the search succeed |
| GradeExtractor.CaptureWitness | src/utils/ocrFunction.js:198 | every capture is Hangul syllables ending in 맛, then digits |
| GradeExtractor.BareMatchesIff | src/utils/ocrFunction.js:189 | the bracket-less pattern matches exactly when a Hangul syllable precedes 맛 |
| GradeExtractor.TryPatternsSome | src/utils/ocrFunction.js:195-209 | the loop returns a value exactly when some pattern matches |
| GradeExtractor.ExtractGradeRobust | src/utils/ocrFunction.js:176-212 | the definition of `extractGradeRobust`: the five patterns tried in order, the first match deciding |
| GradeExtractor.ExtractFindsIff | src/utils/ocrFunction.js:176-212 | non-null exactly when a Hangul syllable precedes 맛 |
| GradeExtractor.TryPatternsSnoc | src/utils/ocrFunction.js:195-209 | a last pattern that only matches where an earlier one does never decides |
| GradeExtractor.MisreadNeverDecides | src/utils/ocrFunction.js:192 | pattern 5 never decides the result |
| GradeExtractor.TrailingDigitsOfCapture | src/utils/ocrFunction.js:201 | on Hangul plus digits, the trailing digits start right after the Hangul |
| GradeExtractor.FirstDigitOfCapture | src/utils/ocrFunction.js:204 | on Hangul plus digits, the first digit is the first of the digit run |
| GradeExtractor.FinishCapture | src/utils/ocrFunction.js:200-207 | the result is the Hangul part plus the first captured digit, or "1" when there is none |
| GradeExtractor.CaptureFinishIsGrade | src/utils/ocrFunction.js:198-207 | every pattern's finished capture is Hangul ending in 맛 plus one digit |
| GradeExtractor.ExtractGradeShape | src/utils/ocrFunction.js:176-212 | a non-null result is Hangul syllables ending in 맛, followed by a single digit |
| GradeExtractor.FirstMatching | src/utils/ocrFunction.js:195-208 | the first matching pattern decides, with its finished capture |
| GradeExtractor.ExtractBracketed | src/utils/ocrFunction.js:180 | "[용암맛2]" gives "용암맛2" |
| GradeExtractor.ExtractOpenOnly | src/utils/ocrFunction.js:183 | "[용암맛" gives "용암맛1" |
| GradeExtractor.ExtractCloseOnly | src/utils/ocrFunction.js:186 | "용암맛23]" gives "용암맛2" |
| GradeExtractor.NoBracketNoOpen | src/utils/ocrFunction.js:180-183 | the two `[` patterns need a `[` in the text |
| GradeExtractor.ExtractNone | src/utils/ocrFunction.js:211 | "abc" gives null |
| PixelFilters.InvertColors | src/utils/ocrFunction.js:29-41 | the buffer becomes its inversion, in place |
| PixelFilters.InvertInvolution | src/utils/ocrFunction.js:34-39 | each colour byte v becomes 255-v, alpha is unchanged, and inverting twice restores the buffer |
| PixelFilters.PaintGrey | src/utils/ocrFunction.js:98-102 | the shared grey-repaint loop leaves the painted buffer |
| PixelFilters.PaintedShape | src/utils/ocrFunction.js:18-22 | with a two-tone shade every pixel has R=G=B in {0,255}, and alpha is kept |
| PixelFilters.PaintedAlpha | src/utils/ocrFunction.js:21 | repainting never touches alpha |
| PixelFilters.PaintedFixes | src/utils/ocrFunction.js:18-22 | repainting a black-and-white buffer with a shade that keeps black and white changes nothing |
| PixelFilters.ApplyBinarization | src/utils/ocrFunction.js:93-105 | the buffer becomes its binarization, in place |
| PixelFilters.BinarizedShape | src/utils/ocrFunction.js:98-102 | every pixel has R=G=B in {0,255}, alpha is kept, and repeating it is idempotent for thresholds in [0,255) |
| PixelFilters.GrayOfIsStoredLuma | src/utils/ocrFunction.js:11-12 | the integer grey level equals the Rec. 709 luma stored into the clamped array |
| PixelFilters.GrayOfExtremes | src/utils/ocrFunction.js:11-12 | black stays 0 and white stays 255 |
| PixelFilters.PreprocessCanvas | src/utils/ocrFunction.js:2-25 | the buffer becomes grey-scaled then thresholded at 0.5*255, in place |
| PixelFilters.PreprocessedShape | src/utils/ocrFunction.js:9-22 | the result is black and white, alpha is kept, and a second application changes nothing |
| PixelFilters.PixelInBounds | src/utils/ocrFunction.js:123 | the byte offset of an in-bounds pixel lies in the buffer |
| PixelFilters.RowCountPositive | src/utils/ocrFunction.js:120-127 | a window row containing the pixel's column counts at least one pixel |
| PixelFilters.WindowCountFrom | src/utils/ocrFunction.js:119-128 | window rows containing the pixel's row count at least one pixel |
| PixelFilters.WindowCountPositive | src/utils/ocrFunction.js:118-129 | the window dx,dy in [-8,7] always holds the pixel itself, so count >= 1 |
| PixelFilters.AdaptiveValue | src/utils/ocrFunction.js:131 | the new value is 0 or 255 |
| PixelFilters.RowDoneNext | src/utils/ocrFunction.js:116 | one more pixel of the row is one more step on the buffer as it then is (row-major, in place) |
| PixelFilters.SetPixelKeeps | src/utils/ocrFunction.js:132 | setting a pixel to black or white extends the binary prefix and keeps alpha |
| PixelFilters.StepKeeps | src/utils/ocrFunction.js:129-132 | one step extends the binary prefix by its pixel |
| PixelFilters.RowDoneKeeps | src/utils/ocrFunction.js:116-133 | a row prefix extends the binary prefix |
| PixelFilters.RowInBounds | src/utils/ocrFunction.js:130 | a row's pixels lie in the buffer |
| PixelFilters.RowsDoneKeeps | src/utils/ocrFunction.js:115-134 | after y rows their pixels are black or white and alpha is untouched |
| PixelFilters.AdaptiveShape | src/utils/ocrFunction.js:107-137 | the result is R=G=B in {0,255} everywhere, with alpha unchanged |
| PixelFilters.ApplyAdaptiveBinarization | src/utils/ocrFunction.js:107-137 | the buffer becomes the row-major in-place pass, in which later windows read already binarized red bytes |
| PixelFilters.BinarizeRow | src/utils/ocrFunction.js:116-133 | the loop over x does the row in order |
| PixelFilters.BinarizePixel | src/utils/ocrFunction.js:117-132 | the loop body binarizes one pixel against its window mean minus 8 |
| PixelFilters.SumWindow | src/utils/ocrFunction.js:118-128 | the two inner loops sum the in-bounds red bytes and count them |
| PixelFilters.SumRow | src/utils/ocrFunction.js:120-127 | the innermost loop adds one window row |
| SliceCells.MapRow | src/utils/sliceCells.js:28-34 | a row maps to rects numbered from its base, with its positions and the fixed size |
| SliceCells.SliceClashCells | src/utils/sliceCells.js:2-45 | the definition of `sliceClashCells`: two rows mapped to nine rects |
| SliceCells.ClashTable | src/utils/sliceCells.js:27-42 | all 60x49, indices 1..9 in order, 1-5 at y=22, 6-9 at y=93 |
| SliceCells.ClashNoOverlap | src/utils/sliceCells.js:8-24 | no two Clash cells overlap |
| SliceCells.SliceFrontierCells | src/utils/sliceCells.js:47-90 | the definition of `sliceFrontierCells`: two rows mapped to nine rects, the second still numbered from 6 |
| SliceCells.FrontierTable | src/utils/sliceCells.js:50-88 | all 66x54, six at y=22 and three at y=101, indices 1,2,3,4,5,6,6,7,8 |
| SliceCells.FrontierDuplicateIndex | src/utils/sliceCells.js:75-82 | index 6 labels two different cells and 9 labels none |
| SliceCells.FrontierNoOverlap | src/utils/sliceCells.js:54-70 | no two Frontier cells overlap |
| ColorCompare.AverageColor | src/utils/colorCompareFunction.js:1-26 | the value `getAverageColor` returns: null when no pixel has alpha above 128, else each channel's `Math.round` mean |
| ColorCompare.GetAverageColor | src/utils/colorCompareFunction.js:1-26 | the loop computes the alpha-filtered rounded mean, or null |
| ColorCompare.TallyCountZero | src/utils/colorCompareFunction.js:10-17 | nothing is counted exactly when no pixel has alpha above 128 |
| ColorCompare.AverageNoneIff | src/utils/colorCompareFunction.js:19 | null exactly when no pixel has alpha > 128 |
| ColorCompare.TallyBounds | src/utils/colorCompareFunction.js:10-17 | the channel sums lie between count*min and count*max |
| ColorCompare.SumStep | src/utils/colorCompareFunction.js:12-15 | adding a value within bounds keeps the sum within the bounds of one more value |
| ColorCompare.AverageWithin | src/utils/colorCompareFunction.js:21-25 | each channel lies between the smallest and largest counted value |
| ColorCompare.AverageInByteRange | src/utils/colorCompareFunction.js:21-25 | each channel is in 0..255 |
| ColorCompare.AverageOfUniform | src/utils/colorCompareFunction.js:21-25 | a region of one colour averages to that colour |
| ColorCompare.Alpha128Excluded | src/utils/colorCompareFunction.js:11 | alpha = 128 is not counted |
| ColorCompare.Alpha129Counted | src/utils/colorCompareFunction.js:11-25 | alpha = 129 is counted, and one pixel is its own mean |
| ColorCompare.Distance2 | src/utils/colorCompareFunction.js:29-34 | the squared distance is non-negative and zero exactly for equal colours |
| ColorCompare.GetClosestAttribute | src/utils/colorCompareFunction.js:36-62 | the `forEach` scan gives null for null, else the first nearest name |
| ColorCompare.ClosestIsNearest | src/utils/colorCompareFunction.js:47-61 | a non-null colour always gets a name (no cut-off); its distance is minimal and every earlier attribute is strictly farther |
| ColorCompare.ReferenceColorsClassify | src/utils/colorCompareFunction.js:39-45 | each reference colour is classified as its own attribute |
| Template.DiffZeroIff | src/utils/template.js:40-46 | the difference is 0 exactly when R, G and B agree everywhere; alpha is ignored |
| Template.TemplateStore.constructor | src/utils/template.js:7 | no templates before loading |
| Template.TemplateStore.LoadTemplates | src/utils/template.js:9-19 | `templateImages[k]` is the picture of `NUM_PATHS[k]` |
| Template.TemplateStore.Diffs | src/utils/template.js:30-46 | one difference per template |
| Template.TemplateStore.MatchDigit | src/utils/template.js:21-55 | the nested loops return the best number of the template differences |
| Template.PixelDiff | src/utils/template.js:40-46 | the inner loop sums abs R, G and B differences |
| Template.BestNumber | src/utils/template.js:27-54 | the value `matchDigit` returns for the template differences: always a non-empty decimal string |
| Template.BestNumberSpec | src/utils/template.js:27-54 | "0" without templates; otherwise the index of a minimal difference with ties to the lowest index |
| Template.IdenticalTemplateWins | src/utils/template.js:30-51 | a template identical in colour to the target wins unless an earlier one is too |
| Template.BestNumberReadsBack | src/utils/template.js:50 | the answer parses back to the chosen index, which is below the template count |
| Matcher.RefVectorOrder | src/components/ProcessFrontierComponent.js:28-30 | the vector lists the values in ascending numeric key order |
| Matcher.RefVectorNumericOrder | src/components/ProcessFrontierComponent.js:29 | key "10" follows key "9" |
| Matcher.LoadRefs | src/components/ProcessFrontierComponent.js:27-35 | one reference per JSON entry, with its name and its numerically ordered vector |
| Matcher.DotProduct | src/components/ProcessFrontierComponent.js:153-154 | the loop computes the dot product over the stored length, or none when the query is shorter |
| Matcher.BestMatch | src/components/ProcessFrontierComponent.js:151-156 | the scan's result is the best match |
| Matcher.BestOf | src/components/ProcessFrontierComponent.js:139-143 | the definition of the best-match scan: `{-1, ''}` replaced by each reference whose dot product is strictly larger, in store order |
| Matcher.BestOfProps | src/components/ProcessFrontierComponent.js:139-143 | the score is at least -1, no reference beats it, and it belongs to the earliest reference reaching it |
| Matcher.BestOfSpec | src/components/ProcessFrontierComponent.js:139-142 | `{-1,''}` remains exactly when no reference scores above -1; otherwise the winner is the earliest maximal reference |
| Matcher.Accept | src/components/ProcessFrontierComponent.js:158 | a label exactly when the best score is >= 0.8 |
| Matcher.CompactAppend | src/components/ProcessFrontierComponent.js:161 | the filter keeps order |
| Matcher.CompactMembers | src/components/ProcessFrontierComponent.js:161 | exactly the non-null names are kept |
| Matcher.RankOf | src/components/ProcessFrontierComponent.js:166-168 | a rank, when present, is idx+1 |
| Matcher.RankExamples | src/components/ProcessFrontierComponent.js:166-168 | "7.png" at position 0 gets rank 1 (the number is unused); "shot.png" gets null |
| Matcher.ApplyWritesAppend | src/components/ProcessFrontierComponent.js:187-190 | writes compose in order |
| Matcher.ApplyWritesSnoc | src/components/ProcessFrontierComponent.js:203-206 | one more write updates the map the earlier ones left |
| Matcher.ApplyWritesKeys | src/components/ProcessFrontierComponent.js:213-216 | a key is present iff it was before or was written, and the last write wins |
| ProcessFrontier.AnalyseFields | src/components/ProcessFrontierComponent.js:106-177 | the record holds the parsed fields; rank present iff the base name parses, then idx+1; `arr` holds exactly the labels of cells scoring >= 0.8 |
| ProcessFrontier.ArrMembers | src/components/ProcessFrontierComponent.js:150-161 | `arr` has at most one label per cell and holds a label exactly when some cell's best score reaches 0.8 with that label |
| ProcessFrontier.FrontierFile | src/components/ProcessFrontierComponent.js:100-249 | the definition of one iteration of the `handleFiles` loop: the analysed record and its checks, or the placeholder of the `catch` |
| ProcessFrontier.PlaceholderIff | src/components/ProcessFrontierComponent.js:196-249 | the placeholder is pushed exactly when the analysis threw or the lookup `results[rank-1]` fell outside the shown list |
| ProcessFrontier.LowSimAlwaysWritten | src/components/ProcessFrontierComponent.js:182-193 | every cell's low-similarity entry is written first, under the file's rank, whatever its score |
| ProcessFrontier.FinishSplits | src/components/ProcessFrontierComponent.js:180-234 | the writes are the logging pass, then the three checks unless the lookup threw |
| ProcessFrontier.InversionIff | src/components/ProcessFrontierComponent.js:196-210 | inversion fires iff prev.rank is set and below rank, and prev.score < score (NaN never less), keyed by prev.rank |
| ProcessFrontier.MalformedIff | src/components/ProcessFrontierComponent.js:211-218 | fires iff the grade is null or shorter than 4 (a NaN score is not flagged), keyed by rank |
| ProcessFrontier.LowCoinIff | src/components/ProcessFrontierComponent.js:227-234 | fires iff coin < 1000 (NaN is not flagged), keyed by rank |
| ProcessFrontier.CoinMessageWins | src/components/ProcessFrontierComponent.js:211-234 | a low-coin message replaces the null message under the same key |
| ProcessFrontier.BatchRecords | src/components/ProcessFrontierComponent.js:100-250 | one record per file |
| ProcessFrontier.BatchStep | src/components/ProcessFrontierComponent.js:237-250 | each file appends exactly its own record |
| ProcessFrontier.InversionOnlyInChecks | src/components/ProcessFrontierComponent.js:180-210 | inversion messages come only from the check, never from the logging pass |
| ProcessFrontier.SimsOf | src/components/ProcessFrontierComponent.js:138-145 | the `sims` loop yields every cell's best match, in order |
| ProcessFrontier.NamesOf | src/components/ProcessFrontierComponent.js:150-159 | the `names` loop yields each cell's label exactly when its score reaches 0.8 |
| ProcessFrontier.RerunFile | src/components/ProcessFrontierComponent.js:196-210 | a file compared with its own earlier record produces that record again and no inversion |
| ProcessFrontier.FirstBatch | src/components/ProcessFrontierComponent.js:196 | with nothing shown, only failed files get the placeholder and no inversion is flagged |
| ProcessFrontier.RerunNeverInverts | src/components/ProcessFrontierComponent.js:196-210 | re-selecting the same files compares each with its own record: same records, no inversion |
| ProcessFrontier.FrontierComponent.constructor | src/components/ProcessFrontierComponent.js:15-18 | the initial empty state |
| ProcessFrontier.FrontierComponent.LoadEmbeddings | src/components/ProcessFrontierComponent.js:19-40 | the store becomes the loaded references; a failed fetch leaves it unchanged |
| ProcessFrontier.FrontierComponent.HandleFiles | src/components/ProcessFrontierComponent.js:93-254 | no session: nothing changes; otherwise one record per file, the debug writes applied in order, progress (n, n), file names listed |
| ProcessFrontier.FrontierComponent.ProcessFile | src/components/ProcessFrontierComponent.js:106-253 | the try block or its placeholder, and that file's debug writes |
| ProcessFrontier.FrontierComponent.AnalyseFile | src/components/ProcessFrontierComponent.js:106-177 | the analysed record and best matches |
| ProcessFrontier.FrontierComponent.FinishFile | src/components/ProcessFrontierComponent.js:180-238 | the logging pass, lookup and checks |
| ProcessFrontier.FrontierComponent.LogSimilarities | src/components/ProcessFrontierComponent.js:180-194 | one write per cell |
| ProcessFrontier.FrontierComponent.RunChecks | src/components/ProcessFrontierComponent.js:196-234 | the three checks' writes in order |
| ProcessClashV2.CellNamesSpec | src/components/ProcessClashV2Component.js:145-183 | names are computed exactly when no needed colour strip fails, one per cell in order |
| ProcessClashV2.CellNameSpec | src/components/ProcessClashV2Component.js:153-182 | below 0.8: null; non-우로스: the label; 우로스: label(attr) with the nearest attribute, or the label when no pixel is opaque |
| ProcessClashV2.LowSimWritesSpec | src/components/ProcessClashV2Component.js:207-214 | a write exactly for each cell with score <= 0.935 |
| ProcessClashV2.ClashV2File | src/components/ProcessClashV2Component.js:86-275 | the definition of one iteration of the `handleFiles` loop: the analysed record and its checks, or the placeholder of the `catch` |
| ProcessClashV2.ClashV2FileSpec | src/components/ProcessClashV2Component.js:92-275 | placeholder iff the analysis threw or a needed strip failed; else the parsed fields, the rank and exactly the recognised names |
| ProcessClashV2.LowSimIff | src/components/ProcessClashV2Component.js:207-214 | the low-similarity writes are exactly those of the cells scoring <= 0.935 |
| ProcessClashV2.InversionIff | src/components/ProcessClashV2Component.js:221-235 | inversion fires iff the record at rank-1 exists, is not the placeholder, has a lower rank and a smaller score; an absent record never throws |
| ProcessClashV2.MalformedIff | src/components/ProcessClashV2Component.js:236-243 | fires iff the grade is null; no coin message exists |
| ProcessClashV2.BatchRecords | src/components/ProcessClashV2Component.js:86-279 | one record per file |
| ProcessClashV2.BatchStep | src/components/ProcessClashV2Component.js:262-275 | each file appends exactly its own record |
| ProcessClashV2.RecordIgnoresSnapshot | src/components/ProcessClashV2Component.js:221-235 | a file's record never depends on the shown list |
| ProcessClashV2.ClashV2Component.constructor | src/components/ProcessClashV2Component.js:10-19 | the initial empty state |
| ProcessClashV2.ClashV2Component.LoadEmbeddings | src/components/ProcessClashV2Component.js:20-40 | the store becomes the loaded references; a failed fetch leaves it unchanged |
| ProcessClashV2.ClashV2Component.HandleFiles | src/components/ProcessClashV2Component.js:79-279 | no session: nothing changes; otherwise one record per file and the writes in order |
| ProcessClashV2.ClashV2Component.ProcessFile | src/components/ProcessClashV2Component.js:92-278 | the try block or its placeholder |
| ProcessClashV2.ClashV2Component.AnalyseFile | src/components/ProcessClashV2Component.js:93-202 | the analysis, or a throw from any cell |
| ProcessClashV2.ClashV2Component.FinishFile | src/components/ProcessClashV2Component.js:204-243 | the logging pass, lookup and null check |
| ProcessClashV2.ClashV2Component.LogSimilarities | src/components/ProcessClashV2Component.js:206-215 | the debug map afterwards is the old one with exactly the low-similarity writes applied in cell order |
| ProcessClashV2.NameCell | src/components/ProcessClashV2Component.js:146-182 | one cell of the async map |
| ProcessClashV2.CellNamesPrefix | src/components/ProcessClashV2Component.js:145 | once a cell throws, `Promise.all` throws |
| ConvertJson.FirstPresent | src/components/ConvertJsonComponent.js:46-52 | a present candidate key, or none exactly when no candidate is present |
| ConvertJson.FirstPresentIsFirst | src/components/ConvertJsonComponent.js:46-51 | the key found is the earliest present candidate |
| ConvertJson.ProbeOutputs | src/components/ConvertJsonComponent.js:43-56 | the loop with `break` takes the first present output |
| ConvertJson.ProbeOrder | src/components/ConvertJsonComponent.js:44-56 | priority image_embeds, image_embeddings, last_hidden_state, pooler_output; none present throws |
| ConvertJson.CharacterNameSpec | src/components/ConvertJsonComponent.js:63 | only a final `.ext` without `/` or `.` is removed |
| ConvertJson.CharacterNameExamples | src/components/ConvertJsonComponent.js:63 | "Alice.png" is "Alice", "a.b.png" is "a.b", "Alice." and "x.dir/Alice" stay |
| ConvertJson.SingleEmbedding | src/components/ConvertJsonComponent.js:26-77 | succeeds iff the file loads and an output is found, under the extension-stripped name |
| ConvertJson.Accumulate | src/components/ConvertJsonComponent.js:95-113 | the definition of `newEmbeddings` after the loop: each success stored under its name in file order, each failure skipped |
| ConvertJson.AccumulateKeys | src/components/ConvertJsonComponent.js:95-113 | a name is a key iff some file succeeded under it |
| ConvertJson.AccumulateLastWins | src/components/ConvertJsonComponent.js:103 | a later file with the same label overwrites |
| ConvertJson.FailureSkipped | src/components/ConvertJsonComponent.js:110-113 | a failing file leaves the map as it was |
| ConvertJson.AccumulateEmptyIff | src/components/ConvertJsonComponent.js:95-119 | the map is empty iff every file failed |
| ConvertJson.InsertionOrder | src/components/ConvertJsonComponent.js:95-113 | the definition of the creation order of `newEmbeddings`' keys: a name enters at its first success, and a re-store keeps its place |
| ConvertJson.InsertionOrderKeys | src/components/ConvertJsonComponent.js:95-113 | each name is created once, and the created names are exactly the keys |
| ConvertJson.GenerateStep | src/components/ConvertJsonComponent.js:101-113 | one file: a failure changes nothing; a success stores its vector and creates its name unless already a key |
| ConvertJson.RestoreKeepsPlace | src/components/ConvertJsonComponent.js:103 | a later success under an existing name overwrites the vector and keeps the key's position |
| ConvertJson.PropertyOrder | src/components/ConvertJsonComponent.js:138 | the order `JSON.stringify` writes keys: array indices ascending, then the others in creation order; a permutation of the created keys |
| ConvertJson.PropertyOrderMembers | src/components/ConvertJsonComponent.js:138 | every created key is written, and each once when each was created once |
| ConvertJson.PropertyOrderIndicesFirst | src/components/ConvertJsonComponent.js:138 | every array-index key comes before every other key, and the array-index keys are in ascending value |
| ConvertJson.PropertyOrderKeepsOthers | src/components/ConvertJsonComponent.js:138 | keys that are not array indices keep their creation order |
| ConvertJson.WrittenOrder | src/components/ConvertJsonComponent.js:95-138 | after a generation the file lists exactly the names some file succeeded under, each once |
| ConvertJson.ConvertJsonComponent.constructor | src/components/ConvertJsonComponent.js:7-10 | the initial empty state, with no keys created |
| ConvertJson.ConvertJsonComponent.HandleFileSelect | src/components/ConvertJsonComponent.js:14-23 | a new selection clears the embeddings and their key order, and resets progress to (0, n) |
| ConvertJson.ConvertJsonComponent.GenerateAllEmbeddings | src/components/ConvertJsonComponent.js:80-128 | no session or no files: nothing changes; otherwise the accumulated map with its keys in creation order, progress (n, n), processing off; each key listed once |
| ConvertJson.ConvertJsonComponent.DownloadEmbeddings | src/components/ConvertJsonComponent.js:131-156 | refuses exactly an empty object; otherwise the entries `JSON.stringify` writes, one per key, each with its vector, in property order |
| ConvertJson.GenerateSingleEmbedding | src/components/ConvertJsonComponent.js:26-77 | one file's name and embedding, or a throw |
| ConvertJson.DownloadAfterGenerate | src/components/ConvertJsonComponent.js:131-135 | after generation a download happens iff at least one file succeeded |
| ImageSlice.RectsFor | src/components/ImageSliceComponent.js:30-45 | the four known types map to their tables; any other type throws |
| ImageSlice.ImageSliceComponent.constructor | src/components/ImageSliceComponent.js:6-7 | the initial empty state |
| ImageSlice.ImageSliceComponent.HandleImageSlice | src/components/ImageSliceComponent.js:10-71 | an empty selection touches nothing; otherwise the entries replace the shown ones and loading is off; the entries are one per file in order: cells when the file loads and the type is known, an `undefined` error when the load fails, the unknown-type message otherwise |
| ImageSlice.SliceOne | src/components/ImageSliceComponent.js:21-63 | the try block for one file, or its catch entry: `error` is `undefined` after a failed load (the rejection is an event without `message`) and the unknown-type message after the default branch |
| ImageSlice.EntriesSpec | src/components/ImageSliceComponent.js:21-63 | each entry names its file; `error` is `undefined` iff the load failed; an error message iff the file loaded and the type is unknown, and it is `Unknown slice type: <type>`; error text is shown exactly in that case; entries with an error property have no cells |
| ImageSlice.LoadedFileCells | src/components/ImageSliceComponent.js:47-57 | x, y, w, h and index equal the rect's |
| ImageSlice.ClashCellIndices | src/components/ImageSliceComponent.js:31-33 | Clash cells are indexed 1..9 in order |
| ImageSlice.FrontierCellIndices | src/components/ImageSliceComponent.js:57 | Frontier cells carry 1,2,3,4,5,6,6,7,8, not their positions |
| ImageSlice.UnknownTypeAllErrors | src/components/ImageSliceComponent.js:43-63 | with an unknown type no file gets cells; each loaded file gets the message naming the type, which is shown, and each file that fails to load gets `undefined`, which is not |

## Left out

- Canvas, `Image`, URL, Tesseract and ONNX calls are not modelled. Their outputs are inputs: OCR strings, RGBA bytes, embedding vectors, a `crop` or `draw` function, or an `Attempt` that is `Threw` when the call fails.
- `src/utils/embeddingFunction.js`, `applyPreprocessing` and `applyPreprocessingV2` are not part of this model. They depend on canvas blur, smoothing and float tensors.
- IEEE floating point is not modelled. Similarity scores and luma values are exact reals, so near-threshold rounding is not captured. The model claims only ordering facts and the 0/255 output shape.
- ColorCompare.Distance2: compares squared distances instead of `Math.sqrt`. The square root is increasing, so the arg-min is the same.
- JsBuiltins.ParseInt: yields exact integers. The loss of precision above 2^53 is not modelled.
- Matcher.LoadRefs: requires every vector key to be a decimal array index, which is what the embedding builder writes. The order of non-numeric keys under a NaN comparator is not modelled.
- ProcessFrontier.FrontierComponent.LoadEmbeddings: the same key requirement. The console log of `list[0].emb.length` is not modelled; on an empty list it throws into the `catch` after the store is already set.
- ProcessClashV2.ClashV2Component.LoadEmbeddings: the same key requirement. The console log of `list[0].emb.length` (ProcessClashV2Component.js:38) is not modelled; on an empty list it throws into the `catch` after the store is already set.
- ColorCompare.GetAverageColor: the `!ctx` branch is not modelled, because a 2d context is always available.
- ConvertJson.SingleEmbedding: stores the output data without the L2 normalisation of lines 58-60, which is float numerics.
- ConvertJson.ConvertJsonComponent.DownloadEmbeddings: yields the entries in the order they are written, not the JSON text, and the Blob and link download is not modelled. Each vector is a `Float32Array`, which `JSON.stringify` writes as an object keyed "0", "1", …; that is the shape Matcher.LoadRefs reads back.
- The `sims` and `names` passes of both components compute the same best match twice. Both are modelled with the one `BestMatch` scan.
- React state is modelled as class fields, with two simplifications:
  - `results` inside `handleFiles` is the list shown when the files were selected, passed explicitly.
  - The queued `setResultDebug` updates are an ordered list of writes.
- `Promise.all` over the cells and `batchEmbed` are treated as sequential.
- Debug strings and console output are not reproduced. Messages are datatypes holding the values the strings print.
- `sliceClashV2Cells`, `sliceClashV2SideSkills` and `ProcessClashComponent` are not part of this model. The `sliceCells.js` at hand exports only `sliceClashCells` and `sliceFrontierCells`, so the imports of the other two in `ProcessClashV2Component.js:8` and `ImageSliceComponent.js:3` do not resolve against it. The ClashV2 tables are therefore parameters, and the Clash cell table appears only through `ImageSlice`.
- `loadTemplates` never resolves when an image fails to load, because its promise has no `onerror`. The model covers only the successful load.
- UI, routing, JSX and the in-render `results.sort` are not modelled.
- An embedding label of `__proto__` would set the prototype of the JavaScript object instead of a key. The model treats it as an ordinary key.
