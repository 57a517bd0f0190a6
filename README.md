# sides-ways-pdf: the line-annotation pass, in Dafny

The service renders a production call sheet. It decodes the scene data of a rendered script into pages of `LineData` records. Before the pages go into the HTML template, `doubleCheckLinePositionsAndHiddenValuesBeforePDFGeneration` (main.go:282-336) rewrites the display flags of every line in place:

- it hides injected page breaks and shows continued lines;
- at most one line per scene keeps its bar, and only the first line that asks for it;
- it marks visible scene headers as true scenes;
- it hides the bar and the continuation marker on the END line of a started scene, and the bar and the end marker on a line of a started scene that carries a continuation marker (`cont`);
- it hides scene numbers everywhere except on scene headers.

The set of scenes already started is carried from each line to the next and from each page to the next. `contains` (main.go:338-345) is the linear search the pass uses for the exempt continuation markers. `processCallsheet` (main.go:115-126) picks how the supplied call-sheet file becomes PDF bytes, from its lower-cased extension.

The model has four modules:

- **`Lines`** (lines.dfy) holds the line record. The fields the pass never writes are split from the six flags it writes.
- **`Annotation`** (annotation.dfy) is the specification of the pass.
  - It has one function per statement group of the loop body, and `AnnotateLine` composes them in the order main.go runs them.
  - The two loops are the left folds `AnnotatePage` and `AnnotateScript`, each threading the set of started scenes.
  - The lemmas state what the pass guarantees about the whole script.
- **`AnnotationPass`** (pass.dfy) is the pass as main.go runs it.
  - It has nested loops over a sequence of arrays.
  - It rewrites each line's flags one `if` of main.go at a time and stores the line back into its slot.
  - It is proved to leave every page holding exactly what `Annotation.Annotate` computes.
- **`Callsheet`** (callsheet.dfy) holds the extension switch, with `filepath.Ext` and `strings.ToLower` written out.

## Model

| member | source | states |
|---|---|---|
| `Annotation.AnnotateLine` | main.go:288-333 | One loop-body step on a line. A line adds its own scene to the started scenes exactly when it is not an injected break, arrives with `bar == "bar"` and has a positive scene index. No other scene is ever added. The fields the pass never writes, `xPos` among them, are left unchanged. |
| `Annotation.LineBar` | main.go:289-329 | After one step `bar` is one of "bar", "hide-bar", "start-bar", "hideBar". A line keeps "bar" only if it requested a bar for a scene not yet started. An injected break never keeps a bar. |
| `Annotation.LineEnd` | main.go:318-329 | An `END` line whose scene is started once the step has run ends with `bar == "hideBar"` and `hideCont == "hideCont"`. |
| `Annotation.LineTrueScene` | main.go:310-329 | `trueScene` becomes "true-scene" exactly for a scene header that is visible at that point; otherwise it keeps its input value. A line left without a true scene and without an exempt continuation marker ends with "hideBar". A visible scene header also gets `hideEnd` and `hideCont`. |
| `Annotation.LineFlags` | main.go:289-333 | After one step `visible` is "true" for a CON'T line, else "false" for an injected break, else unchanged. `hideSceneNumberText` is "hidden" exactly for a line that has a scene number and is not a scene header, else unchanged. |
| `Annotation.AnnotatePage` | main.go:287-334 | The inner loop keeps the number of lines on the page and never forgets a started scene. |
| `Annotation.AnnotateScript` | main.go:286-335 | The outer loop keeps the number of pages and of lines per page, and never forgets a started scene. |
| `Annotation.Annotate` | main.go:282-336 | The whole pass, started with no scenes, keeps the shape of the script. |
| `Annotation.PageAppend` | main.go:287-334 | Running the inner loop over `a + b` is running it over `a`, then over `b` starting from the scenes that `a` started. |
| `Annotation.ScriptIsOnePage` | main.go:283-335 | Because the started scenes are carried across pages, the pass over the pages is the pass over all their lines read as one sequence, and both end with the same started scenes. |
| `Annotation.PageAt` | main.go:287-334 | Line `k` of a page's result is the loop body applied to input line `k`, given the scenes started by the lines before it. |
| `Annotation.ScriptAt` | main.go:286-335 | Line `i` of page `p` of the result is the loop body applied to that input line, given the scenes started by every earlier line on every page. |
| `Annotation.PageStarts` | main.go:304-306 | The scenes that a run over lines starts are exactly the scenes of its lines that request a bar. |
| `Annotation.StartedScenes` | main.go:283-306 | After the whole pass, the started scenes are exactly the scenes of the lines that request a bar, and all of them are positive. |
| `Annotation.PageBarsDistinct` | main.go:304-308 | In one run, every line left with "bar" has a positive scene that it started itself, and no two such lines share a scene. |
| `Annotation.AtMostOneBarPerScene` | main.go:304-308 | Across all pages, at most one line per scene is left with "bar", and only for positive scenes. |
| `Annotation.EndOfStartedSceneHidesBar` | main.go:318-322 | An `END` line whose scene was requested by that line or any earlier one, on any page, ends with "hideBar" and "hideCont". |
| `Annotation.AnnotateKeepsShape` | main.go:286-335 | The pass keeps the pages and the line counts, and leaves every field it never writes (the `LineInfo` part, including `xPos`) of every line as it was. |
| `Annotation.BarValuesAfterPass` | main.go:289-329 | Every line of the script ends with one of the four bar values. |
| `Annotation.NoTrueSceneHidesBar` | main.go:324-329 | Every line left without a true scene and without "CONTINUE" or "CONTINUE-TOP" ends with "hideBar". |
| `Annotation.VisibleSceneHeaders` | main.go:310-316 | Every scene header left visible is a true scene with `hideEnd` and `hideCont` set. |
| `Annotation.TrueSceneAfterPass` | main.go:310-316 | Over the script, `trueScene` is "true-scene" exactly on visible scene headers, and every other line keeps its input value. |
| `Annotation.VisibilityAfterPass` | main.go:289-302 | Over the script, `visible` is "true" on CON'T lines, else "false" on injected breaks, else unchanged. |
| `Annotation.InjectedBreaks` | main.go:289-308 | An injected break never starts a scene: the started scenes after it equal those before it. Its bar ends hidden. |
| `Annotation.SceneNumbersHidden` | main.go:331-333 | Over the script, the scene number is hidden exactly on lines that carry one and are not scene headers; elsewhere the flag is kept. |
| `AnnotationPass.Contains` | main.go:338-345 | The linear search returns true exactly when the item occurs in the slice. |
| `AnnotationPass.CheckLine` | main.go:288-333 | The imperative loop body, one `if` of main.go at a time, computes the line and the started scenes that `AnnotateLine` specifies. |
| `AnnotationPass.AnnotatePageInPlace` | main.go:287-334 | Rewriting a page array in place leaves it holding `AnnotatePage` of its old contents and returns the scenes started afterwards. |
| `AnnotationPass.DoubleCheckLinePositionsAndHiddenValuesBeforePDFGeneration` | main.go:282-336 | After the nested loops, every page array holds exactly what `Annotate` computes from the pages as they were before the call. |
| `Callsheet.Ext` | main.go:116 | The extension is a suffix of the path. |
| `Callsheet.ExtShape` | main.go:116 | A non-empty extension starts with '.' and contains no further '.' and no '/'. |
| `Callsheet.ExtEmpty` | main.go:116 | The extension is empty exactly when the last path element has no '.'. |
| `Callsheet.ExtOfLower` | main.go:116 | Lower-casing a path and then taking its extension gives the same result as taking the extension and then lower-casing it. |
| `Callsheet.Lower` | main.go:116 | `strings.ToLower` on ASCII letters. Its own ensures only give length and the per-character mapping; what it means for the switch is stated by `Callsheet.LowerIdempotent` and `Callsheet.ExtOfLower`. |
| `Callsheet.Dispatch` | main.go:118-125 | The switch on the lower-cased extension. Its properties are stated by `Callsheet.CaseInsensitive`, `Callsheet.DirectoryIrrelevant` and the four ending lemmas below. |
| `Callsheet.ProcessCallsheet` | main.go:115-126 | `processCallsheet`: the switch applied to the lower-cased extension of the path. That the outcome ignores letter case is stated by `Callsheet.CaseInsensitive`; that it ignores leading directories is stated by `Callsheet.DirectoryIrrelevant`. |
| `Callsheet.LowerIdempotent` | main.go:116 | Lower-casing twice is lower-casing once. |
| `Callsheet.CaseInsensitive` | main.go:115-126 | A lower-cased path reaches the same branch of the switch, with the same extension. |
| `Callsheet.ExtIgnoresDirectory` | main.go:116 | Directories in front of the last element do not change the extension. |
| `Callsheet.DirectoryIrrelevant` | main.go:115-126 | Directories in front of the last element do not change the branch taken or the error message. |
| `Callsheet.ExtOfSuffix` | main.go:116 | A path ending in '.' followed by characters other than '.' and '/' has that ending as its extension. |
| `Callsheet.UpperCasePdf` | main.go:118-120 | Any path ending in ".PDF" is read as a PDF file. |
| `Callsheet.MixedCaseJpeg` | main.go:121-122 | Any path ending in ".Jpeg" is converted as an image. |
| `Callsheet.TextRefused` | main.go:123-124 | Any path ending in ".txt" is refused with "unsupported file type: .txt". |
| `Callsheet.DirectoryRefused` | main.go:116-124 | A path ending in ".pdf/" has no extension and is refused with an empty extension in the message. |

## Left out

- **Float fields.** `YPos` and `EndY`, and the float parsing and division that assign them (main.go:293-298, 315, 319), are not modelled. No flag of the pass depends on them, and Dafny has no float64. `XPos`, which the pass never touches, is kept as its 64-bit pattern, so its preservation is part of `Annotation.AnnotateKeepsShape`.
- **I/O and the web layer.** HTTP routing, JSON decoding, the HTML template, chromedp rendering, `convertImageToPDF` and `mergePDFs` (pdfcpu) are not modelled. `ioutil.ReadFile` and the image conversion appear only as the `Action` that `processCallsheet` chooses.
- **Shared page storage.** `AnnotationPass.DoubleCheckLinePositionsAndHiddenValuesBeforePDFGeneration` requires the page arrays to be distinct objects. Slices decoded by `json.Unmarshal` never share backing arrays, and the model does not cover pages that alias one another.
- **Line pointer.** The Go code rewrites a line through a pointer into its page. The model copies the line into a local value, rewrites that, and stores it back into the same slot before the next line. No other code can observe the difference.
- Callsheet.Lower: lower-cases ASCII letters only. Go's `strings.ToLower` also folds other Unicode letters. No non-ASCII letter lower-cases to a letter of ".pdf", ".jpg", ".jpeg" or ".png", so the branch taken is the same, but the text of the unsupported-type message can differ for such names.
- Callsheet.Ext: treats only '/' as a separator, as `filepath.Ext` does on Unix.
