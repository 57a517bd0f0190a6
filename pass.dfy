/**
 * The annotation pass as main.go runs it (main.go:282-345): nested loops
 * that rewrite the lines of each page in place, one `if` of main.go at a
 * time, while a set of started scenes is carried across all pages.
 */
module AnnotationPass {
  import opened Lines
  import opened Annotation

  /** Linear search for `item` in `slice` (main.go:338-345). */
  method Contains(slice: seq<string>, item: string) returns (found: bool)
    ensures found <==> item in slice
  {
    for k := 0 to |slice|
      invariant item !in slice[..k]
    {
      if slice[k] == item {
        return true;
      }
    }
    return false;
  }

  /** No two pages share their storage, as is the case for pages decoded from JSON. */
  predicate DistinctPages(sceneData: seq<array<Line>>) {
    forall p, q :: 0 <= p < q < |sceneData| ==> sceneData[p] != sceneData[q]
  }

  /** The lines of every page, as values. */
  ghost function Contents(sceneData: seq<array<Line>>): (pages: seq<seq<Line>>)
    reads sceneData
    ensures |pages| == |sceneData|
    ensures forall p :: 0 <= p < |sceneData| ==> pages[p] == sceneData[p][..]
  {
    seq(|sceneData|, p requires 0 <= p < |sceneData| reads sceneData => sceneData[p][..])
  }

  /**
   * The loop body (main.go:288-333) on one line, given the scenes started so
   * far: returns the rewritten line and the started scenes afterwards. The
   * Go code rewrites the line through a pointer into its page; the caller
   * stores the result back into the same slot.
   */
  method CheckLine(l: Line, starts: set<int>) returns (line: Line, starts': set<int>)
    ensures line == AnnotateLine(l, starts).value
    ensures starts' == AnnotateLine(l, starts).starts
  {
    var info := l.info;
    var f := l.flags;
    starts' := starts;
    if info.category == "injected-break" {
      f := f.(bar := "", visible := "false");
    }
    if info.subCategory == "CON'T" {
      f := f.(visible := "true");
    }
    ghost var f2 := f;
    if f.bar == "bar" && info.sceneIndex !in starts' && info.sceneIndex > 0 {
      starts' := starts' + {info.sceneIndex};
    } else {
      f := f.(bar := "hide-bar");
    }
    if info.category == "scene-header" && f.visible == "true" {
      f := f.(trueScene := "true-scene", bar := "start-bar", hideEnd := "hideEnd", hideCont := "hideCont");
    }
    ghost var f4 := f;
    assert f4 == MarkSceneHeader(info, MarkBar(info, f2, starts));
    if info.end == "END" && info.sceneIndex in starts' {
      f := f.(hideCont := "hideCont", bar := "hideBar");
    }
    ghost var started := info.sceneIndex in starts';
    ghost var f5 := f;
    if info.cont != "" && info.cont != "hideCont" && info.sceneIndex in starts' && f.bar != "start-bar" {
      f := f.(hideEnd := "hideEnd", bar := "hideBar");
    } else if f.trueScene == "" {
      var exempt := Contains(ContExemptValues, info.cont);
      if !exempt {
        f := f.(bar := "hideBar");
      }
    }
    assert f == MarkContinuation(info, f5, started);
    if info.sceneNumberText != "" && info.category != "scene-header" {
      f := f.(hideSceneNumberText := "hidden");
    }
    line := Line(info, f);
  }

  /**
   * The inner loop of the pass (main.go:287-334) over the lines of one page,
   * continuing from the scenes started on earlier pages.
   */
  method AnnotatePageInPlace(page: array<Line>, starts: set<int>) returns (starts': set<int>)
    modifies page
    ensures page[..] == AnnotatePage(old(page[..]), starts).value
    ensures starts' == AnnotatePage(old(page[..]), starts).starts
  {
    ghost var input := page[..];
    starts' := starts;
    for i := 0 to page.Length
      invariant page[..i] == AnnotatePage(input[..i], starts).value
      invariant forall k :: i <= k < page.Length ==> page[k] == input[k]
      invariant starts' == AnnotatePage(input[..i], starts).starts
    {
      PageSnoc(input[..i], input[i], starts);
      assert input[..i + 1] == input[..i] + [input[i]];
      ghost var before := page[..i];
      var line;
      line, starts' := CheckLine(page[i], starts');
      page[i] := line;
      assert page[..i + 1] == before + [page[i]];
    }
    assert input[..page.Length] == input;
    assert page[..page.Length] == page[..];
  }

  /**
   * `doubleCheckLinePositionsAndHiddenValuesBeforePDFGeneration`
   * (main.go:282-336): afterwards every page holds exactly what the
   * specification `Annotate` computes from the pages before the call.
   */
  method DoubleCheckLinePositionsAndHiddenValuesBeforePDFGeneration(sceneData: seq<array<Line>>)
    requires DistinctPages(sceneData)
    modifies sceneData
    ensures Contents(sceneData) == Annotate(old(Contents(sceneData)))
  {
    ghost var input := Contents(sceneData);
    var starts: set<int> := {};
    for p := 0 to |sceneData|
      invariant forall q :: 0 <= q < p ==> sceneData[q][..] == AnnotateScript(input[..p], {}).value[q]
      invariant forall q :: p <= q < |sceneData| ==> sceneData[q][..] == input[q]
      invariant starts == AnnotateScript(input[..p], {}).starts
    {
      ScriptStep(input, {}, p);
      ghost var before := Contents(sceneData);
      starts := AnnotatePageInPlace(sceneData[p], starts);
      forall q | 0 <= q < |sceneData| && q != p
        ensures sceneData[q][..] == before[q]
      {
        assert sceneData[q] != sceneData[p];
      }
    }
    assert input[..|sceneData|] == input;
    ghost var out := Annotate(input);
    assert |Contents(sceneData)| == |out|;
    forall q | 0 <= q < |sceneData|
      ensures Contents(sceneData)[q] == out[q]
    {
    }
  }
}
