/**
 * The line-annotation pass run before a script is rendered
 * (main.go:282-336), stated as functions over sequences of lines, together
 * with the properties the pass guarantees.
 *
 * The pass walks the pages in order and the lines of each page in order,
 * and carries one set of started scenes across all of them (main.go:283).
 */
module Annotation {
  import opened Lines

  // ---------------------------------------------------------------------
  // The loop body, one statement group of main.go per stage
  // ---------------------------------------------------------------------

  /** main.go:289-292: an injected break loses its bar and is hidden. */
  function HideInjectedBreak(i: LineInfo, f: Flags): Flags {
    if i.category == "injected-break" then f.(bar := "", visible := "false") else f
  }

  /** main.go:300-302: a continued line is always shown. */
  function ShowContinued(i: LineInfo, f: Flags): Flags {
    if i.subCategory == "CON'T" then f.(visible := "true") else f
  }

  /** main.go:304: the line is the first of its positive scene to ask for a bar. */
  predicate StartsBar(i: LineInfo, f: Flags, starts: set<int>) {
    f.bar == "bar" && i.sceneIndex !in starts && i.sceneIndex > 0
  }

  /** main.go:304-308: only the line that starts its scene keeps its bar. */
  function MarkBar(i: LineInfo, f: Flags, starts: set<int>): Flags {
    if StartsBar(i, f, starts) then f else f.(bar := "hide-bar")
  }

  /** main.go:310-316: a visible scene header is a true scene. */
  function MarkSceneHeader(i: LineInfo, f: Flags): Flags {
    if i.category == "scene-header" && f.visible == "true"
    then f.(trueScene := "true-scene", bar := "start-bar", hideEnd := "hideEnd", hideCont := "hideCont")
    else f
  }

  /** main.go:318-322: the end line of a started scene. */
  function MarkSceneEnd(i: LineInfo, f: Flags, started: bool): Flags {
    if i.end == "END" && started then f.(hideCont := "hideCont", bar := "hideBar") else f
  }

  /** main.go:324-329: continuation markers, and lines that are neither continued nor a true scene. */
  function MarkContinuation(i: LineInfo, f: Flags, started: bool): Flags {
    if i.cont != "" && i.cont != "hideCont" && started && f.bar != "start-bar"
    then f.(hideEnd := "hideEnd", bar := "hideBar")
    else if f.trueScene == "" && i.cont !in ContExemptValues
    then f.(bar := "hideBar")
    else f
  }

  /** main.go:331-333: scene numbers are shown on scene headers only. */
  function HideSceneNumber(i: LineInfo, f: Flags): Flags {
    if i.sceneNumberText != "" && i.category != "scene-header" then f.(hideSceneNumberText := "hidden") else f
  }

  /**
   * The effect of the loop body on one line (main.go:288-333), given the
   * scenes started before it: the stages above, in the order main.go runs them.
   */
  function AnnotateLine(l: Line, starts: set<int>): (r: Pass<Line>)
    // starts only gains the line's own scene, and only from a line that requests a bar
    ensures r.starts == if RequestsBar(l) then starts + {l.info.sceneIndex} else starts
    ensures r.value.info == l.info
  {
    var i := l.info;
    var f2 := ShowContinued(i, HideInjectedBreak(i, l.flags));
    var starts' := if StartsBar(i, f2, starts) then starts + {i.sceneIndex} else starts;
    var f4 := MarkSceneHeader(i, MarkBar(i, f2, starts));
    var started := i.sceneIndex in starts';
    Pass(Line(i, HideSceneNumber(i, MarkContinuation(i, MarkSceneEnd(i, f4, started), started))), starts')
  }

  /** The bar values one line can end with (main.go:290, 304-308, 312, 321, 326, 328). */
  lemma LineBar(l: Line, starts: set<int>)
    ensures AnnotateLine(l, starts).value.flags.bar in BarValues
    // a line keeps "bar" only if it is the one that starts its scene
    ensures AnnotateLine(l, starts).value.flags.bar == "bar" ==> RequestsBar(l) && l.info.sceneIndex !in starts
    ensures l.info.category == "injected-break" ==> AnnotateLine(l, starts).value.flags.bar in {"hide-bar", "hideBar"}
  {
  }

  /** The end line of a started scene hides its bar and continuation marker (main.go:318-329). */
  lemma LineEnd(l: Line, starts: set<int>)
    ensures l.info.end == "END" && l.info.sceneIndex in AnnotateLine(l, starts).starts ==>
              AnnotateLine(l, starts).value.flags.bar == "hideBar" && AnnotateLine(l, starts).value.flags.hideCont == "hideCont"
  {
  }

  /** True scenes come only from visible scene headers, and a line without one loses its bar (main.go:310-329). */
  lemma LineTrueScene(l: Line, starts: set<int>)
    ensures var f := AnnotateLine(l, starts).value.flags;
      f.trueScene == if l.info.category == "scene-header" && f.visible == "true" then "true-scene" else l.flags.trueScene
    ensures var f := AnnotateLine(l, starts).value.flags;
      f.trueScene == "" && l.info.cont !in ContExemptValues ==> f.bar == "hideBar"
    ensures var f := AnnotateLine(l, starts).value.flags;
      l.info.category == "scene-header" && f.visible == "true" ==>
        f.trueScene == "true-scene" && f.hideEnd == "hideEnd" && f.hideCont == "hideCont"
  {
  }

  /** Visibility (main.go:289-302) and the scene-number flag (main.go:331-333) of one line. */
  lemma LineFlags(l: Line, starts: set<int>)
    ensures AnnotateLine(l, starts).value.flags.visible ==
              if l.info.subCategory == "CON'T" then "true"
              else if l.info.category == "injected-break" then "false"
              else l.flags.visible
    ensures AnnotateLine(l, starts).value.flags.hideSceneNumberText ==
              if l.info.sceneNumberText != "" && l.info.category != "scene-header" then "hidden"
              else l.flags.hideSceneNumberText
  {
  }

  // ---------------------------------------------------------------------
  // The two loops
  // ---------------------------------------------------------------------

  /** The inner loop (main.go:287-334) over the lines of one page, in order. */
  function AnnotatePage(lines: seq<Line>, starts: set<int>): (r: Pass<seq<Line>>)
    ensures |r.value| == |lines|
    ensures starts <= r.starts
    decreases |lines|
  {
    if lines == [] then Pass([], starts)
    else
      var init := AnnotatePage(lines[..|lines| - 1], starts);
      var last := AnnotateLine(lines[|lines| - 1], init.starts);
      Pass(init.value + [last.value], last.starts)
  }

  /** The outer loop (main.go:286-335) over the pages, in order, with the started scenes carried across pages. */
  function AnnotateScript(pages: seq<seq<Line>>, starts: set<int>): (r: Pass<seq<seq<Line>>>)
    ensures |r.value| == |pages|
    ensures forall p :: 0 <= p < |pages| ==> |r.value[p]| == |pages[p]|
    ensures starts <= r.starts
    decreases |pages|
  {
    if pages == [] then Pass([], starts)
    else
      var init := AnnotateScript(pages[..|pages| - 1], starts);
      var last := AnnotatePage(pages[|pages| - 1], init.starts);
      Pass(init.value + [last.value], last.starts)
  }

  /** The whole pass: no scene is started when it begins (main.go:283). */
  function Annotate(pages: seq<seq<Line>>): (r: seq<seq<Line>>)
    ensures |r| == |pages|
    ensures forall p :: 0 <= p < |pages| ==> |r[p]| == |pages[p]|
  {
    AnnotateScript(pages, {}).value
  }

  /** The scenes started before line `i` of page `p` is processed. */
  function StartsBefore(pages: seq<seq<Line>>, starts: set<int>, p: nat, i: nat): set<int>
    requires p < |pages| && i <= |pages[p]|
  {
    AnnotatePage(pages[p][..i], AnnotateScript(pages[..p], starts).starts).starts
  }

  // ---------------------------------------------------------------------
  // Structure of the pass
  // ---------------------------------------------------------------------

  /** One more line for the inner loop. */
  lemma PageSnoc(lines: seq<Line>, x: Line, starts: set<int>)
    ensures AnnotatePage(lines + [x], starts) ==
              Pass(AnnotatePage(lines, starts).value + [AnnotateLine(x, AnnotatePage(lines, starts).starts).value],
                   AnnotateLine(x, AnnotatePage(lines, starts).starts).starts)
  {
    assert (lines + [x])[..|lines|] == lines;
  }

  /** One more page for the outer loop. */
  lemma ScriptSnoc(pages: seq<seq<Line>>, page: seq<Line>, starts: set<int>)
    ensures AnnotateScript(pages + [page], starts) ==
              Pass(AnnotateScript(pages, starts).value + [AnnotatePage(page, AnnotateScript(pages, starts).starts).value],
                   AnnotatePage(page, AnnotateScript(pages, starts).starts).starts)
  {
    assert (pages + [page])[..|pages|] == pages;
  }

  /** One step of the outer loop: the earlier pages are kept and page `p` is run with the scenes they started. */
  lemma ScriptStep(pages: seq<seq<Line>>, starts: set<int>, p: nat)
    requires p < |pages|
    ensures forall q :: 0 <= q < p ==> AnnotateScript(pages[..p + 1], starts).value[q] == AnnotateScript(pages[..p], starts).value[q]
    ensures AnnotateScript(pages[..p + 1], starts).value[p] == AnnotatePage(pages[p], AnnotateScript(pages[..p], starts).starts).value
    ensures AnnotateScript(pages[..p + 1], starts).starts == AnnotatePage(pages[p], AnnotateScript(pages[..p], starts).starts).starts
  {
    assert pages[..p + 1] == pages[..p] + [pages[p]];
    ScriptSnoc(pages[..p], pages[p], starts);
  }

  /** Running the inner loop over `a + b` is running it over `a`, then over `b` with the scenes `a` started. */
  lemma {:induction false} PageAppend(a: seq<Line>, b: seq<Line>, starts: set<int>)
    ensures AnnotatePage(a + b, starts) ==
              Pass(AnnotatePage(a, starts).value + AnnotatePage(b, AnnotatePage(a, starts).starts).value,
                   AnnotatePage(b, AnnotatePage(a, starts).starts).starts)
    decreases |b|
  {
    var pa := AnnotatePage(a, starts);
    if b == [] {
      assert a + b == a;
      assert AnnotatePage(b, pa.starts) == Pass([], pa.starts);
      assert pa.value + [] == pa.value;
    } else {
      var b' := b[..|b| - 1];
      var x := b[|b| - 1];
      assert a + b == (a + b') + [x];
      assert b == b' + [x];
      PageAppend(a, b', starts);
      PageSnoc(a + b', x, starts);
      PageSnoc(b', x, pa.starts);
      var pb' := AnnotatePage(b', pa.starts);
      var lx := AnnotateLine(x, pb'.starts);
      assert pa.value + pb'.value + [lx.value] == pa.value + (pb'.value + [lx.value]);
    }
  }

  /**
   * The started scenes carry across page boundaries: the pass over the pages
   * is the pass over all their lines read as one sequence.
   */
  lemma {:induction false} ScriptIsOnePage(pages: seq<seq<Line>>, starts: set<int>)
    ensures Flatten(AnnotateScript(pages, starts).value) == AnnotatePage(Flatten(pages), starts).value
    ensures AnnotateScript(pages, starts).starts == AnnotatePage(Flatten(pages), starts).starts
    decreases |pages|
  {
    if pages != [] {
      var init := pages[..|pages| - 1];
      var last := pages[|pages| - 1];
      assert pages == init + [last];
      ScriptIsOnePage(init, starts);
      ScriptSnoc(init, last, starts);
      PageAppend(Flatten(init), last, starts);
      var r := AnnotateScript(pages, starts).value;
      assert r[..|r| - 1] == AnnotateScript(init, starts).value;
    }
  }

  /** Line `k` of a page's result is the loop body applied to input line `k` with the scenes started by the lines before it. */
  lemma {:induction false} PageAt(lines: seq<Line>, starts: set<int>, k: nat)
    requires k < |lines|
    ensures AnnotatePage(lines, starts).value[k] ==
              AnnotateLine(lines[k], AnnotatePage(lines[..k], starts).starts).value
    decreases |lines|
  {
    var init := lines[..|lines| - 1];
    assert lines == init + [lines[|lines| - 1]];
    PageSnoc(init, lines[|lines| - 1], starts);
    if k < |lines| - 1 {
      PageAt(init, starts, k);
      assert init[..k] == lines[..k];
    } else {
      assert init == lines[..k];
    }
  }

  /** Line `i` of page `p` of the result is the loop body applied to input line `i` of page `p`. */
  lemma {:induction false} ScriptAt(pages: seq<seq<Line>>, starts: set<int>, p: nat, i: nat)
    requires p < |pages| && i < |pages[p]|
    ensures AnnotateScript(pages, starts).value[p][i] ==
              AnnotateLine(pages[p][i], StartsBefore(pages, starts, p, i)).value
    decreases |pages|
  {
    var init := pages[..|pages| - 1];
    assert pages == init + [pages[|pages| - 1]];
    ScriptSnoc(init, pages[|pages| - 1], starts);
    if p < |pages| - 1 {
      ScriptAt(init, starts, p, i);
      assert init[..p] == pages[..p];
    } else {
      assert init == pages[..p];
      PageAt(pages[p], AnnotateScript(init, starts).starts, i);
    }
  }

  /** The scenes started after line `i` of page `p` are those started before it, updated by that line alone. */
  lemma StartsBeforeNext(pages: seq<seq<Line>>, starts: set<int>, p: nat, i: nat)
    requires p < |pages| && i < |pages[p]|
    ensures StartsBefore(pages, starts, p, i + 1) == AnnotateLine(pages[p][i], StartsBefore(pages, starts, p, i)).starts
  {
    assert pages[p][..i + 1] == pages[p][..i] + [pages[p][i]];
    PageSnoc(pages[p][..i], pages[p][i], AnnotateScript(pages[..p], starts).starts);
  }

  // ---------------------------------------------------------------------
  // Started scenes
  // ---------------------------------------------------------------------

  lemma BarScenesSnoc(lines: seq<Line>, last: Line)
    ensures BarScenes(lines + [last]) == BarScenes(lines) + (if RequestsBar(last) then {last.info.sceneIndex} else {})
  {
    var rhs := BarScenes(lines) + (if RequestsBar(last) then {last.info.sceneIndex} else {});
    forall s | s in BarScenes(lines + [last]) ensures s in rhs {
      var l :| l in lines + [last] && RequestsBar(l) && l.info.sceneIndex == s;
      if l != last {
        assert l in lines;
      }
    }
    forall s | s in rhs ensures s in BarScenes(lines + [last]) {
      if s in BarScenes(lines) {
        var l :| l in lines && RequestsBar(l) && l.info.sceneIndex == s;
        assert l in lines + [last];
      } else {
        assert last in lines + [last];
      }
    }
  }

  /** The scenes a page run starts are exactly the scenes of its lines that request a bar. */
  lemma {:induction false} PageStarts(lines: seq<Line>, starts: set<int>)
    ensures AnnotatePage(lines, starts).starts == starts + BarScenes(lines)
    decreases |lines|
  {
    if lines != [] {
      var init := lines[..|lines| - 1];
      var last := lines[|lines| - 1];
      assert lines == init + [last];
      PageStarts(init, starts);
      PageSnoc(init, last, starts);
      BarScenesSnoc(init, last);
    }
  }

  /**
   * After the whole pass the started scenes are exactly the scenes of the
   * lines that arrived with `bar == "bar"`, are not injected breaks and have
   * a positive scene index; in particular none of them is zero or negative.
   */
  lemma StartedScenes(pages: seq<seq<Line>>)
    ensures AnnotateScript(pages, {}).starts == BarScenes(Flatten(pages))
    ensures forall s :: s in AnnotateScript(pages, {}).starts ==> s > 0
  {
    ScriptIsOnePage(pages, {});
    PageStarts(Flatten(pages), {});
  }

  /**
   * Every line left with "bar" has a positive scene that it started itself,
   * and no two such lines share a scene.
   */
  ghost predicate BarsStartDistinctScenes(out: seq<Line>, before: set<int>, after: set<int>) {
    && (forall k :: 0 <= k < |out| && out[k].flags.bar == "bar" ==>
          out[k].info.sceneIndex > 0 && out[k].info.sceneIndex in after - before)
    && (forall j, k :: 0 <= j < k < |out| && out[j].flags.bar == "bar" && out[k].flags.bar == "bar" ==>
          out[j].info.sceneIndex != out[k].info.sceneIndex)
  }

  lemma {:induction false} PageBarsDistinct(lines: seq<Line>, starts: set<int>)
    ensures BarsStartDistinctScenes(AnnotatePage(lines, starts).value, starts, AnnotatePage(lines, starts).starts)
    decreases |lines|
  {
    if lines != [] {
      var initLines := lines[..|lines| - 1];
      var x := lines[|lines| - 1];
      assert lines == initLines + [x];
      PageSnoc(initLines, x, starts);
      PageBarsDistinct(initLines, starts);
      var init := AnnotatePage(initLines, starts);
      var last := AnnotateLine(x, init.starts);
      LineBar(x, init.starts);
      var out := AnnotatePage(lines, starts).value;
      assert out == init.value + [last.value];
      forall k | 0 <= k < |out| && out[k].flags.bar == "bar"
        ensures out[k].info.sceneIndex > 0 && out[k].info.sceneIndex in last.starts - starts
      {
        if k < |out| - 1 {
          assert out[k] == init.value[k];
        }
      }
      forall j, k | 0 <= j < k < |out| && out[j].flags.bar == "bar" && out[k].flags.bar == "bar"
        ensures out[j].info.sceneIndex != out[k].info.sceneIndex
      {
        assert out[j] == init.value[j];
        if k == |out| - 1 {
          assert out[j].info.sceneIndex in init.starts;
        } else {
          assert out[k] == init.value[k];
        }
      }
    }
  }

  /** Across all pages, at most one line per scene is left with "bar", and only lines of a positive scene. */
  lemma AtMostOneBarPerScene(pages: seq<seq<Line>>)
    ensures var out := Flatten(Annotate(pages));
      forall j, k ::
        0 <= j < k < |out| && out[j].flags.bar == "bar" && out[k].flags.bar == "bar" ==>
        out[j].info.sceneIndex != out[k].info.sceneIndex
    ensures var out := Flatten(Annotate(pages));
      forall k :: 0 <= k < |out| && out[k].flags.bar == "bar" ==> out[k].info.sceneIndex > 0
  {
    ScriptIsOnePage(pages, {});
    PageBarsDistinct(Flatten(pages), {});
  }

  /**
   * A line with `end == "END"` whose scene was started by it or by any line
   * before it, on any page, is left with `bar == "hideBar"` and
   * `hideCont == "hideCont"`.
   */
  lemma EndOfStartedSceneHidesBar(pages: seq<seq<Line>>, j: nat, k: nat)
    requires j <= k < |Flatten(pages)|
    requires Flatten(pages)[k].info.end == "END"
    requires RequestsBar(Flatten(pages)[j]) && Flatten(pages)[j].info.sceneIndex == Flatten(pages)[k].info.sceneIndex
    ensures k < |Flatten(Annotate(pages))|
    ensures Flatten(Annotate(pages))[k].flags.bar == "hideBar"
    ensures Flatten(Annotate(pages))[k].flags.hideCont == "hideCont"
  {
    var lines := Flatten(pages);
    ScriptIsOnePage(pages, {});
    PageAt(lines, {}, k);
    PageStarts(lines[..k], {});
    if j < k {
      assert lines[j] in lines[..k];
    }
    LineEnd(lines[k], AnnotatePage(lines[..k], {}).starts);
  }

  // ---------------------------------------------------------------------
  // Per-line outcomes over the whole script
  // ---------------------------------------------------------------------

  /** The pass keeps the number of pages and of lines per page, and leaves the `LineInfo` part of every line, `xPos` included, as it was. */
  lemma AnnotateKeepsShape(pages: seq<seq<Line>>)
    ensures |Annotate(pages)| == |pages|
    ensures forall p :: 0 <= p < |pages| ==> |Annotate(pages)[p]| == |pages[p]|
    ensures forall p, i :: 0 <= p < |pages| && 0 <= i < |pages[p]| ==> Annotate(pages)[p][i].info == pages[p][i].info
  {
    forall p, i | 0 <= p < |pages| && 0 <= i < |pages[p]|
      ensures Annotate(pages)[p][i].info == pages[p][i].info
    {
      ScriptAt(pages, {}, p, i);
    }
  }

  /** Every line ends with one of the four bar values. */
  lemma BarValuesAfterPass(pages: seq<seq<Line>>)
    ensures forall p, i :: 0 <= p < |pages| && 0 <= i < |pages[p]| ==> Annotate(pages)[p][i].flags.bar in BarValues
  {
    forall p, i | 0 <= p < |pages| && 0 <= i < |pages[p]|
      ensures Annotate(pages)[p][i].flags.bar in BarValues
    {
      ScriptAt(pages, {}, p, i);
      LineBar(pages[p][i], StartsBefore(pages, {}, p, i));
    }
  }

  /** A line left without a true scene and without an exempt continuation marker has its bar hidden. */
  lemma NoTrueSceneHidesBar(pages: seq<seq<Line>>)
    ensures forall p, i ::
              0 <= p < |pages| && 0 <= i < |pages[p]| &&
              Annotate(pages)[p][i].flags.trueScene == "" && pages[p][i].info.cont !in ContExemptValues ==>
              Annotate(pages)[p][i].flags.bar == "hideBar"
  {
    forall p, i |
        0 <= p < |pages| && 0 <= i < |pages[p]| &&
        Annotate(pages)[p][i].flags.trueScene == "" && pages[p][i].info.cont !in ContExemptValues
      ensures Annotate(pages)[p][i].flags.bar == "hideBar"
    {
      ScriptAt(pages, {}, p, i);
      LineTrueScene(pages[p][i], StartsBefore(pages, {}, p, i));
    }
  }

  /** A scene header left visible is a true scene with its end and continuation markers hidden. */
  lemma VisibleSceneHeaders(pages: seq<seq<Line>>)
    ensures forall p, i ::
              0 <= p < |pages| && 0 <= i < |pages[p]| &&
              pages[p][i].info.category == "scene-header" && Annotate(pages)[p][i].flags.visible == "true" ==>
              && Annotate(pages)[p][i].flags.trueScene == "true-scene"
              && Annotate(pages)[p][i].flags.hideEnd == "hideEnd"
              && Annotate(pages)[p][i].flags.hideCont == "hideCont"
  {
    forall p, i |
        0 <= p < |pages| && 0 <= i < |pages[p]| &&
        pages[p][i].info.category == "scene-header" && Annotate(pages)[p][i].flags.visible == "true"
      ensures Annotate(pages)[p][i].flags.trueScene == "true-scene"
      ensures Annotate(pages)[p][i].flags.hideEnd == "hideEnd" && Annotate(pages)[p][i].flags.hideCont == "hideCont"
    {
      ScriptAt(pages, {}, p, i);
      LineTrueScene(pages[p][i], StartsBefore(pages, {}, p, i));
    }
  }

  /** Only a visible scene header gets a true scene; every other line keeps its input value. */
  lemma TrueSceneAfterPass(pages: seq<seq<Line>>)
    ensures forall p, i :: 0 <= p < |pages| && 0 <= i < |pages[p]| ==>
              Annotate(pages)[p][i].flags.trueScene ==
                if pages[p][i].info.category == "scene-header" && Annotate(pages)[p][i].flags.visible == "true"
                then "true-scene" else pages[p][i].flags.trueScene
  {
    forall p, i | 0 <= p < |pages| && 0 <= i < |pages[p]|
      ensures Annotate(pages)[p][i].flags.trueScene ==
                if pages[p][i].info.category == "scene-header" && Annotate(pages)[p][i].flags.visible == "true"
                then "true-scene" else pages[p][i].flags.trueScene
    {
      ScriptAt(pages, {}, p, i);
      LineTrueScene(pages[p][i], StartsBefore(pages, {}, p, i));
    }
  }

  /**
   * Visibility after the pass: a "CON'T" line is shown, otherwise an
   * injected break is hidden, otherwise the input value is kept.
   */
  lemma VisibilityAfterPass(pages: seq<seq<Line>>)
    ensures forall p, i :: 0 <= p < |pages| && 0 <= i < |pages[p]| ==>
              Annotate(pages)[p][i].flags.visible ==
                if pages[p][i].info.subCategory == "CON'T" then "true"
                else if pages[p][i].info.category == "injected-break" then "false"
                else pages[p][i].flags.visible
  {
    forall p, i | 0 <= p < |pages| && 0 <= i < |pages[p]|
      ensures Annotate(pages)[p][i].flags.visible ==
                if pages[p][i].info.subCategory == "CON'T" then "true"
                else if pages[p][i].info.category == "injected-break" then "false"
                else pages[p][i].flags.visible
    {
      ScriptAt(pages, {}, p, i);
      LineFlags(pages[p][i], StartsBefore(pages, {}, p, i));
    }
  }

  /** An injected break never starts its scene and ends with a hidden bar. */
  lemma InjectedBreaks(pages: seq<seq<Line>>)
    ensures forall p, i :: 0 <= p < |pages| && 0 <= i < |pages[p]| && pages[p][i].info.category == "injected-break" ==>
              && StartsBefore(pages, {}, p, i + 1) == StartsBefore(pages, {}, p, i)
              && Annotate(pages)[p][i].flags.bar in {"hide-bar", "hideBar"}
  {
    forall p, i | 0 <= p < |pages| && 0 <= i < |pages[p]| && pages[p][i].info.category == "injected-break"
      ensures StartsBefore(pages, {}, p, i + 1) == StartsBefore(pages, {}, p, i)
      ensures Annotate(pages)[p][i].flags.bar in {"hide-bar", "hideBar"}
    {
      ScriptAt(pages, {}, p, i);
      StartsBeforeNext(pages, {}, p, i);
      LineBar(pages[p][i], StartsBefore(pages, {}, p, i));
    }
  }

  /** The scene number is hidden exactly on lines that have one and are not scene headers; otherwise the flag is kept. */
  lemma SceneNumbersHidden(pages: seq<seq<Line>>)
    ensures forall p, i :: 0 <= p < |pages| && 0 <= i < |pages[p]| ==>
              Annotate(pages)[p][i].flags.hideSceneNumberText ==
                if pages[p][i].info.sceneNumberText != "" && pages[p][i].info.category != "scene-header"
                then "hidden" else pages[p][i].flags.hideSceneNumberText
  {
    forall p, i | 0 <= p < |pages| && 0 <= i < |pages[p]|
      ensures Annotate(pages)[p][i].flags.hideSceneNumberText ==
                if pages[p][i].info.sceneNumberText != "" && pages[p][i].info.category != "scene-header"
                then "hidden" else pages[p][i].flags.hideSceneNumberText
    {
      ScriptAt(pages, {}, p, i);
      LineFlags(pages[p][i], StartsBefore(pages, {}, p, i));
    }
  }
}
