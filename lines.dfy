/**
 * The per-line record of a rendered script page (`LineData`, main.go:35-54).
 *
 * The record is split in two: `LineInfo` holds the fields the annotation
 * pass never writes, `Flags` the string display flags it rewrites. Of the
 * float positions, `XPos` is kept as its bit pattern, since the pass leaves
 * it alone. `YPos` and `EndY`, which the pass assigns by float parsing and
 * division, are not part of this model, and no flag depends on them.
 */
module Lines {

  /** A Go `float64`, as its IEEE 754 binary64 bit pattern; the pass never computes with one. */
  datatype Float64 = Float64(bits: bv64)

  /** The fields of a line that the annotation pass never writes. */
  datatype LineInfo = LineInfo(
    category: string,
    subCategory: string,
    calculatedYpos: string,
    calculatedEnd: string,
    xPos: Float64,
    sceneIndex: int,
    end: string,
    cont: string,
    sceneNumberText: string,
    text: string)

  /** The display flags the annotation pass rewrites. */
  datatype Flags = Flags(
    visible: string,
    bar: string,
    trueScene: string,
    hideEnd: string,
    hideCont: string,
    hideSceneNumberText: string)

  /** One line of a page. */
  datatype Line = Line(info: LineInfo, flags: Flags)

  /** Continuation markers that keep a line without a true scene from losing its bar (main.go:284). */
  const ContExemptValues: seq<string> := ["CONTINUE", "CONTINUE-TOP"]

  /** Every value the pass can leave in `bar`. */
  const BarValues: set<string> := {"bar", "hide-bar", "start-bar", "hideBar"}

  /** The line arrives as a real request to start its scene's bar: only such a line can mark its scene as started. */
  predicate RequestsBar(l: Line) {
    l.info.category != "injected-break" && l.flags.bar == "bar" && l.info.sceneIndex > 0
  }

  /** A value computed by the pass together with the set of scenes whose bar has been started so far. */
  datatype Pass<T> = Pass(value: T, starts: set<int>)

  /** All lines of all pages, in reading order. */
  function Flatten(pages: seq<seq<Line>>): seq<Line>
  {
    if pages == [] then [] else Flatten(pages[..|pages| - 1]) + pages[|pages| - 1]
  }

  /** The scenes of the lines in `lines` that request a bar. */
  ghost function BarScenes(lines: seq<Line>): set<int>
  {
    set l | l in lines && RequestsBar(l) :: l.info.sceneIndex
  }
}
