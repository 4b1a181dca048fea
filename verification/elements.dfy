/** The drawing elements kept in the store: one record per committed shape
    (`{ id, type, points, options }` in the canvas component). */
module Elements {
  import opened Wrappers

  /** A canvas-local position in whole pixels. */
  datatype Point = Point(x: int, y: int)

  /** An element's `type` and the store's `currentTool`. The toolbar only
      selects the first four; `Other` stands for a string that is none of
      `pencil`, `line`, `rectangle` and `circle`, which the renderer and the
      pointer-up handler both skip. */
  datatype Tool = Pencil | Line | Rectangle | Circle | Other(name: string)

  /** The rendering options attached to an element when it is created.
      Pencil strokes carry no `fill` key, hence the Option. */
  datatype Options = Options(stroke: string, strokeWidth: int, fill: Option<string>, roughness: int)

  datatype Element = Element(id: string, kind: Tool, points: seq<Point>, options: Options)

  /** The properties other than `id` of an `updateElement` payload; None is an
      absent key. The spread `{ ...element, ...props }` is shallow, so a
      present `options` replaces the old options wholesale. */
  datatype Patch = Patch(kind: Option<Tool>, points: Option<seq<Point>>, options: Option<Options>)

  /** Every element the canvas creates has roughness 1. */
  const Roughness: int := 1

  const EmptyPatch := Patch(None, None, None)

  /** Tools whose shape is fixed by two points and committed on pointer-up. */
  predicate IsBounded(t: Tool) {
    t == Line || t == Rectangle || t == Circle
  }

  /** An element the renderer can draw without reading past its points:
      line, rectangle and circle read `points[0]` and `points[1]`. */
  predicate Renderable(e: Element) {
    IsBounded(e.kind) ==> |e.points| >= 2
  }

  predicate AllRenderable(es: seq<Element>) {
    forall i :: 0 <= i < |es| ==> Renderable(es[i])
  }

  function Override<T>(old_: T, o: Option<T>): T {
    if o.Some? then o.value else old_
  }

  /** `{ ...element, ...props }`: present keys win, the id is kept. */
  function Merge(e: Element, p: Patch): (r: Element)
    ensures r.id == e.id
    ensures p.kind.None? ==> r.kind == e.kind
    ensures p.points.None? ==> r.points == e.points
    ensures p.options.None? ==> r.options == e.options
    ensures p.kind.Some? ==> r.kind == p.kind.value
    ensures p.points.Some? ==> r.points == p.points.value
    ensures p.options.Some? ==> r.options == p.options.value
  {
    Element(e.id, Override(e.kind, p.kind), Override(e.points, p.points), Override(e.options, p.options))
  }

  /** Merging the same patch twice is merging it once. */
  lemma MergeIdempotent(e: Element, p: Patch)
    ensures Merge(Merge(e, p), p) == Merge(e, p)
  {
  }

  /** A patch with no keys leaves the element as it was. */
  lemma MergeEmpty(e: Element)
    ensures Merge(e, EmptyPatch) == e
  {
  }
}
