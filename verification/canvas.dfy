/** The drawing surface's pointer handling without its UI framework: the
    mapping of input events to canvas-local points and the gesture
    transitions that decide what is previewed and what is committed to the
    store. The component's local `isDrawing`/`startPoint` pair becomes the
    Gesture value; tool, style and elements are read from the store. */
module Canvas {
  import opened Wrappers
  import opened Elements
  import opened DrawingSlice
  import opened PathText
  import opened Render
  import opened Seqs

  /** The left and top edges of the canvas's bounding box on screen. */
  datatype Rect = Rect(left: int, top: int)

  datatype TouchPoint = TouchPoint(clientX: int, clientY: int)

  /** A pointer or mouse event carries its screen position; a touch event
      carries its touch list, whose first entry is used. */
  datatype PointerInput =
    | Mouse(clientX: int, clientY: int)
    | Touch(first: TouchPoint, rest: seq<TouchPoint>)

  /** `getCoordinates`: the event's screen position, from its first touch
      for a touch event, relative to the canvas's top-left corner; the
      origin when there is no canvas. */
  function Coordinates(canvas: Option<Rect>, e: PointerInput): (p: Point)
    ensures canvas.None? ==> p == Point(0, 0)
    ensures canvas.Some? && e.Mouse? ==>
      canvas.value.left + p.x == e.clientX && canvas.value.top + p.y == e.clientY
    ensures canvas.Some? && e.Touch? ==>
      canvas.value.left + p.x == e.first.clientX && canvas.value.top + p.y == e.first.clientY
  {
    if canvas.None? then Point(0, 0)
    else
      var rect := canvas.value;
      var clientX := if e.Touch? then e.first.clientX else e.clientX;
      var clientY := if e.Touch? then e.first.clientY else e.clientY;
      Point(clientX - rect.left, clientY - rect.top)
  }

  /** Moving the canvas and the pointer by the same offset does not move the
      canvas-local point. */
  lemma CoordinatesTranslate(rect: Rect, x: int, y: int, dx: int, dy: int)
    ensures Coordinates(Some(Rect(rect.left + dx, rect.top + dy)), Mouse(x + dx, y + dy))
         == Coordinates(Some(rect), Mouse(x, y))
  {
  }

  /** A touch event lands where a mouse event at its first touch would;
      any further touches are ignored. */
  lemma TouchLikeMouse(canvas: Option<Rect>, t: TouchPoint, more: seq<TouchPoint>)
    ensures Coordinates(canvas, Touch(t, more)) == Coordinates(canvas, Mouse(t.clientX, t.clientY))
  {
  }

  datatype Gesture = Idle | Drawing(start: Point)

  datatype Session = Session(gesture: Gesture, store: DrawingState)

  /** Input to the running application: pointer events on the canvas (with
      the canvas box at that moment, and the fresh id the handler would
      draw) and actions dispatched by the toolbar and colour picker. */
  datatype Event =
    | Down(canvas: Option<Rect>, input: PointerInput, id: string)
    | Move(canvas: Option<Rect>, input: PointerInput)
    | Up(canvas: Option<Rect>, input: PointerInput, id: string)
    | Leave
    | Toolbar(action: Action)

  /** A handler's effect: the new session, and what the handler itself
      paints on the surface before the store's change triggers a repaint. */
  datatype Reaction = Reaction(session: Session, preview: seq<DrawCommand>)

  const InitialSession := Session(Idle, Initial)

  /** Options of a new pencil stroke: no fill key. */
  function PencilOptions(d: DrawingState): (o: Options)
    ensures o.stroke == d.strokeColor && o.strokeWidth == d.strokeWidth
    ensures o.fill.None? && o.roughness == 1
  {
    Options(d.strokeColor, d.strokeWidth, None, Roughness)
  }

  /** Options of a new line, rectangle or circle: the current fill too. */
  function ShapeOptions(d: DrawingState): (o: Options)
    ensures o.stroke == d.strokeColor && o.strokeWidth == d.strokeWidth
    ensures o.fill == Some(d.fillColor) && o.roughness == 1
  {
    Options(d.strokeColor, d.strokeWidth, Some(d.fillColor), Roughness)
  }

  /** `handlePointerDown`: start a gesture at the pointer; with the pencil,
      commit a one-point stroke at once. */
  function PointerDown(s: Session, canvas: Option<Rect>, input: PointerInput, id: string): (r: Session)
    requires s.store.Valid()
    ensures r.gesture == Drawing(Coordinates(canvas, input))
    ensures s.store.currentTool != Pencil ==> r.store == s.store
    ensures s.store.currentTool == Pencil ==>
      r.store == AddElementTo(s.store, Element(id, Pencil, [Coordinates(canvas, input)], PencilOptions(s.store)))
  {
    var p := Coordinates(canvas, input);
    var store :=
      if s.store.currentTool == Pencil then
        AddElementTo(s.store, Element(id, Pencil, [p], PencilOptions(s.store)))
      else s.store;
    Session(Drawing(p), store)
  }

  /** The last element with one more point: what a pencil move commits. */
  function Extend(e: Element, p: Point): (r: Element)
    ensures |r.points| == |e.points| + 1 && r.points[..|e.points|] == e.points && r.points[|e.points|] == p
    ensures r.(points := e.points) == e
  {
    e.(points := e.points + [p])
  }

  /** The pencil paths of a list of elements, in order; the handler's
      interim repaint during a pencil move skips every other kind. */
  function PencilPaths(es: seq<Element>): (cs: seq<DrawCommand>)
    ensures |cs| <= |es|
    ensures forall i :: 0 <= i < |cs| ==> cs[i].DrawPath?
    decreases |es|
  {
    if |es| == 0 then []
    else
      var e := es[|es| - 1];
      PencilPaths(es[..|es| - 1]) + (if e.kind == Pencil then [DrawPath(PathData(e.points), e.options)] else [])
  }

  /** The pencil strokes among `es`, in their order. */
  function Pencils(es: seq<Element>): (r: seq<Element>)
    ensures |r| <= |es|
    ensures forall i :: 0 <= i < |r| ==> r[i].kind == Pencil
    ensures forall e :: e in r <==> e in es && e.kind == Pencil
    decreases |es|
  {
    if |es| == 0 then []
    else
      var init, e := es[..|es| - 1], es[|es| - 1];
      assert es == init + [e];
      Pencils(init) + (if e.kind == Pencil then [e] else [])
  }

  /** On any drawing, the interim repaint of a pencil move draws what the
      full repaint draws for the pencil strokes alone: one path per pencil
      element, in order, and nothing for any other kind. */
  lemma {:induction false} PencilPathsRenderPencils(es: seq<Element>)
    ensures !RenderAll(Pencils(es)).aborted
    ensures PencilPaths(es) == RenderAll(Pencils(es)).commands
    decreases |es|
  {
    if |es| > 0 {
      var init, e := es[..|es| - 1], es[|es| - 1];
      PencilPathsRenderPencils(init);
      if e.kind == Pencil {
        RenderSnoc(Pencils(init), e);
      } else {
        assert Pencils(es) == Pencils(init) + [] == Pencils(init);
        assert PencilPaths(es) == PencilPaths(init) + [] == PencilPaths(init);
      }
    }
  }

  /** Selecting the pencil strokes distributes over concatenation, so the
      strokes keep their relative order. */
  lemma {:induction false} PencilsConcat(a: seq<Element>, b: seq<Element>)
    ensures Pencils(a + b) == Pencils(a) + Pencils(b)
    decreases |b|
  {
    if |b| == 0 {
      assert a + b == a;
    } else {
      var binit, e := b[..|b| - 1], b[|b| - 1];
      assert b == binit + [e];
      assert a + b == (a + binit) + [e];
      PencilsConcat(a, binit);
      var tail := if e.kind == Pencil then [e] else [];
      assert (a + b)[..|a + b| - 1] == a + binit;
      Assoc(Pencils(a), Pencils(binit), tail);
    }
  }

  /** On a drawing made of pencil strokes only, the interim repaint of a
      pencil move draws exactly what the full repaint draws. */
  lemma {:induction false} PencilPathsMatchRender(es: seq<Element>)
    requires forall i :: 0 <= i < |es| ==> es[i].kind == Pencil
    ensures PencilPaths(es) == RenderAll(es).commands && !RenderAll(es).aborted
    decreases |es|
  {
    if |es| > 0 {
      var init := es[..|es| - 1];
      assert forall i :: 0 <= i < |init| ==> init[i] == es[i];
      PencilPathsMatchRender(init);
      AllRenderableSnoc(es);
    }
  }

  /** `handlePointerMove`. Outside a gesture nothing happens. With the pencil
      the last element, extended by the pointer's point, is painted in place
      of the last element and then committed with `addElement`, which
      appends it: the store gains a second, longer copy of the stroke. With
      any other tool the store is untouched and the handler repaints the
      elements plus a preview of the shape from the gesture's start to the
      pointer. A move that reads a missing canvas or a missing last element
      throws and changes nothing. */
  function PointerMove(s: Session, canvas: Option<Rect>, input: PointerInput): (r: Reaction)
    requires s.store.Valid()
    ensures r.session.gesture == s.gesture
    ensures s.gesture.Idle? ==> r == Reaction(s, [])
    ensures s.store.currentTool != Pencil ==> r.session == s
    ensures s.store.currentTool == Pencil && s.gesture.Drawing? && canvas.Some? && |s.store.elements| > 0 ==>
      var last := s.store.elements[|s.store.elements| - 1];
      var updated := Extend(last, Coordinates(canvas, input));
      && r.session.store == AddElementTo(s.store, updated)
      && r.preview == PencilPaths(s.store.elements[..|s.store.elements| - 1] + [updated])
    ensures canvas.None? || (s.store.currentTool == Pencil && |s.store.elements| == 0) ==> r == Reaction(s, [])
    ensures s.store.currentTool != Pencil && s.gesture.Drawing? && canvas.Some?
            && (!IsBounded(s.store.currentTool) || !AllRenderable(s.store.elements)) ==>
      r.preview == RenderAll(s.store.elements).commands
    ensures IsBounded(s.store.currentTool) && s.gesture.Drawing? && canvas.Some? && AllRenderable(s.store.elements) ==>
      var shape := Shape(s.store.currentTool, s.gesture.start, Coordinates(canvas, input), ShapeOptions(s.store));
      shape.Some? && r.preview == RenderAll(s.store.elements).commands + [shape.value]
  {
    if s.gesture.Idle? then Reaction(s, [])
    else
      var p := Coordinates(canvas, input);
      var d := s.store;
      if d.currentTool == Pencil then
        if |d.elements| == 0 || canvas.None? then Reaction(s, [])
        else
          var last := d.elements[|d.elements| - 1];
          var updated := Extend(last, p);
          var painted := PencilPaths(d.elements[..|d.elements| - 1] + [updated]);
          Reaction(Session(s.gesture, AddElementTo(d, updated)), painted)
      else if canvas.None? then Reaction(s, [])
      else
        var frame := RenderAll(d.elements);
        var shape := Shape(d.currentTool, s.gesture.start, p, ShapeOptions(d));
        Reaction(s, frame.commands + (if frame.aborted then [] else ToSeq(shape)))
  }

  /** `handlePointerUp`: end the gesture; with a line, rectangle or circle
      tool commit that shape from the gesture's start to the pointer. */
  function PointerUp(s: Session, canvas: Option<Rect>, input: PointerInput, id: string): (r: Session)
    requires s.store.Valid()
    ensures s.gesture.Idle? ==> r == s
    ensures r.gesture == Idle
    ensures !IsBounded(s.store.currentTool) ==> r.store == s.store
    ensures IsBounded(s.store.currentTool) && s.gesture.Drawing? ==>
      r.store == AddElementTo(s.store, Element(id, s.store.currentTool,
                                               [s.gesture.start, Coordinates(canvas, input)],
                                               ShapeOptions(s.store)))
  {
    if s.gesture.Idle? then s
    else if s.store.currentTool == Pencil then Session(Idle, s.store)
    else
      var endPoint := Coordinates(canvas, input);
      var tool := s.store.currentTool;
      if IsBounded(tool) then
        Session(Idle, AddElementTo(s.store, Element(id, tool, [s.gesture.start, endPoint], ShapeOptions(s.store))))
      else Session(Idle, s.store)
  }

  /** `handleMouseOut`: the gesture ends; nothing is committed. */
  function PointerLeave(s: Session): (r: Session)
    ensures r.gesture == Idle && r.store == s.store
  {
    Session(Idle, s.store)
  }

  function Step(s: Session, ev: Event): (r: Reaction)
    requires s.store.Valid()
    ensures r.session.store.Valid()
  {
    match ev
    case Down(canvas, input, id) => Reaction(PointerDown(s, canvas, input, id), [])
    case Move(canvas, input) => PointerMove(s, canvas, input)
    case Up(canvas, input, id) => Reaction(PointerUp(s, canvas, input, id), [])
    case Leave => Reaction(PointerLeave(s), [])
    case Toolbar(a) => Reaction(Session(s.gesture, Reduce(s.store, a)), [])
  }

  /** The session after a sequence of events, oldest first. */
  function Run(s: Session, evs: seq<Event>): (r: Session)
    requires s.store.Valid()
    ensures r.store.Valid()
    decreases |evs|
  {
    if |evs| == 0 then s
    else Step(Run(s, evs[..|evs| - 1]), evs[|evs| - 1]).session
  }

  // ----- what whole gestures do -----

  /** Every element the store holds, now or in a snapshot, has the points its
      kind reads when rendered. */
  predicate ShapesIntact(d: DrawingState) {
    && AllRenderable(d.elements)
    && forall k :: 0 <= k < |d.history| ==> AllRenderable(d.history[k])
  }

  /** Toolbar actions that cannot introduce an element missing its points:
      the UI only dispatches setters, undo, redo and clear; an added element
      must be drawable and an update may only change options. */
  predicate KeepsShapes(a: Action) {
    match a
    case AddElement(e) => Renderable(e)
    case UpdateElement(_, p) => p.kind.None? && p.points.None?
    case _ => true
  }

  predicate Allowed(ev: Event) {
    ev.Toolbar? ==> KeepsShapes(ev.action)
  }

  lemma CommitKeepsShapes(d: DrawingState, es: seq<Element>)
    requires d.Valid() && ShapesIntact(d) && AllRenderable(es)
    ensures ShapesIntact(Commit(d, es))
  {
    var r := Commit(d, es);
    forall k | 0 <= k < |r.history|
      ensures AllRenderable(r.history[k])
    {
      if k < d.currentIndex + 1 {
        assert r.history[k] == d.history[k];
      }
    }
  }

  lemma ReduceKeepsShapes(d: DrawingState, a: Action)
    requires d.Valid() && ShapesIntact(d) && KeepsShapes(a)
    ensures ShapesIntact(Reduce(d, a))
  {
    match a
    case AddElement(e) =>
      CommitKeepsShapes(d, d.elements + [e]);
    case ClearCanvas =>
      CommitKeepsShapes(d, []);
    case UpdateElement(id, p) =>
      var r := UpdateElementIn(d, id, p);
      assert forall i :: 0 <= i < |r.elements| ==> Renderable(d.elements[i]) ==> Renderable(r.elements[i]);
    case _ =>
  }

  lemma StepKeepsShapes(s: Session, ev: Event)
    requires s.store.Valid() && ShapesIntact(s.store) && Allowed(ev)
    ensures ShapesIntact(Step(s, ev).session.store)
  {
    var d := s.store;
    match ev
    case Down(canvas, input, id) =>
      if d.currentTool == Pencil {
        CommitKeepsShapes(d, d.elements + [Element(id, Pencil, [Coordinates(canvas, input)], PencilOptions(d))]);
      }
    case Move(canvas, input) =>
      if s.gesture.Drawing? && d.currentTool == Pencil && canvas.Some? && |d.elements| > 0 {
        var last := d.elements[|d.elements| - 1];
        CommitKeepsShapes(d, d.elements + [Extend(last, Coordinates(canvas, input))]);
      }
    case Up(canvas, input, id) =>
      if s.gesture.Drawing? && IsBounded(d.currentTool) {
        var e := Element(id, d.currentTool, [s.gesture.start, Coordinates(canvas, input)], ShapeOptions(d));
        CommitKeepsShapes(d, d.elements + [e]);
      }
    case Leave =>
    case Toolbar(a) =>
      ReduceKeepsShapes(d, a);
  }

  /** Whatever the user does on the canvas and the toolbar, every repaint of
      the store's elements draws all of them: no repaint ever throws. */
  lemma {:induction false} RepaintNeverAborts(evs: seq<Event>)
    requires forall i :: 0 <= i < |evs| ==> Allowed(evs[i])
    ensures ShapesIntact(Run(InitialSession, evs).store)
    ensures !RenderAll(Run(InitialSession, evs).store.elements).aborted
    decreases |evs|
  {
    if |evs| > 0 {
      var init := evs[..|evs| - 1];
      assert forall i :: 0 <= i < |init| ==> init[i] == evs[i];
      RepaintNeverAborts(init);
      StepKeepsShapes(Run(InitialSession, init), evs[|evs| - 1]);
    }
  }

  /** A pencil gesture: a press followed by moves. */
  function StrokeEvents(canvas: Option<Rect>, inputs: seq<PointerInput>, id: string): (evs: seq<Event>)
    requires |inputs| > 0
    ensures |evs| == |inputs|
    decreases |inputs|
  {
    if |inputs| == 1 then [Down(canvas, inputs[0], id)]
    else StrokeEvents(canvas, inputs[..|inputs| - 1], id) + [Move(canvas, inputs[|inputs| - 1])]
  }

  /** The canvas-local points of a sequence of inputs. */
  function PointsOf(rect: Rect, inputs: seq<PointerInput>): (ps: seq<Point>)
    ensures |ps| == |inputs|
    ensures forall i :: 0 <= i < |inputs| ==> ps[i] == Coordinates(Some(rect), inputs[i])
    decreases |inputs|
  {
    if |inputs| == 0 then []
    else PointsOf(rect, inputs[..|inputs| - 1]) + [Coordinates(Some(rect), inputs[|inputs| - 1])]
  }

  /** The store after a pencil stroke through `ps` has been committed
      sample by sample: one `addElement` per point, the k-th carrying the
      first k+1 points. */
  function StrokeStore(d: DrawingState, id: string, o: Options, ps: seq<Point>): (r: DrawingState)
    requires d.Valid() && |ps| > 0
    ensures r.Synced()
    ensures |r.elements| == |d.elements| + |ps|
    ensures r.elements[|r.elements| - 1] == Element(id, Pencil, ps, o)
    ensures r.currentIndex == d.currentIndex + |ps| && |r.history| == d.currentIndex + 1 + |ps|
    ensures r.(elements := d.elements, history := d.history, currentIndex := d.currentIndex) == d
    decreases |ps|
  {
    if |ps| == 1 then AddElementTo(d, Element(id, Pencil, ps, o))
    else AddElementTo(StrokeStore(d, id, o, ps[..|ps| - 1]), Element(id, Pencil, ps, o))
  }

  lemma RunSnoc(s: Session, evs: seq<Event>, ev: Event)
    requires s.store.Valid()
    ensures Run(s, evs + [ev]) == Step(Run(s, evs), ev).session
  {
    assert (evs + [ev])[..|evs|] == evs;
  }

  /** Replaying a pencil gesture yields the stroke's store, with the gesture
      still drawing from the first sample. */
  lemma {:induction false} PencilGestureCommits(s: Session, rect: Rect, inputs: seq<PointerInput>, id: string)
    requires s.store.Valid() && s.store.currentTool == Pencil
    requires |inputs| > 0
    ensures Run(s, StrokeEvents(Some(rect), inputs, id))
         == Session(Drawing(PointsOf(rect, inputs)[0]), StrokeStore(s.store, id, PencilOptions(s.store), PointsOf(rect, inputs)))
    decreases |inputs|
  {
    if |inputs| == 1 {
      assert inputs == [inputs[0]];
      PencilPressCommits(s, rect, inputs[0], id);
    } else {
      var init := inputs[..|inputs| - 1];
      PencilGestureCommits(s, rect, init, id);
      PencilGestureStep(s, rect, inputs, id);
    }
  }

  lemma PencilPressCommits(s: Session, rect: Rect, input: PointerInput, id: string)
    requires s.store.Valid() && s.store.currentTool == Pencil
    ensures Run(s, StrokeEvents(Some(rect), [input], id))
         == Session(Drawing(PointsOf(rect, [input])[0]), StrokeStore(s.store, id, PencilOptions(s.store), PointsOf(rect, [input])))
  {
    var down := Down(Some(rect), input, id);
    var p := Coordinates(Some(rect), input);
    var o := PencilOptions(s.store);
    var e := Element(id, Pencil, [p], o);
    assert Run(s, StrokeEvents(Some(rect), [input], id)) == Step(s, down).session by {
      assert StrokeEvents(Some(rect), [input], id) == [] + [down];
      RunSnoc(s, [], down);
    }
    assert Step(s, down).session == Session(Drawing(p), AddElementTo(s.store, e));
    assert StrokeStore(s.store, id, o, [p]) == AddElementTo(s.store, e);
    assert PointsOf(rect, [input]) == [p];
  }

  lemma PencilGestureStep(s: Session, rect: Rect, inputs: seq<PointerInput>, id: string)
    requires s.store.Valid() && s.store.currentTool == Pencil
    requires |inputs| > 1
    requires var init := inputs[..|inputs| - 1];
      Run(s, StrokeEvents(Some(rect), init, id))
      == Session(Drawing(PointsOf(rect, init)[0]), StrokeStore(s.store, id, PencilOptions(s.store), PointsOf(rect, init)))
    ensures Run(s, StrokeEvents(Some(rect), inputs, id))
         == Session(Drawing(PointsOf(rect, inputs)[0]), StrokeStore(s.store, id, PencilOptions(s.store), PointsOf(rect, inputs)))
  {
    var ps := PointsOf(rect, inputs);
    var o := PencilOptions(s.store);
    var m := |inputs| - 1;
    var init := inputs[..m];
    var initEvs := StrokeEvents(Some(rect), init, id);
    var move := Move(Some(rect), inputs[m]);
    var mid := Run(s, initEvs);
    var psInit := PointsOf(rect, init);
    assert ps == psInit + [Coordinates(Some(rect), inputs[m])];
    assert ps[0] == psInit[0];
    assert Run(s, StrokeEvents(Some(rect), inputs, id)) == Step(mid, move).session by {
      assert StrokeEvents(Some(rect), inputs, id) == initEvs + [move];
      RunSnoc(s, initEvs, move);
    }
    PencilMoveExtendsStroke(s.store, id, psInit, rect, inputs[m]);
  }

  /** One more pencil sample extends the stroke's store by one commit. */
  lemma PencilMoveExtendsStroke(d: DrawingState, id: string, ps: seq<Point>, rect: Rect, input: PointerInput)
    requires d.Valid() && d.currentTool == Pencil && |ps| > 0
    ensures var o := PencilOptions(d);
      Step(Session(Drawing(ps[0]), StrokeStore(d, id, o, ps)), Move(Some(rect), input)).session
      == Session(Drawing(ps[0]), StrokeStore(d, id, o, ps + [Coordinates(Some(rect), input)]))
  {
    var o := PencilOptions(d);
    var p := Coordinates(Some(rect), input);
    var store := StrokeStore(d, id, o, ps);
    var last := store.elements[|store.elements| - 1];
    assert last == Element(id, Pencil, ps, o);
    assert Extend(last, p) == Element(id, Pencil, ps + [p], o);
    assert (ps + [p])[..|ps|] == ps;
  }

  /** `es` holds, from position `n` on, one pencil element per prefix of
      `ps`, each longer than the last. */
  predicate GrowingStroke(es: seq<Element>, n: nat, id: string, o: Options, ps: seq<Point>) {
    && |es| == n + |ps|
    && forall k :: n <= k < |es| ==> es[k] == Element(id, Pencil, ps[..k - n + 1], o)
  }

  lemma GrowingStrokeSnoc(es: seq<Element>, n: nat, id: string, o: Options, ps: seq<Point>)
    requires |ps| >= 2 && GrowingStroke(es, n, id, o, ps[..|ps| - 1])
    ensures GrowingStroke(es + [Element(id, Pencil, ps, o)], n, id, o, ps)
    ensures (es + [Element(id, Pencil, ps, o)])[..n] == es[..n]
  {
    var m := |ps| - 1;
    var es' := es + [Element(id, Pencil, ps, o)];
    forall k | n <= k < |es'|
      ensures es'[k] == Element(id, Pencil, ps[..k - n + 1], o)
    {
      if k < |es| {
        assert ps[..m][..k - n + 1] == ps[..k - n + 1];
      } else {
        assert ps[..k - n + 1] == ps;
      }
    }
  }

  /** One more stroke point appends exactly one element to the store. */
  lemma StrokeStoreSnoc(d: DrawingState, id: string, o: Options, ps: seq<Point>)
    requires d.Valid() && |ps| > 1
    ensures StrokeStore(d, id, o, ps).elements
         == StrokeStore(d, id, o, ps[..|ps| - 1]).elements + [Element(id, Pencil, ps, o)]
  {
  }

  /** The stroke's store holds the old elements, then one element per
      sample with the stroke's id, the k-th carrying the first k+1 points. */
  lemma {:induction false} StrokeStoreContents(d: DrawingState, id: string, o: Options, ps: seq<Point>)
    requires d.Valid() && |ps| > 0
    ensures var r := StrokeStore(d, id, o, ps);
      && r.elements[..|d.elements|] == d.elements
      && GrowingStroke(r.elements, |d.elements|, id, o, ps)
    decreases |ps|
  {
    if |ps| == 1 {
      assert ps[..1] == ps;
    } else {
      var m := |ps| - 1;
      StrokeStoreContents(d, id, o, ps[..m]);
      StrokeStoreSnoc(d, id, o, ps);
      GrowingStrokeSnoc(StrokeStore(d, id, o, ps[..m]).elements, |d.elements|, id, o, ps);
    }
  }

  /** A pencil stroke of n samples commits n elements, all with the stroke's
      id: the k-th holds the first k+1 points. Each sample is one commit, so
      undoing the stroke takes n undos. */
  lemma PencilStroke(s: Session, rect: Rect, inputs: seq<PointerInput>, id: string)
    requires s.store.Valid() && s.store.currentTool == Pencil
    requires |inputs| > 0
    ensures var r := Run(s, StrokeEvents(Some(rect), inputs, id));
      var n := |s.store.elements|;
      var ps := PointsOf(rect, inputs);
      && r.gesture == Drawing(ps[0])
      && r.store.Synced()
      && |r.store.elements| == n + |inputs|
      && r.store.elements[..n] == s.store.elements
      && (forall k :: n <= k < |r.store.elements| ==>
            r.store.elements[k] == Element(id, Pencil, ps[..k - n + 1], PencilOptions(s.store)))
      && r.store.currentIndex == s.store.currentIndex + |inputs|
      && |r.store.history| == s.store.currentIndex + 1 + |inputs|
  {
    PencilGestureCommits(s, rect, inputs, id);
    StrokeStoreContents(s.store, id, PencilOptions(s.store), PointsOf(rect, inputs));
  }

  /** With a line, rectangle or circle tool, moves only preview: any number
      of them leaves the session as it was. */
  lemma {:induction false} BoundedMovesCommitNothing(s: Session, moves: seq<Event>)
    requires s.store.Valid() && s.store.currentTool != Pencil
    requires forall i :: 0 <= i < |moves| ==> moves[i].Move?
    ensures Run(s, moves) == s
    decreases |moves|
  {
    if |moves| > 0 {
      var init := moves[..|moves| - 1];
      assert forall i :: 0 <= i < |init| ==> init[i] == moves[i];
      BoundedMovesCommitNothing(s, init);
    }
  }

  /** A line, rectangle or circle gesture - press, any moves, release -
      commits exactly one element: the tool's shape from the press point to
      the release point, with the current stroke, width and fill. */
  lemma BoundedGesture(s: Session, down: Event, moves: seq<Event>, up: Event)
    requires s.store.Valid() && IsBounded(s.store.currentTool)
    requires down.Down? && up.Up?
    requires forall i :: 0 <= i < |moves| ==> moves[i].Move?
    ensures var r := Run(s, [down] + moves + [up]);
      && r.gesture == Idle
      && r.store == AddElementTo(s.store, Element(up.id, s.store.currentTool,
                                                  [Coordinates(down.canvas, down.input), Coordinates(up.canvas, up.input)],
                                                  ShapeOptions(s.store)))
  {
    var evs := [down] + moves + [up];
    var pressed := Run(s, [down]);
    assert [down][..0] == [];
    assert Run(s, [down][..0]) == s;
    assert pressed == Step(s, down).session;
    assert pressed == PointerDown(s, down.canvas, down.input, down.id);
    BoundedMovesCommitNothing(pressed, moves);
    RunConcat(s, [down], moves);
    assert evs[..|evs| - 1] == [down] + moves;
  }

  lemma {:induction false} RunConcat(s: Session, a: seq<Event>, b: seq<Event>)
    requires s.store.Valid()
    ensures Run(s, a + b) == Run(Run(s, a), b)
    decreases |b|
  {
    if |b| == 0 {
      assert a + b == a;
    } else {
      var binit := b[..|b| - 1];
      assert forall i :: 0 <= i < |binit| ==> binit[i] == b[i];
      RunConcat(s, a, binit);
      assert (a + b)[..|a + b| - 1] == a + binit;
    }
  }

  /** The preview a move paints is the repaint the store gets once the
      pointer is released at the same spot. */
  lemma PreviewMatchesCommit(s: Session, canvas: Rect, input: PointerInput, id: string)
    requires s.store.Valid() && IsBounded(s.store.currentTool) && s.gesture.Drawing?
    requires AllRenderable(s.store.elements)
    ensures RenderAll(PointerUp(s, Some(canvas), input, id).store.elements)
         == Frame(PointerMove(s, Some(canvas), input).preview, false)
  {
    var d := s.store;
    var e := Element(id, d.currentTool, [s.gesture.start, Coordinates(Some(canvas), input)], ShapeOptions(d));
    RenderConcat(d.elements, [e]);
    RenderOne(e);
  }
}
