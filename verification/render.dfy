/** The render dispatch: every element becomes at most one abstract draw
    command for the sketch-style rendering library, in list order, on a
    freshly cleared surface. */
module Render {
  import opened Wrappers
  import opened Elements
  import opened PathText
  import opened Seqs

  /** The four drawing calls of the rendering library. The library receives
      a circle's diameter; integers have no square roots, so the command
      carries the square of that diameter. */
  datatype DrawCommand =
    | DrawLine(from: Point, to: Point, options: Options)
    | DrawRectangle(origin: Point, width: int, height: int, options: Options)
    | DrawCircle(center: Point, diameterSquared: int, options: Options)
    | DrawPath(data: string, options: Options)

  /** The commands one repaint issues after clearing the surface. `aborted`
      is set when an element without the points its kind reads made the
      repaint throw; nothing after that element is drawn. */
  datatype Frame = Frame(commands: seq<DrawCommand>, aborted: bool)

  function DistanceSquared(p: Point, q: Point): (d: int)
    ensures d >= 0
  {
    (q.x - p.x) * (q.x - p.x) + (q.y - p.y) * (q.y - p.y)
  }

  /** The draw command for a two-point shape: a line between the points; a
      rectangle from the first point whose signed width and height reach the
      second, with no normalisation of negative sizes; a circle centred on
      the first point whose diameter is twice the distance between them, so
      the second point lies on its circumference. */
  function Shape(kind: Tool, p0: Point, p1: Point, o: Options): (r: Option<DrawCommand>)
    ensures r.Some? <==> IsBounded(kind)
    ensures r.Some? ==> r.value.options == o
    ensures kind == Line ==> r.Some? && r.value.DrawLine? && r.value.from == p0 && r.value.to == p1
    ensures kind == Rectangle ==>
      && r.Some? && r.value.DrawRectangle? && r.value.origin == p0
      && p0.x + r.value.width == p1.x && p0.y + r.value.height == p1.y
    ensures kind == Circle ==>
      && r.Some? && r.value.DrawCircle? && r.value.center == p0
      && r.value.diameterSquared == 4 * DistanceSquared(p0, p1)
  {
    match kind
    case Line => Some(DrawLine(p0, p1, o))
    case Rectangle => Some(DrawRectangle(p0, p1.x - p0.x, p1.y - p0.y, o))
    case Circle =>
      var w := p1.x - p0.x;
      var h := p1.y - p0.y;
      Some(DrawCircle(p0, (2 * w) * (2 * w) + (2 * h) * (2 * h), o))
    case _ => None
  }

  /** The `switch (type)` of the repaint loop for one element. */
  function CommandFor(e: Element): (r: Option<DrawCommand>)
    requires Renderable(e)
    ensures r.Some? <==> !e.kind.Other?
    ensures r.Some? ==> r.value.options == e.options
    ensures e.kind == Pencil ==> r.Some? && r.value.DrawPath? && ParsePath(r.value.data) == Some(e.points)
    ensures e.kind == Pencil ==> r.value.data == PathData(e.points)
    ensures IsBounded(e.kind) ==> r == Shape(e.kind, e.points[0], e.points[1], e.options)
  {
    match e.kind
    case Pencil =>
      PathRoundTrip(e.points);
      Some(DrawPath(PathData(e.points), e.options))
    case Other(_) => None
    case _ => Shape(e.kind, e.points[0], e.points[1], e.options)
  }

  lemma AllRenderableSnoc(es: seq<Element>)
    requires |es| > 0
    ensures AllRenderable(es) <==> AllRenderable(es[..|es| - 1]) && Renderable(es[|es| - 1])
  {
    var init := es[..|es| - 1];
    assert forall i :: 0 <= i < |init| ==> init[i] == es[i];
  }

  /** The repaint after one more element, in terms of the repaint before:
      a stopped repaint stays stopped, an element without its points stops
      it, and any other element adds its command. */
  function Then(f: Frame, e: Element): Frame {
    if f.aborted then f
    else if !Renderable(e) then Frame(f.commands, true)
    else Frame(f.commands + ToSeq(CommandFor(e)), false)
  }

  /** `redrawElements`: clear, then dispatch every element in order. */
  function RenderAll(es: seq<Element>): (f: Frame)
    ensures f.aborted <==> !AllRenderable(es)
    ensures |f.commands| <= |es|
    decreases |es|
  {
    if |es| == 0 then Frame([], false)
    else
      AllRenderableSnoc(es);
      Then(RenderAll(es[..|es| - 1]), es[|es| - 1])
  }

  /** A single element: one command for the four known kinds, none for any
      other kind, an aborted repaint when its points are missing. */
  lemma RenderOne(e: Element)
    ensures RenderAll([e]) ==
      if !Renderable(e) then Frame([], true) else Frame(ToSeq(CommandFor(e)), false)
  {
    assert [e][..0] == [];
  }

  lemma RenderSnoc(es: seq<Element>, e: Element)
    ensures RenderAll(es + [e]) == Then(RenderAll(es), e)
  {
    assert (es + [e])[..|es|] == es;
  }

  /** Painter's order: the repaint of `a + b` issues the commands of `a`
      followed by those of `b`, unless `a` already stopped the repaint. */
  lemma {:induction false} RenderConcat(a: seq<Element>, b: seq<Element>)
    ensures RenderAll(a + b) ==
      if RenderAll(a).aborted then RenderAll(a)
      else Frame(RenderAll(a).commands + RenderAll(b).commands, RenderAll(b).aborted)
    decreases |b|
  {
    if |b| == 0 {
      assert a + b == a;
    } else {
      var binit, e := b[..|b| - 1], b[|b| - 1];
      assert b == binit + [e];
      assert a + b == (a + binit) + [e];
      RenderConcat(a, binit);
      RenderSnoc(a + binit, e);
      RenderSnoc(binit, e);
      var fa, fi := RenderAll(a), RenderAll(binit);
      if !fa.aborted && !fi.aborted && Renderable(e) {
        Assoc(fa.commands, fi.commands, ToSeq(CommandFor(e)));
      }
    }
  }

  /** `cs` holds exactly one command per element of `es`, in order. */
  predicate OnePerElement(cs: seq<DrawCommand>, es: seq<Element>)
    requires AllRenderable(es)
  {
    |cs| == |es| && forall i :: 0 <= i < |es| ==> Some(cs[i]) == CommandFor(es[i])
  }

  lemma OnePerElementSnoc(cs: seq<DrawCommand>, es: seq<Element>, c: DrawCommand, e: Element)
    requires AllRenderable(es) && Renderable(e) && OnePerElement(cs, es) && CommandFor(e) == Some(c)
    ensures AllRenderable(es + [e]) && OnePerElement(cs + [c], es + [e])
  {
    assert (es + [e])[..|es|] == es;
    AllRenderableSnoc(es + [e]);
    forall i | 0 <= i < |es| + 1
      ensures Some((cs + [c])[i]) == CommandFor((es + [e])[i])
    {
      if i < |es| {
        assert (cs + [c])[i] == cs[i] && (es + [e])[i] == es[i];
      }
    }
  }

  /** When every element is drawable and of a known kind, the repaint issues
      exactly one command per element, the i-th for the i-th element. */
  lemma {:induction false} RenderOnePerElement(es: seq<Element>)
    requires AllRenderable(es)
    requires forall i :: 0 <= i < |es| ==> !es[i].kind.Other?
    ensures !RenderAll(es).aborted
    ensures OnePerElement(RenderAll(es).commands, es)
    decreases |es|
  {
    if |es| > 0 {
      var init, e := es[..|es| - 1], es[|es| - 1];
      assert es == init + [e];
      AllRenderableSnoc(es);
      assert forall i :: 0 <= i < |init| ==> !init[i].kind.Other? by {
        assert forall i :: 0 <= i < |init| ==> init[i] == es[i];
      }
      RenderOnePerElement(init);
      RenderSnoc(init, e);
      var c := CommandFor(e);
      OnePerElementSnoc(RenderAll(init).commands, init, c.value, e);
    }
  }

  /** An element whose points are missing hides everything after it. */
  lemma RenderStopsAtBroken(a: seq<Element>, e: Element, b: seq<Element>)
    requires AllRenderable(a) && !Renderable(e)
    ensures RenderAll(a + [e] + b) == Frame(RenderAll(a).commands, true)
  {
    RenderConcat(a, [e]);
    RenderOne(e);
    RenderConcat(a + [e], b);
  }

  /** The rectangle from (10,10) to (50,40) is drawn at (10,10), 40 wide
      and 30 high; the circle from (0,0) through (3,4) gets diameter 10. */
  lemma ShapeExamples(o: Options)
    ensures Shape(Rectangle, Point(10, 10), Point(50, 40), o) == Some(DrawRectangle(Point(10, 10), 40, 30, o))
    ensures Shape(Circle, Point(0, 0), Point(3, 4), o) == Some(DrawCircle(Point(0, 0), 10 * 10, o))
    ensures Shape(Rectangle, Point(50, 40), Point(10, 10), o) == Some(DrawRectangle(Point(50, 40), -40, -30, o))
  {
  }
}
