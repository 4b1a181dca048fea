/** The SVG-like path text a pencil stroke is rendered with: `M x0 y0`
    followed by ` L xi yi` for every later point, built by a left fold over
    the points; and a reader that recovers the points from that text. */
module PathText {
  import opened Wrappers
  import opened Decimal
  import opened Elements
  import opened Seqs

  /** One step of the fold: the first point starts the path, every later
      point extends the text accumulated so far. */
  function PathStep(acc: string, p: Point, i: nat): string {
    if i == 0 then "M " + IntToString(p.x) + " " + IntToString(p.y)
    else acc + " L " + IntToString(p.x) + " " + IntToString(p.y)
  }

  /** `points.reduce(step, '')`. */
  function PathData(points: seq<Point>): (d: string)
    ensures |points| == 0 <==> d == ""
    ensures |points| > 0 ==> |d| >= 2 && d[..2] == "M "
    decreases |points|
  {
    if |points| == 0 then ""
    else PathStep(PathData(points[..|points| - 1]), points[|points| - 1], |points| - 1)
  }

  /** Appending a point to a stroke appends one ` L x y` segment to its path:
      the old path is a prefix of the new one. */
  lemma PathDataExtends(points: seq<Point>, p: Point)
    requires |points| > 0
    ensures PathData(points + [p]) == PathData(points) + " L " + IntToString(p.x) + " " + IntToString(p.y)
  {
    assert (points + [p])[..|points|] == points;
  }

  // ----- the reader -----

  /** Words joined by single spaces. */
  function Join(words: seq<string>): string
    requires |words| > 0
    decreases |words|
  {
    if |words| == 1 then words[0] else Join(words[..|words| - 1]) + " " + words[|words| - 1]
  }

  /** Text cut at every space; the inverse of Join on space-free words. */
  function Split(s: string): (words: seq<string>)
    ensures |words| > 0
    decreases |s|
  {
    if |s| == 0 then [""]
    else
      var init := Split(s[..|s| - 1]);
      if s[|s| - 1] == ' ' then init + [""]
      else init[..|init| - 1] + [init[|init| - 1] + [s[|s| - 1]]]
  }

  /** The words of a path: `M x0 y0` then `L xi yi` per later point. */
  function Tokens(points: seq<Point>): (ts: seq<string>)
    requires |points| > 0
    ensures |ts| == 3 * |points|
    ensures forall i :: 0 <= i < |ts| ==> ' ' !in ts[i]
    decreases |points|
  {
    var p := points[|points| - 1];
    if |points| == 1 then ["M", IntToString(p.x), IntToString(p.y)]
    else Tokens(points[..|points| - 1]) + ["L", IntToString(p.x), IntToString(p.y)]
  }

  /** Reads words back into points, last segment first. */
  function DecodeTokens(ts: seq<string>): (r: Option<seq<Point>>)
    ensures r.Some? ==> 3 * |r.value| == |ts| && |ts| > 0
    decreases |ts|
  {
    var n := |ts|;
    if n < 3 then None
    else
      var x := ParseInt(ts[n - 2]);
      var y := ParseInt(ts[n - 1]);
      if x.None? || y.None? then None
      else if n == 3 then
        if ts[0] == "M" then Some([Point(x.value, y.value)]) else None
      else if ts[n - 3] == "L" then
        match DecodeTokens(ts[..n - 3])
        case None => None
        case Some(ps) => Some(ps + [Point(x.value, y.value)])
      else None
  }

  /** Reads a path text back into the points it was built from. */
  function ParsePath(d: string): Option<seq<Point>> {
    if d == "" then Some([]) else DecodeTokens(Split(d))
  }

  lemma {:induction false} SplitWord(w: string)
    requires ' ' !in w
    ensures Split(w) == [w]
    decreases |w|
  {
    if |w| > 0 {
      SplitWord(w[..|w| - 1]);
      assert w[..|w| - 1] + [w[|w| - 1]] == w;
    }
  }

  lemma {:induction false} SplitAfterSpace(t: string, w: string)
    requires ' ' !in w
    ensures Split(t + " " + w) == Split(t) + [w]
    decreases |w|
  {
    if |w| == 0 {
      assert t + " " + w == t + " ";
      assert (t + " ")[..|t|] == t;
    } else {
      var u := w[..|w| - 1];
      SplitAfterSpace(t, u);
      var s := t + " " + w;
      assert s[..|s| - 1] == t + " " + u;
      assert u + [w[|w| - 1]] == w;
    }
  }

  /** Splitting joined space-free words gives the words back. */
  lemma {:induction false} SplitJoin(words: seq<string>)
    requires |words| > 0
    requires forall i :: 0 <= i < |words| ==> ' ' !in words[i]
    ensures Split(Join(words)) == words
    decreases |words|
  {
    if |words| == 1 {
      SplitWord(words[0]);
    } else {
      var init := words[..|words| - 1];
      SplitJoin(init);
      SplitAfterSpace(Join(init), words[|words| - 1]);
    }
  }

  lemma JoinSnoc(words: seq<string>, w: string)
    requires |words| > 0
    ensures Join(words + [w]) == Join(words) + " " + w
  {
    assert (words + [w])[..|words|] == words;
  }

  lemma {:induction false} JoinSegment(ts: seq<string>, x: string, y: string)
    requires |ts| > 0
    ensures Join(ts + ["L", x, y]) == Join(ts) + " L " + x + " " + y
  {
    var j := Join(ts);
    var tl, tlx, tlxy := ts + ["L"], ts + ["L", x], ts + ["L", x, y];
    assert Join(tl) == j + " " + "L" by {
      JoinSnoc(ts, "L");
    }
    assert Join(tlx) == Join(tl) + " " + x by {
      SnocTwice(ts, "L", x);
      JoinSnoc(tl, x);
    }
    assert Join(tlxy) == Join(tlx) + " " + y by {
      SnocThrice(ts, "L", x, y);
      JoinSnoc(tlx, y);
    }
    Regroup(j, x);
  }

  lemma Regroup(j: string, x: string)
    ensures j + " " + "L" + " " + x == j + " L " + x
  {
    assert " " + "L" + " " == " L ";
    assert j + " " + "L" + " " == j + (" " + "L" + " ");
  }

  lemma JoinStart(x: string, y: string)
    ensures Join(["M", x, y]) == "M " + x + " " + y
  {
    JoinSnoc(["M"], x);
    assert ["M"] + [x] == ["M", x];
    JoinSnoc(["M", x], y);
    assert ["M", x] + [y] == ["M", x, y];
  }

  /** The fold builds exactly the joined path words. */
  lemma {:induction false} PathDataIsJoinedTokens(points: seq<Point>)
    requires |points| > 0
    ensures PathData(points) == Join(Tokens(points))
    decreases |points|
  {
    var p := points[|points| - 1];
    var x, y := IntToString(p.x), IntToString(p.y);
    if |points| == 1 {
      assert PathData(points) == "M " + x + " " + y by {
        assert points[..0] == [];
      }
      assert Tokens(points) == ["M", x, y];
      JoinStart(x, y);
    } else {
      var init := points[..|points| - 1];
      assert PathData(points) == PathData(init) + " L " + x + " " + y by {
        PathDataExtends(init, p);
        InitPlusLast(points);
      }
      assert Tokens(points) == Tokens(init) + ["L", x, y];
      PathDataIsJoinedTokens(init);
      JoinSegment(Tokens(init), x, y);
    }
  }

  lemma DecodeTokensStart(x: string, y: string, a: int, b: int)
    requires ParseInt(x) == Some(a) && ParseInt(y) == Some(b)
    ensures DecodeTokens(["M", x, y]) == Some([Point(a, b)])
  {
  }

  lemma DecodeTokensSnoc(ts: seq<string>, ps: seq<Point>, x: string, y: string, a: int, b: int)
    requires DecodeTokens(ts) == Some(ps) && ParseInt(x) == Some(a) && ParseInt(y) == Some(b)
    ensures DecodeTokens(ts + ["L", x, y]) == Some(ps + [Point(a, b)])
  {
    PrefixOfConcat(ts, ["L", x, y]);
  }

  lemma {:induction false} DecodeTokensOf(points: seq<Point>)
    requires |points| > 0
    ensures DecodeTokens(Tokens(points)) == Some(points)
    decreases |points|
  {
    var p := points[|points| - 1];
    var x, y := IntToString(p.x), IntToString(p.y);
    ParseIntToString(p.x);
    ParseIntToString(p.y);
    if |points| == 1 {
      assert Tokens(points) == ["M", x, y];
      DecodeTokensStart(x, y, p.x, p.y);
      assert [Point(p.x, p.y)] == points;
    } else {
      var init := points[..|points| - 1];
      assert Tokens(points) == Tokens(init) + ["L", x, y];
      DecodeTokensOf(init);
      DecodeTokensSnoc(Tokens(init), init, x, y, p.x, p.y);
      InitPlusLast(points);
    }
  }


  /** The path text of a stroke determines the stroke: reading it back yields
      exactly the points, in order. */
  lemma {:induction false} PathRoundTrip(points: seq<Point>)
    ensures ParsePath(PathData(points)) == Some(points)
  {
    if |points| > 0 {
      PathDataIsJoinedTokens(points);
      SplitJoin(Tokens(points));
      DecodeTokensOf(points);
    }
  }

  /** Two strokes with the same path text are the same stroke. */
  lemma PathDataInjective(a: seq<Point>, b: seq<Point>)
    requires PathData(a) == PathData(b)
    ensures a == b
  {
    PathRoundTrip(a);
    PathRoundTrip(b);
  }
}
