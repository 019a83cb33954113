/**
 * Which resize handle, if any, the pointer is over
 * (src/lib/utils/detectCurrentHandle.ts). The source compares the Euclidean
 * distance with HANDLE_SIZE = 5; since a distance is never negative, that is
 * the same test as comparing the squared distance with 25, which is what is
 * modelled here.
 */
module DetectHandle {
  import opened Types
  import opened HandlePositions

  /** HANDLE_SIZE (src/lib/shapes/base.ts): the handle radius in pixels. */
  const HandleSize: real := 5.0

  /** The square of `dist`. */
  function DistSq(p: Point, q: Point): (d: real)
    ensures d >= 0.0
    ensures p == q ==> d == 0.0
  {
    (q.x - p.x) * (q.x - p.x) + (q.y - p.y) * (q.y - p.y)
  }

  lemma DistSqSymmetric(p: Point, q: Point)
    ensures DistSq(p, q) == DistSq(q, p)
  {
  }

  /** The pointer is within HANDLE_SIZE of handle h (boundary included). */
  predicate Near(p: Point, h: Handle, r: Rect) {
    HandlePosition(h, r).Some? && DistSq(p, HandlePosition(h, r).value) <= HandleSize * HandleSize
  }

  /** The first handle of `hs` the pointer is near, if any. */
  function DetectIn(hs: seq<Handle>, p: Point, r: Rect): (res: Option<Handle>)
    ensures res.Some? ==> res.value in hs && Near(p, res.value, r)
    ensures res.None? ==> forall h :: h in hs ==> !Near(p, h, r)
  {
    if hs == [] then None
    else
      var pos := HandlePosition(hs[0], r);
      if pos.Some? && DistSq(p, pos.value) <= HandleSize * HandleSize then Some(hs[0])
      else DetectIn(hs[1..], p, r)
  }

  /** detectCurrentHandle: the handles are tried in EMouseHandle declaration order. */
  function DetectCurrentHandle(p: Point, r: Rect): Option<Handle> {
    DetectIn(HandleOrder, p, r)
  }

  /**
   * In a list without repetitions, the search returns the i-th handle exactly
   * when the pointer is near it and near none of the handles before it.
   */
  lemma {:induction false} DetectInFirst(hs: seq<Handle>, p: Point, r: Rect, i: nat)
    requires i < |hs|
    requires forall j, k :: 0 <= j < k < |hs| ==> hs[j] != hs[k]
    ensures DetectIn(hs, p, r) == Some(hs[i]) <==>
      Near(p, hs[i], r) && forall j :: 0 <= j < i ==> !Near(p, hs[j], r)
  {
    if i > 0 {
      DetectInFirst(hs[1..], p, r, i - 1);
      assert hs[1..][i - 1] == hs[i];
      if Near(p, hs[0], r) {
        assert DetectIn(hs, p, r) == Some(hs[0]);
        assert hs[0] != hs[i];
      } else {
        assert DetectIn(hs, p, r) == DetectIn(hs[1..], p, r);
        assert forall j :: 0 <= j < i - 1 ==> hs[1..][j] == hs[j + 1];
      }
    }
  }

  /**
   * The result is h exactly when the pointer is near h and near no handle
   * declared before h.
   */
  lemma DetectCurrentHandleFirstMatch(p: Point, r: Rect, h: Handle)
    ensures DetectCurrentHandle(p, r) == Some(h) <==>
      Near(p, h, r) && forall g :: HandleIndex(g) < HandleIndex(h) ==> !Near(p, g, r)
  {
    HandleOrderEnumerates();
    var i := HandleIndex(h);
    DetectInFirst(HandleOrder, p, r, i);
    if forall j :: 0 <= j < i ==> !Near(p, HandleOrder[j], r) {
      forall g | HandleIndex(g) < i ensures !Near(p, g, r) {
        assert HandleOrder[HandleIndex(g)] == g;
      }
    }
  }

  /** The result is never `center`, and None means no handle is near. */
  lemma DetectNeverCenter(p: Point, r: Rect)
    ensures DetectCurrentHandle(p, r) != Some(Center)
    ensures DetectCurrentHandle(p, r).None? <==> forall h :: !Near(p, h, r)
  {
    HandleOrderEnumerates();
  }

  /** Distance exactly HANDLE_SIZE still matches; a little more does not. */
  lemma DetectBoundaryInclusive()
    ensures DetectCurrentHandle(Point(3.0, 4.0), Rect(0.0, 0.0, 100.0, 100.0)) == Some(TopLeft)
    ensures DetectCurrentHandle(Point(3.0, 4.1), Rect(0.0, 0.0, 100.0, 100.0)) == None
  {
    var r := Rect(0.0, 0.0, 100.0, 100.0);
    assert HandleOrder[0] == TopLeft;
    assert Near(Point(3.0, 4.0), TopLeft, r);
    var q := Point(3.0, 4.1);
    forall h ensures !Near(q, h, r) {
      match h
      case TopLeft =>
      case TopRight =>
      case BottomLeft =>
      case BottomRight =>
      case Top =>
      case Left =>
      case Bottom =>
      case Right =>
      case Center =>
    }
    DetectNeverCenter(q, r);
  }

  /** Offsets of each handle as fractions of the width and the height. */
  function FracX(h: Handle): real {
    match h
    case TopLeft => 0.0
    case BottomLeft => 0.0
    case Left => 0.0
    case Top => 0.5
    case Bottom => 0.5
    case Center => 0.5
    case TopRight => 1.0
    case BottomRight => 1.0
    case Right => 1.0
  }

  function FracY(h: Handle): real {
    match h
    case TopLeft => 0.0
    case TopRight => 0.0
    case Top => 0.0
    case Left => 0.5
    case Right => 0.5
    case Center => 0.5
    case BottomLeft => 1.0
    case BottomRight => 1.0
    case Bottom => 1.0
  }

  lemma FractionsDistinguish(g: Handle, h: Handle)
    requires g != Center && h != Center && g != h
    ensures FracX(g) != FracX(h) || FracY(g) != FracY(h)
    ensures FracX(g) in {0.0, 0.5, 1.0} && FracX(h) in {0.0, 0.5, 1.0}
    ensures FracY(g) in {0.0, 0.5, 1.0} && FracY(h) in {0.0, 0.5, 1.0}
  {
  }

  lemma PositionByFractions(h: Handle, r: Rect)
    requires h != Center
    ensures HandlePosition(h, r).value == Point(r.x + FracX(h) * r.width, r.y + FracY(h) * r.height)
  {
  }

  /** Two different fractions times an extent over 10 are more than 5 apart. */
  lemma FractionsApart(f: real, g: real, w: real)
    requires f in {0.0, 0.5, 1.0} && g in {0.0, 0.5, 1.0} && f != g
    requires w > 10.0 || w < -10.0
    ensures (f * w - g * w) * (f * w - g * w) > 25.0
  {
    var d := f * w - g * w;
    assert d == (f - g) * w;
    assert d > 5.0 || d < -5.0 by {
      assert f - g in {0.5, 1.0, -0.5, -1.0};
    }
    if d > 5.0 {
      assert d * d > 5.0 * d;
    } else {
      assert d * d > -5.0 * d;
    }
  }

  /** Two points placed at different fractions of a box with extents over 10 are more than 5 apart. */
  lemma FractionPointsApart(fx1: real, fy1: real, fx2: real, fy2: real, r: Rect)
    requires fx1 in {0.0, 0.5, 1.0} && fx2 in {0.0, 0.5, 1.0}
    requires fy1 in {0.0, 0.5, 1.0} && fy2 in {0.0, 0.5, 1.0}
    requires fx1 != fx2 || fy1 != fy2
    requires r.width > 10.0 || r.width < -10.0
    requires r.height > 10.0 || r.height < -10.0
    ensures DistSq(Point(r.x + fx1 * r.width, r.y + fy1 * r.height),
                   Point(r.x + fx2 * r.width, r.y + fy2 * r.height)) > HandleSize * HandleSize
  {
    var dx := (r.x + fx2 * r.width) - (r.x + fx1 * r.width);
    var dy := (r.y + fy2 * r.height) - (r.y + fy1 * r.height);
    assert dx == fx2 * r.width - fx1 * r.width;
    assert dy == fy2 * r.height - fy1 * r.height;
    assert dx * dx >= 0.0 && dy * dy >= 0.0;
    assert DistSq(Point(r.x + fx1 * r.width, r.y + fy1 * r.height),
                  Point(r.x + fx2 * r.width, r.y + fy2 * r.height)) == dx * dx + dy * dy;
    if fx1 != fx2 {
      FractionsApart(fx2, fx1, r.width);
    } else {
      assert fy1 != fy2;
      FractionsApart(fy2, fy1, r.height);
      assert dy * dy > 25.0;
    }
  }

  /**
   * When both extents exceed twice HANDLE_SIZE in absolute value, two
   * different handles are more than HANDLE_SIZE apart.
   */
  lemma HandlesApart(g: Handle, h: Handle, r: Rect)
    requires g != Center && h != Center && g != h
    requires r.width > 10.0 || r.width < -10.0
    requires r.height > 10.0 || r.height < -10.0
    ensures !Near(HandlePosition(h, r).value, g, r)
  {
    PositionByFractions(g, r);
    PositionByFractions(h, r);
    FractionsDistinguish(g, h);
    FractionPointsApart(FracX(h), FracY(h), FracX(g), FracY(g), r);
  }

  /** At the exact position of h the result is h or a handle declared before it. */
  lemma DetectAtHandlePosition(h: Handle, r: Rect)
    requires h != Center
    ensures var res := DetectCurrentHandle(HandlePosition(h, r).value, r);
      res.Some? && HandleIndex(res.value) <= HandleIndex(h)
  {
    var p := HandlePosition(h, r).value;
    assert Near(p, h, r);
    var res := DetectCurrentHandle(p, r);
    DetectNeverCenter(p, r);
    DetectCurrentHandleFirstMatch(p, r, res.value);
  }

  /** For a box whose extents exceed 10 in absolute value the result is h itself. */
  lemma DetectAtHandlePositionExact(h: Handle, r: Rect)
    requires h != Center
    requires r.width > 10.0 || r.width < -10.0
    requires r.height > 10.0 || r.height < -10.0
    ensures DetectCurrentHandle(HandlePosition(h, r).value, r) == Some(h)
  {
    var p := HandlePosition(h, r).value;
    assert Near(p, h, r);
    forall g | HandleIndex(g) < HandleIndex(h) ensures !Near(p, g, r) {
      if g != Center {
        HandlesApart(g, h, r);
      }
    }
    DetectCurrentHandleFirstMatch(p, r, h);
  }
}
