/**
 * Normalising negative extents (src/lib/utils/convertElementNegativeProps.ts):
 * a box drawn leftwards or upwards is flipped so that its extents are
 * non-negative and it covers the same area.
 */
module NegativeProps {
  import opened Types
  import opened Objects
  import opened FieldBorders
  import HitTest

  function Abs(v: real): real { if v < 0.0 then -v else v }

  /** The same box, given by its least corner and non-negative extents. */
  function Normalized(r: Rect): Rect {
    Rect(Min(r.x, r.x + r.width), Min(r.y, r.y + r.height), Abs(r.width), Abs(r.height))
  }

  /** convertElementNegativeProps: flips the element in place and returns it. */
  method ConvertElementNegativeProps<A>(e: Elem<A>) returns (r: Elem<A>)
    modifies e
    ensures r == e
    ensures e.Geometry() == Normalized(old(e.Geometry()))
  {
    if e.width < 0.0 {
      e.x := e.x + e.width;
      e.width := e.width * -1.0;
    }
    if e.height < 0.0 {
      e.y := e.y + e.height;
      e.height := e.height * -1.0;
    }
    r := e;
  }

  /**
   * Afterwards both extents are non-negative and the covered interval on
   * each axis, from min(x, x + width) to max(x, x + width), is unchanged.
   */
  lemma NormalizedCoversSameBox(r: Rect)
    ensures var n := Normalized(r);
      && n.width >= 0.0 && n.height >= 0.0
      && n.x == Min(r.x, r.x + r.width) && n.x + n.width == Max(r.x, r.x + r.width)
      && n.y == Min(r.y, r.y + r.height) && n.y + n.height == Max(r.y, r.y + r.height)
  {
  }

  /** A box with non-negative extents is left as it is; hence normalising is idempotent. */
  lemma NormalizedIdempotent(r: Rect)
    ensures r.width >= 0.0 && r.height >= 0.0 ==> Normalized(r) == r
    ensures Normalized(Normalized(r)) == Normalized(r)
  {
  }

  /**
   * The normalised element contains exactly the points strictly inside the
   * covered box; the element before normalisation contains no point at all
   * when an extent is negative.
   */
  lemma NormalizedHitTest(px: real, py: real, info: ElementInfo, r: Rect)
    ensures HitTest.IsOver(px, py, info.At(Normalized(r))) <==>
      Min(r.x, r.x + r.width) < px < Max(r.x, r.x + r.width) &&
      Min(r.y, r.y + r.height) < py < Max(r.y, r.y + r.height)
    ensures r.width < 0.0 || r.height < 0.0 ==> !HitTest.IsOver(px, py, info.At(r))
  {
  }
}
