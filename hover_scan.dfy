/**
 * The hover scan shared by both controllers
 * (src/lib/ngx-drawing-board.ts and
 * projects/ngx-canvas-drawer/src/lib/ngx-canvas-drawer.ts, handleMouseMovement):
 * the elements are visited in list order; for each one the handle test comes
 * first and the body test second, and the first element that passes either
 * stops the scan.
 */
module HoverScan {
  import opened Types
  import opened DetectHandle
  import opened HitTest

  /** Where the pointer is: on a handle of element k, over the body of element k, or over nothing. */
  datatype ScanResult = OverHandle(index: nat, handle: Handle) | OverBody(index: nat) | Nowhere

  /** The element with this geometry stops the scan. */
  predicate Matches(p: Point, r: Rect) {
    DetectCurrentHandle(p, r).Some? || InsideRect(p.x, p.y, r)
  }

  /**
   * The scan from position i on. A result names the first matching element
   * at or after i, and says whether the handle test or the body test matched.
   */
  function ScanFrom(rs: seq<Rect>, p: Point, i: nat): (res: ScanResult)
    requires i <= |rs|
    ensures res.Nowhere? <==> forall j :: i <= j < |rs| ==> !Matches(p, rs[j])
    ensures !res.Nowhere? ==> i <= res.index < |rs| && Matches(p, rs[res.index])
    ensures !res.Nowhere? ==> forall j :: i <= j < res.index ==> !Matches(p, rs[j])
    ensures res.OverHandle? ==> DetectCurrentHandle(p, rs[res.index]) == Some(res.handle)
    ensures res.OverBody? ==> DetectCurrentHandle(p, rs[res.index]).None? && InsideRect(p.x, p.y, rs[res.index])
    decreases |rs| - i
  {
    if i == |rs| then Nowhere
    else match DetectCurrentHandle(p, rs[i])
      case Some(h) => OverHandle(i, h)
      case None => if InsideRect(p.x, p.y, rs[i]) then OverBody(i) else ScanFrom(rs, p, i + 1)
  }

  function Scan(rs: seq<Rect>, p: Point): ScanResult {
    ScanFrom(rs, p, 0)
  }

  /**
   * The scan stops at element k exactly when k is the first element that
   * matches; it finds nothing exactly when no element matches.
   */
  lemma ScanIsFirstMatch(rs: seq<Rect>, p: Point, k: nat)
    ensures !Scan(rs, p).Nowhere? && Scan(rs, p).index == k <==>
      k < |rs| && Matches(p, rs[k]) && forall j :: 0 <= j < k ==> !Matches(p, rs[j])
  {
  }

  /** A handle of an element wins over the body of the same element. */
  lemma HandleBeforeBody(rs: seq<Rect>, p: Point, k: nat)
    requires !Scan(rs, p).Nowhere? && Scan(rs, p).index == k
    ensures DetectCurrentHandle(p, rs[k]).Some? <==> Scan(rs, p).OverHandle?
  {
  }

  /** Elements after the first match play no part: appending to the list does not change a found result. */
  lemma ScanIgnoresLater(rs: seq<Rect>, more: seq<Rect>, p: Point)
    requires !Scan(rs, p).Nowhere?
    ensures Scan(rs + more, p) == Scan(rs, p)
  {
    var k := Scan(rs, p).index;
    ScanIsFirstMatch(rs, p, k);
    ScanIsFirstMatch(rs + more, p, k);
    assert (rs + more)[k] == rs[k];
    forall j | 0 <= j < k ensures (rs + more)[j] == rs[j] {
    }
    var res := Scan(rs + more, p);
    assert res.index == k;
  }
}
