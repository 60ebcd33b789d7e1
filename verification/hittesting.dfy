/** Mapping a pointer position back to a published card (src/App.js:135-141). */
module HitTesting {
  import opened Wrappers
  import opened Geometry
  import opened Tasks
  import opened Render

  /** Strict containment: a point on any of the four edges is outside. */
  predicate Contains(r: Rect, p: Point)
  {
    p.x > r.x && p.x < r.x + r.w && p.y > r.y && p.y < r.y + r.h
  }

  /** `p` lies on the boundary of `r`. */
  predicate OnEdge(r: Rect, p: Point)
  {
    && r.x <= p.x <= r.x + r.w
    && r.y <= p.y <= r.y + r.h
    && (p.x == r.x || p.x == r.x + r.w || p.y == r.y || p.y == r.y + r.h)
  }

  /** The hit-test: the first rectangle, in list order, that strictly contains `p`. */
  function HitTest(rects: seq<Rect>, p: Point): (hit: Option<Rect>)
    ensures hit.None? <==> forall i :: 0 <= i < |rects| ==> !Contains(rects[i], p)
    ensures hit.Some? ==> exists i :: 0 <= i < |rects| && rects[i] == hit.value && Contains(rects[i], p)
                                      && forall j :: 0 <= j < i ==> !Contains(rects[j], p)
  {
    if rects == [] then None
    else if Contains(rects[0], p) then Some(rects[0])
    else
      var hit := HitTest(rects[1..], p);
      assert hit.Some? ==> exists i :: 1 <= i < |rects| && rects[i] == hit.value && Contains(rects[i], p)
                                       && forall j :: 0 <= j < i ==> !Contains(rects[j], p) by {
        if hit.Some? {
          var i :| 0 <= i < |rects[1..]| && rects[1..][i] == hit.value && Contains(rects[1..][i], p)
                   && forall j :: 0 <= j < i ==> !Contains(rects[1..][j], p);
          assert rects[i + 1] == hit.value;
          forall j | 0 <= j < i + 1 ensures !Contains(rects[j], p) {
            if j > 0 { assert rects[j] == rects[1..][j - 1]; }
          }
        }
      }
      hit
  }

  /** A point on the boundary of a rectangle never selects that rectangle. */
  lemma EdgeNeverHits(rects: seq<Rect>, p: Point, r: Rect)
    requires OnEdge(r, p)
    ensures HitTest(rects, p) != Some(r)
  {
  }

  /** Rectangles whose interiors do not meet share no contained point. */
  lemma DisjointShareNoPoint(a: Rect, b: Rect, p: Point)
    requires Disjoint(a, b)
    ensures !(Contains(a, p) && Contains(b, p))
  {
  }

  /** Among rectangles that do not overlap, at most one contains the
      pointer, so the hit-test picks exactly that one, whatever the order. */
  lemma StackedHitIsUnique(rs: seq<Rect>, p: Point, i: int)
    requires Stacked(rs) && 0 <= i < |rs| && Contains(rs[i], p)
    ensures HitTest(rs, p) == Some(rs[i])
  {
    var hit := HitTest(rs, p);
    var k :| 0 <= k < |rs| && rs[k] == hit.value && Contains(rs[k], p)
             && forall j :: 0 <= j < k ==> !Contains(rs[j], p);
    if k < i {
      DisjointShareNoPoint(rs[k], rs[i], p);
    }
  }

  /** On the published layout the hit-test picks exactly the card under the
      pointer. */
  lemma LayoutHitIsCardUnderPointer(tasks: seq<Task>, dragged: Option<int>, p: Point, i: int)
    requires 0 <= i < |Layout(tasks, dragged)| && Contains(Layout(tasks, dragged)[i], p)
    ensures HitTest(Layout(tasks, dragged), p) == Some(Layout(tasks, dragged)[i])
  {
    LayoutCardsDisjoint(tasks, dragged);
    StackedHitIsUnique(Layout(tasks, dragged), p, i);
  }

  /** The same fact by membership: every published card containing `p` is
      the one the hit-test returns. */
  lemma LayoutHitAny(tasks: seq<Task>, dragged: Option<int>, p: Point)
    ensures forall r :: r in Layout(tasks, dragged) && Contains(r, p) ==> HitTest(Layout(tasks, dragged), p) == Some(r)
  {
    forall r | r in Layout(tasks, dragged) && Contains(r, p)
      ensures HitTest(Layout(tasks, dragged), p) == Some(r)
    {
      var i :| 0 <= i < |Layout(tasks, dragged)| && Layout(tasks, dragged)[i] == r;
      LayoutHitIsCardUnderPointer(tasks, dragged, p, i);
    }
  }

  /** A card hit on the layout lies in the column under the pointer. */
  lemma HitColumn(tasks: seq<Task>, dragged: Option<int>, p: Point)
    requires HitTest(Layout(tasks, dragged), p).Some?
    ensures ColumnAt(p.x) == ColumnIndex(HitTest(Layout(tasks, dragged), p).value.colKey)
    ensures 0.0 <= p.x < CanvasWidth
  {
    var r := HitTest(Layout(tasks, dragged), p).value;
    CardInsideBand(ColumnIndex(r.colKey), p.x);
    ColumnAtInRange(p.x);
  }
}
