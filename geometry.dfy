/** Integer screen geometry of the ChimeraBox game: points, pygame-style
    rectangles with their top-left corner and size, and the overlap test the
    sprite collisions use. */
module Geometry {

  const ScreenWidth: int := 800
  const ScreenHeight: int := 600

  datatype Point = Point(x: int, y: int)

  /** A pygame.Rect: top-left corner (x, y), width w and height h. */
  datatype Rect = Rect(x: int, y: int, w: nat, h: nat) {

    function Right(): int { x + w }

    function Bottom(): int { y + h }

    /** pygame's centre: corner plus half the size, rounded down. */
    function Center(): Point { Point(x + w / 2, y + h / 2) }

    function MovedBy(d: Point): Rect { Rect(x + d.x, y + d.y, w, h) }
  }

  /** Assigning rect.center: the corner moves so that the centre is c. */
  function CenteredAt(w: nat, h: nat, c: Point): (r: Rect)
    ensures r.w == w && r.h == h
    ensures r.Center() == c
  {
    Rect(c.x - w / 2, c.y - h / 2, w, h)
  }

  /** Rect.colliderect on rectangles of positive size: the interiors
      intersect, so rectangles that only share an edge do not overlap. */
  predicate Overlaps(a: Rect, b: Rect) {
    a.x < b.Right() && b.x < a.Right() && a.y < b.Bottom() && b.y < a.Bottom()
  }

  /** The pixel p lies inside r. */
  predicate Covers(r: Rect, p: Point) {
    r.x <= p.x < r.Right() && r.y <= p.y < r.Bottom()
  }

  /** Two rectangles of positive size overlap exactly when some pixel lies
      inside both; the test is symmetric. */
  lemma OverlapsIffSharedPixel(a: Rect, b: Rect)
    requires a.w > 0 && a.h > 0 && b.w > 0 && b.h > 0
    ensures Overlaps(a, b) <==> exists p :: Covers(a, p) && Covers(b, p)
    ensures Overlaps(a, b) == Overlaps(b, a)
  {
    if Overlaps(a, b) {
      var p := Point(if a.x < b.x then b.x else a.x, if a.y < b.y then b.y else a.y);
      assert Covers(a, p) && Covers(b, p);
    }
  }

  const Screen: Rect := Rect(0, 0, ScreenWidth, ScreenHeight)

  /** The rectangle lies wholly inside the 800x600 window. */
  predicate OnScreen(r: Rect) {
    0 <= r.x && r.Right() <= ScreenWidth && 0 <= r.y && r.Bottom() <= ScreenHeight
  }
}
