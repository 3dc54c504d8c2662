/**
 * `YoleckSelectable`: the rectangle, in an entity's own coordinates, inside
 * which a click selects the entity.
 */
module Selectable {
  import opened Geometry

  /** An axis-aligned rectangle; `top` is the smaller vertical bound. */
  datatype Rect = Rect(left: real, right: real, top: real, bottom: real)

  datatype YoleckSelectable = YoleckSelectable(rect: Rect)

  /**
   * A world point mapped into the local space of an entity with the given
   * global transform: the inverse of the transform's matrix, applied to the
   * point at depth 0, depth dropped. The inverse is not modelled.
   */
  type ToLocal = (Transform, Vec2) -> Vec2

  /** `YoleckSelectable::rect`: a `width` by `height` rectangle centred on the entity's origin. */
  function RectSelectable(width: real, height: real): (s: YoleckSelectable)
    ensures s.rect.right - s.rect.left == width && s.rect.bottom - s.rect.top == height
    ensures s.rect.left == -s.rect.right && s.rect.top == -s.rect.bottom
  {
    YoleckSelectable(Rect(-width * 0.5, width * 0.5, -height * 0.5, height * 0.5))
  }

  /** All four edges belong to the rectangle. */
  predicate Contains(r: Rect, p: Vec2) {
    r.left <= p.x && p.x <= r.right && r.top <= p.y && p.y <= r.bottom
  }

  /** `is_world_pos_in`: the world point, taken to local space, lies in the rectangle. */
  predicate IsWorldPosIn(s: YoleckSelectable, transform: Transform, world: Vec2, toLocal: ToLocal) {
    Contains(s.rect, toLocal(transform, world))
  }

  /**
   * A rectangle built by `RectSelectable` holds exactly the local points no
   * farther from the origin than half its width across and half its height
   * down; a negative extent therefore holds nothing.
   */
  lemma RectSelectableHolds(width: real, height: real, transform: Transform, world: Vec2, toLocal: ToLocal)
    ensures var q := toLocal(transform, world);
      IsWorldPosIn(RectSelectable(width, height), transform, world, toLocal)
      <==> 2.0 * Abs(q.x) <= width && 2.0 * Abs(q.y) <= height
  {
  }

  /** The bounds are inclusive: each corner of a rectangle is inside it. */
  lemma CornersAreInside(r: Rect)
    requires r.left <= r.right && r.top <= r.bottom
    ensures Contains(r, Vec2(r.left, r.top)) && Contains(r, Vec2(r.right, r.top))
    ensures Contains(r, Vec2(r.left, r.bottom)) && Contains(r, Vec2(r.right, r.bottom))
  {
  }

  /**
   * A 2 by 2 rectangle at the origin, under a transform whose local space is
   * the world's: (0.5, 0.5) is selected and (1.5, 0) is not.
   */
  lemma UnitSquareExample(toLocal: ToLocal)
    requires toLocal(Identity, Vec2(0.5, 0.5)) == Vec2(0.5, 0.5)
    requires toLocal(Identity, Vec2(1.5, 0.0)) == Vec2(1.5, 0.0)
    ensures IsWorldPosIn(RectSelectable(2.0, 2.0), Identity, Vec2(0.5, 0.5), toLocal)
    ensures !IsWorldPosIn(RectSelectable(2.0, 2.0), Identity, Vec2(1.5, 0.0), toLocal)
  {
  }
}
