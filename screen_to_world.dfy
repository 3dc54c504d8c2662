/**
 * Cameras, windows and the conversion of a cursor position on screen into a
 * point of the 2D world (`screen_pos_to_world_pos`).
 *
 * The normalisation to device coordinates is modelled exactly; the matrix part
 * (camera transform times inverse projection, projective division) is a given
 * function, `Unprojector`.
 */
module ScreenToWorld {
  import opened Wrappers
  import opened Geometry

  /** A window dimension in logical pixels. */
  type Extent = r: real | 0.0 < r witness 1.0

  /** A window with its size and, if the cursor is inside it, the cursor position. */
  datatype Window = Window(width: Extent, height: Extent, cursor: Option<Vec2>)

  /**
   * One item of the orthographic-camera query: the camera entity, its global
   * transform and its render target, which is `None` unless the camera renders
   * to a window.
   */
  datatype Camera = Camera(entity: Entity, globalTransform: Transform, target: Option<Window>)

  /**
   * The matrix part of the conversion: device coordinates to world coordinates
   * through a camera's global transform and its projection matrix. The camera
   * entity stands for the projection matrix, which this model does not represent.
   */
  type Unprojector = (Vec2, Transform, Entity) -> Vec2

  /** The cursor position of a camera that renders to a window the cursor is in. */
  predicate HasCursor(cam: Camera) {
    cam.target.Some? && cam.target.value.cursor.Some?
  }

  /** Screen position to normalised device coordinates, `[0, size]` onto `[-1, 1]`. */
  function Ndc(screen: Vec2, wnd: Window): Vec2 {
    Vec2(screen.x / wnd.width * 2.0 - 1.0, screen.y / wnd.height * 2.0 - 1.0)
  }

  /** Normalised device coordinates back to a screen position. */
  function FromNdc(ndc: Vec2, wnd: Window): Vec2 {
    Vec2((ndc.x + 1.0) / 2.0 * wnd.width, (ndc.y + 1.0) / 2.0 * wnd.height)
  }

  lemma NdcRoundTrip(screen: Vec2, wnd: Window)
    ensures FromNdc(Ndc(screen, wnd), wnd) == screen
    ensures Ndc(FromNdc(screen, wnd), wnd) == screen
  {
  }

  /** The window's origin corner maps to (-1, -1) and its far corner to (1, 1). */
  lemma NdcCorners(wnd: Window)
    ensures Ndc(Vec2(0.0, 0.0), wnd) == Vec2(-1.0, -1.0)
    ensures Ndc(Vec2(wnd.width, wnd.height), wnd) == Vec2(1.0, 1.0)
  {
    assert wnd.width / wnd.width == 1.0;
    assert wnd.height / wnd.height == 1.0;
  }

  /**
   * Neither axis is inverted: a larger screen coordinate gives a larger device
   * coordinate, on the vertical axis as on the horizontal one.
   */
  lemma NdcPreservesOrientation(a: Vec2, b: Vec2, wnd: Window)
    ensures a.x < b.x <==> Ndc(a, wnd).x < Ndc(b, wnd).x
    ensures a.y < b.y <==> Ndc(a, wnd).y < Ndc(b, wnd).y
  {
  }

  /** `screen_pos_to_world_pos`: the world point under a screen position. */
  function ScreenPosToWorldPos(screen: Vec2, wnd: Window, global: Transform, cam: Entity, unproject: Unprojector): Vec2 {
    unproject(Ndc(screen, wnd), global, cam)
  }

  /** The world point under the cursor, seen through the camera's current global transform. */
  function CursorWorldPos(cam: Camera, unproject: Unprojector): Vec2
    requires HasCursor(cam)
  {
    ScreenPosToWorldPos(cam.target.value.cursor.value, cam.target.value, cam.globalTransform, cam.entity, unproject)
  }

  /**
   * Moving the camera in the plane by `d` moves every unprojected point by `d`.
   * This holds over the reals for any affine camera matrix composed with any
   * projection, because the translation column is added after the projective
   * division of the rest; it is the one fact about the matrices the pan and
   * zoom proofs rely on.
   */
  ghost predicate TranslationEquivariant(unproject: Unprojector) {
    forall ndc, t, cam, d :: unproject(ndc, Translated(t, d), cam) == Add2(unproject(ndc, t, cam), d)
  }

}
