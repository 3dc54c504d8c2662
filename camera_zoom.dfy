/**
 * `camera_2d_zoom`: the mouse wheel scales every 2D camera about the point
 * under the cursor.
 */
module CameraZoom {
  import opened Geometry
  import opened ScreenToWorld

  datatype MouseScrollUnit = Line | Pixel

  /** One wheel event of this tick; only the vertical amount zooms. */
  datatype MouseWheel = MouseWheel(unit: MouseScrollUnit, x: real, y: real)

  /** A line of scrolling weighs 0.2, a pixel 0.1. */
  function Weight(e: MouseWheel): real {
    match e.unit
    case Line => e.y * 0.2
    case Pixel => e.y * 0.1
  }

  /** The zoom amount of a tick: the weighted sum of its wheel events. */
  function ZoomAmount(events: seq<MouseWheel>): real
    decreases |events|
  {
    if events == [] then 0.0 else ZoomAmount(events[..|events| - 1]) + Weight(events[|events| - 1])
  }

  /** The amount is additive: the events may be split between ticks at any point without changing the total. */
  lemma {:induction false} ZoomAmountAppend(a: seq<MouseWheel>, b: seq<MouseWheel>)
    ensures ZoomAmount(a + b) == ZoomAmount(a) + ZoomAmount(b)
    decreases |b|
  {
    if b == [] {
      assert a + b == a;
    } else {
      var b' := b[..|b| - 1];
      assert (a + b)[..|a + b| - 1] == a + b';
      assert (a + b)[|a + b| - 1] == b[|b| - 1];
      ZoomAmountAppend(a, b');
    }
  }

  /**
   * Scrolling one way only zooms that way: all events upward give a positive
   * amount, all downward a negative one, and events without vertical motion
   * none at all.
   */
  lemma {:induction false} ZoomAmountSign(events: seq<MouseWheel>)
    ensures (forall k | 0 <= k < |events| :: events[k].y == 0.0) ==> ZoomAmount(events) == 0.0
    ensures events != [] && (forall k | 0 <= k < |events| :: 0.0 < events[k].y) ==> 0.0 < ZoomAmount(events)
    ensures events != [] && (forall k | 0 <= k < |events| :: events[k].y < 0.0) ==> ZoomAmount(events) < 0.0
    decreases |events|
  {
    if events != [] {
      var init := events[..|events| - 1];
      assert forall k | 0 <= k < |init| :: init[k] == events[k];
      ZoomAmountSign(init);
    }
  }

  /**
   * A camera's local transform after the zoom: its planar scale is multiplied
   * by `k`, then it moves by the world point that was under the cursor minus
   * the one that is under it through the rescaled global transform.
   */
  function Zoomed(cam: Camera, local: Transform, k: real, unproject: Unprojector): (t: Transform)
    ensures t.rotation == local.rotation && t.scale.z == local.scale.z && t.translation.z == local.translation.z
    ensures HasCursor(cam) ==> t.scale.x == local.scale.x * k && t.scale.y == local.scale.y * k
    ensures !HasCursor(cam) ==> t == local
  {
    if !HasCursor(cam) then local
    else
      var wnd := cam.target.value;
      var screen := wnd.cursor.value;
      var world := ScreenPosToWorldPos(screen, wnd, cam.globalTransform, cam.entity, unproject);
      var newWorld := ScreenPosToWorldPos(screen, wnd, ScaledXY(cam.globalTransform, k), cam.entity, unproject);
      Translated(ScaledXY(local, k), Sub2(world, newWorld))
  }

  /**
   * Zoom contract: for a camera whose global transform is its local one (no
   * parent), the world point under the cursor is the same before and after
   * the zoom, whatever the factor.
   */
  lemma ZoomKeepsPointUnderCursor(cam: Camera, k: real, unproject: Unprojector)
    requires TranslationEquivariant(unproject)
    requires HasCursor(cam)
    ensures var after := cam.(globalTransform := Zoomed(cam, cam.globalTransform, k, unproject));
      CursorWorldPos(after, unproject) == CursorWorldPos(cam, unproject)
  {
  }

  /**
   * `camera_2d_zoom`: one run of the system. `transforms[k]` is the local
   * transform of `cameras[k]`, which the system changes in place; `exp` is the
   * exponential function.
   */
  method Update(overUi: bool, wheel: seq<MouseWheel>, cameras: seq<Camera>, transforms: array<Transform>,
                unproject: Unprojector, exp: real -> real)
    requires transforms.Length == |cameras|
    modifies transforms
    ensures overUi || ZoomAmount(wheel) == 0.0 ==> transforms[..] == old(transforms[..])
    ensures !overUi && ZoomAmount(wheel) != 0.0 ==>
      forall k | 0 <= k < |cameras| ::
        transforms[k] == Zoomed(cameras[k], old(transforms[k]), exp(-ZoomAmount(wheel)), unproject)
  {
    if overUi {
      return;
    }
    var zoomAmount := ZoomAmount(wheel);
    if zoomAmount == 0.0 {
      return;
    }
    var scaleBy := exp(-zoomAmount);

    for i := 0 to |cameras|
      invariant forall k | 0 <= k < i :: transforms[k] == Zoomed(cameras[k], old(transforms[k]), scaleBy, unproject)
      invariant forall k | i <= k < |cameras| :: transforms[k] == old(transforms[k])
    {
      var cam := cameras[i];
      if cam.target.Some? {
        var wnd := cam.target.value;
        if wnd.cursor.Some? {
          var screen := wnd.cursor.value;
          var world := ScreenPosToWorldPos(screen, wnd, cam.globalTransform, cam.entity, unproject);
          transforms[i] := ScaledXY(transforms[i], scaleBy);
          var newGlobalTransform := ScaledXY(cam.globalTransform, scaleBy);
          var newWorld := ScreenPosToWorldPos(screen, wnd, newGlobalTransform, cam.entity, unproject);
          transforms[i] := Translated(transforms[i], Sub2(world, newWorld));
        }
      }
    }
  }
}
