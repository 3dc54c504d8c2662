/**
 * `camera_2d_pan`: dragging with the right button moves each 2D camera so that
 * the world point grabbed at the press stays under the cursor.
 */
module CameraPan {
  import opened Geometry
  import opened Input
  import opened ScreenToWorld

  /** How the right button changed in this tick; a release counts as not pressed. */
  datatype PanOp = Grab | Hold

  /**
   * How the right button is read: a press over the UI overlay stops the tick,
   * and a button that is not pressed clears every anchor.
   */
  function RightButtonGate(b: ButtonInput, overUi: bool): (g: Gate<PanOp>)
    ensures g.Skip? <==> b.justPressed && overUi
    ensures g.ClearAll? <==> !b.justPressed && !b.pressed
    ensures g == Proceed(Grab) <==> b.justPressed && !overUi
    ensures g == Proceed(Hold) <==> !b.justPressed && b.pressed
  {
    if b.justPressed then
      if overUi then Skip else Proceed(Grab)
    else if b.pressed then Proceed(Hold)
    else ClearAll
  }

  /** The query never yields the same camera twice. */
  predicate DistinctCameras(cams: seq<Camera>) {
    forall i, j | 0 <= i < j < |cams| :: cams[i].entity != cams[j].entity
  }

  /** The anchors after a press, each camera with the cursor recording the world point under it. */
  function Anchored(anchors: map<Entity, Vec2>, cams: seq<Camera>, unproject: Unprojector): map<Entity, Vec2>
    decreases |cams|
  {
    if cams == [] then anchors
    else
      var before := Anchored(anchors, cams[..|cams| - 1], unproject);
      var cam := cams[|cams| - 1];
      if HasCursor(cam) then before[cam.entity := CursorWorldPos(cam, unproject)] else before
  }

  /**
   * A camera's local transform after one held tick: it moves in the plane by
   * its anchor minus the world point now under the cursor.
   */
  function Panned(anchors: map<Entity, Vec2>, cam: Camera, local: Transform, unproject: Unprojector): (t: Transform)
    ensures t.rotation == local.rotation && t.scale == local.scale && t.translation.z == local.translation.z
    ensures HasCursor(cam) && cam.entity in anchors ==>
              Truncate(t.translation)
              == Add2(Truncate(local.translation), Sub2(anchors[cam.entity], CursorWorldPos(cam, unproject)))
    ensures !(HasCursor(cam) && cam.entity in anchors) ==> t == local
  {
    if HasCursor(cam) && cam.entity in anchors then
      Translated(local, Sub2(anchors[cam.entity], CursorWorldPos(cam, unproject)))
    else
      local
  }

  /** A press adds an anchor for every camera the cursor is in, and for no other camera. */
  lemma {:induction false} AnchoredKeys(anchors: map<Entity, Vec2>, cams: seq<Camera>, unproject: Unprojector)
    ensures Anchored(anchors, cams, unproject).Keys
         == anchors.Keys + (set k | 0 <= k < |cams| && HasCursor(cams[k]) :: cams[k].entity)
    decreases |cams|
  {
    if cams != [] {
      var prefix := cams[..|cams| - 1];
      var last := cams[|cams| - 1];
      AnchoredKeys(anchors, prefix, unproject);
      var seen := set k | 0 <= k < |cams| && HasCursor(cams[k]) :: cams[k].entity;
      var seenBefore := set k | 0 <= k < |prefix| && HasCursor(prefix[k]) :: prefix[k].entity;
      assert seen == seenBefore + (if HasCursor(last) then {last.entity} else {}) by {
        forall e | e in seen
          ensures e in seenBefore + (if HasCursor(last) then {last.entity} else {})
        {
          var k :| 0 <= k < |cams| && HasCursor(cams[k]) && cams[k].entity == e;
          if k < |prefix| {
            assert prefix[k] == cams[k];
          }
        }
        forall e | e in seenBefore ensures e in seen {
          var k :| 0 <= k < |prefix| && HasCursor(prefix[k]) && prefix[k].entity == e;
          assert cams[k] == prefix[k];
        }
      }
    }
  }

  /** After a press, each camera the cursor is in is anchored at the world point under the cursor. */
  lemma {:induction false} AnchoredAtCursor(anchors: map<Entity, Vec2>, cams: seq<Camera>, unproject: Unprojector, k: nat)
    requires DistinctCameras(cams)
    requires k < |cams| && HasCursor(cams[k])
    ensures var r := Anchored(anchors, cams, unproject);
      cams[k].entity in r && r[cams[k].entity] == CursorWorldPos(cams[k], unproject)
    decreases |cams|
  {
    var prefix := cams[..|cams| - 1];
    if k < |prefix| {
      assert prefix[k] == cams[k];
      assert DistinctCameras(prefix);
      AnchoredAtCursor(anchors, prefix, unproject, k);
      assert cams[|cams| - 1].entity != cams[k].entity;
    }
  }

  /** A press leaves the anchor of every camera the cursor is not in as it was. */
  lemma {:induction false} AnchoredKeepsOthers(anchors: map<Entity, Vec2>, cams: seq<Camera>, unproject: Unprojector, e: Entity)
    requires forall k | 0 <= k < |cams| :: cams[k].entity == e ==> !HasCursor(cams[k])
    ensures var r := Anchored(anchors, cams, unproject);
      (e in r <==> e in anchors) && (e in anchors ==> r[e] == anchors[e])
    decreases |cams|
  {
    if cams != [] {
      var prefix := cams[..|cams| - 1];
      assert forall k | 0 <= k < |prefix| :: prefix[k] == cams[k];
      AnchoredKeepsOthers(anchors, prefix, unproject, e);
    }
  }

  /**
   * Pan contract: once the camera's global transform catches up with its new
   * local transform (a camera with no parent), the world point under the same
   * cursor position is the anchor again.
   */
  lemma PanKeepsAnchorUnderCursor(anchors: map<Entity, Vec2>, cam: Camera, unproject: Unprojector)
    requires TranslationEquivariant(unproject)
    requires HasCursor(cam) && cam.entity in anchors
    ensures var after := cam.(globalTransform := Panned(anchors, cam, cam.globalTransform, unproject));
      CursorWorldPos(after, unproject) == anchors[cam.entity]
  {
  }

  /** The pan system with the anchors it owns. */
  class CameraPan2d {
    /** `last_cursor_world_pos_by_camera`: the world point grabbed by each camera. */
    var lastCursorWorldPosByCamera: map<Entity, Vec2>

    constructor()
      ensures lastCursorWorldPosByCamera == map[]
    {
      lastCursorWorldPosByCamera := map[];
    }

    /**
     * `camera_2d_pan`: one run of the system. `transforms[k]` is the local
     * transform of `cameras[k]`, which the system changes in place.
     */
    method Update(buttons: ButtonInput, overUi: bool, cameras: seq<Camera>, transforms: array<Transform>,
                  unproject: Unprojector)
      requires transforms.Length == |cameras|
      modifies this, transforms
      ensures lastCursorWorldPosByCamera == match RightButtonGate(buttons, overUi)
        case Skip => old(lastCursorWorldPosByCamera)
        case ClearAll => map[]
        case Proceed(Grab) => Anchored(old(lastCursorWorldPosByCamera), cameras, unproject)
        case Proceed(Hold) => old(lastCursorWorldPosByCamera)
      ensures RightButtonGate(buttons, overUi) == Proceed(Hold) ==>
        forall k | 0 <= k < |cameras| ::
          transforms[k] == Panned(old(lastCursorWorldPosByCamera), cameras[k], old(transforms[k]), unproject)
      ensures RightButtonGate(buttons, overUi) != Proceed(Hold) ==> transforms[..] == old(transforms[..])
    {
      var op: PanOp;
      if buttons.justPressed {
        if overUi {
          return;
        }
        op := Grab;
      } else if buttons.pressed {
        op := Hold;
      } else {
        lastCursorWorldPosByCamera := map[];
        return;
      }

      for i := 0 to |cameras|
        invariant op == Grab ==> lastCursorWorldPosByCamera == Anchored(old(lastCursorWorldPosByCamera), cameras[..i], unproject)
        invariant op == Grab ==> transforms[..] == old(transforms[..])
        invariant op == Hold ==> lastCursorWorldPosByCamera == old(lastCursorWorldPosByCamera)
        invariant op == Hold ==> forall k | 0 <= k < i ::
          transforms[k] == Panned(old(lastCursorWorldPosByCamera), cameras[k], old(transforms[k]), unproject)
        invariant forall k | i <= k < |cameras| :: transforms[k] == old(transforms[k])
      {
        var cam := cameras[i];
        assert cameras[..i + 1][..i] == cameras[..i];
        if cam.target.Some? {
          var wnd := cam.target.value;
          if wnd.cursor.Some? {
            var screen := wnd.cursor.value;
            var world := ScreenPosToWorldPos(screen, wnd, cam.globalTransform, cam.entity, unproject);
            match op {
              case Grab =>
                lastCursorWorldPosByCamera := lastCursorWorldPosByCamera[cam.entity := world];
              case Hold =>
                if cam.entity in lastCursorWorldPosByCamera {
                  var movement := Sub2(lastCursorWorldPosByCamera[cam.entity], world);
                  transforms[i] := Translated(transforms[i], movement);
                }
            }
          }
        }
      }
      assert cameras[..|cameras|] == cameras;
    }
  }
}
