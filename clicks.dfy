/**
 * `yoleck_clicks_on_objects`: the per-camera state machine that tells a click
 * from a drag, selects the entity under the cursor and asks for the dragged
 * entity to follow the cursor.
 *
 * The pure part (`Transition`, `CameraStep`, `Sweep`, `Tick`) is the
 * specification; the class `ClicksOnObjects` is the system, which keeps the
 * per-camera map, the slot of the entity being edited and the directives sent,
 * and updates them in place once per tick.
 */
module Clicks {
  import opened Wrappers
  import opened Geometry
  import opened Input
  import opened ScreenToWorld
  import opened Selectable

  /** The squared screen distance at which a held button counts as moving. */
  const MoveThreshold: real := 0.1

  /** How the left button changed in this tick. */
  datatype ButtonOp = JustPressed | BeingPressed | JustReleased

  /** `YoleckClicksOnObjectsState`: what one camera is in the middle of. */
  datatype ClickState =
    | Empty
    | PendingMidair(origScreenPos: Vec2, world: Vec2)
    | BeingDragged(entity: Entity, prevScreenPos: Vec2, offset: Vec2)

  /** `YoleckDirective::pass_to_entity`: a request that `entity` move to `position`. */
  datatype Directive = PassToEntity(entity: Entity, position: Vec2)

  /** One item of the selectable-entity query, in the host's iteration order. */
  datatype Target = Target(entity: Entity, transform: Transform, selectable: YoleckSelectable)

  /** What one camera's transition leaves: its new state, the edited slot and the directives it sent. */
  datatype Outcome = Outcome(state: ClickState, editing: Option<Entity>, emitted: seq<Directive>)

  /** The whole state the system touches: per-camera states, edited slot, directives sent so far. */
  datatype Snapshot = Snapshot(states: map<Entity, ClickState>, editing: Option<Entity>, directives: seq<Directive>)

  /**
   * How the left button is read: a press over the UI overlay stops the tick,
   * and a button that is neither pressed nor changing clears every camera.
   * A press wins over a release in the same tick.
   */
  function LeftButtonGate(b: ButtonInput, overUi: bool): (g: Gate<ButtonOp>)
    ensures g.Skip? <==> b.justPressed && overUi
    ensures g.ClearAll? <==> !b.justPressed && !b.justReleased && !b.pressed
    ensures g == Proceed(JustPressed) <==> b.justPressed && !overUi
    ensures g == Proceed(JustReleased) <==> !b.justPressed && b.justReleased
    ensures g == Proceed(BeingPressed) <==> !b.justPressed && !b.justReleased && b.pressed
  {
    if b.justPressed then
      if overUi then Skip else Proceed(JustPressed)
    else if b.justReleased then Proceed(JustReleased)
    else if b.pressed then Proceed(BeingPressed)
    else ClearAll
  }

  /** The state recorded for a camera, `Empty` for one seen for the first time. */
  function StateOf(states: map<Entity, ClickState>, cam: Entity): ClickState {
    if cam in states then states[cam] else Empty
  }

  predicate Hits(t: Target, world: Vec2, toLocal: ToLocal) {
    IsWorldPosIn(t.selectable, t.transform, world, toLocal)
  }

  /** `Query::get`: the position of `e` in the selectable-entity query. */
  function IndexOf(targets: seq<Target>, e: Entity): (r: Option<nat>)
    ensures r.Some? ==> r.value < |targets| && targets[r.value].entity == e
    ensures r.Some? ==> forall j | 0 <= j < r.value :: targets[j].entity != e
    ensures r.None? ==> forall j | 0 <= j < |targets| :: targets[j].entity != e
    decreases |targets|
  {
    if targets == [] then None
    else if targets[0].entity == e then Some(0)
    else match IndexOf(targets[1..], e)
      case None => None
      case Some(i) => Some(i + 1)
  }

  /** `find_map` over the query: the first selectable entity under the cursor. */
  function FirstHit(targets: seq<Target>, world: Vec2, toLocal: ToLocal): (r: Option<nat>)
    ensures r.Some? ==> r.value < |targets| && Hits(targets[r.value], world, toLocal)
    ensures r.Some? ==> forall j | 0 <= j < r.value :: !Hits(targets[j], world, toLocal)
    ensures r.None? ==> forall j | 0 <= j < |targets| :: !Hits(targets[j], world, toLocal)
    decreases |targets|
  {
    if targets == [] then None
    else if Hits(targets[0], world, toLocal) then Some(0)
    else match FirstHit(targets[1..], world, toLocal)
      case None => None
      case Some(i) => Some(i + 1)
  }

  /** `is_entity_still_pointed_at`: the query item of `e`, if `e` is selectable and under the cursor. */
  function StillPointedAt(targets: seq<Target>, e: Entity, world: Vec2, toLocal: ToLocal): (r: Option<Target>)
    ensures r.Some? ==> r.value in targets && r.value.entity == e && Hits(r.value, world, toLocal)
    ensures r.None? ==> forall i | 0 <= i < |targets| && targets[i].entity == e
                                   && (forall j | 0 <= j < i :: targets[j].entity != e)
                          :: !Hits(targets[i], world, toLocal)
  {
    match IndexOf(targets, e)
    case None => None
    case Some(i) => if Hits(targets[i], world, toLocal) then Some(targets[i]) else None
  }

  /**
   * The entity a press selects: the one being edited if it is still under the
   * cursor, otherwise the first selectable entity under it in query order.
   */
  function Pick(editing: Option<Entity>, targets: seq<Target>, world: Vec2, toLocal: ToLocal): (r: Option<Target>)
    ensures r.Some? ==> r.value in targets && Hits(r.value, world, toLocal)
    ensures r.None? <==> forall t | t in targets :: !Hits(t, world, toLocal)
    ensures editing.Some? && StillPointedAt(targets, editing.value, world, toLocal).Some?
            ==> r.Some? && r.value.entity == editing.value
    ensures (editing.None? || StillPointedAt(targets, editing.value, world, toLocal).None?) && r.Some?
            ==> exists i | 0 <= i < |targets| :: targets[i] == r.value
                  && forall j | 0 <= j < i :: !Hits(targets[j], world, toLocal)
  {
    var kept := if editing.Some? then StillPointedAt(targets, editing.value, world, toLocal) else None;
    if kept.Some? then kept
    else match FirstHit(targets, world, toLocal)
      case None => None
      case Some(i) => Some(targets[i])
  }

  /**
   * A camera that drags an entity drags the one being edited. This is kept
   * per camera: the slot is shared across the cameras of one tick.
   */
  predicate Coherent(s: ClickState, editing: Option<Entity>) {
    s.BeingDragged? ==> editing == Some(s.entity)
  }

  /**
   * The transition of one camera for one tick, from its state, the edited
   * slot and where the cursor is (on screen and in the world).
   */
  function Transition(op: ButtonOp, s: ClickState, editing: Option<Entity>, screen: Vec2, world: Vec2,
                      targets: seq<Target>, toLocal: ToLocal): (r: Outcome)
    ensures |r.emitted| <= 1
    ensures r.emitted != [] ==> s.BeingDragged? && r.emitted[0] == PassToEntity(s.entity, Sub2(world, s.offset))
    ensures r.editing != editing ==>
              (op == JustPressed && s.Empty? && r.editing.Some? && r.state.BeingDragged?
               && r.state.entity == r.editing.value)
              || (op == JustReleased && s.PendingMidair? && r.editing.None?)
    ensures Coherent(s, editing) ==> Coherent(r.state, r.editing)
  {
    match (op, s)
    case (JustPressed, Empty) =>
      var picked := Pick(editing, targets, world, toLocal);
      if picked.Some? then
        var t := picked.value;
        Outcome(BeingDragged(t.entity, screen, Sub2(world, Truncate(t.transform.translation))), Some(t.entity), [])
      else
        Outcome(PendingMidair(screen, world), editing, [])
    case (BeingPressed, PendingMidair(orig, _)) =>
      Outcome(if MoveThreshold <= DistanceSquared(orig, screen) then Empty else s, editing, [])
    case (JustReleased, PendingMidair(orig, _)) =>
      Outcome(Empty, if DistanceSquared(orig, screen) < MoveThreshold then None else editing, [])
    case (BeingPressed, BeingDragged(e, prev, offset)) =>
      if MoveThreshold <= DistanceSquared(prev, screen) then
        Outcome(BeingDragged(e, screen, offset), editing, [PassToEntity(e, Sub2(world, offset))])
      else
        Outcome(s, editing, [])
    case _ =>
      Outcome(s, editing, [])
  }

  /** One camera's turn in a tick; a camera without a window or without the cursor is skipped. */
  function CameraStep(op: ButtonOp, cam: Camera, w: Snapshot, targets: seq<Target>,
                      unproject: Unprojector, toLocal: ToLocal): Snapshot
  {
    if !HasCursor(cam) then w
    else
      var wnd := cam.target.value;
      var screen := wnd.cursor.value;
      var world := ScreenPosToWorldPos(screen, wnd, cam.globalTransform, cam.entity, unproject);
      var r := Transition(op, StateOf(w.states, cam.entity), w.editing, screen, world, targets, toLocal);
      Snapshot(w.states[cam.entity := r.state], r.editing, w.directives + r.emitted)
  }

  /** The cameras' turns, in query order. */
  function Sweep(op: ButtonOp, cams: seq<Camera>, w: Snapshot, targets: seq<Target>,
                 unproject: Unprojector, toLocal: ToLocal): Snapshot
    decreases |cams|
  {
    if cams == [] then w
    else CameraStep(op, cams[|cams| - 1], Sweep(op, cams[..|cams| - 1], w, targets, unproject, toLocal),
                    targets, unproject, toLocal)
  }

  /** One run of the system. */
  function Tick(w: Snapshot, buttons: ButtonInput, overUi: bool, cams: seq<Camera>, targets: seq<Target>,
                unproject: Unprojector, toLocal: ToLocal): Snapshot
  {
    match LeftButtonGate(buttons, overUi)
    case Skip => w
    case ClearAll => w.(states := map[])
    case Proceed(op) => Sweep(op, cams, w, targets, unproject, toLocal)
  }

  // The rows of the transition table.

  /** A press on a selectable entity selects it and starts dragging it, keeping the grab offset. */
  lemma PressOnEntity(editing: Option<Entity>, screen: Vec2, world: Vec2, targets: seq<Target>, toLocal: ToLocal, t: Target)
    requires Pick(editing, targets, world, toLocal) == Some(t)
    ensures Transition(JustPressed, Empty, editing, screen, world, targets, toLocal)
         == Outcome(BeingDragged(t.entity, screen, Sub2(world, Truncate(t.transform.translation))), Some(t.entity), [])
  {
  }

  /** A press where no entity is selectable waits to see whether it becomes a click. */
  lemma PressOnEmptySpace(editing: Option<Entity>, screen: Vec2, world: Vec2, targets: seq<Target>, toLocal: ToLocal)
    requires forall t | t in targets :: !Hits(t, world, toLocal)
    ensures Transition(JustPressed, Empty, editing, screen, world, targets, toLocal)
         == Outcome(PendingMidair(screen, world), editing, [])
  {
  }

  /** Moving while a click is pending abandons it without touching the edited slot. */
  lemma PendingWhileHeld(orig: Vec2, w0: Vec2, editing: Option<Entity>, screen: Vec2, world: Vec2,
                         targets: seq<Target>, toLocal: ToLocal)
    ensures var r := Transition(BeingPressed, PendingMidair(orig, w0), editing, screen, world, targets, toLocal);
      && r.editing == editing && r.emitted == []
      && r.state == (if MoveThreshold <= DistanceSquared(orig, screen) then Empty else PendingMidair(orig, w0))
  {
  }

  /** Releasing a pending click deselects exactly when the cursor stayed put. */
  lemma PendingOnRelease(orig: Vec2, w0: Vec2, editing: Option<Entity>, screen: Vec2, world: Vec2,
                         targets: seq<Target>, toLocal: ToLocal)
    ensures var r := Transition(JustReleased, PendingMidair(orig, w0), editing, screen, world, targets, toLocal);
      && r.state == Empty && r.emitted == []
      && (r.editing == None <==> DistanceSquared(orig, screen) < MoveThreshold || editing == None)
      && (r.editing != None ==> r.editing == editing)
  {
  }

  /** A drag that moved sends one directive and re-bases on the new cursor position; one that did not is left alone. */
  lemma DraggedWhileHeld(e: Entity, prev: Vec2, offset: Vec2, editing: Option<Entity>, screen: Vec2, world: Vec2,
                         targets: seq<Target>, toLocal: ToLocal)
    ensures var r := Transition(BeingPressed, BeingDragged(e, prev, offset), editing, screen, world, targets, toLocal);
      && r.editing == editing
      && (MoveThreshold <= DistanceSquared(prev, screen) ==>
            r.state == BeingDragged(e, screen, offset) && r.emitted == [PassToEntity(e, Sub2(world, offset))])
      && (DistanceSquared(prev, screen) < MoveThreshold ==>
            r.state == BeingDragged(e, prev, offset) && r.emitted == [])
  {
  }

  /** Every pair the table does not list leaves everything as it was. */
  lemma OtherPairsChangeNothing(op: ButtonOp, s: ClickState, editing: Option<Entity>, screen: Vec2, world: Vec2,
                                targets: seq<Target>, toLocal: ToLocal)
    requires op == JustPressed ==> !s.Empty?
    requires op == BeingPressed ==> s.Empty?
    requires op == JustReleased ==> !s.PendingMidair?
    ensures Transition(op, s, editing, screen, world, targets, toLocal) == Outcome(s, editing, [])
  {
  }

  /**
   * A release does not end a drag; only an idle tick clears it. A press in the
   * tick right after the release therefore finds the camera still dragging:
   * it selects nothing, and the old drag goes on with its old offset.
   */
  lemma RepressWithoutIdleTickKeepsDrag(e: Entity, prev: Vec2, offset: Vec2, editing: Option<Entity>,
                                        release: Sample, press: Sample, targets: seq<Target>, toLocal: ToLocal)
    ensures var s := BeingDragged(e, prev, offset);
      var r1 := Transition(JustReleased, s, editing, release.screen, release.world, targets, toLocal);
      var r2 := Transition(JustPressed, r1.state, r1.editing, press.screen, press.world, targets, toLocal);
      r1 == Outcome(s, editing, []) && r2 == Outcome(s, editing, [])
  {
  }

  // Whole ticks.

  /** A button neither pressed nor changing resets every camera and changes nothing else. */
  lemma IdleButtonClearsEveryCamera(w: Snapshot, buttons: ButtonInput, overUi: bool, cams: seq<Camera>,
                                    targets: seq<Target>, unproject: Unprojector, toLocal: ToLocal)
    requires !buttons.justPressed && !buttons.justReleased && !buttons.pressed
    ensures var r := Tick(w, buttons, overUi, cams, targets, unproject, toLocal);
      r.states == map[] && r.editing == w.editing && r.directives == w.directives
  {
  }

  /** A press over the UI overlay never reaches the scene. */
  lemma PressOverUiIsIgnored(w: Snapshot, buttons: ButtonInput, cams: seq<Camera>,
                             targets: seq<Target>, unproject: Unprojector, toLocal: ToLocal)
    requires buttons.justPressed
    ensures Tick(w, buttons, true, cams, targets, unproject, toLocal) == w
  {
  }

  /** A camera that has no window, or whose window the cursor is not in, keeps its state. */
  lemma {:induction false} SweepLeavesCamerasWithoutCursor(op: ButtonOp, cams: seq<Camera>, w: Snapshot, targets: seq<Target>,
                                                         unproject: Unprojector, toLocal: ToLocal, c: Entity)
    requires forall k | 0 <= k < |cams| :: cams[k].entity == c ==> !HasCursor(cams[k])
    ensures var r := Sweep(op, cams, w, targets, unproject, toLocal);
      (c in r.states <==> c in w.states) && (c in w.states ==> r.states[c] == w.states[c])
    decreases |cams|
  {
    if cams != [] {
      SweepLeavesCamerasWithoutCursor(op, cams[..|cams| - 1], w, targets, unproject, toLocal, c);
    }
  }

  /** After a tick every camera the cursor was seen by has a state, and no other camera gains one. */
  lemma {:induction false} SweepRecordsCamerasWithCursor(op: ButtonOp, cams: seq<Camera>, w: Snapshot, targets: seq<Target>,
                                                       unproject: Unprojector, toLocal: ToLocal)
    ensures Sweep(op, cams, w, targets, unproject, toLocal).states.Keys
         == w.states.Keys + set k | 0 <= k < |cams| && HasCursor(cams[k]) :: cams[k].entity
    decreases |cams|
  {
    if cams != [] {
      var prefix := cams[..|cams| - 1];
      SweepRecordsCamerasWithCursor(op, prefix, w, targets, unproject, toLocal);
      var seen := set k | 0 <= k < |cams| && HasCursor(cams[k]) :: cams[k].entity;
      var seenBefore := set k | 0 <= k < |prefix| && HasCursor(prefix[k]) :: prefix[k].entity;
      assert seen == seenBefore + (if HasCursor(cams[|cams| - 1]) then {cams[|cams| - 1].entity} else {}) by {
        forall e | e in seen
          ensures e in seenBefore + (if HasCursor(cams[|cams| - 1]) then {cams[|cams| - 1].entity} else {})
        {
          var k :| 0 <= k < |cams| && HasCursor(cams[k]) && cams[k].entity == e;
          if k < |prefix| {
            assert prefix[k] == cams[k];
          }
        }
        forall e | e in seenBefore ensures e in seen {
          var k :| 0 <= k < |prefix| && HasCursor(prefix[k]) && prefix[k].entity == e;
          assert cams[k] == prefix[k];
        }
      }
    }
  }

  /**
   * Directives are only ever appended, at most one per camera, and only while
   * the button is held; holding the button never changes the edited slot.
   */
  lemma {:induction false} SweepOnlyAppends(op: ButtonOp, cams: seq<Camera>, w: Snapshot, targets: seq<Target>,
                                          unproject: Unprojector, toLocal: ToLocal)
    ensures var r := Sweep(op, cams, w, targets, unproject, toLocal);
      && w.directives <= r.directives
      && |r.directives| <= |w.directives| + |cams|
      && (op != BeingPressed ==> r.directives == w.directives)
      && (op == BeingPressed ==> r.editing == w.editing)
    decreases |cams|
  {
    if cams != [] {
      SweepOnlyAppends(op, cams[..|cams| - 1], w, targets, unproject, toLocal);
    }
  }

  // Gestures: one camera over several ticks.

  /** One sample of a camera's cursor: where it is on screen and the world point under it. */
  datatype Sample = Sample(screen: Vec2, world: Vec2)

  /** One camera's state after successive ticks with the button held, and the directives it sent. */
  function Hold(s: ClickState, editing: Option<Entity>, samples: seq<Sample>, targets: seq<Target>, toLocal: ToLocal): Outcome
    decreases |samples|
  {
    if samples == [] then Outcome(s, editing, [])
    else
      var before := Hold(s, editing, samples[..|samples| - 1], targets, toLocal);
      var last := samples[|samples| - 1];
      var r := Transition(BeingPressed, before.state, before.editing, last.screen, last.world, targets, toLocal);
      Outcome(r.state, r.editing, before.emitted + r.emitted)
  }

  /**
   * While an entity is dragged it stays dragged with the same grab offset, the
   * edited slot is untouched, and every directive puts the entity at a sampled
   * cursor world point minus that offset.
   */
  lemma {:induction false} DragFollowsCursor(e: Entity, prev: Vec2, offset: Vec2, editing: Option<Entity>,
                                           samples: seq<Sample>, targets: seq<Target>, toLocal: ToLocal)
    ensures var r := Hold(BeingDragged(e, prev, offset), editing, samples, targets, toLocal);
      && r.state.BeingDragged? && r.state.entity == e && r.state.offset == offset
      && r.editing == editing
      && |r.emitted| <= |samples|
      && forall k | 0 <= k < |r.emitted| :: r.emitted[k].entity == e
           && exists j | 0 <= j < |samples| :: r.emitted[k].position == Sub2(samples[j].world, offset)
    decreases |samples|
  {
    if samples != [] {
      var init := samples[..|samples| - 1];
      DragFollowsCursor(e, prev, offset, editing, init, targets, toLocal);
      var before := Hold(BeingDragged(e, prev, offset), editing, init, targets, toLocal);
      var last := samples[|samples| - 1];
      var r := Transition(BeingPressed, before.state, before.editing, last.screen, last.world, targets, toLocal);
      var all := before.emitted + r.emitted;
      forall k | 0 <= k < |all|
        ensures all[k].entity == e
        ensures exists j | 0 <= j < |samples| :: all[k].position == Sub2(samples[j].world, offset)
      {
        if k < |before.emitted| {
          var j :| 0 <= j < |init| && before.emitted[k].position == Sub2(init[j].world, offset);
          assert samples[j] == init[j];
        } else {
          assert all[k] == r.emitted[0];
          assert all[k].position == Sub2(samples[|samples| - 1].world, offset);
        }
      }
    }
  }

  /**
   * Pressing on an entity and then holding, seen by a single camera: the
   * entity becomes the edited one,
   * and every directive moves it by exactly how far the cursor's world point
   * has moved since the press.
   */
  lemma PickThenDrag(editing: Option<Entity>, t: Target, press: Sample, samples: seq<Sample>,
                     targets: seq<Target>, toLocal: ToLocal)
    requires Pick(editing, targets, press.world, toLocal) == Some(t)
    ensures var p := Transition(JustPressed, Empty, editing, press.screen, press.world, targets, toLocal);
            var r := Hold(p.state, p.editing, samples, targets, toLocal);
      && r.editing == Some(t.entity)
      && forall k | 0 <= k < |r.emitted| :: r.emitted[k].entity == t.entity
           && exists j | 0 <= j < |samples| ::
                r.emitted[k].position == Add2(Truncate(t.transform.translation), Sub2(samples[j].world, press.world))
  {
    var offset := Sub2(press.world, Truncate(t.transform.translation));
    DragFollowsCursor(t.entity, press.screen, offset, Some(t.entity), samples, targets, toLocal);
    var r := Hold(BeingDragged(t.entity, press.screen, offset), Some(t.entity), samples, targets, toLocal);
    forall k | 0 <= k < |r.emitted|
      ensures exists j | 0 <= j < |samples| ::
                r.emitted[k].position == Add2(Truncate(t.transform.translation), Sub2(samples[j].world, press.world))
    {
      var j :| 0 <= j < |samples| && r.emitted[k].position == Sub2(samples[j].world, offset);
      assert Sub2(samples[j].world, offset)
          == Add2(Truncate(t.transform.translation), Sub2(samples[j].world, press.world));
    }
  }

  /**
   * While a click in empty space is pending, it survives exactly as long as
   * every sample stays within the threshold of the press; the edited slot is
   * untouched and nothing is sent.
   */
  lemma {:induction false} PendingSurvivesOnlyStillness(orig: Vec2, w0: Vec2, editing: Option<Entity>,
                                                      samples: seq<Sample>, targets: seq<Target>, toLocal: ToLocal)
    ensures var r := Hold(PendingMidair(orig, w0), editing, samples, targets, toLocal);
      && r.editing == editing && r.emitted == []
      && (r.state == PendingMidair(orig, w0) <==>
            forall j | 0 <= j < |samples| :: DistanceSquared(orig, samples[j].screen) < MoveThreshold)
      && (r.state == Empty <==>
            exists j | 0 <= j < |samples| :: MoveThreshold <= DistanceSquared(orig, samples[j].screen))
    decreases |samples|
  {
    if samples != [] {
      var init := samples[..|samples| - 1];
      PendingSurvivesOnlyStillness(orig, w0, editing, init, targets, toLocal);
      assert forall j | 0 <= j < |init| :: init[j] == samples[j];
    }
  }

  /**
   * Press in empty space, hold, release: the edited slot is cleared exactly
   * when the cursor never moved the threshold away from the press; otherwise
   * the gesture was a drag over empty space and changes nothing.
   */
  lemma ClickInEmptySpace(editing: Option<Entity>, press: Sample, samples: seq<Sample>, release: Sample,
                          targets: seq<Target>, toLocal: ToLocal)
    requires forall t | t in targets :: !Hits(t, press.world, toLocal)
    ensures var p := Transition(JustPressed, Empty, editing, press.screen, press.world, targets, toLocal);
            var h := Hold(p.state, p.editing, samples, targets, toLocal);
            var r := Transition(JustReleased, h.state, h.editing, release.screen, release.world, targets, toLocal);
      && r.state == Empty && h.emitted == [] && r.emitted == []
      && r.editing == if (forall j | 0 <= j < |samples| :: DistanceSquared(press.screen, samples[j].screen) < MoveThreshold)
                         && DistanceSquared(press.screen, release.screen) < MoveThreshold
                      then None else editing
  {
    PendingSurvivesOnlyStillness(press.screen, press.world, editing, samples, targets, toLocal);
  }

  /** The interaction system with the state it owns. */
  class ClicksOnObjects {
    /** `state_by_camera`. */
    var stateByCamera: map<Entity, ClickState>
    /** `YoleckState::entity_being_edited`, shared with the rest of the editor. */
    var entityBeingEdited: Option<Entity>
    /** Every directive sent through the directive channel, oldest first. */
    var directives: seq<Directive>

    function View(): Snapshot
      reads this
    {
      Snapshot(stateByCamera, entityBeingEdited, directives)
    }

    constructor(editing: Option<Entity>)
      ensures View() == Snapshot(map[], editing, [])
    {
      stateByCamera := map[];
      entityBeingEdited := editing;
      directives := [];
    }

    /** `yoleck_clicks_on_objects`: one run of the system. */
    method Update(buttons: ButtonInput, overUi: bool, cameras: seq<Camera>, targets: seq<Target>,
                  unproject: Unprojector, toLocal: ToLocal)
      modifies this
      ensures View() == Tick(old(View()), buttons, overUi, cameras, targets, unproject, toLocal)
    {
      var op: ButtonOp;
      if buttons.justPressed {
        if overUi {
          return;
        }
        op := JustPressed;
      } else if buttons.justReleased {
        op := JustReleased;
      } else if buttons.pressed {
        op := BeingPressed;
      } else {
        stateByCamera := map[];
        return;
      }

      for i := 0 to |cameras|
        invariant View() == Sweep(op, cameras[..i], old(View()), targets, unproject, toLocal)
      {
        var cam := cameras[i];
        assert cameras[..i + 1][..i] == cameras[..i];
        if cam.target.Some? {
          var wnd := cam.target.value;
          if wnd.cursor.Some? {
            var screen := wnd.cursor.value;
            var world := ScreenPosToWorldPos(screen, wnd, cam.globalTransform, cam.entity, unproject);
            if cam.entity !in stateByCamera {
              stateByCamera := stateByCamera[cam.entity := Empty];
            }
            var state := stateByCamera[cam.entity];
            match (op, state) {
              case (JustPressed, Empty) =>
                var picked := Pick(entityBeingEdited, targets, world, toLocal);
                if picked.Some? {
                  var t := picked.value;
                  entityBeingEdited := Some(t.entity);
                  stateByCamera := stateByCamera[cam.entity :=
                    BeingDragged(t.entity, screen, Sub2(world, Truncate(t.transform.translation)))];
                } else {
                  stateByCamera := stateByCamera[cam.entity := PendingMidair(screen, world)];
                }
              case (BeingPressed, PendingMidair(orig, _)) =>
                if MoveThreshold <= DistanceSquared(orig, screen) {
                  stateByCamera := stateByCamera[cam.entity := Empty];
                }
              case (JustReleased, PendingMidair(orig, _)) =>
                if DistanceSquared(orig, screen) < MoveThreshold {
                  entityBeingEdited := None;
                }
                stateByCamera := stateByCamera[cam.entity := Empty];
              case (BeingPressed, BeingDragged(entity, prev, offset)) =>
                if MoveThreshold <= DistanceSquared(prev, screen) {
                  directives := directives + [PassToEntity(entity, Sub2(world, offset))];
                  stateByCamera := stateByCamera[cam.entity := BeingDragged(entity, screen, offset)];
                }
              case _ =>
            }
          }
        }
      }
      assert cameras[..|cameras|] == cameras;
    }
  }
}
