# Yoleck 2D mouse interaction, modelled in Dafny

This project models the in-scene interaction layer of the Yoleck level editor
for Bevy. It covers the 2D mouse actions in `src/mouse_actions_2d.rs` and the
entity identifier registry in `src/entity_uuid.rs`:

- **Clicks on objects** (`yoleck_clicks_on_objects`). Each orthographic camera
  keeps its own state: `Empty`, `PendingMidair` or `BeingDragged`. Once per
  tick the left button is read as just pressed, held or just released. Each
  camera that has the cursor in its window then takes one transition. A
  transition can select an entity, deselect, or send a directive that moves
  the dragged entity. Module `Clicks` gives the transition table as pure
  functions: `Transition` for one camera, `CameraStep`/`Sweep` for the cameras
  in query order and `Tick` for the whole run. Class `ClicksOnObjects` is the
  system itself. It holds the per-camera map, the shared "entity being edited"
  slot and the directives sent so far. Its `Update` changes them in place and
  is proved equal to `Tick`.
- **Selectable rectangles** (`YoleckSelectable::rect`, `is_world_pos_in`),
  module `Selectable`. The hit test takes the point into the entity's local
  space and tests it against the rectangle, with all four edges inclusive.
- **Screen to world** (`screen_pos_to_world_pos`), module `ScreenToWorld`. The
  step that normalises to device coordinates is exact: `[0, size]` maps onto
  `[-1, 1]` and the vertical axis is not flipped. The matrix step is a given
  function.
- **Pan** (`camera_2d_pan`), module `CameraPan`. A right-button press records
  an anchor per camera. While the button is held, each camera moves by the
  anchor minus the world point now under the cursor. Otherwise the anchors are
  cleared.
- **Zoom** (`camera_2d_zoom`), module `CameraZoom`. Wheel events are summed
  with weights of 0.2 per line and 0.1 per pixel. A zero sum, or a pointer
  over the UI overlay, leaves every camera as it was. Otherwise the planar
  scale is multiplied by `exp(-sum)` and the camera moves so that the point
  under the cursor stays put.
- **Identifiers** (`YoleckEntityUuid::get`, `YoleckUuidRegistry::get`), module
  `EntityUuid`.

The Bevy queries are modelled as sequences in iteration order: the cameras
(`Camera`) and the selectable entities (`Clicks.Target`). The mutable
`Transform` column of the camera query is an `array<Transform>` that lines up
with the camera sequence. The egui overlay test is a boolean input. The
directive channel is a sequence that directives are appended to.

Two behaviours of the code worth stating:

- The pan anchor is recorded once, at the press, and is never re-anchored
  afterwards.
- No special case exists for a non-invertible entity transform. The hit test
  applies whatever the "to local space" function returns.

## Model

| member | source | states |
|---|---|---|
| `Geometry.DistanceSquared` | src/mouse_actions_2d.rs:129 | The squared distance used for the click/drag thresholds is never negative and is zero between equal points. |
| `ScreenToWorld.NdcRoundTrip` | src/mouse_actions_2d.rs:305-309 | Normalising a screen position to device coordinates can be undone exactly, and so can the reverse. |
| `ScreenToWorld.NdcCorners` | src/mouse_actions_2d.rs:308-309 | The window's origin corner maps to (-1, -1) and its far corner to (1, 1). |
| `ScreenToWorld.NdcPreservesOrientation` | src/mouse_actions_2d.rs:309 | Neither axis is inverted: screen order and device-coordinate order agree on x and on y. |
| `Selectable.RectSelectable` | src/mouse_actions_2d.rs:175-182 | The rectangle is centred on the entity's origin and is exactly `width` across and `height` down. |
| `Selectable.RectSelectableHolds` | src/mouse_actions_2d.rs:175-191 | A point hits a `rect(w, h)` selectable iff its local coordinates are within half the width and half the height of the origin, so a negative extent selects nothing. |
| `Selectable.CornersAreInside` | src/mouse_actions_2d.rs:190 | All four bounds are inclusive: each corner of a rectangle is inside it. |
| `Selectable.UnitSquareExample` | src/mouse_actions_2d.rs:184-191 | A 2 by 2 rectangle at the origin, whose local space is the world's, contains (0.5, 0.5) and not (1.5, 0). |
| `Clicks.LeftButtonGate` | src/mouse_actions_2d.rs:53-65 | A press over the UI overlay skips the tick. A button that is neither pressed nor changing clears every camera. Otherwise the operation is press, then release, then held, in that priority. |
| `Clicks.IndexOf` | src/mouse_actions_2d.rs:80-82 | Looking an entity up in the selectable query gives its first position, or nothing when it is not selectable. |
| `Clicks.FirstHit` | src/mouse_actions_2d.rs:99-106 | The scan returns the first selectable entity in query order whose rectangle contains the point, or nothing when none does. |
| `Clicks.StillPointedAt` | src/mouse_actions_2d.rs:80-92 | The edited entity is reported only when it is selectable and under the cursor. |
| `Clicks.Pick` | src/mouse_actions_2d.rs:96-107 | The picked entity is under the cursor. The edited entity wins if it is still under the cursor; otherwise the first hit in query order wins. Nothing is picked iff no selectable entity is under the cursor. |
| `Clicks.Transition` | src/mouse_actions_2d.rs:94-166 | At most one directive, sent only while dragging, and it moves the dragged entity to the cursor's world point minus the grab offset. The edited slot changes only when a press selects the dragged entity or a pending click is released. For the camera that takes the transition, a drag concerns the edited entity, and the transition keeps this invariant. |
| `Clicks.PressOnEntity` | src/mouse_actions_2d.rs:95-114 | A press on a selectable entity makes it the edited entity and starts dragging it from the cursor, with offset = world point − entity translation. |
| `Clicks.PressOnEmptySpace` | src/mouse_actions_2d.rs:115-120 | A press that hits no selectable entity records a pending click at the cursor and leaves the edited slot alone. |
| `Clicks.PendingWhileHeld` | src/mouse_actions_2d.rs:122-132 | Holding while a click is pending drops it when the cursor has moved a squared distance of 0.1 or more; otherwise nothing changes. The edited slot is never touched. |
| `Clicks.PendingOnRelease` | src/mouse_actions_2d.rs:133-144 | Releasing a pending click always returns to `Empty`. It clears the edited slot iff the cursor is within squared distance 0.1 of the press. |
| `Clicks.DraggedWhileHeld` | src/mouse_actions_2d.rs:145-164 | Holding while dragging sends exactly one directive {entity, world − offset} and moves `prev_screen_pos` to the cursor when the cursor moved by 0.1 or more; below that nothing changes. |
| `Clicks.OtherPairsChangeNothing` | src/mouse_actions_2d.rs:165 | Every operation/state pair outside the table leaves the state, the edited slot and the directives unchanged. |
| `Clicks.RepressWithoutIdleTickKeepsDrag` | src/mouse_actions_2d.rs:94-165 | A release does not end a drag. A press in the very next tick therefore selects nothing, and the old drag continues. |
| `Clicks.IdleButtonClearsEveryCamera` | src/mouse_actions_2d.rs:60-65 | When the button is neither pressed nor changing, every camera's state is cleared, and the edited slot and the directives are unchanged. |
| `Clicks.PressOverUiIsIgnored` | src/mouse_actions_2d.rs:53-56 | A press over the UI overlay changes nothing at all. |
| `Clicks.SweepLeavesCamerasWithoutCursor` | src/mouse_actions_2d.rs:67-73 | A camera with no window target, or whose window has no cursor, keeps its state, or its absence from the map. |
| `Clicks.SweepRecordsCamerasWithCursor` | src/mouse_actions_2d.rs:73-78 | After a tick, the map holds exactly the cameras it held before plus every camera that had the cursor. |
| `Clicks.SweepOnlyAppends` | src/mouse_actions_2d.rs:67-168 | Directives are only appended, at most one per camera, and only while the button is held. Holding never changes the edited slot. |
| `Clicks.DragFollowsCursor` | src/mouse_actions_2d.rs:145-164 | Through any held ticks a drag keeps its entity and offset and leaves the edited slot alone. Every directive puts the entity at a sampled cursor world point minus the offset. |
| `Clicks.PickThenDrag` | src/mouse_actions_2d.rs:95-164 | For a single camera: after a press on an entity and any held ticks, that entity is the edited one. Every directive moves it by exactly the cursor's world displacement since the press. |
| `Clicks.PendingSurvivesOnlyStillness` | src/mouse_actions_2d.rs:122-132 | A pending click survives held ticks iff every sample stays within the threshold of the press. Otherwise it becomes `Empty`. No directive and no change to the edited slot. |
| `Clicks.ClickInEmptySpace` | src/mouse_actions_2d.rs:115-144 | Press in empty space, hold, release: the edited slot is cleared iff the cursor never moved 0.1 (squared) from the press; otherwise it is unchanged. |
| `Clicks.ClicksOnObjects.constructor` | src/mouse_actions_2d.rs:44 | The system starts with an empty per-camera map and no directives sent. |
| `Clicks.ClicksOnObjects.Update` | src/mouse_actions_2d.rs:37-169 | One run updates the per-camera map, the edited slot and the directives in place, exactly as `Tick` prescribes. |
| `CameraPan.RightButtonGate` | src/mouse_actions_2d.rs:209-219 | A right press over the overlay skips the tick. A press records anchors, a held button pans, and anything else (including a release) clears the anchors. |
| `CameraPan.Panned` | src/mouse_actions_2d.rs:237-242 | While held, a camera with an anchor and the cursor moves in the plane by anchor − cursor world point. Depth, rotation and scale are unchanged, and other cameras are unchanged. |
| `CameraPan.AnchoredKeys` | src/mouse_actions_2d.rs:229-236 | A press adds an anchor for every camera with the cursor and for no other. |
| `CameraPan.AnchoredAtCursor` | src/mouse_actions_2d.rs:234-236 | Each such camera is anchored at the world point under the cursor. |
| `CameraPan.AnchoredKeepsOthers` | src/mouse_actions_2d.rs:221-236 | A press leaves the anchor of every camera without the cursor as it was. |
| `CameraPan.PanKeepsAnchorUnderCursor` | src/mouse_actions_2d.rs:229-242 | For a parentless camera and a translation-equivariant unprojection, after a held tick the anchor is again the world point under the cursor. |
| `CameraPan.CameraPan2d.constructor` | src/mouse_actions_2d.rs:202 | The system starts with no anchors. |
| `CameraPan.CameraPan2d.Update` | src/mouse_actions_2d.rs:194-247 | One run sets, keeps or clears the anchors as the gate says. While held, each camera's transform becomes `Panned`; otherwise every transform is left alone. |
| `CameraZoom.ZoomAmountAppend` | src/mouse_actions_2d.rs:262-268 | The zoom amount is additive over the wheel events. |
| `CameraZoom.ZoomAmountSign` | src/mouse_actions_2d.rs:262-268 | Events that all scroll up give a positive amount, all down a negative one, and events without vertical motion give zero. |
| `CameraZoom.Zoomed` | src/mouse_actions_2d.rs:282-292 | A camera with the cursor has its x and y scale multiplied by the factor. Its depth scale, depth translation and rotation are unchanged. A camera without the cursor is unchanged. |
| `CameraZoom.ZoomKeepsPointUnderCursor` | src/mouse_actions_2d.rs:283-292 | For a parentless camera and a translation-equivariant unprojection, the world point under the cursor is the same after the zoom as before. |
| `CameraZoom.Update` | src/mouse_actions_2d.rs:249-295 | Over the overlay, or with a zero amount, no transform changes. Otherwise every camera's transform becomes `Zoomed` with factor exp(−amount). |
| `EntityUuid.EntityUuidRoundTrip` | src/entity_uuid.rs:9-11 | Reading a component's identifier gives back the identifier it was created with. |
| `EntityUuid.YoleckUuidRegistry.Get` | src/entity_uuid.rs:18-20 | The lookup finds an entity iff the identifier is registered, and then it is the registered entity. |

## Left out

- Floating point: coordinates, scales and wheel amounts are reals. No f32 rounding, overflow or NaN is modelled.
- The matrix part of `screen_pos_to_world_pos` (src/mouse_actions_2d.rs:311-318) is the given function `Unprojector`. The camera entity stands for the camera's projection matrix. Only the device-coordinate normalisation is modelled exactly.
- Window sizes are taken as positive. With a zero-sized window the source divides by zero in f32.
- The matrix inverse in `is_world_pos_in` (src/mouse_actions_2d.rs:185-189) is the given function `ToLocal`. Nothing is claimed about transforms that cannot be inverted.
- `exp` in the zoom is a function parameter of `CameraZoom.Update`.
- `CameraPan.PanKeepsAnchorUnderCursor`, `CameraZoom.ZoomKeepsPointUnderCursor`: proved only for a camera whose global transform equals its local transform, and only for an unprojection that is translation-equivariant. Both hold over the reals for the source's matrices but not exactly in f32.
- Plugin and system registration (src/mouse_actions_2d.rs:9-20) and the editor-state condition that runs the systems.
- The egui overlay query is a boolean input. The window lookup `windows.get(id).unwrap()` is collapsed into the camera's `Option<Window>` target, so a camera whose window is missing is not modelled as a panic.
- The query filter `With<OrthographicProjection>`: the camera sequence is taken to hold only orthographic cameras.
- The directive channel is the sequence of sent directives. The event writer and the consumer that applies the directives are not part of this model.
- The wheel `EventReader`'s read cursor: each tick's events arrive as a sequence. Over the overlay the source returns before reading (src/mouse_actions_2d.rs:258-260), so those events stay unread and add to a later tick's amount; `CameraZoom.Update` drops them instead.
- Edited-slot coherence across cameras: the slot is shared by every camera in one tick (src/mouse_actions_2d.rs:67, 109), so when two cameras press on different entities in the same tick the first can stay dragging its entity while the slot names the second. `Clicks.Transition` keeps coherence for the camera that takes the transition only.
- How the identifier registry is filled on spawn and despawn: the source shows no mutation API, so only the lookup is modelled.
- `examples/example3d.rs`: application wiring, assets and a 3D orbit camera, with no logic in scope here.
