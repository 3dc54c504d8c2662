/** The per-tick input the interaction systems sample. */
module Input {

  /** The level-sampled state of one mouse button in this tick. */
  datatype ButtonInput = ButtonInput(justPressed: bool, justReleased: bool, pressed: bool)

  /**
   * What a system does with this tick, decided before it visits any camera:
   * return at once, clear its per-camera map and return, or run `op` on every camera.
   */
  datatype Gate<Op> = Skip | ClearAll | Proceed(op: Op)
}
