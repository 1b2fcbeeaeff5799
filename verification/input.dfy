/** Pointer buttons and the keyboard snapshot read by one update pass. */
module Input {

  /** `Other` stands for every button code that is neither left nor right. */
  datatype MouseButton = Left | Right | Other

  /**
   * Key states for one frame: `shift`, `ctrl`, `alt` and `gui` are "held"
   * (`btn`); `copyKey` and `pasteKey` are the C and V presses (`btnp`); the
   * arrows are presses with hold-and-repeat already resolved by the caller.
   */
  datatype Keys = Keys(
    shift: bool, ctrl: bool, alt: bool, gui: bool,
    copyKey: bool, pasteKey: bool,
    left: bool, right: bool, up: bool, down: bool)
  {
    predicate AnyModifier() {
      shift || ctrl || alt || gui
    }
  }
}
