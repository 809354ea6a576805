/** Linux input event codes (from input-event-codes.h) used by the
    input forwarder, and the integer widths of a `struct input_event`. */
module InputCodes {

  /** `__u16` fields of `struct input_event` (type and code). */
  type U16 = x: int | 0 <= x < 0x1_0000

  /** `__s32` field of `struct input_event` (value). */
  type S32 = x: int | -0x8000_0000 <= x < 0x8000_0000

  // Event types
  const EV_SYN: U16 := 0
  const EV_KEY: U16 := 1
  const EV_REL: U16 := 2
  const EV_ABS: U16 := 3

  // Synchronization codes
  const SYN_REPORT: U16 := 0

  // Relative axes
  const REL_X: U16 := 0
  const REL_Y: U16 := 1
  const REL_HWHEEL: U16 := 6
  const REL_WHEEL: U16 := 8

  // Absolute axes
  const ABS_X: U16 := 0
  const ABS_Y: U16 := 1

  // Keys and buttons
  const KEY_F1: U16 := 59
  const BTN_MOUSE: U16 := 272
  const BTN_LEFT: U16 := 272
  const BTN_RIGHT: U16 := 273
  const BTN_MIDDLE: U16 := 274
  const BTN_TL: U16 := 310
  const BTN_TR: U16 := 311
  const BTN_TOUCH: U16 := 330
}
