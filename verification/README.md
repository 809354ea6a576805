# Input forwarding of breezy-desktop, in Dafny

This project models the input-forwarding core of breezy-desktop's desktop
viewer, `desktop/remote_desktop_inputs.c`. That code finds the local mice and
keyboards and forwards their evdev events to a GNOME Mutter remote-desktop
session as D-Bus calls. The model has three parts:

- **Discovery** (`discovery.dfy`, module `Discovery`). `find_input_devices`
  is modelled as a fold over the nodes the `/dev/input/event*` glob returns.
  A node is kept when `open` gives a descriptor above 0 and libevdev accepts
  it. A kept node with `BTN_MOUSE` or `BTN_TOUCH` goes to the mouse list.
  Failing that, a node with `KEY_F1` goes to the keyboard list. Any other
  node is dropped. Every kept device is also appended to the list of polled
  devices. The `in_array` test that tells mice from keyboards is here too.
- **Event translation** (`coalescer.dfy`, module `Coalescer`). `handle_event`
  is a pure step over the handler's four fields: pending relative X/Y, and
  the touchpad X/Y with -1 meaning "no position". Each step returns the new
  fields and the trace of session calls it made. Those calls are
  `RelMotion`, `AbsMotion`, `Button`, `Axis` and `Key`. The fixed button
  table is here too. So are reference definitions of what one input frame
  produces, and the lemmas linking them to the step.
- **Worker loop** (`poll_loop.dfy`, module `PollLoop`). `poll_input_devices`
  is reduced to its dispatch logic:
  - each `poll` result is a round over the registered devices in order;
  - a readable device is drained through the handler;
  - a device that hangs up raises `reset_input_thread`;
  - once the flag is up, the loop dispatches nothing more.
- The Linux event codes live in `codes.dfy` (module `InputCodes`).

In these places the model follows the code rather than what one might expect:

- There is one handler, and so one accumulator, shared by every device. It
  is not kept per device. Motion recorded from one mouse can be flushed by a
  SYN_REPORT from another.
- A hang-up sets the flag, but the flag is only tested between rounds. The
  readable devices after the hung-up one in the same round are still drained
  (`PollLoop.HangupKeepsRoundGoing`).
- A descriptor that is readable and hung up at once is treated as readable.
  The hang-up is not seen in that round.
- `open` returning descriptor 0 counts as a failure (`fd > 0`).
- Nothing excludes the program's own virtual device. The comment at
  desktop/remote_desktop_inputs.c:63 promises this, but no code does it.

## Model

| member | source | states |
|---|---|---|
| `Coalescer.ButtonCode` | desktop/remote_desktop_inputs.c:20-28 | A code has a button exactly when it is BTN_MOUSE/BTN_LEFT, BTN_RIGHT, BTN_MIDDLE, BTN_TL, BTN_TR or BTN_TOUCH. Left, TL and touch map to 272, right and TR to 273, middle to 274. Every other code reads 0. |
| `Coalescer.Flush` | desktop/remote_desktop_inputs.c:129-150 | At SYN_REPORT: one RelMotion with the pending values exactly when either is non-zero, and one AbsMotion("breezy", x, y) exactly when both touch axes are set. Relative comes first. Relative resets to 0. Touch resets to -1 only if it was sent, otherwise it persists. Afterwards nothing is pending. |
| `Coalescer.Record` | desktop/remote_desktop_inputs.c:94-119 | REL_X, REL_Y, ABS_X and ABS_Y overwrite their own field with the event value (no adding), and no other field changes. |
| `Coalescer.Immediate` | desktop/remote_desktop_inputs.c:99-128 | A wheel sends Axis(0, -v, 2) and a horizontal wheel sends Axis(v, 0, 2) at once. A key event sends Button(table[code], v) exactly when the table entry is non-zero. Anything else sends nothing. |
| `Coalescer.Step` | desktop/remote_desktop_inputs.c:92-160 | On a non-mouse device the fields never change, and only EV_KEY sends Key(code, value) unchanged, autorepeat included. On a mouse, SYN_REPORT is the flush and any other event is recorded or sent at once. A step never makes more than two calls. |
| `Coalescer.DrainAppend` | desktop/remote_desktop_inputs.c:196-208 | Draining a batch of events split in two equals draining the first part, then the second from the state the first left. |
| `Coalescer.WithinFrame` | desktop/remote_desktop_inputs.c:94-128 | Before a boundary, a mouse's fields hold the last value reported for each axis (else their earlier value). The only calls are the wheel and button calls, in order. |
| `Coalescer.FrameThenBoundary` | desktop/remote_desktop_inputs.c:129-150 | A frame followed by SYN_REPORT sends the frame's immediate calls, then the flush of the last reported motion. It always ends with nothing pending. |
| `Coalescer.RelativeFrame` | desktop/remote_desktop_inputs.c:130-138 | From rest, REL_X/REL_Y events then SYN_REPORT send exactly one RelMotion(last X, last Y) when either is non-zero, and none otherwise. The state returns to rest. |
| `Coalescer.AbsoluteFrame` | desktop/remote_desktop_inputs.c:140-149 | The boundary sends AbsMotion("breezy", last X, last Y) exactly when both are not -1. It is the only absolute call. Both then reset to -1. With one axis unknown, both keep their values. |
| `Coalescer.SettledBoundaryIsSilent` | desktop/remote_desktop_inputs.c:129-150 | SYN_REPORT with nothing pending sends nothing and changes nothing, so a second boundary in a row is silent. |
| `Coalescer.HalfTouchPersists` | desktop/remote_desktop_inputs.c:140-149 | With only one touch axis set, SYN_REPORT sends no absolute call and that axis survives the boundary. |
| `Coalescer.KeyboardDrain` | desktop/remote_desktop_inputs.c:151-158 | A keyboard drain sends exactly Key(code, value) for each EV_KEY event in order and leaves the accumulator as it was. |
| `Coalescer.WheelKeepsState` | desktop/remote_desktop_inputs.c:99-113 | A wheel event on a mouse sends one Axis call and leaves the accumulator unchanged. |
| `Coalescer.RelativeMotionExample` | desktop/remote_desktop_inputs.c:94-138 | From the initial handler, REL_X 5, REL_Y -3, SYN_REPORT gives exactly RelMotion(5, -3) and the initial handler again. |
| `Coalescer.LeftClickExample` | desktop/remote_desktop_inputs.c:120-128 | BTN_LEFT down then up gives Button(272, 1) then Button(272, 0) with no boundary. |
| `Discovery.Classify` | desktop/remote_desktop_inputs.c:65-77 | Mouse exactly when BTN_MOUSE or BTN_TOUCH is advertised (so mouse beats keyboard). Keyboard exactly when KEY_F1 is and neither mouse code is. Unclassified otherwise. |
| `Discovery.Discover` | desktop/remote_desktop_inputs.c:56-89 | The polled list holds exactly the opened, classified nodes in glob order. The mouse and keyboard lists hold exactly those of each class, in order. The device count is the mouse count plus the keyboard count. |
| `Discovery.DescribesDetermines` | desktop/remote_desktop_inputs.c:56-89 | Those properties fix the three lists completely. |
| `Discovery.ExactlyOneList` | desktop/remote_desktop_inputs.c:65-82 | Every registered device is in exactly one of the mouse and keyboard lists. |
| `Discovery.SkippedNodeIsTransparent` | desktop/remote_desktop_inputs.c:58-88 | A node that fails to open, fails libevdev init or is unclassified leaves the registry unchanged, and discovery goes on with the rest. |
| `Discovery.InArray` | desktop/remote_desktop_inputs.c:162-169 | True exactly when the device occurs among the first `count` entries. `IsMouse` is the same membership test applied to the whole mouse list. |
| `Discovery.IsMouseIffClassifiedMouse` | desktop/remote_desktop_inputs.c:193 | For a discovered device, the `in_array` test against the mouse list holds exactly when the device was classified as a mouse. |
| `PollLoop.ServeFd` | desktop/remote_desktop_inputs.c:187-212 | A readable descriptor's events are drained in order through the handler, with the device treated as a mouse exactly when `in_array` finds it in the mouse list. A descriptor that is not readable sends nothing and keeps the accumulator. The flag goes up exactly when the descriptor hangs up without being readable. A non-mouse device never changes the accumulator. |
| `PollLoop.Round` | desktop/remote_desktop_inputs.c:186-213 | The flag is never lowered. After the round it is up exactly when it was up before or some descriptor of the round hung up. A round with no readable descriptor sends nothing and keeps the accumulator. |
| `PollLoop.Serve` | desktop/remote_desktop_inputs.c:174-218 | With no registered device, or with the flag already up, the worker makes no call and changes nothing. The flag ends up set exactly when it was set before or some poll reported a hang-up. |
| `PollLoop.NothingAfterReset` | desktop/remote_desktop_inputs.c:176-211 | Once the flag is up, later poll results add no call and change no state. |
| `PollLoop.HangupKeepsRoundGoing` | desktop/remote_desktop_inputs.c:187-212 | A hang-up does not change the calls of its round or the accumulator: both equal those of the same round without hang-ups. |
| `PollLoop.KeyboardRoundKeepsAccum` | desktop/remote_desktop_inputs.c:187-208 | A round in which only non-mouse devices are served leaves the shared accumulator unchanged. |
| `Discovery.NoDeviceNoRegistry` | desktop/remote_desktop_inputs.c:56-89 | When no node is admitted, no device is registered. |
| `PollLoop.Start` | desktop/remote_desktop_inputs.c:223-236 | Discovery then the worker from (0, 0, -1, -1) with the flag down. Nothing is sent when no node is admitted, and the flag can only end up set by a hang-up. |

## Left out

- desktop/main.c and gnome/src/imu.js are not part of this model. The first is session negotiation, windowing and rendering. The second is floating-point IMU maths.
- System calls and libraries become parameters. The glob result, the `open` descriptor, the `libevdev_new_from_fd` result and the advertised codes are fields of each `Candidate`. A glob failure (`GLOB_ERR`) is not modelled.
- Resource handling is not modelled: `libevdev_free` and `close` of dropped nodes, the descriptor leaked when libevdev init fails, `realloc` of the lists, and `malloc`/`free` of the pollfd array.
- Parts of the worker loop are not modelled: `poll` itself and its one-second timeout, a `poll` error return, the `libevdev_has_event_pending` test, and the SYNC/NORMAL read-flag switching. Each round's drained events are given as a sequence.
- Threads are not modelled. `pthread_create` and the stack-local handler it is given (desktop/remote_desktop_inputs.c:226-236) are outside the model.
- The code has no stop/join operation, no re-discovery, and no accumulator reset on read errors. None is modelled.
- Coalescer.Step: the handler fields are C `float`s; the model keeps them as unbounded integers. Float rounding of values above 2^24 is not modelled. Negating a wheel value of -2^31 (undefined in C) is modelled as plain integer negation.
- Coalescer.ButtonCode: the C table has 331 entries and is indexed by the event code without a bounds check. Codes above 330 are undefined behaviour in C. The model reads 0 (no button) for every code outside the table.
- The trace records the C arguments before D-Bus marshalling. `Button` and `Key` carry the raw `event.value` as their state, where the session methods take a boolean "pressed". So an autorepeat (value 2) reaches the session only as a repeated "pressed".
- A genuine touchpad reading of -1 cannot be told from "no position". The model keeps this sentinel as the code does.
