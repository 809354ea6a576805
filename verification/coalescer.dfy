/** The per-event translator of the input forwarder (`handle_event`): a
    four-integer accumulator that buffers pointer motion until a
    SYN_REPORT boundary, and the trace of remote-desktop calls it emits. */
module Coalescer {
  import opened InputCodes

  /** One raw evdev event. */
  datatype Event = Event(evType: U16, code: U16, value: S32)

  /** The outbound remote-desktop session calls, in the order they are made. */
  datatype Call =
    | RelMotion(dx: int, dy: int)
    | AbsMotion(stream: string, x: int, y: int)
    | Button(button: int, state: int)
    | Axis(dx: int, dy: int, flags: int)
    | Key(keycode: int, state: int)

  /** The mutable part of the handler: pending relative motion and the last
      absolute touchpad position, with -1 meaning "no position". */
  datatype Accum = Accum(relX: int, relY: int, touchX: int, touchY: int)

  /** The state after a call, and the calls it made. */
  datatype Outcome = Outcome(state: Accum, calls: seq<Call>)

  /** Sentinel of the touchpad fields. */
  const Unset: int := -1

  /** Identifier of the single absolute-motion stream. */
  const TouchStream: string := "breezy"

  /** Flags argument of every wheel notification. */
  const WheelFlag: int := 2

  /** The handler as initialised before the worker starts. */
  const InitialAccum: Accum := Accum(0, 0, Unset, Unset)

  /** Relative motion is waiting for a boundary. */
  predicate RelPending(s: Accum) {
    s.relX != 0 || s.relY != 0
  }

  /** Both touchpad axes hold a position. */
  predicate AbsReady(s: Accum) {
    s.touchX != Unset && s.touchY != Unset
  }

  /** Nothing that a boundary would flush is waiting. */
  predicate Settled(s: Accum) {
    !RelPending(s) && !AbsReady(s)
  }

  predicate IsSynReport(e: Event) {
    e.evType == EV_SYN && e.code == SYN_REPORT
  }

  /** The fixed table from mouse event codes to remote-desktop button codes.
      Every code outside the table reads as 0 ("no button"). */
  function ButtonCode(code: U16): (k: int)
    ensures k != 0 <==> code in {BTN_MOUSE, BTN_RIGHT, BTN_MIDDLE, BTN_TL, BTN_TR, BTN_TOUCH}
    ensures k == 272 <==> code in {BTN_LEFT, BTN_TL, BTN_TOUCH}
    ensures k == 273 <==> code in {BTN_RIGHT, BTN_TR}
    ensures k == 274 <==> code == BTN_MIDDLE
  {
    if code == BTN_MOUSE then 272
    else if code == BTN_RIGHT then 273
    else if code == BTN_MIDDLE then 274
    else if code == BTN_TL then 272
    else if code == BTN_TR then 273
    else if code == BTN_TOUCH then 272
    else 0
  }

  /** The flush done at a SYN_REPORT boundary: relative motion first, then
      the absolute position when both axes are known. */
  function Flush(s: Accum): (r: Outcome)
    ensures Settled(r.state)
    ensures r.state.relX == 0 && r.state.relY == 0
    ensures |r.calls| == (if RelPending(s) then 1 else 0) + (if AbsReady(s) then 1 else 0)
    ensures RelPending(s) ==> r.calls[0] == RelMotion(s.relX, s.relY)
    ensures AbsReady(s) ==> r.calls[|r.calls| - 1] == AbsMotion(TouchStream, s.touchX, s.touchY)
    ensures AbsReady(s) ==> r.state.touchX == Unset && r.state.touchY == Unset
    ensures !AbsReady(s) ==> r.state.touchX == s.touchX && r.state.touchY == s.touchY
    ensures forall i :: 0 <= i < |r.calls| ==> r.calls[i].RelMotion? || r.calls[i].AbsMotion?
  {
    var rel := if RelPending(s) then [RelMotion(s.relX, s.relY)] else [];
    var s1 := if RelPending(s) then s.(relX := 0, relY := 0) else s;
    var abs := if AbsReady(s1) then [AbsMotion(TouchStream, s1.touchX, s1.touchY)] else [];
    var s2 := if AbsReady(s1) then s1.(touchX := Unset, touchY := Unset) else s1;
    Outcome(s2, rel + abs)
  }

  /** Last-value-wins recording of a motion event on a mouse: the matching
      field is overwritten, nothing else changes. */
  function Record(s: Accum, e: Event): (r: Accum)
    ensures r.relX == (if e.evType == EV_REL && e.code == REL_X then e.value else s.relX)
    ensures r.relY == (if e.evType == EV_REL && e.code == REL_Y then e.value else s.relY)
    ensures r.touchX == (if e.evType == EV_ABS && e.code == ABS_X then e.value else s.touchX)
    ensures r.touchY == (if e.evType == EV_ABS && e.code == ABS_Y then e.value else s.touchY)
  {
    if e.evType == EV_REL && e.code == REL_X then s.(relX := e.value)
    else if e.evType == EV_REL && e.code == REL_Y then s.(relY := e.value)
    else if e.evType == EV_ABS && e.code == ABS_X then s.(touchX := e.value)
    else if e.evType == EV_ABS && e.code == ABS_Y then s.(touchY := e.value)
    else s
  }

  /** The calls a mouse event makes at once, without waiting for a boundary. */
  function Immediate(e: Event): (r: seq<Call>)
    ensures |r| <= 1
    ensures r != [] && r[0].Axis? <==> e.evType == EV_REL && e.code in {REL_WHEEL, REL_HWHEEL}
    ensures e.evType == EV_REL && e.code == REL_WHEEL ==> r == [Axis(0, -(e.value as int), WheelFlag)]
    ensures e.evType == EV_REL && e.code == REL_HWHEEL ==> r == [Axis(e.value, 0, WheelFlag)]
    ensures r != [] && r[0].Button? <==> e.evType == EV_KEY && ButtonCode(e.code) != 0
    ensures r != [] && r[0].Button? ==> r[0] == Button(ButtonCode(e.code), e.value)
    ensures (!(e.evType == EV_REL && e.code in {REL_WHEEL, REL_HWHEEL}) &&
             !(e.evType == EV_KEY && ButtonCode(e.code) != 0)) ==> r == []
  {
    if e.evType == EV_REL && e.code == REL_WHEEL then [Axis(0, -(e.value as int), WheelFlag)]
    else if e.evType == EV_REL && e.code == REL_HWHEEL then [Axis(e.value, 0, WheelFlag)]
    else if e.evType == EV_KEY && ButtonCode(e.code) != 0 then [Button(ButtonCode(e.code), e.value)]
    else []
  }

  /** One event through the handler. On a mouse the event either flushes
      (SYN_REPORT) or is recorded and/or forwarded at once; on any other
      device only key events are forwarded, unchanged. */
  function Step(s: Accum, isMouse: bool, e: Event): (r: Outcome)
    ensures !isMouse ==> r.state == s
    ensures !isMouse ==> r.calls == (if e.evType == EV_KEY then [Key(e.code, e.value)] else [])
    ensures isMouse && IsSynReport(e) ==> r == Flush(s)
    ensures isMouse && !IsSynReport(e) ==> r == Outcome(Record(s, e), Immediate(e))
    ensures |r.calls| <= 2
  {
    if isMouse then
      if e.evType == EV_REL then
        if e.code == REL_X then Outcome(s.(relX := e.value), [])
        else if e.code == REL_Y then Outcome(s.(relY := e.value), [])
        else if e.code == REL_WHEEL then Outcome(s, [Axis(0, -(e.value as int), WheelFlag)])
        else if e.code == REL_HWHEEL then Outcome(s, [Axis(e.value, 0, WheelFlag)])
        else Outcome(s, [])
      else if e.evType == EV_ABS then
        if e.code == ABS_X then Outcome(s.(touchX := e.value), [])
        else if e.code == ABS_Y then Outcome(s.(touchY := e.value), [])
        else Outcome(s, [])
      else if e.evType == EV_KEY then
        var keycode := ButtonCode(e.code);
        if keycode != 0 then Outcome(s, [Button(keycode, e.value)]) else Outcome(s, [])
      else if e.evType == EV_SYN && e.code == SYN_REPORT then
        Flush(s)
      else Outcome(s, [])
    else
      if e.evType == EV_KEY then Outcome(s, [Key(e.code, e.value)]) else Outcome(s, [])
  }

  /** Every event read from one device in one drain, fed through `Step` in
      order; the calls are concatenated. */
  function Drain(s: Accum, isMouse: bool, evs: seq<Event>): Outcome
    decreases |evs|
  {
    if |evs| == 0 then Outcome(s, [])
    else
      var o := Drain(s, isMouse, evs[..|evs| - 1]);
      var o' := Step(o.state, isMouse, evs[|evs| - 1]);
      Outcome(o'.state, o.calls + o'.calls)
  }

  /** Draining `a + b` is draining `a`, then `b` from where `a` left off. */
  lemma {:induction false} DrainAppend(s: Accum, isMouse: bool, a: seq<Event>, b: seq<Event>)
    ensures Drain(s, isMouse, a + b).state == Drain(Drain(s, isMouse, a).state, isMouse, b).state
    ensures Drain(s, isMouse, a + b).calls
         == Drain(s, isMouse, a).calls + Drain(Drain(s, isMouse, a).state, isMouse, b).calls
    decreases |b|
  {
    if |b| == 0 {
      assert a + b == a;
    } else {
      var b' := b[..|b| - 1];
      assert (a + b)[..|a + b| - 1] == a + b';
      assert (a + b)[|a + b| - 1] == b[|b| - 1];
      DrainAppend(s, isMouse, a, b');
    }
  }

  // ---------------------------------------------------------------------
  // Reference definitions, independent of Step, of what one input frame
  // (the events between two boundaries) produces.

  /** The value of the last event of the given type and code, or `dflt`. */
  function LastValue(evs: seq<Event>, evType: U16, code: U16, dflt: int): int
    decreases |evs|
  {
    if |evs| == 0 then dflt
    else if evs[|evs| - 1].evType == evType && evs[|evs| - 1].code == code then evs[|evs| - 1].value
    else LastValue(evs[..|evs| - 1], evType, code, dflt)
  }

  /** What is pending after the events of a frame, starting from `s`. */
  function Pending(s: Accum, evs: seq<Event>): Accum {
    Accum(LastValue(evs, EV_REL, REL_X, s.relX), LastValue(evs, EV_REL, REL_Y, s.relY),
          LastValue(evs, EV_ABS, ABS_X, s.touchX), LastValue(evs, EV_ABS, ABS_Y, s.touchY))
  }

  /** The wheel and button calls of a frame, in order. */
  function ImmediateCalls(evs: seq<Event>): seq<Call>
    decreases |evs|
  {
    if |evs| == 0 then [] else ImmediateCalls(evs[..|evs| - 1]) + Immediate(evs[|evs| - 1])
  }

  /** The events a keyboard forwards, unchanged and in order. */
  function KeyCalls(evs: seq<Event>): seq<Call>
    decreases |evs|
  {
    if |evs| == 0 then []
    else
      var e := evs[|evs| - 1];
      KeyCalls(evs[..|evs| - 1]) + (if e.evType == EV_KEY then [Key(e.code, e.value)] else [])
  }

  predicate NoBoundary(evs: seq<Event>) {
    forall i :: 0 <= i < |evs| ==> !IsSynReport(evs[i])
  }

  /** Within a frame on a mouse, each motion field holds the last value
      reported for it (earlier ones are overwritten, not added), and only
      wheel and button calls are made. */
  lemma {:induction false} WithinFrame(s: Accum, evs: seq<Event>)
    requires NoBoundary(evs)
    ensures Drain(s, true, evs) == Outcome(Pending(s, evs), ImmediateCalls(evs))
    decreases |evs|
  {
    if |evs| > 0 {
      var front := evs[..|evs| - 1];
      assert NoBoundary(front) by {
        forall i | 0 <= i < |front| ensures !IsSynReport(front[i]) {
          assert front[i] == evs[i];
        }
      }
      assert !IsSynReport(evs[|evs| - 1]);
      WithinFrame(s, front);
    }
  }

  /** A whole frame on a mouse: the immediate calls, then the boundary
      flushes the last reported motion exactly once. */
  lemma FrameThenBoundary(s: Accum, evs: seq<Event>, syn: Event)
    requires NoBoundary(evs) && IsSynReport(syn)
    ensures Drain(s, true, evs + [syn]).calls == ImmediateCalls(evs) + Flush(Pending(s, evs)).calls
    ensures Drain(s, true, evs + [syn]).state == Flush(Pending(s, evs)).state
    ensures Settled(Drain(s, true, evs + [syn]).state)
  {
    WithinFrame(s, evs);
    assert (evs + [syn])[..|evs + [syn]| - 1] == evs;
  }

  /** A frame of relative motion only: one RelMotion with the last X and Y
      when either is non-zero, none otherwise, and the motion is reset. */
  lemma RelativeFrame(s: Accum, evs: seq<Event>, syn: Event)
    requires s.relX == 0 && s.relY == 0 && !AbsReady(s)
    requires forall i :: 0 <= i < |evs| ==> evs[i].evType == EV_REL && evs[i].code in {REL_X, REL_Y}
    requires IsSynReport(syn)
    ensures var x, y := LastValue(evs, EV_REL, REL_X, 0), LastValue(evs, EV_REL, REL_Y, 0);
      Drain(s, true, evs + [syn]).calls == (if x != 0 || y != 0 then [RelMotion(x, y)] else [])
    ensures Drain(s, true, evs + [syn]).state == s
  {
    assert NoBoundary(evs);
    assert Pending(s, evs).touchX == s.touchX && Pending(s, evs).touchY == s.touchY by {
      LastValueAbsent(evs, EV_ABS, ABS_X, s.touchX);
      LastValueAbsent(evs, EV_ABS, ABS_Y, s.touchY);
    }
    NoImmediateCalls(evs);
    FrameThenBoundary(s, evs, syn);
  }

  /** A frame on a mouse, touchpad side: the boundary sends the last reported
      position exactly when both axes hold one (not -1), and then forgets
      it; with only one axis known, that axis survives the boundary. */
  lemma AbsoluteFrame(s: Accum, evs: seq<Event>, syn: Event)
    requires NoBoundary(evs) && IsSynReport(syn)
    ensures var x, y := LastValue(evs, EV_ABS, ABS_X, s.touchX), LastValue(evs, EV_ABS, ABS_Y, s.touchY);
      var o := Drain(s, true, evs + [syn]);
      && (AbsMotion(TouchStream, x, y) in o.calls <==> x != Unset && y != Unset)
      && (forall c :: c in o.calls && c.AbsMotion? ==> c == AbsMotion(TouchStream, x, y))
      && (x != Unset && y != Unset ==> o.state.touchX == Unset && o.state.touchY == Unset)
      && (x == Unset || y == Unset ==> o.state.touchX == x && o.state.touchY == y)
  {
    var x, y := LastValue(evs, EV_ABS, ABS_X, s.touchX), LastValue(evs, EV_ABS, ABS_Y, s.touchY);
    var o := Drain(s, true, evs + [syn]);
    var imm, fl := ImmediateCalls(evs), Flush(Pending(s, evs));
    FrameThenBoundary(s, evs, syn);
    assert o.calls == imm + fl.calls;
    ImmediateCallsArePointerOnly(evs);
    forall c | c in o.calls && c.AbsMotion? ensures c == AbsMotion(TouchStream, x, y) {
      assert c !in imm;
      assert c in fl.calls;
    }
    if x != Unset && y != Unset {
      assert fl.calls[|fl.calls| - 1] == AbsMotion(TouchStream, x, y);
      assert fl.calls[|fl.calls| - 1] in o.calls;
    }
  }

  /** Wheel and button calls only: nothing a boundary would send. */
  lemma {:induction false} ImmediateCallsArePointerOnly(evs: seq<Event>)
    ensures forall i :: 0 <= i < |ImmediateCalls(evs)| ==> ImmediateCalls(evs)[i].Axis? || ImmediateCalls(evs)[i].Button?
    decreases |evs|
  {
    if |evs| > 0 {
      ImmediateCallsArePointerOnly(evs[..|evs| - 1]);
    }
  }

  /** No event of the given type: the default is kept. */
  lemma {:induction false} LastValueAbsent(evs: seq<Event>, evType: U16, code: U16, dflt: int)
    requires forall i :: 0 <= i < |evs| ==> evs[i].evType != evType
    ensures LastValue(evs, evType, code, dflt) == dflt
    decreases |evs|
  {
    if |evs| > 0 {
      LastValueAbsent(evs[..|evs| - 1], evType, code, dflt);
    }
  }

  /** REL_X and REL_Y events make no immediate call. */
  lemma {:induction false} NoImmediateCalls(evs: seq<Event>)
    requires forall i :: 0 <= i < |evs| ==> evs[i].evType == EV_REL && evs[i].code in {REL_X, REL_Y}
    ensures ImmediateCalls(evs) == []
    decreases |evs|
  {
    if |evs| > 0 {
      NoImmediateCalls(evs[..|evs| - 1]);
    }
  }

  /** A boundary with nothing pending emits nothing and changes nothing;
      in particular a second boundary right after a first one is silent. */
  lemma SettledBoundaryIsSilent(s: Accum, syn: Event)
    requires Settled(s) && IsSynReport(syn)
    ensures Step(s, true, syn) == Outcome(s, [])
    ensures Step(Step(s, true, syn).state, true, syn).calls == []
  {
  }

  /** Only one touchpad axis known: no absolute call, and that axis value
      survives the boundary. A reading of -1 counts as "unknown". */
  lemma HalfTouchPersists(s: Accum, syn: Event)
    requires IsSynReport(syn) && !AbsReady(s)
    ensures forall i :: 0 <= i < |Step(s, true, syn).calls| ==> !Step(s, true, syn).calls[i].AbsMotion?
    ensures Step(s, true, syn).state.touchX == s.touchX && Step(s, true, syn).state.touchY == s.touchY
  {
  }

  /** A keyboard drain forwards exactly its key events and never touches
      the accumulator. */
  lemma {:induction false} KeyboardDrain(s: Accum, evs: seq<Event>)
    ensures Drain(s, false, evs) == Outcome(s, KeyCalls(evs))
    decreases |evs|
  {
    if |evs| > 0 {
      KeyboardDrain(s, evs[..|evs| - 1]);
    }
  }

  /** Wheel events never touch the accumulator. */
  lemma WheelKeepsState(s: Accum, e: Event)
    requires e.evType == EV_REL && e.code in {REL_WHEEL, REL_HWHEEL}
    ensures Step(s, true, e).state == s
    ensures |Step(s, true, e).calls| == 1 && Step(s, true, e).calls[0].Axis?
  {
  }

  /** REL_X 5, REL_Y -3, SYN_REPORT from rest: one relative motion (5, -3). */
  lemma RelativeMotionExample()
    ensures Drain(InitialAccum, true, [Event(EV_REL, REL_X, 5), Event(EV_REL, REL_Y, -3), Event(EV_SYN, SYN_REPORT, 0)])
         == Outcome(InitialAccum, [RelMotion(5, -3)])
  {
    var x, y, syn := Event(EV_REL, REL_X, 5), Event(EV_REL, REL_Y, -3), Event(EV_SYN, SYN_REPORT, 0);
    assert [x][..0] == [];
    assert Drain(InitialAccum, true, [x]) == Outcome(Accum(5, 0, Unset, Unset), []);
    assert [x, y][..1] == [x];
    assert Drain(InitialAccum, true, [x, y]) == Outcome(Accum(5, -3, Unset, Unset), []);
    assert [x, y, syn][..2] == [x, y];
  }

  /** Left button down then up: two button calls, no boundary needed. */
  lemma LeftClickExample()
    ensures Drain(InitialAccum, true, [Event(EV_KEY, BTN_LEFT, 1), Event(EV_KEY, BTN_LEFT, 0)])
         == Outcome(InitialAccum, [Button(272, 1), Button(272, 0)])
  {
    var down, up := Event(EV_KEY, BTN_LEFT, 1), Event(EV_KEY, BTN_LEFT, 0);
    assert [down][..0] == [];
    assert Drain(InitialAccum, true, [down]) == Outcome(InitialAccum, [Button(272, 1)]);
    assert [down, up][..1] == [down];
  }
}
