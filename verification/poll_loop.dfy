/** The worker thread (`poll_input_devices`) abstracted to its dispatch
    logic: each return of `poll` is a round over all registered devices in
    order; a readable device is drained through the handler, a hung-up one
    raises the reset flag, and nothing is dispatched once the flag is up.
    Descriptors, threads and the libevdev read flags are not modelled. */
module PollLoop {
  import opened Coalescer
  import opened Discovery

  /** What `poll` reported for one descriptor (`hangUp` stands for POLLHUP
      or POLLERR), and the events a drain of that device reads. */
  datatype FdReport = FdReport(pollIn: bool, hangUp: bool, events: seq<Event>)

  /** One return of `poll`: a timeout, or a report for every descriptor. */
  datatype PollResult = Timeout | Ready(fds: seq<FdReport>)

  /** The reset flag and the single handler shared by all devices. */
  datatype Worker = Worker(reset: bool, accum: Accum)

  /** The worker afterwards, and the calls it made. */
  datatype Served = Served(worker: Worker, calls: seq<Call>)

  /** The worker as it starts: flag down, handler freshly initialised. */
  const InitialWorker: Worker := Worker(false, InitialAccum)

  /** A readiness report names every registered descriptor. */
  predicate WellFormed(reg: Registry, polls: seq<PollResult>) {
    forall k :: 0 <= k < |polls| ==> polls[k].Ready? ==> |polls[k].fds| == |reg.inputs|
  }

  /** A descriptor that reports a hang-up without being readable. */
  predicate HangsUp(fd: FdReport) {
    !fd.pollIn && fd.hangUp
  }

  predicate HangupIn(p: PollResult) {
    p.Ready? && exists i :: 0 <= i < |p.fds| && HangsUp(p.fds[i])
  }

  /** Service of the i-th descriptor after a `poll`. A readable descriptor
      wins over a hang-up reported with it. */
  function ServeFd(reg: Registry, w: Worker, i: nat, fd: FdReport): (r: Served)
    requires i < |reg.inputs|
    ensures r.worker.reset <==> w.reset || HangsUp(fd)
    ensures HangsUp(fd) ==> r.calls == [] && r.worker.accum == w.accum
    ensures !IsMouse(reg, reg.inputs[i]) ==> r.worker.accum == w.accum
    ensures fd.pollIn ==>
      var o := Drain(w.accum, IsMouse(reg, reg.inputs[i]), fd.events);
      r == Served(Worker(w.reset, o.state), o.calls)
    ensures !fd.pollIn ==> r.calls == [] && r.worker.accum == w.accum
  {
    if fd.pollIn then
      var o := Drain(w.accum, IsMouse(reg, reg.inputs[i]), fd.events);
      KeyboardDrain(w.accum, fd.events);
      Served(Worker(w.reset, o.state), o.calls)
    else if fd.hangUp then
      Served(Worker(true, w.accum), [])
    else
      Served(w, [])
  }

  /** The loop over the first |fds| descriptors after one `poll`. The flag
      is only read before the round, so a hang-up does not stop the
      descriptors after it in the same round from being drained. */
  function Round(reg: Registry, w: Worker, fds: seq<FdReport>): (r: Served)
    requires |fds| <= |reg.inputs|
    ensures w.reset ==> r.worker.reset
    ensures r.worker.reset <==> w.reset || exists i :: 0 <= i < |fds| && HangsUp(fds[i])
    ensures (forall i :: 0 <= i < |fds| ==> !fds[i].pollIn) ==> r.calls == [] && r.worker.accum == w.accum
    decreases |fds|
  {
    if |fds| == 0 then Served(w, [])
    else
      var front := fds[..|fds| - 1];
      var r := Round(reg, w, front);
      var r' := ServeFd(reg, r.worker, |fds| - 1, fds[|fds| - 1]);
      assert forall i :: 0 <= i < |front| ==> front[i] == fds[i];
      Served(r'.worker, r.calls + r'.calls)
  }

  /** The loop of the worker over successive `poll` results; it stops at once
      when no device was registered or when the flag is up. */
  function Serve(reg: Registry, w: Worker, polls: seq<PollResult>): (r: Served)
    requires WellFormed(reg, polls)
    ensures w.reset ==> r == Served(w, [])
    ensures |reg.inputs| == 0 ==> r == Served(w, [])
    ensures r.worker.reset <==> w.reset || (|reg.inputs| > 0 && exists k :: 0 <= k < |polls| && HangupIn(polls[k]))
    decreases |polls|
  {
    if |reg.inputs| == 0 || w.reset || |polls| == 0 then Served(w, [])
    else
      var r := match polls[0]
        case Timeout => Served(w, [])
        case Ready(fds) => Round(reg, w, fds);
      var rest := Serve(reg, r.worker, polls[1..]);
      assert forall k :: 1 <= k < |polls| ==> polls[1..][k - 1] == polls[k];
      Served(rest.worker, r.calls + rest.calls)
  }

  /** Discovery, then the worker from its initial state. */
  function Start(cands: seq<Candidate>, polls: seq<PollResult>): (r: Served)
    requires WellFormed(Discover(cands), polls)
    ensures (forall i :: 0 <= i < |cands| ==> !Admitted(cands[i])) ==> r == Served(InitialWorker, [])
    ensures r.worker.reset ==> exists k :: 0 <= k < |polls| && HangupIn(polls[k])
  {
    NoDeviceNoRegistry(cands);
    Serve(Discover(cands), InitialWorker, polls)
  }

  /** Once the flag is up nothing more is dispatched: whatever `poll`
      returns afterwards adds no call and changes no state. */
  lemma {:induction false} NothingAfterReset(reg: Registry, w: Worker, a: seq<PollResult>, b: seq<PollResult>)
    requires WellFormed(reg, a) && WellFormed(reg, b)
    requires Serve(reg, w, a).worker.reset
    ensures WellFormed(reg, a + b)
    ensures Serve(reg, w, a + b) == Serve(reg, w, a)
    decreases |a|
  {
    assert WellFormed(reg, a + b) by {
      assert forall k :: 0 <= k < |a + b| ==> (a + b)[k] == if k < |a| then a[k] else b[k - |a|];
    }
    if |reg.inputs| == 0 || w.reset {
    } else if |a| == 0 {
      assert false;
    } else {
      var r := match a[0]
        case Timeout => Served(w, [])
        case Ready(fds) => Round(reg, w, fds);
      assert (a + b)[0] == a[0];
      assert (a + b)[1..] == a[1..] + b;
      NothingAfterReset(reg, r.worker, a[1..], b);
    }
  }

  /** A hang-up in a round does not suppress the other descriptors of that
      round: the calls and the handler are those of the same round with the
      hang-ups taken away. */
  lemma {:induction false} HangupKeepsRoundGoing(reg: Registry, w: Worker, fds: seq<FdReport>)
    requires |fds| <= |reg.inputs|
    ensures Round(reg, w, fds).calls == Round(reg, w, WithoutHangups(fds)).calls
    ensures Round(reg, w, fds).worker.accum == Round(reg, w, WithoutHangups(fds)).worker.accum
    decreases |fds|
  {
    if |fds| > 0 {
      var n := |fds| - 1;
      var quiet := WithoutHangups(fds);
      assert quiet[..n] == WithoutHangups(fds[..n]);
      HangupKeepsRoundGoing(reg, w, fds[..n]);
      var r1, r2 := Round(reg, w, fds[..n]), Round(reg, w, quiet[..n]);
      ServeFdIgnoresFlag(reg, r1.worker, r2.worker, n, fds[n], quiet[n]);
    }
  }

  /** What a descriptor's service sends, and the handler it leaves, depend
      only on the handler before it and on whether the descriptor is
      readable, not on the flag or on a hang-up report. */
  lemma ServeFdIgnoresFlag(reg: Registry, w1: Worker, w2: Worker, i: nat, f: FdReport, g: FdReport)
    requires i < |reg.inputs|
    requires w1.accum == w2.accum && f.pollIn == g.pollIn && f.events == g.events
    ensures ServeFd(reg, w1, i, f).calls == ServeFd(reg, w2, i, g).calls
    ensures ServeFd(reg, w1, i, f).worker.accum == ServeFd(reg, w2, i, g).worker.accum
  {
  }

  /** The same readiness reports with every hang-up taken away: a round over
      them can no longer raise the flag, and each descriptor is readable and
      drains exactly as before. */
  function WithoutHangups(fds: seq<FdReport>): (r: seq<FdReport>)
    ensures |r| == |fds|
    ensures !HangupIn(Ready(r))
    ensures forall i :: 0 <= i < |r| ==> r[i].pollIn == fds[i].pollIn && r[i].events == fds[i].events
  {
    seq(|fds|, i requires 0 <= i < |fds| => fds[i].(hangUp := false))
  }

  /** Keyboard-only traffic leaves the shared handler untouched. */
  lemma {:induction false} KeyboardRoundKeepsAccum(reg: Registry, w: Worker, fds: seq<FdReport>)
    requires |fds| <= |reg.inputs|
    requires forall i :: 0 <= i < |fds| ==> !IsMouse(reg, reg.inputs[i])
    ensures Round(reg, w, fds).worker.accum == w.accum
    decreases |fds|
  {
    if |fds| > 0 {
      KeyboardRoundKeepsAccum(reg, w, fds[..|fds| - 1]);
    }
  }
}
