/** Device discovery (`find_input_devices`): every node the glob returns is
    opened, classified by its key capabilities, and appended to the mouse or
    keyboard list and to the overall list of polled devices; and the
    `in_array` membership test that decides whether a device is a mouse. */
module Discovery {
  import opened InputCodes

  /** One event code a device advertises, e.g. (EV_KEY, BTN_MOUSE). */
  datatype EventCode = EventCode(evType: U16, code: U16)

  /** A node returned by the glob, as `open` and `libevdev_new_from_fd` saw it. */
  datatype Candidate = Candidate(fd: int, initRc: int, caps: set<EventCode>)

  /** An open device kept by discovery. `handle` is its position in the glob
      result; it stands for the libevdev pointer and is unique per discovery. */
  datatype Device = Device(handle: nat, fd: int, caps: set<EventCode>)

  datatype Class = Mouse | Keyboard | Unclassified

  /** The three device lists; their lengths are the three counters. */
  datatype Registry = Registry(mice: seq<Device>, keyboards: seq<Device>, inputs: seq<Device>)

  const EmptyRegistry: Registry := Registry([], [], [])

  predicate HasKey(caps: set<EventCode>, code: U16) {
    EventCode(EV_KEY, code) in caps
  }

  /** Mouse buttons win over the function key; a device with neither is dropped. */
  function Classify(caps: set<EventCode>): (c: Class)
    ensures c == Mouse <==> HasKey(caps, BTN_MOUSE) || HasKey(caps, BTN_TOUCH)
    ensures c == Keyboard <==> !HasKey(caps, BTN_MOUSE) && !HasKey(caps, BTN_TOUCH) && HasKey(caps, KEY_F1)
    ensures c == Unclassified <==> !HasKey(caps, BTN_MOUSE) && !HasKey(caps, BTN_TOUCH) && !HasKey(caps, KEY_F1)
  {
    if HasKey(caps, BTN_MOUSE) || HasKey(caps, BTN_TOUCH) then Mouse
    else if HasKey(caps, KEY_F1) then Keyboard
    else Unclassified
  }

  /** The node was opened (a descriptor above 0) and libevdev accepted it. */
  predicate Opened(c: Candidate) {
    c.fd > 0 && c.initRc >= 0
  }

  /** The node ends up in the registry. */
  predicate Admitted(c: Candidate) {
    Opened(c) && Classify(c.caps) != Unclassified
  }

  /** The device discovery makes of the i-th node. */
  function DeviceAt(cands: seq<Candidate>, i: nat): Device
    requires i < |cands|
  {
    Device(i, cands[i].fd, cands[i].caps)
  }

  /** One iteration of the discovery loop, for the i-th node `c`. */
  function DiscoverOne(reg: Registry, i: nat, c: Candidate): Registry {
    if c.fd > 0 then
      if c.initRc >= 0 then
        var d := Device(i, c.fd, c.caps);
        match Classify(c.caps)
        case Mouse => Registry(reg.mice + [d], reg.keyboards, reg.inputs + [d])
        case Keyboard => Registry(reg.mice, reg.keyboards + [d], reg.inputs + [d])
        case Unclassified => reg
      else reg
    else reg
  }

  /** Strictly increasing handles: glob order, no device twice. */
  predicate Increasing(ds: seq<Device>) {
    forall i, j :: 0 <= i < j < |ds| ==> ds[i].handle < ds[j].handle
  }

  /** `reg` holds exactly the admitted nodes of `cands`, in glob order, each
      in exactly the list its class names. */
  ghost predicate Describes(reg: Registry, cands: seq<Candidate>) {
    && Increasing(reg.inputs) && Increasing(reg.mice) && Increasing(reg.keyboards)
    && (forall d :: d in reg.inputs ==> d.handle < |cands| && d == DeviceAt(cands, d.handle))
    && (forall i :: 0 <= i < |cands| ==> (DeviceAt(cands, i) in reg.inputs <==> Admitted(cands[i])))
    && (forall d :: d in reg.mice <==> d in reg.inputs && Classify(d.caps) == Mouse)
    && (forall d :: d in reg.keyboards <==> d in reg.inputs && Classify(d.caps) == Keyboard)
    && |reg.inputs| == |reg.mice| + |reg.keyboards|
  }

  /** Discovery over the glob result, as a fold in glob order. */
  function Discover(cands: seq<Candidate>): (r: Registry)
    ensures Describes(r, cands)
    decreases |cands|
  {
    if |cands| == 0 then EmptyRegistry
    else
      var reg := Discover(cands[..|cands| - 1]);
      DiscoverStep(reg, cands);
      DiscoverOne(reg, |cands| - 1, cands[|cands| - 1])
  }

  lemma DiscoverStep(reg: Registry, cands: seq<Candidate>)
    requires |cands| > 0 && Describes(reg, cands[..|cands| - 1])
    ensures Describes(DiscoverOne(reg, |cands| - 1, cands[|cands| - 1]), cands)
  {
    var n := |cands| - 1;
    var c := cands[n];
    var front := cands[..n];
    var d := DeviceAt(cands, n);
    var r := DiscoverOne(reg, n, c);
    forall e | e in reg.inputs ensures e.handle < n && e == DeviceAt(cands, e.handle) {
      assert DeviceAt(front, e.handle) == DeviceAt(cands, e.handle);
    }
    forall i | 0 <= i < n ensures DeviceAt(cands, i) in reg.inputs <==> Admitted(cands[i]) {
      assert DeviceAt(front, i) == DeviceAt(cands, i);
    }
    assert d !in reg.inputs;
    if !Admitted(c) {
      assert r == reg;
    } else {
      assert r.inputs == reg.inputs + [d];
      AppendIncreasing(reg.inputs, d);
      if Classify(c.caps) == Mouse {
        assert r.mice == reg.mice + [d] && r.keyboards == reg.keyboards;
        AppendIncreasing(reg.mice, d);
      } else {
        assert r.keyboards == reg.keyboards + [d] && r.mice == reg.mice;
        AppendIncreasing(reg.keyboards, d);
      }
    }
  }

  lemma AppendIncreasing(ds: seq<Device>, d: Device)
    requires Increasing(ds)
    requires forall e :: e in ds ==> e.handle < d.handle
    ensures Increasing(ds + [d])
  {
    forall i, j | 0 <= i < j < |ds| + 1 ensures (ds + [d])[i].handle < (ds + [d])[j].handle {
      if j == |ds| {
        assert ds[i] in ds;
      }
    }
  }

  /** A registry is determined by what `Describes` says of it: the lists are
      exactly the admitted nodes in glob order, whatever built them. */
  lemma DescribesDetermines(r1: Registry, r2: Registry, cands: seq<Candidate>)
    requires Describes(r1, cands) && Describes(r2, cands)
    ensures r1 == r2
  {
    forall e ensures e in r1.inputs <==> e in r2.inputs {
      if e in r1.inputs {
        assert DeviceAt(cands, e.handle) in r2.inputs;
      }
      if e in r2.inputs {
        assert DeviceAt(cands, e.handle) in r1.inputs;
      }
    }
    SameIncreasing(r1.inputs, r2.inputs);
    SameIncreasing(r1.mice, r2.mice);
    SameIncreasing(r1.keyboards, r2.keyboards);
  }

  /** Two increasing sequences with the same elements are equal. */
  lemma {:induction false} SameIncreasing(a: seq<Device>, b: seq<Device>)
    requires Increasing(a) && Increasing(b)
    requires forall e :: e in a <==> e in b
    ensures a == b
    decreases |a|
  {
    if |a| == 0 {
      if |b| != 0 {
        HeadIsElement(b);
        assert false;
      }
    } else {
      assert a[0] in b;
      assert b[0] in a;
      assert a[0] == b[0];
      forall e ensures e in a[1..] <==> e in b[1..] {
        if e in a[1..] {
          var k :| 1 <= k < |a| && a[k] == e;
          assert e != a[0] by { assert a[0].handle < a[k].handle; }
          assert e in b;
          var j :| 0 <= j < |b| && b[j] == e;
          assert j != 0;
        }
        if e in b[1..] {
          var k :| 1 <= k < |b| && b[k] == e;
          assert e != b[0] by { assert b[0].handle < b[k].handle; }
          assert e in a;
          var j :| 0 <= j < |a| && a[j] == e;
          assert j != 0;
        }
      }
      SameIncreasing(a[1..], b[1..]);
      assert a == [a[0]] + a[1..];
      assert b == [b[0]] + b[1..];
    }
  }

  /** Names `b[0]` as a member of `b` without a checked index in a branch
      that the preconditions of `SameIncreasing` rule out. */
  lemma HeadIsElement(b: seq<Device>)
    requires |b| != 0
    ensures b[0] in b
  {
  }

  /** Each registered device is in exactly one of the mouse and keyboard lists. */
  lemma ExactlyOneList(cands: seq<Candidate>, d: Device)
    requires d in Discover(cands).inputs
    ensures d in Discover(cands).mice <==> d !in Discover(cands).keyboards
  {
  }

  /** A node that is not admitted (open or init failed, or no mouse or
      keyboard capability) leaves the registry as it was, so discovery
      continues with the rest unaffected. */
  lemma SkippedNodeIsTransparent(cands: seq<Candidate>, c: Candidate)
    requires !Admitted(c)
    ensures Discover(cands + [c]) == Discover(cands)
  {
  }

  /** When no node is admitted, nothing is registered. */
  lemma NoDeviceNoRegistry(cands: seq<Candidate>)
    ensures (forall i :: 0 <= i < |cands| ==> !Admitted(cands[i])) ==> |Discover(cands).inputs| == 0
  {
  }

  /** `dev` is, by identity, among the first `count` entries of `devices`. */
  predicate Occurs(dev: Device, devices: seq<Device>, count: int)
    requires count <= |devices|
  {
    exists i :: 0 <= i < count && devices[i].handle == dev.handle
  }

  /** The membership test used to tell mice from keyboards: does `dev` occur
      among the first `count` entries of `devices`? Devices are compared by
      identity. */
  method InArray(dev: Device, devices: seq<Device>, count: int) returns (found: bool)
    requires count <= |devices|
    ensures found <==> Occurs(dev, devices, count)
  {
    var i := 0;
    while i < count
      invariant 0 <= i <= |devices|
      invariant count >= 0 ==> i <= count
      invariant forall j :: 0 <= j < i ==> devices[j].handle != dev.handle
    {
      if devices[i].handle == dev.handle {
        return true;
      }
      i := i + 1;
    }
    return false;
  }

  /** `in_array(dev, mouse_devices, mouse_count)`. */
  predicate IsMouse(reg: Registry, dev: Device) {
    Occurs(dev, reg.mice, |reg.mice|)
  }

  /** For a polled device of a discovered registry, the membership test
      holds exactly when the device was classified as a mouse. */
  lemma IsMouseIffClassifiedMouse(cands: seq<Candidate>, d: Device)
    requires d in Discover(cands).inputs
    ensures IsMouse(Discover(cands), d) <==> Classify(d.caps) == Mouse
  {
  }
}
