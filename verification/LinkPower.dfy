/**
 The link-power sweep: bringing every eligible device in line with the policy, one at a time,
 with the answers of controllers, hubs and devices left open.
 */
module LinkPower {

  // PDLPMF_*: what pLinkPowerArm got onto the wire.
  datatype Bit = POLICY | U1DEV | U2DEV | LTM | PORTU1 | PORTU2 | CTXOP

  datatype Override = INHERIT | DISABLE | ENABLE

  // A listed device; `usable` is connected, and not suspended, dead or on its way out.
  datatype Device = Device(configured: bool, usable: bool, power: Override, armed: set<Bit>)

  // pLinkPowerWanted.
  function Wanted(dev: Device, policy: bool): bool {
    match dev.power
    case DISABLE => false
    case ENABLE => true
    case INHERIT => policy
  }

  predicate Eligible(dev: Device) {
    dev.configured && dev.usable
  }

  predicate Mismatched(dev: Device, policy: bool) {
    Eligible(dev) && Wanted(dev, policy) != (POLICY in dev.armed)
  }

  function Mismatches(devs: seq<Device>, policy: bool): nat {
    if devs == [] then 0 else (if Mismatched(devs[0], policy) then 1 else 0) + Mismatches(devs[1..], policy)
  }

  lemma {:induction false} MismatchesUpdate(devs: seq<Device>, i: nat, x: Device, policy: bool)
    requires i < |devs|
    ensures Mismatches(devs[i := x], policy) == Mismatches(devs, policy)
      - (if Mismatched(devs[i], policy) then 1 else 0) + (if Mismatched(x, policy) then 1 else 0)
  {
    if i == 0 {
      assert devs[i := x][1..] == devs[1..];
    } else {
      assert devs[i := x][1..] == devs[1..][i - 1 := x];
      MismatchesUpdate(devs[1..], i - 1, x, policy);
    }
  }

  lemma {:induction false} SomeMismatch(devs: seq<Device>, i: nat, policy: bool)
    requires i < |devs| && Mismatched(devs[i], policy)
    ensures Mismatches(devs, policy) > 0
  {
    if i > 0 {
      SomeMismatch(devs[1..], i - 1, policy);
    }
  }

  // Whatever a device or its port was told, the controller may hold state for it.
  ghost predicate Covered(armed: set<Bit>) {
    armed <= {POLICY} || CTXOP in armed
  }

  // How controller, hub and device answer one visit: whether the controller can and does take
  // a policy, what hub and device accept after that, and whether it refuses the teardown.
  datatype Answer = Answer(taken: bool, wire: set<Bit>, refused: bool)

  const WIRE := {U1DEV, U2DEV, LTM, PORTU1, PORTU2}

  function Armed(armed: set<Bit>, a: Answer): set<Bit> {
    armed + {POLICY} + if a.taken then {CTXOP} + a.wire * WIRE else {}
  }

  // All that a disarm can leave is the controller's bit, and it does when it was set and the
  // controller refuses.
  function Disarmed(armed: set<Bit>, a: Answer): set<Bit> {
    if CTXOP in armed && a.refused then {CTXOP} else {}
  }

  // pLinkPowerArm: the policy bit first, and nothing on the wire unless the controller took the
  // policy.
  method Arm(armed: set<Bit>, a: Answer) returns (now: set<Bit>)
    ensures now == Armed(armed, a)
    ensures Covered(armed) ==> Covered(now)
    ensures POLICY in now && (CTXOP in now <==> CTXOP in armed || a.taken)
    ensures forall b :: b != POLICY && b != CTXOP ==> (b in now <==> b in armed || (a.taken && b in a.wire))
  {
    now := armed + {POLICY};
    if !a.taken {
      return;
    }
    now := now + {CTXOP};
    if PORTU1 in a.wire { now := now + {PORTU1}; }
    if PORTU2 in a.wire { now := now + {PORTU2}; }
    if U1DEV in a.wire { now := now + {U1DEV}; }
    if U2DEV in a.wire { now := now + {U2DEV}; }
    if LTM in a.wire { now := now + {LTM}; }
  }

  // pLinkPowerDisarm: every bit goes whatever the device answers, but the controller's. `asked`
  // tells whether the controller was told to tear down.
  method Disarm(armed: set<Bit>, a: Answer) returns (now: set<Bit>, asked: bool)
    ensures now == Disarmed(armed, a)
    ensures asked <==> CTXOP in armed
    ensures forall b :: b in now <==> b == CTXOP && b in armed && a.refused
  {
    now := armed;
    now := now - {U1DEV};
    now := now - {U2DEV};
    now := now - {LTM};
    now := now - {PORTU1};
    now := now - {PORTU2};
    asked := CTXOP in now;
    if asked && !a.refused {
      now := now - {CTXOP};
    }
    now := now - {POLICY};
    forall b | b in now ensures b == CTXOP {
      match b case _ =>
    }
  }

  // ------------------------------------------------------------------ one sweep

  // A device brought in line with the policy.
  function Applied(dev: Device, policy: bool, a: Answer): Device {
    if Wanted(dev, policy) == (POLICY in dev.armed) then dev
    else dev.(armed := if Wanted(dev, policy) then Armed(dev.armed, a) else Disarmed(dev.armed, a))
  }

  // A device after a sweep.
  function Swept(dev: Device, policy: bool, a: Answer): Device {
    if Eligible(dev) then Applied(dev, policy, a) else dev
  }

  // The sweep tells the controller to tear down what it holds for the device.
  predicate TearsDown(dev: Device, policy: bool) {
    Mismatched(dev, policy) && !Wanted(dev, policy) && CTXOP in dev.armed
  }

  // What one visit comes to: a configured and usable device ends with the policy bit when it is
  // enabled for the device, or left to a policy that is on, and without it otherwise. One that
  // already was in line, or is not eligible, stays as it is.
  lemma SweptIs(dev: Device, policy: bool, a: Answer)
    ensures var r := Swept(dev, policy, a);
      && r == dev.(armed := r.armed)
      && (dev.configured && dev.usable ==>
            && (dev.power == ENABLE ==> POLICY in r.armed)
            && (dev.power == DISABLE ==> POLICY !in r.armed)
            && (dev.power == INHERIT ==> (POLICY in r.armed <==> policy)))
      && (r.armed != dev.armed ==> dev.configured && dev.usable && (POLICY in r.armed <==> POLICY !in dev.armed))
  {
  }

  lemma SweptInLine(dev: Device, policy: bool, a: Answer)
    ensures !Mismatched(Swept(dev, policy, a), policy)
    ensures Covered(dev.armed) ==> Covered(Swept(dev, policy, a).armed)
  {
  }

  class Stack {
    var devices: seq<Device>
    var policy: bool             // pgc_LinkPowerMgmt
    var request: bool            // ps_LinkPowerReq

    // pLinkPowerApply; the port and the pipe are there.
    method Apply(i: nat, a: Answer) returns (asked: bool)
      requires i < |devices|
      modifies `devices
      ensures devices == old(devices)[i := Applied(old(devices[i]), policy, a)]
      ensures asked <==> {POLICY, CTXOP} <= old(devices[i]).armed && !Wanted(old(devices[i]), policy)
    {
      var dev := devices[i];
      var want := Wanted(dev, policy);
      asked := false;
      if want == (POLICY in dev.armed) {
        assert devices == devices[i := dev];
        return;
      }
      var now;
      if want {
        now := Arm(dev.armed, a);
      } else {
        now, asked := Disarm(dev.armed, a);
      }
      devices := devices[i := dev.(armed := now)];
    }

    // pLinkPowerSweep ends and brings every device in line with the policy, each in one visit;
    // `asked` are the devices whose controller was told to tear down.
    method Sweep(answers: nat -> Answer) returns (asked: set<nat>)
      modifies `devices, `request
      ensures !request && |devices| == |old(devices)|
      ensures forall i :: 0 <= i < |devices| ==> devices[i] == Swept(old(devices)[i], policy, answers(i))
      ensures forall i :: 0 <= i < |devices| ==> !Mismatched(devices[i], policy)
      ensures forall i :: 0 <= i < |devices| && devices[i].configured && devices[i].usable ==>
        (POLICY in devices[i].armed <==> devices[i].power == ENABLE || (devices[i].power == INHERIT && policy))
      ensures forall i :: i in asked <==> 0 <= i < |devices| && TearsDown(old(devices)[i], policy)
      ensures forall i :: i in asked <==>
        0 <= i < |devices| && {POLICY, CTXOP} <= old(devices)[i].armed && POLICY !in devices[i].armed
    {
      request := false;
      asked := {};
      var restart := true;
      while restart
        invariant |devices| == |old(devices)| && !request
        invariant !restart ==> forall i :: 0 <= i < |devices| ==> !Mismatched(devices[i], policy)
        invariant forall i :: 0 <= i < |devices| ==>
          Visited(old(devices)[i], devices[i], policy, answers(i), i in asked)
        invariant forall i :: i in asked ==> i < |devices|
        decreases Mismatches(devices, policy), restart
      {
        restart := false;
        var i := 0;
        while i < |devices| && !Mismatched(devices[i], policy)
          invariant i <= |devices|
          invariant forall j :: 0 <= j < i ==> !Mismatched(devices[j], policy)
        {
          i := i + 1;
        }
        if i < |devices| {
          ghost var was := devices;
          var told := Apply(i, answers(i));
          if told {
            asked := asked + {i};
          }
          SweptInLine(was[i], policy, answers(i));
          MismatchesUpdate(was, i, devices[i], policy);
          SomeMismatch(was, i, policy);
          restart := true;
        }
      }
    }
  }

  // In the middle of a sweep a device is as it was, or done.
  ghost predicate Visited(was: Device, now: Device, policy: bool, a: Answer, asked: bool) {
    || (now == was && !asked)
    || (Mismatched(was, policy) && now == Swept(was, policy, a) && !Mismatched(now, policy) && asked == TearsDown(was, policy))
  }

  // ------------------------------------------------------------------ runs

  datatype Net = Net(devs: seq<Device>, policy: bool)

  // A sweep; or what happens between sweeps: psdSetDeviceConfig, which arms at once when that is
  // wanted, the settings, and devices that come to life, sleep or die.
  datatype Step =
    | Sweeping(answers: nat -> Answer)
    | Configure(i: nat, a: Answer)
    | SetPolicy(policy: bool)
    | SetOverride(i: nat, power: Override)
    | SetState(i: nat, configured: bool, usable: bool)

  function DevAfter(n: Net, a: Step, i: nat): Device
    requires i < |n.devs|
  {
    var dev := n.devs[i];
    match a
    case Sweeping(answers) => Swept(dev, n.policy, answers(i))
    case Configure(_, ans) =>
      if a.i != i then dev
      else dev.(configured := true, armed := if Wanted(dev, n.policy) then Armed(dev.armed, ans) else dev.armed)
    case SetPolicy(_) => dev
    case SetOverride(_, power) => if a.i == i then dev.(power := power) else dev
    case SetState(_, configured, usable) => if a.i == i then dev.(configured := configured, usable := usable) else dev
  }

  function Next(n: Net, a: Step): Net {
    Net(seq(|n.devs|, i requires 0 <= i < |n.devs| => DevAfter(n, a, i)), if a.SetPolicy? then a.policy else n.policy)
  }

  // The state before the k-th step.
  function At(n: Net, steps: seq<Step>, k: nat): (r: Net)
    requires k <= |steps|
    ensures |r.devs| == |n.devs|
  {
    if k == 0 then n else Next(At(n, steps, k - 1), steps[k - 1])
  }

  // Step k is a sweep that tells the controller of device i to tear down.
  predicate Asks(n: Net, steps: seq<Step>, k: nat, i: nat)
    requires k < |steps| && i < |n.devs|
  {
    var s := At(n, steps, k);
    steps[k].Sweeping? && TearsDown(s.devs[i], s.policy)
  }

  // Step k puts the policy into force on device i: a sweep that finds it eligible, or its
  // configuration.
  predicate Enables(n: Net, steps: seq<Step>, k: nat, i: nat)
    requires k < |steps| && i < |n.devs|
  {
    var s := At(n, steps, k);
    && Wanted(s.devs[i], s.policy)
    && (if steps[k].Sweeping? then Eligible(s.devs[i]) else steps[k].Configure? && steps[k].i == i)
  }

  // Step k is a sweep that finds device i eligible and the policy withdrawn.
  predicate Withdraws(n: Net, steps: seq<Step>, k: nat, i: nat)
    requires k < |steps| && i < |n.devs|
  {
    var s := At(n, steps, k);
    steps[k].Sweeping? && Eligible(s.devs[i]) && !Wanted(s.devs[i], s.policy)
  }

  ghost predicate EnabledBefore(n: Net, steps: seq<Step>, k: nat, i: nat)
    requires k <= |steps| && i < |n.devs|
  {
    exists j :: 0 <= j < k && Enables(n, steps, j, i)
  }

  // Over any run: whatever a device or its port was told, the controller's bit is set with it.
  lemma {:induction false} AlwaysCovered(n: Net, steps: seq<Step>, k: nat, i: nat)
    requires k <= |steps| && i < |n.devs| && Covered(n.devs[i].armed)
    ensures Covered(At(n, steps, k).devs[i].armed)
  {
    if k > 0 {
      AlwaysCovered(n, steps, k - 1, i);
      var s := At(n, steps, k - 1);
      assert At(n, steps, k).devs[i] == DevAfter(s, steps[k - 1], i);
    }
  }

  // From the moment a refused teardown left the controller's bit alone: until the next teardown
  // the bit stays, and the policy bit tells whether a step has enabled the policy again.
  lemma {:induction false} LeftoverStays(n: Net, steps: seq<Step>, k: nat, i: nat)
    requires k <= |steps| && i < |n.devs| && n.devs[i].armed == {CTXOP}
    requires forall j :: 0 <= j < k ==> !Asks(n, steps, j, i)
    ensures var armed := At(n, steps, k).devs[i].armed;
      && CTXOP in armed
      && (POLICY in armed <==> EnabledBefore(n, steps, k, i))
      && (!EnabledBefore(n, steps, k, i) ==> armed == {CTXOP})
  {
    if k > 0 {
      LeftoverStays(n, steps, k - 1, i);
      assert !Asks(n, steps, k - 1, i);
      assert EnabledBefore(n, steps, k, i) <==> EnabledBefore(n, steps, k - 1, i) || Enables(n, steps, k - 1, i);
    }
  }

  // The comment above pLinkPowerDisarm promises that the next sweep retries. Over any run it is
  // a sweep that retries exactly when the policy was put into force on the device again in
  // between, and that sweep finds it withdrawn.
  lemma {:induction false} RetriedIff(n: Net, steps: seq<Step>, i: nat)
    requires i < |n.devs| && n.devs[i].armed == {CTXOP}
    ensures (exists k :: 0 <= k < |steps| && Asks(n, steps, k, i)) <==>
            exists j, k :: 0 <= j < k < |steps| && Enables(n, steps, j, i) && Withdraws(n, steps, k, i)
  {
    if exists k :: 0 <= k < |steps| && Asks(n, steps, k, i) {
      var k :| 0 <= k < |steps| && Asks(n, steps, k, i);
      var f := FirstAsk(n, steps, k, i);
      LeftoverStays(n, steps, f, i);
      var j :| 0 <= j < f && Enables(n, steps, j, i);
      assert Withdraws(n, steps, f, i);
    }
    if j, k :| 0 <= j < k < |steps| && Enables(n, steps, j, i) && Withdraws(n, steps, k, i) {
      if forall h :: 0 <= h < k ==> !Asks(n, steps, h, i) {
        LeftoverStays(n, steps, k, i);
        assert EnabledBefore(n, steps, k, i);
        assert Asks(n, steps, k, i);
      }
    }
  }

  lemma {:induction false} FirstAsk(n: Net, steps: seq<Step>, k: nat, i: nat) returns (f: nat)
    requires k < |steps| && i < |n.devs| && Asks(n, steps, k, i)
    ensures f <= k && Asks(n, steps, f, i) && forall h :: 0 <= h < f ==> !Asks(n, steps, h, i)
  {
    f := k;
    if h :| 0 <= h < k && Asks(n, steps, h, i) {
      f := FirstAsk(n, steps, h, i);
    }
  }

  // As long as the policy is not put into force again, the leftover bit stays and no sweep does
  // anything about it.
  lemma RefusedStays(n: Net, steps: seq<Step>, i: nat)
    requires i < |n.devs| && n.devs[i].armed == {CTXOP}
    requires forall j :: 0 <= j < |steps| ==> !Enables(n, steps, j, i)
    ensures forall k :: 0 <= k < |steps| ==> !Asks(n, steps, k, i)
    ensures At(n, steps, |steps|).devs[i].armed == {CTXOP}
  {
    RetriedIff(n, steps, i);
    LeftoverStays(n, steps, |steps|, i);
  }

  // A refused teardown, the sweep after it, and the one way to a second try.
  lemma RefusedNotRetried(a: nat -> Answer, b: nat -> Answer, c: nat -> Answer, d: nat -> Answer)
    requires a(0).refused
    ensures var n := Net([Device(true, true, INHERIT, {POLICY, CTXOP})], false);
      var steps := [Sweeping(a), Sweeping(b), SetPolicy(true), Sweeping(c), SetPolicy(false), Sweeping(d)];
      && Asks(n, steps, 0, 0)
      && At(n, steps, 1).devs[0].armed == {CTXOP}
      && !Asks(n, steps, 1, 0)
      && At(n, steps, 2).devs[0].armed == {CTXOP}
      && Asks(n, steps, 5, 0)
  {
    var n := Net([Device(true, true, INHERIT, {POLICY, CTXOP})], false);
    var steps := [Sweeping(a), Sweeping(b), SetPolicy(true), Sweeping(c), SetPolicy(false), Sweeping(d)];
    assert At(n, steps, 0) == n;
    assert At(n, steps, 1).devs[0] == n.devs[0].(armed := {CTXOP}) && !At(n, steps, 1).policy;
    assert At(n, steps, 2).devs[0] == n.devs[0].(armed := {CTXOP}) && !At(n, steps, 2).policy;
    assert At(n, steps, 3).devs[0] == n.devs[0].(armed := {CTXOP}) && At(n, steps, 3).policy;
    assert At(n, steps, 4).devs[0] == n.devs[0].(armed := Armed({CTXOP}, c(0)));
    assert At(n, steps, 5).devs[0] == At(n, steps, 4).devs[0] && !At(n, steps, 5).policy;
  }
}
