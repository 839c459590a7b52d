/**
 The power budget over the hub tree: what every device draws, what its hub grants it, and when
 it is short of power (section 7.2.1 of USB 2.0).
 */
module Power {
  import opened Common

  // The current configuration of a device: bMaxPower in mA, and the self-powered attribute.
  datatype Cfg = Cfg(maxPower: nat, selfPowered: bool)

  datatype Override = NoOverride | BusPowered | SelfPowered

  // A device of the list; `hub` is the position of its hub.
  datatype Dev = Dev(hub: Option<nat>, cfg: Option<Cfg>, suspended: bool, power: Override)

  // No device is its own hub's hub: every one has a rank above that of its hub.
  ghost predicate Acyclic(devs: seq<Dev>, rank: seq<nat>) {
    && |rank| == |devs|
    && forall i :: 0 <= i < |devs| && devs[i].hub.Some? ==>
         devs[i].hub.value < |devs| && rank[devs[i].hub.value] < rank[i] < |devs|
  }

  predicate SelfPwd(dev: Dev) {
    dev.cfg.None? || (dev.cfg.value.selfPowered && dev.power != BusPowered) || dev.power == SelfPowered
  }

  // A configured, suspended device; the drain below it is not looked at.
  predicate Asleep(dev: Dev) {
    dev.cfg.Some? && dev.suspended
  }

  predicate IsChild(devs: seq<Dev>, i: nat, j: nat)
    requires j < |devs|
  {
    devs[j].hub == Some(i)
  }

  // The children of the i-th device among the first n.
  function PortsUpTo(devs: seq<Dev>, i: nat, n: nat): nat
    requires n <= |devs|
  {
    if n == 0 then 0 else PortsUpTo(devs, i, n - 1) + if IsChild(devs, i, n - 1) then 1 else 0
  }

  function Ports(devs: seq<Dev>, i: nat): nat {
    PortsUpTo(devs, i, |devs|)
  }

  function Min(a: nat, b: nat): nat {
    if a < b then a else b
  }

  // ------------------------------------------------------------------ the drain

  // What a hub can draw for one child: the limit on a port.
  function PortLimit(dev: Dev): nat {
    if dev.cfg.None? then 666 else if SelfPwd(dev) then 500 else 100
  }

  ghost function Drain(devs: seq<Dev>, rank: seq<nat>, i: nat): nat
    requires Acyclic(devs, rank) && i < |devs|
    decreases |devs| - rank[i], |devs| + 1
  {
    if Asleep(devs[i]) then if devs[i].cfg.value.maxPower >= 100 then 3 else 1
    else if SelfPwd(devs[i]) then 0
    else ChildDrain(devs, rank, i, |devs|) + devs[i].cfg.value.maxPower
  }

  // The limited drain of the children among the first n.
  ghost function ChildDrain(devs: seq<Dev>, rank: seq<nat>, i: nat, n: nat): nat
    requires Acyclic(devs, rank) && i < |devs| && n <= |devs|
    decreases |devs| - rank[i], n
  {
    if n == 0 then 0
    else
      var before := ChildDrain(devs, rank, i, n - 1);
      if IsChild(devs, i, n - 1) then before + Min(Drain(devs, rank, n - 1), PortLimit(devs[i])) else before
  }

  // ------------------------------------------------------------------ the supply

  // What a hub that was given `supply` grants each of its ports.
  function Grant(dev: Dev, ports: nat, supply: nat): nat {
    if SelfPwd(dev) then 500
    else if supply < dev.cfg.value.maxPower then 1
    else if ports == 0 then 666
    else Min((supply - dev.cfg.value.maxPower) / ports, 100)
  }

  // What the device counts as its own supply.
  function Own(dev: Dev, ports: nat, supply: nat): nat {
    if SelfPwd(dev) && dev.cfg.Some? then 500 * ports + dev.cfg.value.maxPower else supply
  }

  // The supply its hub gives a device, 500 mA at the root, and what becomes of it.
  ghost function Given(devs: seq<Dev>, rank: seq<nat>, i: nat): nat
    requires Acyclic(devs, rank) && i < |devs|
    decreases rank[i]
  {
    match devs[i].hub
    case None => 500
    case Some(h) => Grant(devs[h], Ports(devs, h), Given(devs, rank, h))
  }

  ghost function Supply(devs: seq<Dev>, rank: seq<nat>, i: nat): nat
    requires Acyclic(devs, rank) && i < |devs|
  {
    Own(devs[i], Ports(devs, i), Given(devs, rank, i))
  }

  // ------------------------------------------------------------------ what the shares are

  // A device counts as self-powered when the user says so, or its configuration does and the
  // user does not object, or it has no configuration.
  lemma SelfPwdIs(dev: Dev)
    ensures dev.cfg.None? ==> SelfPwd(dev)
    ensures dev.cfg.Some? && dev.power == BusPowered ==> !SelfPwd(dev)
    ensures dev.power == SelfPowered ==> SelfPwd(dev)
    ensures dev.cfg.Some? && dev.power == NoOverride ==> (SelfPwd(dev) <==> dev.cfg.value.selfPowered)
  {
  }

  // The ports of a hub that are in use are its children.
  lemma {:induction false} PortsAre(devs: seq<Dev>, i: nat, n: nat)
    requires n <= |devs|
    ensures PortsUpTo(devs, i, n) == |set j | 0 <= j < n && devs[j].hub == Some(i)|
  {
    if n > 0 {
      PortsAre(devs, i, n - 1);
      ChildrenNext(devs, i, n - 1);
    }
  }

  lemma ChildrenNext(devs: seq<Dev>, i: nat, n: nat)
    requires n < |devs|
    ensures (set j | 0 <= j < n + 1 && devs[j].hub == Some(i)) ==
            (set j | 0 <= j < n && devs[j].hub == Some(i)) + (if devs[n].hub == Some(i) then {n} else {})
  {
  }

  // A port of a self-powered hub is granted 500 mA. One of a bus-powered hub gets the largest
  // whole share, up to 100 mA, with which all ports stay within what the hub has left, or 1 mA
  // when not even its own maximum is there.
  lemma GrantIs(dev: Dev, ports: nat, supply: nat)
    requires ports > 0
    ensures var q := Grant(dev, ports, supply);
      if SelfPwd(dev) then q == 500
      else if supply < dev.cfg.value.maxPower then q == 1
      else
        && q <= 100
        && ports * q <= supply - dev.cfg.value.maxPower
        && (q < 100 ==> ports * (q + 1) > supply - dev.cfg.value.maxPower)
  {
    if !SelfPwd(dev) && supply >= dev.cfg.value.maxPower {
      var rest := supply - dev.cfg.value.maxPower;
      ShareFits(ports, rest);
      assert ports * (rest / ports + 1) == ports * (rest / ports) + ports;
    }
  }

  // At the root 500 mA are given, elsewhere what the hub grants a port. A self-powered device
  // counts its ports and itself as supplied, a bus-powered one has what it is given.
  lemma SupplyIs(devs: seq<Dev>, rank: seq<nat>, i: nat)
    requires Acyclic(devs, rank) && i < |devs|
    ensures var dev := devs[i];
      && (dev.hub.None? ==> Given(devs, rank, i) == 500)
      && (dev.hub.Some? ==>
            Given(devs, rank, i) == Grant(devs[dev.hub.value], Ports(devs, dev.hub.value), Given(devs, rank, dev.hub.value)))
      && Supply(devs, rank, i) ==
         if dev.cfg.Some? && SelfPwd(dev) then 500 * Ports(devs, i) + dev.cfg.value.maxPower else Given(devs, rank, i)
  {
  }

  function Sum(ns: seq<nat>): nat {
    if ns == [] then 0 else Sum(ns[..|ns| - 1]) + ns[|ns| - 1]
  }

  // What each of the first n devices adds to the drain of the i-th: a child at most 100 mA.
  ghost function ChildShares(devs: seq<Dev>, rank: seq<nat>, i: nat, n: nat): (r: seq<nat>)
    requires Acyclic(devs, rank) && i < |devs| && n <= |devs|
    ensures |r| == n
  {
    seq(n, j requires 0 <= j < n => if devs[j].hub == Some(i) then Min(Drain(devs, rank, j), 100) else 0)
  }

  lemma {:induction false} ChildDrainIs(devs: seq<Dev>, rank: seq<nat>, i: nat, n: nat)
    requires Acyclic(devs, rank) && i < |devs| && n <= |devs| && !SelfPwd(devs[i])
    ensures ChildDrain(devs, rank, i, n) == Sum(ChildShares(devs, rank, i, n))
  {
    if n > 0 {
      ChildDrainIs(devs, rank, i, n - 1);
      assert ChildShares(devs, rank, i, n)[..n - 1] == ChildShares(devs, rank, i, n - 1);
    }
  }

  // A suspended device draws 3 mA or 1, a self-powered one nothing, and any other its maximum
  // and what its children draw, at most 100 mA each.
  lemma DrainIs(devs: seq<Dev>, rank: seq<nat>, i: nat)
    requires Acyclic(devs, rank) && i < |devs|
    ensures Drain(devs, rank, i) ==
      if devs[i].cfg.Some? && devs[i].suspended then if devs[i].cfg.value.maxPower >= 100 then 3 else 1
      else if SelfPwd(devs[i]) then 0
      else devs[i].cfg.value.maxPower + Sum(ChildShares(devs, rank, i, |devs|))
  {
    if !SelfPwd(devs[i]) {
      ChildDrainIs(devs, rank, i, |devs|);
    }
  }

  // ------------------------------------------------------------------ the budget

  lemma {:induction false} ChildDrainBound(devs: seq<Dev>, rank: seq<nat>, i: nat, n: nat)
    requires Acyclic(devs, rank) && i < |devs| && n <= |devs|
    ensures ChildDrain(devs, rank, i, n) <= PortLimit(devs[i]) * PortsUpTo(devs, i, n)
  {
    if n > 0 {
      ChildDrainBound(devs, rank, i, n - 1);
      var limit, ports := PortLimit(devs[i]), PortsUpTo(devs, i, n - 1);
      assert limit * (ports + 1) == limit * ports + limit;
    }
  }

  // A bus-powered device that is awake draws at most 100 mA for each child and its own
  // maximum; a sleeping one up to 3, and a self-powered one nothing.
  lemma DrainBound(devs: seq<Dev>, rank: seq<nat>, i: nat)
    requires Acyclic(devs, rank) && i < |devs|
    ensures Drain(devs, rank, i) <=
      if Asleep(devs[i]) then 3
      else if SelfPwd(devs[i]) then 0
      else 100 * Ports(devs, i) + devs[i].cfg.value.maxPower
  {
    ChildDrainBound(devs, rank, i, |devs|);
  }

  // What a hub hands to all its ports.
  function Granted(dev: Dev, ports: nat, supply: nat): nat {
    ports * Grant(dev, ports, supply)
  }

  lemma ShareFits(ports: nat, rest: nat)
    requires ports > 0
    ensures ports * (rest / ports) <= rest && ports * Min(rest / ports, 100) <= rest
  {
    var q := Min(rest / ports, 100);
    assert ports * q + ports * (rest / ports - q) == ports * (rest / ports);
  }

  // A configured hub stays within its supply, its own maximum included, exactly when it has
  // power of its own or is given at least its maximum. An unconfigured one grants 500 mA a port.
  lemma BudgetIff(devs: seq<Dev>, rank: seq<nat>, i: nat)
    requires Acyclic(devs, rank) && i < |devs|
    ensures var dev, ports, given := devs[i], Ports(devs, i), Given(devs, rank, i);
            var spent := Granted(dev, ports, given) + if dev.cfg.Some? then dev.cfg.value.maxPower else 0;
      spent <= Supply(devs, rank, i) <==>
        if dev.cfg.None? then 500 * ports <= given else SelfPwd(dev) || given >= dev.cfg.value.maxPower
  {
    var dev, ports, given := devs[i], Ports(devs, i), Given(devs, rank, i);
    if ports > 0 && dev.cfg.Some? && !SelfPwd(dev) && given >= dev.cfg.value.maxPower {
      ShareFits(ports, given - dev.cfg.value.maxPower);
    }
  }

  // No port gets more than 500 mA, and none of a bus-powered hub more than 100.
  lemma GrantBound(devs: seq<Dev>, rank: seq<nat>, i: nat)
    requires Acyclic(devs, rank) && i < |devs|
    ensures Given(devs, rank, i) <= 500
    ensures devs[i].hub.Some? && !SelfPwd(devs[devs[i].hub.value]) ==> Given(devs, rank, i) <= 100
  {
    if devs[i].hub.Some? {
      HasPort(devs, i, |devs|);
    }
  }

  lemma {:induction false} HasPort(devs: seq<Dev>, j: nat, n: nat)
    requires j < n <= |devs| && devs[j].hub.Some?
    ensures PortsUpTo(devs, devs[j].hub.value, n) > 0
  {
    if j < n - 1 {
      HasPort(devs, j, n - 1);
    }
  }

  // ------------------------------------------------------------------ what a walk reaches

  // The j-th device is the i-th, or below it; unless `all`, with no sleeping hub in between.
  ghost predicate Below(devs: seq<Dev>, rank: seq<nat>, all: bool, i: nat, j: nat)
    requires Acyclic(devs, rank) && i < |devs| && j < |devs|
    decreases rank[j]
  {
    j == i || (devs[j].hub.Some? && (all || !Asleep(devs[devs[j].hub.value])) && Below(devs, rank, all, i, devs[j].hub.value))
  }

  // The child of the i-th device through which it is reached.
  ghost function Via(devs: seq<Dev>, rank: seq<nat>, all: bool, i: nat, j: nat): (c: nat)
    requires Acyclic(devs, rank) && i < |devs| && j < |devs| && Below(devs, rank, all, i, j) && j != i
    ensures c < |devs| && IsChild(devs, i, c) && Below(devs, rank, all, c, j)
    decreases rank[j]
  {
    if devs[j].hub == Some(i) then j else Via(devs, rank, all, i, devs[j].hub.value)
  }

  lemma {:induction false} BelowRank(devs: seq<Dev>, rank: seq<nat>, all: bool, i: nat, j: nat)
    requires Acyclic(devs, rank) && i < |devs| && j < |devs| && Below(devs, rank, all, i, j)
    ensures rank[i] <= rank[j] && (rank[i] == rank[j] ==> i == j)
    decreases rank[j]
  {
    if j != i {
      BelowRank(devs, rank, all, i, devs[j].hub.value);
    }
  }

  // What is below a child is what is reached through it.
  lemma {:induction false} BelowChild(devs: seq<Dev>, rank: seq<nat>, all: bool, i: nat, c: nat, j: nat)
    requires Acyclic(devs, rank) && i < |devs| && c < |devs| && j < |devs|
    requires IsChild(devs, i, c) && (all || !Asleep(devs[i]))
    ensures Below(devs, rank, all, c, j) <==>
            Below(devs, rank, all, i, j) && j != i && Via(devs, rank, all, i, j) == c
    decreases rank[j]
  {
    assert Below(devs, rank, all, i, i) && rank[i] < rank[c];
    if Below(devs, rank, all, c, j) {
      BelowRank(devs, rank, all, c, j);
    }
    if j != c && j != i && devs[j].hub.Some? {
      var h := devs[j].hub.value;
      BelowChild(devs, rank, all, i, c, h);
      assert Below(devs, rank, all, i, j) <==> (all || !Asleep(devs[h])) && Below(devs, rank, all, i, h);
    }
  }

  // The device at the top.
  ghost function Root(devs: seq<Dev>, rank: seq<nat>, j: nat): (r: nat)
    requires Acyclic(devs, rank) && j < |devs|
    ensures r < |devs| && devs[r].hub.None?
    decreases rank[j]
  {
    if devs[j].hub.None? then j else Root(devs, rank, devs[j].hub.value)
  }

  lemma {:induction false} BelowRoot(devs: seq<Dev>, rank: seq<nat>, r: nat, j: nat)
    requires Acyclic(devs, rank) && r < |devs| && j < |devs| && devs[r].hub.None?
    ensures Below(devs, rank, true, r, j) <==> Root(devs, rank, j) == r
    ensures Below(devs, rank, false, r, j) ==> Root(devs, rank, j) == r
    decreases rank[j]
  {
    if j != r && devs[j].hub.Some? {
      BelowRoot(devs, rank, r, devs[j].hub.value);
    }
  }
}
