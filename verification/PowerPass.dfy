/**
 psdCalculatePower: the two recursive passes over the device list, writing pd_PowerDrain,
 pd_PowerSupply and PDFF_LOWPOWER.
 */
module PowerPass {
  import opened Common
  import opened Power

  class Hardware {
    const devs: seq<Dev>         // phw_Devices
    ghost const rank: seq<nat>
    var drain: seq<nat>
    var supply: seq<nat>
    var low: seq<bool>

    ghost predicate Valid()
      reads this
    {
      Acyclic(devs, rank) && |drain| == |devs| && |supply| == |devs| && |low| == |devs|
    }

    // pPowerRecurseDrain.
    method RecurseDrain(i: nat) returns (d: nat)
      requires Valid() && i < |devs|
      modifies `drain
      ensures Valid() && d == drain[i] == Drain(devs, rank, i)
      ensures forall j :: 0 <= j < |devs| ==>
        drain[j] == if Below(devs, rank, false, i, j) then Drain(devs, rank, j) else old(drain[j])
      decreases |devs| - rank[i]
    {
      ghost var was := drain;
      var dev := devs[i];
      if dev.cfg.Some? && dev.suspended {
        drain := drain[i := if dev.cfg.value.maxPower >= 100 then 3 else 1];
        forall j | 0 <= j < |devs| ensures drain[j] == if Below(devs, rank, false, i, j) then Drain(devs, rank, j) else was[j] {
          NoneBelow(i, j);
        }
        return drain[i];
      }
      drain := drain[i := 0];
      var maxdrain := if dev.cfg.None? then 666 else if SelfPwd(dev) then 500 else 100;
      var k := 0;
      while k < |devs|
        invariant k <= |devs| && Valid()
        invariant drain[i] == ChildDrain(devs, rank, i, k)
        invariant Drained(i, k, was, drain)
      {
        if devs[k].hub == Some(i) {
          ghost var mid := drain;
          var childdrain := RecurseDrain(k);
          DrainedNext(i, k, was, mid, drain);
          drain := drain[i := drain[i] + if childdrain > maxdrain then maxdrain else childdrain];
        } else {
          ThroughNone(false, i, k);
        }
        k := k + 1;
      }
      if SelfPwd(dev) {
        drain := drain[i := 0];
      } else {
        drain := drain[i := drain[i] + dev.cfg.value.maxPower];
      }
      return drain[i];
    }

    // Reached through one of the first k devices as a child.
    ghost predicate Through(all: bool, i: nat, j: nat, k: nat)
      requires Acyclic(devs, rank) && i < |devs| && j < |devs|
    {
      Below(devs, rank, all, i, j) && j != i && Via(devs, rank, all, i, j) < k
    }

    // A device that is not a child leads nowhere.
    lemma ThroughNone(all: bool, i: nat, k: nat)
      requires Acyclic(devs, rank) && i < |devs| && k < |devs| && !IsChild(devs, i, k)
      ensures forall j :: 0 <= j < |devs| ==> (Through(all, i, j, k + 1) <==> Through(all, i, j, k))
    {
    }

    // What is reached through the first k + 1 devices.
    lemma ThroughNext(all: bool, i: nat, k: nat, j: nat)
      requires Acyclic(devs, rank) && i < |devs| && k < |devs| && j < |devs|
      requires IsChild(devs, i, k) && (all || !Asleep(devs[i]))
      ensures j != i ==> (Through(all, i, j, k + 1) <==> Through(all, i, j, k) || Below(devs, rank, all, k, j))
      ensures Below(devs, rank, all, k, j) ==> !Through(all, i, j, k) && j != i
    {
      BelowChild(devs, rank, all, i, k, j);
      NotAbove(all, k, i);
    }

    // The drain pass below device i has looked at the first k devices.
    ghost predicate Drained(i: nat, k: nat, was: seq<nat>, now: seq<nat>)
      requires Acyclic(devs, rank) && i < |devs| && |was| == |now| == |devs|
    {
      forall j :: 0 <= j < |devs| && j != i ==>
        now[j] == if Through(false, i, j, k) then Drain(devs, rank, j) else was[j]
    }

    lemma DrainedNext(i: nat, k: nat, was: seq<nat>, mid: seq<nat>, now: seq<nat>)
      requires Acyclic(devs, rank) && i < |devs| && k < |devs| && |was| == |mid| == |now| == |devs|
      requires IsChild(devs, i, k) && !Asleep(devs[i]) && Drained(i, k, was, mid)
      requires forall j :: 0 <= j < |devs| ==> now[j] == if Below(devs, rank, false, k, j) then Drain(devs, rank, j) else mid[j]
      ensures Drained(i, k + 1, was, now) && now[i] == mid[i]
    {
      NotAbove(false, k, i);
      forall j | 0 <= j < |devs| && j != i
        ensures now[j] == if Through(false, i, j, k + 1) then Drain(devs, rank, j) else was[j]
      {
        ThroughNext(false, i, k, j);
      }
    }

    lemma NotAbove(all: bool, c: nat, i: nat)
      requires Acyclic(devs, rank) && c < |devs| && i < |devs| && IsChild(devs, i, c)
      ensures !Below(devs, rank, all, c, i)
    {
      if Below(devs, rank, all, c, i) {
        BelowRank(devs, rank, all, c, i);
      }
    }

    // Nothing is looked at below a sleeping device.
    lemma NoneBelow(i: nat, j: nat)
      requires Acyclic(devs, rank) && i < |devs| && j < |devs| && Asleep(devs[i])
      ensures Below(devs, rank, false, i, j) ==> j == i
      decreases rank[j]
    {
      if Below(devs, rank, false, i, j) && j != i {
        NoneBelow(i, devs[j].hub.value);
      }
    }

    // The device's own supply, and what it grants a port.
    method ShareOut(i: nat, ports: nat) returns (grant: nat)
      requires Valid() && i < |devs|
      modifies `supply
      ensures supply == old(supply)[i := Own(devs[i], ports, old(supply[i]))]
      ensures grant == Grant(devs[i], ports, old(supply[i]))
    {
      var dev := devs[i];
      grant := 666;
      if SelfPwd(dev) {
        if dev.cfg.Some? {
          supply := supply[i := if ports > 0 then 500 * ports + dev.cfg.value.maxPower else dev.cfg.value.maxPower];
        }
        grant := 500;
      } else if supply[i] >= dev.cfg.value.maxPower {
        if ports > 0 {
          grant := (supply[i] - dev.cfg.value.maxPower) / ports;
          if grant > 100 {
            grant := 100;
          }
        }
      } else {
        grant := 1;
      }
    }

    // What the supply pass leaves behind for a device.
    ghost predicate Supplied(j: nat)
      requires Valid() && j < |devs|
      reads this
    {
      supply[j] == Supply(devs, rank, j) && low[j] == (drain[j] > supply[j])
    }

    // pPowerRecurseSupply; what the device itself is given is already in place.
    method RecurseSupply(i: nat)
      requires Valid() && i < |devs| && supply[i] == Given(devs, rank, i)
      modifies `supply, `low
      ensures Valid()
      ensures forall j :: 0 <= j < |devs| && Below(devs, rank, true, i, j) ==> Supplied(j)
      ensures forall j :: 0 <= j < |devs| && !Below(devs, rank, true, i, j) ==>
        supply[j] == old(supply[j]) && low[j] == old(low[j])
      decreases |devs| - rank[i]
    {
      var ports := CountPorts(i);
      var grant := ShareOut(i, ports);
      if ports > 0 {
        SupplyChildren(i, grant);
      } else {
        forall j | 0 <= j < |devs| && j != i ensures !Below(devs, rank, true, i, j) {
          NoPorts(i, j);
        }
      }
      low := low[i := drain[i] > supply[i]];
    }

    // The supply pass below device i has looked at the first k devices.
    ghost predicate SuppliedThrough(i: nat, k: nat, supply0: seq<nat>, low0: seq<bool>, supply1: seq<nat>, low1: seq<bool>)
      requires Valid() && i < |devs| && |supply0| == |low0| == |supply1| == |low1| == |devs|
      reads this
    {
      forall j :: 0 <= j < |devs| && j != i ==>
        if Through(true, i, j, k) then supply1[j] == Supply(devs, rank, j) && low1[j] == (drain[j] > supply1[j])
        else supply1[j] == supply0[j] && low1[j] == low0[j]
    }

    lemma SuppliedNext(i: nat, k: nat, supply0: seq<nat>, low0: seq<bool>, supply1: seq<nat>, low1: seq<bool>,
                       supply2: seq<nat>, low2: seq<bool>)
      requires Valid() && i < |devs| && k < |devs| && IsChild(devs, i, k)
      requires |supply0| == |low0| == |supply1| == |low1| == |supply2| == |low2| == |devs|
      requires SuppliedThrough(i, k, supply0, low0, supply1, low1)
      requires forall j :: 0 <= j < |devs| ==>
        if Below(devs, rank, true, k, j) then supply2[j] == Supply(devs, rank, j) && low2[j] == (drain[j] > supply2[j])
        else supply2[j] == supply1[j] && low2[j] == low1[j]
      ensures SuppliedThrough(i, k + 1, supply0, low0, supply2, low2)
      ensures supply2[i] == supply1[i] && low2[i] == low1[i]
    {
      NotAbove(true, k, i);
      forall j | 0 <= j < |devs| && j != i
        ensures if Through(true, i, j, k + 1) then supply2[j] == Supply(devs, rank, j) && low2[j] == (drain[j] > supply2[j])
                else supply2[j] == supply0[j] && low2[j] == low0[j]
      {
        ThroughNext(true, i, k, j);
      }
    }

    // One child: what it is granted, and everything below it.
    method SupplyChild(ghost i: nat, k: nat, grant: nat)
      requires Valid() && i < |devs| && k < |devs| && IsChild(devs, i, k) && grant == Given(devs, rank, k)
      modifies `supply, `low
      ensures Valid()
      ensures forall j :: 0 <= j < |devs| ==>
        if Below(devs, rank, true, k, j) then supply[j] == Supply(devs, rank, j) && low[j] == (drain[j] > supply[j])
        else supply[j] == old(supply[j]) && low[j] == old(low[j])
      decreases |devs| - rank[i], 0
    {
      supply := supply[k := grant];
      RecurseSupply(k);
    }

    // Its loop over the children.
    method SupplyChildren(i: nat, grant: nat)
      requires Valid() && i < |devs| && supply[i] == Supply(devs, rank, i)
      requires grant == Grant(devs[i], Ports(devs, i), Given(devs, rank, i))
      modifies `supply, `low
      ensures Valid() && supply[i] == old(supply[i]) && low[i] == old(low[i])
      ensures forall j :: 0 <= j < |devs| && j != i && Below(devs, rank, true, i, j) ==> Supplied(j)
      ensures forall j :: 0 <= j < |devs| && !Below(devs, rank, true, i, j) ==>
        supply[j] == old(supply[j]) && low[j] == old(low[j])
      decreases |devs| - rank[i], 1
    {
      ghost var supply0, low0 := supply, low;
      var k := 0;
      while k < |devs|
        invariant k <= |devs| && Valid() && supply[i] == supply0[i] && low[i] == low0[i]
        invariant SuppliedThrough(i, k, supply0, low0, supply, low)
      {
        if devs[k].hub == Some(i) {
          ghost var supply1, low1 := supply, low;
          SupplyChild(i, k, grant);
          SuppliedNext(i, k, supply0, low0, supply1, low1, supply, low);
        } else {
          ThroughNone(true, i, k);
        }
        k := k + 1;
      }
    }

    // The walk that counts the children.
    method CountPorts(i: nat) returns (ports: nat)
      requires Valid()
      ensures ports == Ports(devs, i)
    {
      ports := 0;
      for k := 0 to |devs|
        invariant ports == PortsUpTo(devs, i, k)
      {
        if devs[k].hub == Some(i) {
          ports := ports + 1;
        }
      }
    }

    lemma NoPorts(i: nat, j: nat)
      requires Acyclic(devs, rank) && i < |devs| && j < |devs| && j != i && Ports(devs, i) == 0
      ensures !Below(devs, rank, true, i, j)
    {
      if Below(devs, rank, true, i, j) {
        HasPort(devs, Via(devs, rank, true, i, j), |devs|);
      }
    }

    // psdCalculatePower: every device below a root is given its share, and is marked exactly
    // when it draws more than it has; drains are fresh except below sleeping hubs.
    method CalculatePower()
      requires Valid()
      modifies `drain, `supply, `low
      ensures Valid()
      ensures forall j :: 0 <= j < |devs| ==>
        && Supplied(j)
        && drain[j] == if Below(devs, rank, false, Root(devs, rank, j), j) then Drain(devs, rank, j) else old(drain[j])
    {
      ghost var drain0 := drain;
      var i := 0;
      while i < |devs|
        invariant i <= |devs| && Valid()
        invariant forall j :: 0 <= j < |devs| && Root(devs, rank, j) < i ==>
          && Supplied(j)
          && drain[j] == if Below(devs, rank, false, Root(devs, rank, j), j) then Drain(devs, rank, j) else drain0[j]
        invariant forall j :: 0 <= j < |devs| && Root(devs, rank, j) >= i ==> drain[j] == drain0[j]
      {
        if devs[i].hub.None? {
          forall j | 0 <= j < |devs|
            ensures Below(devs, rank, true, i, j) <==> Root(devs, rank, j) == i
            ensures Below(devs, rank, false, i, j) ==> Root(devs, rank, j) == i
          {
            BelowRoot(devs, rank, i, j);
          }
          drain, supply := drain[i := 0], supply[i := 500];
          var _ := RecurseDrain(i);
          RecurseSupply(i);
        }
        i := i + 1;
      }
    }
  }
}
