/**
 Scanning devices for classes, claiming and releasing bindings, and removing a class, with the
 answers of the class drivers left open.
 */
module UsbStacks {
  import opened Common
  import opened Bindings
  import opened Scans

  class UsbStack {
    var classes: seq<Puc>        // ps_Classes
    var devices: seq<Device>
    var useCnt: map<Puc, int>    // puc_UseCnt of every loaded class

    // Every use count is the number of bindings naming the class.
    ghost predicate Inv()
      reads this
    {
      && (forall d :: 0 <= d < |devices| ==> DeviceOk(devices[d]))
      && (forall c :: c in classes ==> c in useCnt)
      && (forall c: Puc :: Count(devices, Some(c)) == if c in useCnt then useCnt[c] else 0)
    }

    // No class is on the list twice.
    ghost predicate Listed()
      reads this
    {
      forall a, b :: 0 <= a < b < |classes| ==> classes[a].name != classes[b].name
    }

    // Devices as they come from enumeration, nobody holding any of them, and no class yet.
    constructor (devices: seq<Device>)
      requires forall d :: 0 <= d < |devices| ==> Unbound(devices[d])
      ensures Inv() && Listed()
      ensures this.devices == devices && classes == [] && useCnt == map[]
    {
      this.devices := devices;
      classes := [];
      useCnt := map[];
      new;
      UnboundCounts(devices);
    }

    // psdAddClass: a class of a new name goes to its place on the list, by priority.
    method AddClass(puc: Puc, at: nat) returns (added: bool)
      requires Inv() && Listed() && puc !in useCnt && at <= |classes|
      modifies `classes, `useCnt
      ensures Inv() && Listed()
      ensures added <==> forall c :: c in old(classes) ==> c.name != puc.name
      ensures if added then classes == old(classes[..at]) + [puc] + old(classes[at..]) && useCnt == old(useCnt)[puc := 0]
              else classes == old(classes) && useCnt == old(useCnt)
    {
      var p := 0;
      while p < |classes|
        invariant p <= |classes|
        invariant forall q :: 0 <= q < p ==> classes[q].name != puc.name
      {
        if classes[p].name == puc.name {
          return false;
        }
        p := p + 1;
      }
      ListedInsert(classes, puc, at);
      classes := classes[..at] + [puc] + classes[at..];
      useCnt := useCnt[puc := 0];
      return true;
    }

    // The state after an interface was bound, or freed.
    method SetIf(d: nat, k: nat, i: nat, binding: nat, cls: Option<Puc>)
      requires d < |devices| && k < |devices[d].configs| && i < |devices[d].configs[k].ifs|
      modifies `devices
      ensures devices == old(devices)[d := WithIf(old(devices[d]), k, i, binding, cls)]
      ensures var f := old(devices[d].configs[k].ifs[i]); forall who {:trigger Count(devices, who)} ::
        Count(devices, who) == Count(old(devices), who) - Weight(f.binding, f.cls, who) + Weight(binding, cls, who)
    {
      ghost var was := devices;
      var dev := devices[d];
      var pc := dev.configs[k];
      var f := pc.ifs[i].(binding := binding, cls := cls);
      dev := dev.(configs := dev.configs[k := pc.(ifs := pc.ifs[i := f])]);
      devices := devices[d := dev];
      forall who ensures Count(devices, who) ==
        Count(was, who) - Weight(was[d].configs[k].ifs[i].binding, was[d].configs[k].ifs[i].cls, who) + Weight(binding, cls, who)
      {
        WithIfCount(was[d], k, i, binding, cls, who);
        CountUpdate(was, d, dev, who);
      }
    }

    // The fields of the device itself.
    method SetDev(d: nat, binding: nat, cls: Option<Puc>, app: bool)
      requires d < |devices|
      modifies `devices
      ensures devices == old(devices)[d := old(devices[d]).(binding := binding, cls := cls, app := app)]
      ensures var dev := old(devices[d]); forall who {:trigger Count(devices, who)} ::
        Count(devices, who) == Count(old(devices), who) - Weight(dev.binding, dev.cls, who) + Weight(binding, cls, who)
    {
      ghost var was := devices;
      devices := devices[d := devices[d].(binding := binding, cls := cls, app := app)];
      forall who ensures Count(devices, who) ==
        Count(was, who) - Weight(was[d].binding, was[d].cls, who) + Weight(binding, cls, who)
      {
        CountUpdate(was, d, devices[d], who);
      }
    }

    // ---------------------------------------------------------------- releasing

    // The count of a class that has lost a binding.
    method DropUse(puc: Puc)
      requires (forall d :: 0 <= d < |devices| ==> DeviceOk(devices[d])) && forall c :: c in classes ==> c in useCnt
      requires puc in useCnt && forall c: Puc ::
        Count(devices, Some(c)) == (if c in useCnt then useCnt[c] else 0) - (if c == puc then 1 else 0)
      modifies `useCnt
      ensures Inv() && useCnt.Keys == old(useCnt.Keys)
    {
      useCnt := useCnt[puc := useCnt[puc] - 1];
    }

    // psdHubReleaseDevBinding.
    method HubReleaseDevBinding(d: nat)
      requires Inv() && d < |devices|
      modifies `devices, `useCnt
      ensures Inv() && useCnt.Keys == old(useCnt.Keys)
      ensures devices == old(devices)[d := old(devices[d]).(binding := 0, cls := None, app := false)]
      ensures Count(devices, None) == old(Count(devices, None)) - (if old(devices[d].binding) != 0 then 1 else 0)
    {
      var dev := devices[d];
      assert DeviceOk(dev);
      if dev.binding == 0 {
        assert devices == devices[d := dev.(binding := 0, cls := None, app := false)];
        return;
      }
      SetDev(d, 0, None, false);
      if !dev.app {
        var puc := dev.cls.value;
        WeightOf(dev.binding, puc);
        CountPositive(old(devices), d, puc);
        DropUse(puc);
      }
    }

    // psdHubReleaseIfBinding, behind the test in psdReleaseIfBinding.
    method HubReleaseIfBinding(d: nat, k: nat, i: nat)
      requires Inv() && d < |devices| && k < |devices[d].configs| && i < |devices[d].configs[k].ifs|
      modifies `devices, `useCnt
      ensures Inv() && useCnt.Keys == old(useCnt.Keys)
      ensures devices == old(devices)[d := WithIf(old(devices[d]), k, i, 0, None)]
      ensures Count(devices, None) == old(Count(devices, None)) - (if old(devices[d].configs[k].ifs[i].binding) != 0 then 1 else 0)
    {
      var f := devices[d].configs[k].ifs[i];
      assert DeviceOk(devices[d]) && ConfigOk(devices[d].configs[k], devices[d].currCfg) && IfOk(f);
      if f.binding == 0 {
        SameIf(devices, d, k, i);
        return;
      }
      FreeIfOk(devices[d], k, i);
      SetIf(d, k, i, 0, None);
      IfCountPositive(old(devices), d, k, i, f.cls.value);
      WeightOf(f.binding, f.cls.value);
      DropUse(f.cls.value);
    }

    // ---------------------------------------------------------------- removing a class

    // The walk of psdRemClass and psdUnbindAll to the first binding of a class, or of anybody.
    method FirstBinding(who: Option<Puc>) returns (h: Hit)
      requires Inv()
      ensures h == Nothing ==> Count(devices, who) == 0
      ensures h != Nothing ==> HitAt(devices, h, who)
    {
      var d := 0;
      while d < |devices|
        invariant d <= |devices|
        invariant forall e :: 0 <= e < d ==> DeviceCount(devices[e], who) == 0
      {
        var dev := devices[d];
        if dev.binding != 0 && (who.None? || (dev.cls == who && !dev.app)) {
          return DevHit(d);
        }
        assert DeviceOk(dev);
        var k := 0;
        while k < |dev.configs|
          invariant k <= |dev.configs|
          invariant forall l :: 0 <= l < k ==> IfsCount(dev.configs[l].ifs, who) == 0
        {
          var ifs := dev.configs[k].ifs;
          var i := 0;
          while i < |ifs|
            invariant i <= |ifs|
            invariant forall j :: 0 <= j < i ==> Weight(ifs[j].binding, ifs[j].cls, who) == 0
          {
            if ifs[i].binding != 0 && (who.None? || ifs[i].cls == who) {
              return IfHit(d, k, i);
            }
            i := i + 1;
          }
          IfsZero(ifs, who);
          k := k + 1;
        }
        ConfigsZero(dev.configs, who);
        d := d + 1;
      }
      CountZero(devices, who);
      return Nothing;
    }

    // The restart loop: release a binding and start over, until there is none.
    method ReleaseAll(who: Option<Puc>)
      requires Inv()
      modifies `devices, `useCnt
      ensures Inv() && useCnt.Keys == old(useCnt.Keys)
      ensures Count(devices, who) == 0 && devices == DropAll(old(devices), who)
    {
      var h := FirstBinding(who);
      while h != Nothing
        invariant Inv() && useCnt.Keys == old(useCnt.Keys)
        invariant h == Nothing ==> Count(devices, who) == 0
        invariant h != Nothing ==> HitAt(devices, h, who)
        invariant DropAll(devices, who) == DropAll(old(devices), who)
        decreases Count(devices, None)
      {
        HitCounts(devices, h, who);
        match h {
          case DevHit(d) =>
            DropDevFirst(devices, d, who);
            HubReleaseDevBinding(d);
          case IfHit(d, k, i) =>
            DropIfFirst(devices, d, k, i, who);
            HubReleaseIfBinding(d, k, i);
        }
        h := FirstBinding(who);
      }
      DropNothing(devices, who);
    }

    // Remove(): the class is not offered anything any more.
    method Unlist(puc: Puc)
      requires Inv() && Listed() && puc in classes
      modifies `classes
      ensures Inv() && Listed() && puc !in classes
      ensures forall c :: c in old(classes) && c != puc ==> c in classes
    {
      var at := 0;
      while classes[at] != puc
        invariant at < |classes| && puc !in classes[..at]
        decreases |classes| - at
      {
        at := at + 1;
      }
      ListedRemove(classes, at);
      classes := classes[..at] + classes[at + 1..];
    }

    // psdRemClass: takes the class off the list, releases what it holds, and never finds it
    // still in use.
    method RemClass(puc: Puc) returns (removed: bool)
      requires Inv() && Listed() && puc in classes
      modifies this
      ensures Inv() && Listed() && removed
      ensures puc !in classes && useCnt.Keys == old(useCnt.Keys) - {puc}
      ensures forall c :: c in old(classes) && c != puc ==> c in classes
      ensures devices == DropAll(old(devices), Some(puc))
      ensures forall c :: c in useCnt ==> useCnt[c] == old(useCnt)[c]
    {
      Unlist(puc);
      ReleaseAll(Some(puc));
      forall c | c in useCnt && c != puc ensures useCnt[c] == old(useCnt)[c] {
        DropAllOther(old(devices), puc, c);
      }
      if useCnt[puc] != 0 {
        return false;
      }
      useCnt := useCnt - {puc};
      removed := true;
    }

    // psdUnbindAll.
    method UnbindAll()
      requires Inv()
      modifies `devices, `useCnt
      ensures Inv() && Count(devices, None) == 0 && devices == DropAll(old(devices), None)
      ensures forall c :: c in useCnt ==> useCnt[c] == 0
    {
      ReleaseAll(None);
      forall c: Puc ensures Count(devices, Some(c)) == 0 {
        NobodyNobody(devices, c);
      }
    }

    // ---------------------------------------------------------------- claiming

    // psdHubClaimAppBindingA; `pab` is the application's binding.
    method HubClaimAppBinding(d: nat, pab: nat) returns (claimed: bool)
      requires Inv() && d < |devices| && pab != 0
      modifies `devices
      ensures Inv()
      ensures claimed <==> DeviceCount(old(devices[d]), None) == 0
      ensures devices == if claimed then old(devices)[d := old(devices[d]).(binding := pab, cls := None, app := true)] else old(devices)
    {
      var dev := devices[d];
      assert DeviceOk(dev);
      var has := HasIfBinding(dev);
      if dev.binding != 0 || has != 0 {
        return false;
      }
      SetDev(d, pab, None, true);
      return true;
    }

    // ---------------------------------------------------------------- scanning

    // A class accepted: the interface, or the device, is bound and the class used once more.
    method BindIf(d: nat, k: nat, i: nat, binding: nat, puc: Puc)
      requires Inv() && d < |devices| && k < |devices[d].configs| && i < |devices[d].configs[k].ifs|
      requires binding != 0 && puc in useCnt
      requires devices[d].binding == 0 && devices[d].configs[k].cfgNum == devices[d].currCfg
      requires devices[d].configs[k].ifs[i].binding == 0
      modifies `devices, `useCnt
      ensures Inv() && useCnt.Keys == old(useCnt.Keys)
      ensures devices == old(devices)[d := WithIf(old(devices[d]), k, i, binding, Some(puc))]
    {
      BindIfOk(devices[d], k, i, binding, puc);
      SetIf(d, k, i, binding, Some(puc));
      useCnt := useCnt[puc := useCnt[puc] + 1];
    }

    method BindDev(d: nat, binding: nat, puc: Puc)
      requires Inv() && d < |devices| && binding != 0 && puc in useCnt && DeviceCount(devices[d], None) == 0
      modifies `devices, `useCnt
      ensures Inv() && useCnt.Keys == old(useCnt.Keys)
      ensures devices == old(devices)[d := old(devices[d]).(binding := binding, cls := Some(puc))]
    {
      assert DeviceOk(devices[d]);
      SetDev(d, binding, Some(puc), false);
      useCnt := useCnt[puc := useCnt[puc] + 1];
    }

    // psdSetDeviceConfig, which works if controller and device say so.
    method SetDeviceConfig(d: nat, cfgNum: nat, ok: bool)
      requires Inv() && d < |devices| && ConfigsCount(devices[d].configs, None) == 0
      modifies `devices
      ensures Inv()
      ensures devices == if ok then old(devices)[d := old(devices[d]).(currCfg := cfgNum)] else old(devices)
    {
      if ok {
        ghost var was := devices;
        SwitchConfigOk(devices[d], cfgNum);
        devices := devices[d := devices[d].(currCfg := cfgNum)];
        forall who ensures Count(devices, who) == Count(was, who) {
          CountUpdate(was, d, devices[d], who);
        }
      }
    }

    // One alternate of an interface is offered to the classes in turn. It is bound to the first
    // that takes it, unless the device does not switch to it.
    method OfferAlternate(d: nat, k: nat, i: nat, alt: nat, a: Answers) returns (bound: bool, ghost at: nat)
      requires Inv() && d < |devices| && k < |devices[d].configs| && i < |devices[d].configs[k].ifs|
      requires devices[d].binding == 0 && devices[d].configs[k].cfgNum == devices[d].currCfg
      requires devices[d].configs[k].ifs[i].binding == 0
      modifies `devices, `useCnt
      ensures Inv() && useCnt.Keys == old(useCnt.Keys)
      ensures bound <==> Works(a, classes, k, i, alt)
      ensures !bound ==> devices == old(devices) && useCnt == old(useCnt)
      ensures bound ==> Willing(a, classes, k, i, alt, at) && forall q: nat :: q < at ==> !Willing(a, classes, k, i, alt, q)
      ensures bound ==>
        devices == old(devices)[d := WithIf(old(devices[d]), k, i, a.takes(k, i, alt, classes[at]), Some(classes[at]))]
    {
      at := 0;
      var owner := a.forcedIf(k, i, alt);
      var p := 0;
      while p < |classes|
        invariant p <= |classes| && Inv() && devices == old(devices) && useCnt == old(useCnt)
        invariant forall q: nat :: q < p ==> !Willing(a, classes, k, i, alt, q)
      {
        var puc := classes[p];
        var binding: nat := 0;
        if owner.None? || owner == Some(puc.name) {
          binding := a.takes(k, i, alt, puc);
        }
        if binding != 0 {
          assert Willing(a, classes, k, i, alt, p);
          if !a.switches(k, i, alt) {
            return false, 0;
          }
          assert ConfigOk(devices[d].configs[k], devices[d].currCfg) by { assert DeviceOk(devices[d]); }
          var place := FindInterface(devices[d].configs[k].ifs, devices[d].configs[k].ifs[i].ifNum, i);
          BindIf(d, k, place, binding, puc);
          return true, p;
        }
        p := p + 1;
      }
      return false, 0;
    }

    // Offering one interface, its active alternate first, then the others.
    method OfferInterface(d: nat, k: nat, i: nat, a: Answers) returns (bound: bool)
      requires Inv() && d < |devices| && k < |devices[d].configs| && i < |devices[d].configs[k].ifs|
      requires devices[d].binding == 0 && devices[d].configs[k].cfgNum == devices[d].currCfg
      requires devices[d].configs[k].ifs[i].binding == 0
      modifies `devices, `useCnt
      ensures Inv() && useCnt.Keys == old(useCnt.Keys)
      ensures |devices| == |old(devices)| && SameBut(old(devices[d]), devices[d], k, i) && devices == old(devices)[d := devices[d]]
      ensures IfScanned(a, classes, old(devices[d]).configs[k].ifs[i], devices[d].configs[k].ifs[i], k, i)
      ensures bound <==> Wanted(a, classes, k, i, old(devices[d]).configs[k].ifs[i].alternates)
    {
      ghost var was := devices[d];
      var firstpif := devices[d].configs[k].ifs[i];
      var alt := 0;
      while true
        invariant Inv() && devices == old(devices) && useCnt == old(useCnt) && alt <= firstpif.alternates
        invariant forall b: nat :: b < alt ==> !Works(a, classes, k, i, b)
        decreases firstpif.alternates - alt
      {
        ghost var at;
        bound, at := OfferAlternate(d, k, i, alt, a);
        if bound {
          assert Wins(a, classes, k, i, firstpif.alternates, alt, at);
          return;
        }
        if alt == firstpif.alternates {
          break;
        }
        alt := alt + 1;
      }
      bound := false;
      SameAll(was, k, i);
    }

    // One interface, unless it is bound already.
    method OfferFree(d: nat, k: nat, i: nat, a: Answers) returns (bound: bool)
      requires Inv() && d < |devices| && k < |devices[d].configs| && i < |devices[d].configs[k].ifs|
      requires devices[d].binding == 0 && devices[d].configs[k].cfgNum == devices[d].currCfg
      modifies `devices, `useCnt
      ensures Inv() && useCnt.Keys == old(useCnt.Keys)
      ensures |devices| == |old(devices)| && SameBut(old(devices[d]), devices[d], k, i) && devices == old(devices)[d := devices[d]]
      ensures var f := old(devices[d]).configs[k].ifs[i];
        && IfScanned(a, classes, f, devices[d].configs[k].ifs[i], k, i)
        && (bound <==> f.binding == 0 && Wanted(a, classes, k, i, f.alternates))
    {
      bound := false;
      if devices[d].configs[k].ifs[i].binding == 0 {
        bound := OfferInterface(d, k, i, a);
      } else {
        SameAll(devices[d], k, i);
      }
    }

    // The interfaces of one configuration.
    method OfferConfig(d: nat, k: nat, a: Answers) returns (bound: bool)
      requires Inv() && d < |devices| && k < |devices[d].configs|
      requires devices[d].binding == 0 && devices[d].configs[k].cfgNum == devices[d].currCfg
      modifies `devices, `useCnt
      ensures Inv() && useCnt.Keys == old(useCnt.Keys)
      ensures |devices| == |old(devices)| && OneConfig(old(devices[d]), devices[d], k) && devices == old(devices)[d := devices[d]]
      ensures var pc := old(devices[d]).configs[k];
        && ConfigScanned(a, classes, pc, devices[d].configs[k], k, |pc.ifs|)
        && (bound <==> Taken(a, classes, pc, k, |pc.ifs|))
    {
      bound := false;
      ghost var was := devices[d];
      var i := 0;
      NoneOffered(a, classes, was, k);
      while i < |devices[d].configs[k].ifs|
        invariant Inv() && useCnt.Keys == old(useCnt.Keys)
        invariant |devices| == |old(devices)| && devices == old(devices)[d := devices[d]]
        invariant Offered(a, classes, was, devices[d], k, i, bound)
        decreases |devices[d].configs[k].ifs| - i
      {
        ghost var mid, had := devices[d], bound;
        var hit := OfferFree(d, k, i, a);
        OfferedNext(a, classes, was, mid, devices[d], k, i, had, hit);
        bound := bound || hit;
        i := i + 1;
      }
    }

    // The device stage of a scan: the first class that takes the device.
    method OfferDevice(d: nat, a: Answers)
      requires Inv() && d < |devices| && DeviceCount(devices[d], None) == 0
      modifies `devices, `useCnt
      ensures Inv() && useCnt.Keys == old(useCnt.Keys)
      ensures |devices| == |old(devices)| && devices == old(devices)[d := devices[d]]
      ensures DeviceOffered(a, classes, None, old(devices[d]), devices[d])
    {
      var p := 0;
      while p < |classes|
        invariant p <= |classes| && Inv() && devices == old(devices) && useCnt == old(useCnt)
        invariant forall q: nat :: q < p ==> a.holds(classes[q]) == 0
      {
        var puc := classes[p];
        var binding := a.holds(puc);
        if binding != 0 {
          assert DeviceOk(devices[d]) && devices[d].binding == 0;
          assert Holds(a, classes, None, p);
          BindDev(d, binding, puc);
          return;
        }
        p := p + 1;
      }
    }

    // The forced binding of a device: only the first class of that name is asked.
    method ForceDevice(d: nat, owner: string, a: Answers)
      requires Inv() && d < |devices| && DeviceCount(devices[d], None) == 0
      modifies `devices, `useCnt
      ensures Inv() && useCnt.Keys == old(useCnt.Keys)
      ensures |devices| == |old(devices)| && devices == old(devices)[d := devices[d]]
      ensures DeviceOffered(a, classes, Some(owner), old(devices[d]), devices[d])
    {
      var p := 0;
      while p < |classes| && classes[p].name != owner
        invariant p <= |classes|
        invariant forall q: nat :: q < p ==> classes[q].name != owner
      {
        p := p + 1;
      }
      if p < |classes| {
        var binding := a.holds(classes[p]);
        if binding != 0 {
          assert Holds(a, classes, Some(owner), p);
          BindDev(d, binding, classes[p]);
        }
      }
    }

    // The turn of one configuration: it is selected if need be and if the device lets it, and
    // then its interfaces are offered.
    method OfferSelected(d: nat, k: nat, a: Answers) returns (bound: bool)
      requires Inv() && d < |devices| && devices[d].binding == 0 && k < |devices[d].configs|
      requires ConfigsCount(devices[d].configs, None) == 0 || devices[d].currCfg == devices[d].configs[k].cfgNum
      modifies `devices, `useCnt
      ensures Inv() && useCnt.Keys == old(useCnt.Keys)
      ensures |devices| == |old(devices)| && devices == old(devices)[d := devices[d]]
      ensures Turned(a, classes, old(devices[d]), devices[d], k, bound)
    {
      bound := false;
      ghost var was := devices[d];
      var cfgNum := devices[d].configs[k].cfgNum;
      if devices[d].currCfg != cfgNum {
        SetDeviceConfig(d, cfgNum, a.selects(k));
      }
      if devices[d].currCfg == cfgNum {
        ghost var mid := devices[d];
        bound := OfferConfig(d, k, a);
        TurnIs(a, classes, was, mid, devices[d], k, bound);
      }
    }

    // A configuration gets its turn unless interfaces of another one are bound.
    method OfferIfFree(d: nat, k: nat, has: nat, a: Answers, ghost was: Device) returns (now: nat)
      requires Inv() && d < |devices| && DeviceOk(was) && was.binding == 0
      requires k < |was.configs| && ConfigsScanned(a, classes, was, devices[d], k, has)
      modifies `devices, `useCnt
      ensures Inv() && useCnt.Keys == old(useCnt.Keys)
      ensures |devices| == |old(devices)| && devices == old(devices)[d := devices[d]]
      ensures ConfigsScanned(a, classes, was, devices[d], k + 1, now)
    {
      now := has;
      ghost var mid := devices[d];
      SameShape(a, classes, was, mid, k, has);
      MayTurn(a, classes, was, mid, k, has);
      var cfgNum := devices[d].configs[k].cfgNum;
      if now == 0 || now == cfgNum {
        var bound := OfferSelected(d, k, a);
        if bound {
          now := cfgNum;
        }
        TurnScanned(a, classes, was, mid, devices[d], k, has, bound, now);
      } else {
        TurnSkipped(a, classes, was, mid, k, has);
      }
    }

    // The interface stage: only configurations that may still be selected get a turn.
    method OfferConfigs(d: nat, has: nat, a: Answers) returns (now: nat)
      requires Inv() && d < |devices| && devices[d].binding == 0
      requires has != 0 <==> ConfigsCount(devices[d].configs, None) > 0
      requires has != 0 ==> has == devices[d].currCfg
      modifies `devices, `useCnt
      ensures Inv() && useCnt.Keys == old(useCnt.Keys)
      ensures |devices| == |old(devices)| && devices == old(devices)[d := devices[d]]
      ensures ConfigsScanned(a, classes, old(devices[d]), devices[d], |old(devices[d]).configs|, now)
    {
      now := has;
      var was := devices[d];
      assert DeviceOk(was);
      NoConfigYet(a, classes, was, has);
      var k := 0;
      while k < |was.configs|
        invariant Inv() && useCnt.Keys == old(useCnt.Keys)
        invariant |devices| == |old(devices)| && devices == old(devices)[d := devices[d]]
        invariant k <= |was.configs| && ConfigsScanned(a, classes, was, devices[d], k, now)
      {
        now := OfferIfFree(d, k, now, a, was);
        k := k + 1;
      }
    }

    // psdHubClassScan.
    method HubClassScan(d: nat, a: Answers)
      requires Inv() && d < |devices|
      modifies `devices, `useCnt
      ensures Inv() && useCnt.Keys == old(useCnt.Keys)
      ensures |devices| == |old(devices)| && devices == old(devices)[d := devices[d]]
      ensures Scanned(a, classes, old(devices[d]), devices[d])
      ensures Kept(old(devices[d]), devices[d], classes, a.forcedDev, a.forcedIf)
      ensures old(devices[d]).noClassBind ==> devices == old(devices)
    {
      ghost var was := devices[d];
      assert DeviceOk(was);
      Scan(d, a);
      ScanKeeps(a, classes, was, devices[d]);
    }

    method Scan(d: nat, a: Answers)
      requires Inv() && d < |devices|
      modifies `devices, `useCnt
      ensures Inv() && useCnt.Keys == old(useCnt.Keys)
      ensures |devices| == |old(devices)| && devices == old(devices)[d := devices[d]]
      ensures Scanned(a, classes, old(devices[d]), devices[d])
    {
      var dev := devices[d];
      if dev.noClassBind || dev.binding != 0 || !a.pipe {
        return;
      }
      assert DeviceOk(dev);
      var has := HasIfBinding(dev);
      if has == 0 && a.forcedDev.Some? {
        ForceDevice(d, a.forcedDev.value, a);
        return;
      }
      has := OfferConfigs(d, has, a);
      StageEnds(a, classes, dev, devices[d], has);
      if has == 0 {
        OfferDevice(d, a);
      }
    }

    // ---------------------------------------------------------------- any sequence of requests

    method Obey(c: Command)
      requires Inv() && Listed()
      modifies this
      ensures Inv() && Listed() && |devices| == |old(devices)|
    {
      match c
      case Scan(d, answers) =>
        if d < |devices| { HubClassScan(d, answers); }
      case Claim(d, pab) =>
        if d < |devices| && pab != 0 { var _ := HubClaimAppBinding(d, pab); }
      case ReleaseDev(d) =>
        if d < |devices| { HubReleaseDevBinding(d); }
      case ReleaseIf(d, k, i) =>
        if d < |devices| && k < |devices[d].configs| && i < |devices[d].configs[k].ifs| { HubReleaseIfBinding(d, k, i); }
      case Add(puc, at) =>
        if puc !in useCnt && at <= |classes| { var _ := AddClass(puc, at); }
      case Remove(puc) =>
        if puc in classes { var _ := RemClass(puc); }
      case Unbind => UnbindAll();
    }

    // Over any sequence of requests, each answered in any way, every use count is the number of
    // bindings naming the class, and every device is held by one party, by several classes on
    // the interfaces of its current configuration, or by nobody.
    method ObeyAll(cs: seq<Command>)
      requires Inv() && Listed()
      modifies this
      ensures Inv() && Listed() && |devices| == |old(devices)|
    {
      var n := 0;
      while n < |cs|
        invariant Inv() && Listed() && |devices| == |old(devices)|
      {
        Obey(cs[n]);
        n := n + 1;
      }
    }
  }

  // The whole life of a stack that starts without bindings.
  method Live(devices: seq<Device>, cs: seq<Command>) returns (stack: UsbStack)
    requires forall d :: 0 <= d < |devices| ==> Unbound(devices[d])
    ensures stack.Inv() && stack.Listed() && |stack.devices| == |devices|
    ensures forall c: Puc :: Count(stack.devices, Some(c)) == if c in stack.useCnt then stack.useCnt[c] else 0
    ensures forall d :: 0 <= d < |devices| ==> DeviceOk(stack.devices[d])
  {
    stack := new UsbStack(devices);
    stack.ObeyAll(cs);
  }

  // What hub tasks, applications and the class manager ask for; requests about what is not there
  // are passed over.
  datatype Command =
    | Scan(d: nat, answers: Answers)
    | Claim(d: nat, pab: nat)
    | ReleaseDev(d: nat)
    | ReleaseIf(d: nat, k: nat, i: nat)
    | Add(puc: Puc, at: nat)
    | Remove(puc: Puc)
    | Unbind

  // A device nobody holds.
  ghost predicate Unbound(dev: Device) {
    && dev.binding == 0 && dev.cls.None? && !dev.app && DistinctCfgs(dev.configs)
    && forall k :: 0 <= k < |dev.configs| ==> UnboundConfig(dev.configs[k])
  }

  ghost predicate UnboundConfig(pc: Config) {
    && pc.cfgNum != 0
    && (forall i :: 0 <= i < |pc.ifs| ==> pc.ifs[i].binding == 0 && pc.ifs[i].cls.None?)
    && (forall i, j :: 0 <= i < j < |pc.ifs| ==> pc.ifs[i].ifNum != pc.ifs[j].ifNum)
  }

  lemma UnboundIs(dev: Device, who: Option<Puc>)
    requires Unbound(dev)
    ensures DeviceOk(dev) && DeviceCount(dev, who) == 0
  {
    forall k | 0 <= k < |dev.configs|
      ensures IfsCount(dev.configs[k].ifs, who) == 0 && ConfigOk(dev.configs[k], dev.currCfg)
    {
      assert UnboundConfig(dev.configs[k]);
      IfsZero(dev.configs[k].ifs, who);
      IfsZero(dev.configs[k].ifs, None);
    }
    ConfigsZero(dev.configs, who);
  }

  lemma UnboundCounts(devs: seq<Device>)
    requires forall d :: 0 <= d < |devs| ==> Unbound(devs[d])
    ensures forall d :: 0 <= d < |devs| ==> DeviceOk(devs[d])
    ensures forall c: Puc :: Count(devs, Some(c)) == 0
  {
    forall c: Puc ensures Count(devs, Some(c)) == 0 {
      forall d | 0 <= d < |devs| ensures DeviceCount(devs[d], Some(c)) == 0 {
        UnboundIs(devs[d], Some(c));
      }
      CountZero(devs, Some(c));
    }
    forall d | 0 <= d < |devs| ensures DeviceOk(devs[d]) {
      UnboundIs(devs[d], None);
    }
  }

  lemma ListedInsert(cs: seq<Puc>, puc: Puc, at: nat)
    requires at <= |cs| && forall a, b :: 0 <= a < b < |cs| ==> cs[a].name != cs[b].name
    requires forall a :: 0 <= a < |cs| ==> cs[a].name != puc.name
    ensures var r := cs[..at] + [puc] + cs[at..];
      && (forall a, b :: 0 <= a < b < |r| ==> r[a].name != r[b].name)
      && (forall c :: c in r <==> c in cs || c == puc)
  {
    var r := cs[..at] + [puc] + cs[at..];
    assert forall a :: 0 <= a < |r| ==> r[a] == if a < at then cs[a] else if a == at then puc else cs[a - 1];
    forall c | c in cs ensures c in r {
      var j :| 0 <= j < |cs| && cs[j] == c;
      assert r[if j < at then j else j + 1] == c;
    }
    assert r[at] == puc;
  }

  lemma ListedRemove(cs: seq<Puc>, at: nat)
    requires at < |cs| && forall a, b :: 0 <= a < b < |cs| ==> cs[a].name != cs[b].name
    ensures var r := cs[..at] + cs[at + 1..];
      && (forall a, b :: 0 <= a < b < |r| ==> r[a].name != r[b].name)
      && (forall c :: c in r <==> c in cs && c != cs[at])
  {
    var r := cs[..at] + cs[at + 1..];
    assert forall a :: 0 <= a < |r| ==> r[a] == cs[if a < at then a else a + 1];
    forall c | c in cs && c != cs[at] ensures c in r {
      var j :| 0 <= j < |cs| && cs[j] == c;
      assert r[if j < at then j else j - 1] == c;
    }
  }

  // The position of the interface with a number: the walk cannot fall off the end.
  method FindInterface(ifs: seq<Interface>, ifNum: nat, ghost i: nat) returns (at: nat)
    requires i < |ifs| && ifs[i].ifNum == ifNum
    requires forall a, b :: 0 <= a < b < |ifs| ==> ifs[a].ifNum != ifs[b].ifNum
    ensures at == i
  {
    at := 0;
    while at < |ifs|
      invariant at <= i
    {
      if ifs[at].ifNum == ifNum {
        break;
      }
      at := at + 1;
    }
  }

  // The first walk of psdHubClassScan: the configuration that has bound interfaces, or 0.
  method HasIfBinding(dev: Device) returns (has: nat)
    requires DeviceOk(dev)
    ensures has != 0 <==> ConfigsCount(dev.configs, None) > 0
    ensures has != 0 ==> has == dev.currCfg
  {
    has := 0;
    var k := 0;
    while k < |dev.configs|
      invariant k <= |dev.configs|
      invariant has == 0 ==> forall l :: 0 <= l < k ==> IfsCount(dev.configs[l].ifs, None) == 0
      invariant has != 0 ==> has == dev.currCfg && exists l :: 0 <= l < k && IfsCount(dev.configs[l].ifs, None) > 0
    {
      var ifs := dev.configs[k].ifs;
      assert ConfigOk(dev.configs[k], dev.currCfg);
      IfsZero(ifs, None);
      var i := 0;
      while i < |ifs| && ifs[i].binding == 0
        invariant i <= |ifs|
        invariant forall j :: 0 <= j < i ==> ifs[j].binding == 0
      {
        i := i + 1;
      }
      if i < |ifs| {
        has := dev.configs[k].cfgNum;
      }
      k := k + 1;
    }
    ConfigsZero(dev.configs, None);
  }

  // Where a walk over all bindings stops.
  datatype Hit = Nothing | DevHit(d: nat) | IfHit(d: nat, k: nat, i: nat)

  ghost predicate HitAt(devs: seq<Device>, h: Hit, who: Option<Puc>)
    requires h != Nothing
  {
    && h.d < |devs|
    && match h
       case DevHit(d) => Weight(devs[d].binding, devs[d].cls, who) == 1
       case IfHit(d, k, i) =>
         && k < |devs[d].configs| && i < |devs[d].configs[k].ifs|
         && Weight(devs[d].configs[k].ifs[i].binding, devs[d].configs[k].ifs[i].cls, who) == 1
  }

  lemma HitCounts(devs: seq<Device>, h: Hit, who: Option<Puc>)
    requires h != Nothing && HitAt(devs, h, who)
    ensures Count(devs, None) > 0
    ensures h.DevHit? ==> devs[h.d].binding != 0
    ensures h.IfHit? ==> devs[h.d].configs[h.k].ifs[h.i].binding != 0
  {
    CountZero(devs, None);
    ConfigsZero(devs[h.d].configs, None);
    if h.IfHit? {
      IfsZero(devs[h.d].configs[h.k].ifs, None);
    }
  }

  // With no binding at all there is none of any class.
  lemma NobodyNobody(devs: seq<Device>, c: Puc)
    requires Count(devs, None) == 0
    ensures Count(devs, Some(c)) == 0
  {
    CountZero(devs, None);
    CountZero(devs, Some(c));
    forall d | 0 <= d < |devs| ensures DeviceCount(devs[d], Some(c)) == 0 {
      ConfigsZero(devs[d].configs, None);
      ConfigsZero(devs[d].configs, Some(c));
      forall k | 0 <= k < |devs[d].configs| ensures IfsCount(devs[d].configs[k].ifs, Some(c)) == 0 {
        IfsZero(devs[d].configs[k].ifs, None);
        IfsZero(devs[d].configs[k].ifs, Some(c));
      }
    }
  }

  lemma WeightOf(binding: nat, puc: Puc)
    ensures forall c: Puc :: Weight(binding, Some(puc), Some(c)) == if binding != 0 && c == puc then 1 else 0
  {
  }

  lemma SameIf(devs: seq<Device>, d: nat, k: nat, i: nat)
    requires d < |devs| && k < |devs[d].configs| && i < |devs[d].configs[k].ifs|
    requires devs[d].configs[k].ifs[i].binding == 0 && devs[d].configs[k].ifs[i].cls.None?
    ensures devs == devs[d := WithIf(devs[d], k, i, 0, None)]
  {
    var pc := devs[d].configs[k];
    assert pc.ifs == pc.ifs[i := pc.ifs[i].(binding := 0, cls := None)];
    assert devs[d].configs == devs[d].configs[k := pc];
  }

  // A class somebody names has a positive count.
  lemma CountPositive(devs: seq<Device>, d: nat, puc: Puc)
    requires d < |devs| && devs[d].binding != 0 && devs[d].cls == Some(puc)
    ensures Count(devs, Some(puc)) > 0
  {
    CountZero(devs, Some(puc));
  }

  lemma IfCountPositive(devs: seq<Device>, d: nat, k: nat, i: nat, puc: Puc)
    requires d < |devs| && k < |devs[d].configs| && i < |devs[d].configs[k].ifs|
    requires devs[d].configs[k].ifs[i].binding != 0 && devs[d].configs[k].ifs[i].cls == Some(puc)
    ensures Count(devs, Some(puc)) > 0
  {
    CountZero(devs, Some(puc));
    ConfigsZero(devs[d].configs, Some(puc));
    IfsZero(devs[d].configs[k].ifs, Some(puc));
  }
}
