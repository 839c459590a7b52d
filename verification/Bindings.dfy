/**
 Class bindings: which class holds a device or an interface, and what each class's use count
 must be.
 */
module Bindings {
  import opened Common

  // struct PsdUsbClass, by identity and name.
  datatype Puc = Puc(id: nat, name: string)

  // Binding handles are non-zero; 0 is NULL.
  datatype Interface = Interface(ifNum: nat, alternates: nat, binding: nat, cls: Option<Puc>)

  datatype Config = Config(cfgNum: nat, ifs: seq<Interface>)

  datatype Device = Device(
    noClassBind: bool,
    binding: nat,
    cls: Option<Puc>,
    app: bool,          // PDFF_APPBINDING
    currCfg: nat,
    configs: seq<Config>)

  // ------------------------------------------------------------------ counting

  // Whether a binding counts: any one, or those of one class.
  function Weight(binding: nat, cls: Option<Puc>, who: Option<Puc>): nat {
    if binding != 0 && (who.None? || cls == who) then 1 else 0
  }

  function IfsCount(ifs: seq<Interface>, who: Option<Puc>): nat {
    if ifs == [] then 0 else Weight(ifs[0].binding, ifs[0].cls, who) + IfsCount(ifs[1..], who)
  }

  function ConfigsCount(pcs: seq<Config>, who: Option<Puc>): nat {
    if pcs == [] then 0 else IfsCount(pcs[0].ifs, who) + ConfigsCount(pcs[1..], who)
  }

  function DeviceCount(dev: Device, who: Option<Puc>): nat {
    Weight(dev.binding, dev.cls, who) + ConfigsCount(dev.configs, who)
  }

  function Count(devs: seq<Device>, who: Option<Puc>): nat {
    if devs == [] then 0 else DeviceCount(devs[0], who) + Count(devs[1..], who)
  }

  lemma {:induction false} IfsUpdate(ifs: seq<Interface>, i: nat, x: Interface, who: Option<Puc>)
    requires i < |ifs|
    ensures IfsCount(ifs[i := x], who) ==
            IfsCount(ifs, who) - Weight(ifs[i].binding, ifs[i].cls, who) + Weight(x.binding, x.cls, who)
  {
    if i == 0 {
      assert ifs[i := x][1..] == ifs[1..];
    } else {
      assert ifs[i := x][1..] == ifs[1..][i - 1 := x];
      IfsUpdate(ifs[1..], i - 1, x, who);
    }
  }

  lemma {:induction false} ConfigsUpdate(pcs: seq<Config>, k: nat, x: Config, who: Option<Puc>)
    requires k < |pcs|
    ensures ConfigsCount(pcs[k := x], who) == ConfigsCount(pcs, who) - IfsCount(pcs[k].ifs, who) + IfsCount(x.ifs, who)
  {
    if k == 0 {
      assert pcs[k := x][1..] == pcs[1..];
    } else {
      assert pcs[k := x][1..] == pcs[1..][k - 1 := x];
      ConfigsUpdate(pcs[1..], k - 1, x, who);
    }
  }

  lemma {:induction false} CountUpdate(devs: seq<Device>, d: nat, x: Device, who: Option<Puc>)
    requires d < |devs|
    ensures Count(devs[d := x], who) == Count(devs, who) - DeviceCount(devs[d], who) + DeviceCount(x, who)
  {
    if d == 0 {
      assert devs[d := x][1..] == devs[1..];
    } else {
      assert devs[d := x][1..] == devs[1..][d - 1 := x];
      CountUpdate(devs[1..], d - 1, x, who);
    }
  }

  lemma {:induction false} IfsZero(ifs: seq<Interface>, who: Option<Puc>)
    ensures IfsCount(ifs, who) == 0 <==> forall i :: 0 <= i < |ifs| ==> Weight(ifs[i].binding, ifs[i].cls, who) == 0
  {
    if ifs != [] {
      IfsZero(ifs[1..], who);
      assert forall i :: 0 < i < |ifs| ==> ifs[i] == ifs[1..][i - 1];
    }
  }

  lemma {:induction false} ConfigsZero(pcs: seq<Config>, who: Option<Puc>)
    ensures ConfigsCount(pcs, who) == 0 <==> forall k :: 0 <= k < |pcs| ==> IfsCount(pcs[k].ifs, who) == 0
  {
    if pcs != [] {
      ConfigsZero(pcs[1..], who);
      assert forall k :: 0 < k < |pcs| ==> pcs[k] == pcs[1..][k - 1];
    }
  }

  lemma {:induction false} CountZero(devs: seq<Device>, who: Option<Puc>)
    ensures Count(devs, who) == 0 <==> forall d :: 0 <= d < |devs| ==> DeviceCount(devs[d], who) == 0
  {
    if devs != [] {
      CountZero(devs[1..], who);
      assert forall d :: 0 < d < |devs| ==> devs[d] == devs[1..][d - 1];
    }
  }

  // ------------------------------------------------------------------ a sound device

  ghost predicate IfOk(f: Interface) {
    f.binding == 0 <==> f.cls.None?
  }

  ghost predicate ConfigOk(pc: Config, currCfg: nat) {
    && pc.cfgNum != 0
    && (forall i :: 0 <= i < |pc.ifs| ==> IfOk(pc.ifs[i]))
    && (forall i, j :: 0 <= i < j < |pc.ifs| ==> pc.ifs[i].ifNum != pc.ifs[j].ifNum)
    && (IfsCount(pc.ifs, None) > 0 ==> pc.cfgNum == currCfg)
  }

  ghost predicate DistinctCfgs(pcs: seq<Config>) {
    forall k, l :: 0 <= k < l < |pcs| ==> pcs[k].cfgNum != pcs[l].cfgNum
  }

  // A device is held by a class, by an application or not at all; with a device binding no
  // interface is bound, and bound interfaces are in the current configuration.
  ghost predicate DeviceOk(dev: Device) {
    && (if dev.binding == 0 then dev.cls.None? && !dev.app else dev.app <==> dev.cls.None?)
    && (dev.binding != 0 ==> ConfigsCount(dev.configs, None) == 0)
    && DistinctCfgs(dev.configs)
    && forall k :: 0 <= k < |dev.configs| ==> ConfigOk(dev.configs[k], dev.currCfg)
  }

  // ------------------------------------------------------------------ the steps

  function WithIf(dev: Device, k: nat, i: nat, binding: nat, cls: Option<Puc>): Device
    requires k < |dev.configs| && i < |dev.configs[k].ifs|
  {
    var pc := dev.configs[k];
    var f := pc.ifs[i].(binding := binding, cls := cls);
    dev.(configs := dev.configs[k := pc.(ifs := pc.ifs[i := f])])
  }

  lemma WithIfCount(dev: Device, k: nat, i: nat, binding: nat, cls: Option<Puc>, who: Option<Puc>)
    requires k < |dev.configs| && i < |dev.configs[k].ifs|
    ensures var f, r := dev.configs[k].ifs[i], WithIf(dev, k, i, binding, cls);
      && IfsCount(r.configs[k].ifs, who) == IfsCount(dev.configs[k].ifs, who) - Weight(f.binding, f.cls, who) + Weight(binding, cls, who)
      && ConfigsCount(r.configs, who) == ConfigsCount(dev.configs, who) - Weight(f.binding, f.cls, who) + Weight(binding, cls, who)
      && DeviceCount(r, who) == DeviceCount(dev, who) - Weight(f.binding, f.cls, who) + Weight(binding, cls, who)
  {
    var pc := dev.configs[k];
    var f := pc.ifs[i].(binding := binding, cls := cls);
    IfsUpdate(pc.ifs, i, f, who);
    ConfigsUpdate(dev.configs, k, pc.(ifs := pc.ifs[i := f]), who);
  }

  // Binding a free interface of the current configuration of a device nobody holds.
  lemma BindIfOk(dev: Device, k: nat, i: nat, binding: nat, puc: Puc)
    requires DeviceOk(dev) && dev.binding == 0 && binding != 0
    requires k < |dev.configs| && i < |dev.configs[k].ifs| && dev.configs[k].cfgNum == dev.currCfg
    ensures DeviceOk(WithIf(dev, k, i, binding, Some(puc)))
  {
    var r := WithIf(dev, k, i, binding, Some(puc));
    assert ConfigOk(dev.configs[k], dev.currCfg);
    assert forall l :: 0 <= l < |dev.configs| && l != k ==> r.configs[l] == dev.configs[l] && ConfigOk(dev.configs[l], dev.currCfg);
    assert forall l :: 0 <= l < |dev.configs| ==> r.configs[l].cfgNum == dev.configs[l].cfgNum;
  }

  lemma FreeIfOk(dev: Device, k: nat, i: nat)
    requires DeviceOk(dev) && k < |dev.configs| && i < |dev.configs[k].ifs|
    ensures DeviceOk(WithIf(dev, k, i, 0, None))
  {
    var r := WithIf(dev, k, i, 0, None);
    WithIfCount(dev, k, i, 0, None, None);
    assert ConfigOk(dev.configs[k], dev.currCfg);
    assert forall l :: 0 <= l < |dev.configs| && l != k ==> r.configs[l] == dev.configs[l] && ConfigOk(dev.configs[l], dev.currCfg);
    assert forall l :: 0 <= l < |dev.configs| ==> r.configs[l].cfgNum == dev.configs[l].cfgNum;
  }

  // Another configuration may only be selected while no interface is bound.
  lemma SwitchConfigOk(dev: Device, cfgNum: nat)
    requires DeviceOk(dev) && ConfigsCount(dev.configs, None) == 0
    ensures DeviceOk(dev.(currCfg := cfgNum))
  {
    ConfigsZero(dev.configs, None);
    assert forall l :: 0 <= l < |dev.configs| ==> ConfigOk(dev.configs[l], dev.currCfg);
  }

  // ------------------------------------------------------------------ dropping bindings

  // The bindings of one class, or all of them, taken away.
  function DropIf(f: Interface, who: Option<Puc>): Interface {
    if Weight(f.binding, f.cls, who) == 1 then f.(binding := 0, cls := None) else f
  }

  function DropIfs(ifs: seq<Interface>, who: Option<Puc>): (r: seq<Interface>)
    ensures |r| == |ifs| && forall i :: 0 <= i < |ifs| ==> r[i] == DropIf(ifs[i], who)
  {
    seq(|ifs|, i requires 0 <= i < |ifs| => DropIf(ifs[i], who))
  }

  function DropConfigs(pcs: seq<Config>, who: Option<Puc>): (r: seq<Config>)
    ensures |r| == |pcs| && forall k :: 0 <= k < |pcs| ==> r[k] == pcs[k].(ifs := DropIfs(pcs[k].ifs, who))
  {
    seq(|pcs|, k requires 0 <= k < |pcs| => pcs[k].(ifs := DropIfs(pcs[k].ifs, who)))
  }

  function DropDevice(dev: Device, who: Option<Puc>): Device {
    var rest := dev.(configs := DropConfigs(dev.configs, who));
    if Weight(dev.binding, dev.cls, who) == 1 then rest.(binding := 0, cls := None, app := false) else rest
  }

  function DropAll(devs: seq<Device>, who: Option<Puc>): (r: seq<Device>)
    ensures |r| == |devs| && forall d :: 0 <= d < |devs| ==> r[d] == DropDevice(devs[d], who)
  {
    seq(|devs|, d requires 0 <= d < |devs| => DropDevice(devs[d], who))
  }

  // What other classes hold stays.
  lemma {:induction false} DropIfsOther(ifs: seq<Interface>, puc: Puc, c: Puc)
    requires c != puc
    ensures IfsCount(DropIfs(ifs, Some(puc)), Some(c)) == IfsCount(ifs, Some(c))
  {
    if ifs != [] {
      assert DropIfs(ifs, Some(puc))[1..] == DropIfs(ifs[1..], Some(puc));
      DropIfsOther(ifs[1..], puc, c);
    }
  }

  lemma {:induction false} DropConfigsOther(pcs: seq<Config>, puc: Puc, c: Puc)
    requires c != puc
    ensures ConfigsCount(DropConfigs(pcs, Some(puc)), Some(c)) == ConfigsCount(pcs, Some(c))
  {
    if pcs != [] {
      assert DropConfigs(pcs, Some(puc))[1..] == DropConfigs(pcs[1..], Some(puc));
      DropIfsOther(pcs[0].ifs, puc, c);
      DropConfigsOther(pcs[1..], puc, c);
    }
  }

  lemma {:induction false} DropAllOther(devs: seq<Device>, puc: Puc, c: Puc)
    requires c != puc
    ensures Count(DropAll(devs, Some(puc)), Some(c)) == Count(devs, Some(c))
  {
    if devs != [] {
      assert DropAll(devs, Some(puc))[1..] == DropAll(devs[1..], Some(puc));
      DropConfigsOther(devs[0].configs, puc, c);
      DropAllOther(devs[1..], puc, c);
    }
  }

  // Releasing one of them first makes no difference.
  lemma DropDevFirst(devs: seq<Device>, d: nat, who: Option<Puc>)
    requires d < |devs| && Weight(devs[d].binding, devs[d].cls, who) == 1
    ensures DropAll(devs[d := devs[d].(binding := 0, cls := None, app := false)], who) == DropAll(devs, who)
  {
  }

  lemma DropIfFirst(devs: seq<Device>, d: nat, k: nat, i: nat, who: Option<Puc>)
    requires d < |devs| && k < |devs[d].configs| && i < |devs[d].configs[k].ifs|
    requires var f := devs[d].configs[k].ifs[i]; Weight(f.binding, f.cls, who) == 1
    ensures DropAll(devs[d := WithIf(devs[d], k, i, 0, None)], who) == DropAll(devs, who)
  {
    var dev, r := devs[d], WithIf(devs[d], k, i, 0, None);
    assert DropIfs(r.configs[k].ifs, who) == DropIfs(dev.configs[k].ifs, who);
    assert DropConfigs(r.configs, who) == DropConfigs(dev.configs, who);
    assert DropDevice(r, who) == DropDevice(dev, who);
  }

  lemma DropNothing(devs: seq<Device>, who: Option<Puc>)
    requires Count(devs, who) == 0
    ensures DropAll(devs, who) == devs
  {
    CountZero(devs, who);
    forall d | 0 <= d < |devs| ensures DropDevice(devs[d], who) == devs[d] {
      var dev := devs[d];
      ConfigsZero(dev.configs, who);
      forall k | 0 <= k < |dev.configs| ensures DropConfigs(dev.configs, who)[k] == dev.configs[k] {
        IfsZero(dev.configs[k].ifs, who);
        assert DropIfs(dev.configs[k].ifs, who) == dev.configs[k].ifs;
      }
      assert DropConfigs(dev.configs, who) == dev.configs;
    }
  }
}
