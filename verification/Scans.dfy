/**
 What a class scan of one device comes to, told by the answers of the classes and the device:
 which configuration is selected, which interfaces are bound to whom, and who takes the device.
 */
module Scans {
  import opened Common
  import opened Bindings

  // Everything a scan is told. Interfaces stand for their place in the tree, alternates for
  // their place behind the active one, which is 0. A binding of 0 is a refusal.
  datatype Answers = Answers(
    pipe: bool,                                    // a control pipe could be allocated
    forcedDev: Option<string>,                     // the user's forced binding of the device
    forcedIf: (nat, nat, nat) -> Option<string>,   // and of configuration k, interface i, alternate alt
    selects: nat -> bool,                          // whether configuration k can be set
    takes: (nat, nat, nat, Puc) -> nat,            // what a class answers for k, i, alt
    switches: (nat, nat, nat) -> bool,             // whether the device switches to that alternate
    holds: Puc -> nat)                             // what a class answers for the device

  // ------------------------------------------------------------------ one interface

  // The p-th class on the list may have the alternate, and takes it.
  ghost predicate Willing(a: Answers, classes: seq<Puc>, k: nat, i: nat, alt: nat, p: nat) {
    && p < |classes|
    && (a.forcedIf(k, i, alt).None? || a.forcedIf(k, i, alt) == Some(classes[p].name))
    && a.takes(k, i, alt, classes[p]) != 0
  }

  // Some class takes the alternate, and the device switches to it.
  ghost predicate Works(a: Answers, classes: seq<Puc>, k: nat, i: nat, alt: nat) {
    a.switches(k, i, alt) && exists p: nat :: Willing(a, classes, k, i, alt, p)
  }

  // Some alternate of the interface works.
  ghost predicate Wanted(a: Answers, classes: seq<Puc>, k: nat, i: nat, alternates: nat) {
    exists alt: nat :: alt <= alternates && Works(a, classes, k, i, alt)
  }

  // The first alternate that works, and the first class on the list that takes it.
  ghost predicate Wins(a: Answers, classes: seq<Puc>, k: nat, i: nat, alternates: nat, alt: nat, p: nat) {
    && alt <= alternates
    && a.switches(k, i, alt)
    && Willing(a, classes, k, i, alt, p)
    && (forall q: nat :: q < p ==> !Willing(a, classes, k, i, alt, q))
    && (forall b: nat :: b < alt ==> !Works(a, classes, k, i, b))
  }

  // A free interface is bound exactly when one of its alternates works, and then to the winner;
  // a bound one stays as it is.
  ghost predicate IfScanned(a: Answers, classes: seq<Puc>, was: Interface, now: Interface, k: nat, i: nat) {
    if was.binding == 0 && Wanted(a, classes, k, i, was.alternates) then
      exists alt: nat, p: nat :: Wins(a, classes, k, i, was.alternates, alt, p)
        && now == was.(binding := a.takes(k, i, alt, classes[p]), cls := Some(classes[p]))
    else now == was
  }

  // ------------------------------------------------------------------ one configuration

  // Some free interface of the configuration is wanted.
  ghost predicate Taken(a: Answers, classes: seq<Puc>, pc: Config, k: nat, n: nat) {
    exists i :: 0 <= i < n && i < |pc.ifs| && pc.ifs[i].binding == 0 && Wanted(a, classes, k, i, pc.ifs[i].alternates)
  }

  // The first n interfaces of the configuration have been scanned.
  ghost predicate ConfigScanned(a: Answers, classes: seq<Puc>, was: Config, now: Config, k: nat, n: nat) {
    && now == was.(ifs := now.ifs) && |now.ifs| == |was.ifs|
    && (forall i :: 0 <= i < n && i < |was.ifs| ==> IfScanned(a, classes, was.ifs[i], now.ifs[i], k, i))
    && (forall i :: n <= i < |was.ifs| ==> now.ifs[i] == was.ifs[i])
  }

  // ------------------------------------------------------------------ the device

  // The configuration in force when the first n have been tried and none of them had a taker.
  ghost function CurrAfter(a: Answers, dev: Device, n: nat): nat
    requires n <= |dev.configs|
  {
    if n == 0 then dev.currCfg
    else if a.selects(n - 1) then dev.configs[n - 1].cfgNum
    else CurrAfter(a, dev, n - 1)
  }

  // Configuration k is in force when its turn comes, or can be set then.
  ghost predicate Selected(a: Answers, dev: Device, k: nat)
    requires k < |dev.configs|
  {
    a.selects(k) || CurrAfter(a, dev, k) == dev.configs[k].cfgNum
  }

  // The k-th configuration is the first that is in force and has a taker.
  ghost predicate FirstTaken(a: Answers, classes: seq<Puc>, dev: Device, k: nat) {
    && k < |dev.configs|
    && Selected(a, dev, k) && Taken(a, classes, dev.configs[k], k, |dev.configs[k].ifs|)
    && NoneTaken(a, classes, dev, k)
  }

  // None of the first n is.
  ghost predicate NoneTaken(a: Answers, classes: seq<Puc>, dev: Device, n: nat)
    requires n <= |dev.configs|
  {
    forall j :: 0 <= j < n ==> !Selected(a, dev, j) || !Taken(a, classes, dev.configs[j], j, |dev.configs[j].ifs|)
  }

  // The interface stage of a device with free interfaces only, after n configurations: either
  // none had a taker, or the first that had is selected and scanned, and no other is touched.
  ghost predicate FreeScanned(a: Answers, classes: seq<Puc>, was: Device, now: Device, n: nat)
    requires n <= |was.configs|
  {
    if NoneTaken(a, classes, was, n) then now == was.(currCfg := CurrAfter(a, was, n))
    else exists k: nat :: k < n && FirstTaken(a, classes, was, k) && OneScanned(a, classes, was, now, k)
  }

  ghost predicate OneScanned(a: Answers, classes: seq<Puc>, was: Device, now: Device, k: nat)
    requires k < |was.configs|
  {
    && |now.configs| == |was.configs|
    && now == was.(currCfg := was.configs[k].cfgNum, configs := was.configs[k := now.configs[k]])
    && ConfigScanned(a, classes, was.configs[k], now.configs[k], k, |was.configs[k].ifs|)
  }

  // The same of a device with bound interfaces: its configuration stays, and only the interfaces
  // of that one are scanned.
  ghost predicate BoundScanned(a: Answers, classes: seq<Puc>, was: Device, now: Device, n: nat) {
    && now == was.(configs := now.configs) && |now.configs| == |was.configs|
    && forall k :: 0 <= k < |was.configs| ==>
         if k < n && was.configs[k].cfgNum == was.currCfg
         then ConfigScanned(a, classes, was.configs[k], now.configs[k], k, |was.configs[k].ifs|)
         else now.configs[k] == was.configs[k]
  }

  // The first class on the list that takes the device; with a forced one, only the first of that
  // name is asked.
  ghost predicate Holds(a: Answers, classes: seq<Puc>, forced: Option<string>, p: nat) {
    && p < |classes|
    && a.holds(classes[p]) != 0
    && match forced
       case None => forall q: nat :: q < p ==> a.holds(classes[q]) == 0
       case Some(name) => classes[p].name == name && forall q: nat :: q < p ==> classes[q].name != name
  }

  ghost predicate DeviceOffered(a: Answers, classes: seq<Puc>, forced: Option<string>, was: Device, now: Device) {
    if exists p: nat :: Holds(a, classes, forced, p) then
      exists p: nat :: Holds(a, classes, forced, p) && now == was.(binding := a.holds(classes[p]), cls := Some(classes[p]))
    else now == was
  }

  // ------------------------------------------------------------------ the whole scan

  ghost predicate Scanned(a: Answers, classes: seq<Puc>, was: Device, now: Device) {
    if was.noClassBind || was.binding != 0 || !a.pipe then now == was
    else if ConfigsCount(was.configs, None) > 0 then BoundScanned(a, classes, was, now, |was.configs|)
    else if a.forcedDev.Some? then DeviceOffered(a, classes, a.forcedDev, was, now)
    else if NoneTaken(a, classes, was, |was.configs|) then
      DeviceOffered(a, classes, None, was.(currCfg := CurrAfter(a, was, |was.configs|)), now)
    else FreeScanned(a, classes, was, now, |was.configs|)
  }

  // ------------------------------------------------------------------ the scan step by step

  // Nothing but interface i of configuration k is different, or nothing but configuration k.
  ghost predicate SameBut(was: Device, now: Device, k: nat, i: nat)
    requires k < |was.configs| && i < |was.configs[k].ifs|
  {
    && OneConfig(was, now, k)
    && now.configs[k] == was.configs[k].(ifs := was.configs[k].ifs[i := now.configs[k].ifs[i]])
  }

  ghost predicate OneConfig(was: Device, now: Device, k: nat)
    requires k < |was.configs|
  {
    && |now.configs| == |was.configs|
    && now == was.(configs := was.configs[k := now.configs[k]])
    && |now.configs[k].ifs| == |was.configs[k].ifs|
    && now.configs[k].cfgNum == was.configs[k].cfgNum
  }

  lemma SameConfig(dev: Device, k: nat)
    requires k < |dev.configs|
    ensures OneConfig(dev, dev, k)
  {
    assert dev.configs == dev.configs[k := dev.configs[k]];
  }

  lemma SameAll(dev: Device, k: nat, i: nat)
    requires k < |dev.configs| && i < |dev.configs[k].ifs|
    ensures SameBut(dev, dev, k, i)
  {
    SameConfig(dev, k);
    assert dev.configs[k].ifs == dev.configs[k].ifs[i := dev.configs[k].ifs[i]];
  }

  // The first n interfaces of configuration k have been offered, and `bound` says whether one of
  // them was taken.
  ghost predicate Offered(a: Answers, classes: seq<Puc>, was: Device, now: Device, k: nat, n: nat, bound: bool)
    requires k < |was.configs|
  {
    && n <= |was.configs[k].ifs|
    && OneConfig(was, now, k)
    && ConfigScanned(a, classes, was.configs[k], now.configs[k], k, n)
    && (bound <==> Taken(a, classes, was.configs[k], k, n))
  }

  lemma NoneOffered(a: Answers, classes: seq<Puc>, dev: Device, k: nat)
    requires k < |dev.configs|
    ensures Offered(a, classes, dev, dev, k, 0, false)
  {
    SameConfig(dev, k);
  }

  lemma ConfigNext(a: Answers, classes: seq<Puc>, was: Config, mid: Config, now: Config, k: nat, i: nat)
    requires i < |was.ifs| && ConfigScanned(a, classes, was, mid, k, i)
    requires |now.ifs| == |mid.ifs| && now == mid.(ifs := mid.ifs[i := now.ifs[i]])
    requires IfScanned(a, classes, mid.ifs[i], now.ifs[i], k, i)
    ensures ConfigScanned(a, classes, was, now, k, i + 1)
  {
  }

  // One more interface.
  lemma OfferedNext(a: Answers, classes: seq<Puc>, was: Device, mid: Device, now: Device, k: nat, i: nat, bound: bool, hit: bool)
    requires k < |was.configs| && i < |was.configs[k].ifs| && Offered(a, classes, was, mid, k, i, bound)
    requires SameBut(mid, now, k, i)
    requires var f := mid.configs[k].ifs[i];
      && IfScanned(a, classes, f, now.configs[k].ifs[i], k, i)
      && (hit <==> f.binding == 0 && Wanted(a, classes, k, i, f.alternates))
    ensures Offered(a, classes, was, now, k, i + 1, bound || hit)
  {
    ConfigNext(a, classes, was.configs[k], mid.configs[k], now.configs[k], k, i);
    assert was.configs[k := mid.configs[k]][k := now.configs[k]] == was.configs[k := now.configs[k]];
  }

  // What the turn of configuration k comes to.
  ghost predicate Turned(a: Answers, classes: seq<Puc>, was: Device, now: Device, k: nat, bound: bool)
    requires k < |was.configs|
  {
    var pc := was.configs[k];
    var inForce := a.selects(k) || was.currCfg == pc.cfgNum;
    && (bound <==> inForce && Taken(a, classes, pc, k, |pc.ifs|))
    && if bound then OneScanned(a, classes, was, now, k)
       else now == was.(currCfg := if inForce then pc.cfgNum else was.currCfg)
  }

  // With no taker an offer changes nothing.
  lemma NothingTaken(a: Answers, classes: seq<Puc>, was: Config, now: Config, k: nat)
    requires !Taken(a, classes, was, k, |was.ifs|)
    ensures ConfigScanned(a, classes, was, now, k, |was.ifs|) <==> now == was
  {
    if ConfigScanned(a, classes, was, now, k, |was.ifs|) {
      assert now.ifs == was.ifs;
    }
  }

  lemma TurnIs(a: Answers, classes: seq<Puc>, was: Device, mid: Device, now: Device, k: nat, bound: bool)
    requires k < |was.configs| && mid == was.(currCfg := was.configs[k].cfgNum)
    requires a.selects(k) || was.currCfg == was.configs[k].cfgNum
    requires OneConfig(mid, now, k) && ConfigScanned(a, classes, mid.configs[k], now.configs[k], k, |mid.configs[k].ifs|)
    requires bound <==> Taken(a, classes, mid.configs[k], k, |mid.configs[k].ifs|)
    ensures Turned(a, classes, was, now, k, bound)
  {
    if !bound {
      NothingTaken(a, classes, mid.configs[k], now.configs[k], k);
      SameConfig(mid, k);
    }
  }

  // The interface stage after n configurations; `has` is the one with bound interfaces, or 0.
  ghost predicate ConfigsScanned(a: Answers, classes: seq<Puc>, was: Device, now: Device, n: nat, has: nat)
    requires n <= |was.configs|
  {
    if ConfigsCount(was.configs, None) > 0 then BoundScanned(a, classes, was, now, n) && has == was.currCfg != 0
    else
      && FreeScanned(a, classes, was, now, n)
      && (has == 0 <==> NoneTaken(a, classes, was, n))
      && (has != 0 ==> has == now.currCfg)
  }

  lemma NoConfigYet(a: Answers, classes: seq<Puc>, dev: Device, has: nat)
    requires (has != 0 <==> ConfigsCount(dev.configs, None) > 0) && (has != 0 ==> has == dev.currCfg)
    ensures ConfigsScanned(a, classes, dev, dev, 0, has)
  {
  }

  lemma SameShape(a: Answers, classes: seq<Puc>, was: Device, mid: Device, n: nat, has: nat)
    requires n <= |was.configs| && ConfigsScanned(a, classes, was, mid, n, has)
    ensures |mid.configs| == |was.configs| && mid.binding == was.binding
    ensures forall k :: 0 <= k < |was.configs| ==> mid.configs[k].cfgNum == was.configs[k].cfgNum
    ensures forall k :: n <= k < |was.configs| ==> mid.configs[k] == was.configs[k]
  {
  }

  // A configuration that gets a turn may be selected: no interface is bound, or only its own.
  lemma MayTurn(a: Answers, classes: seq<Puc>, was: Device, mid: Device, n: nat, has: nat)
    requires DeviceOk(was) && n < |was.configs| && ConfigsScanned(a, classes, was, mid, n, has)
    ensures |mid.configs| == |was.configs|
    ensures has == 0 ==> ConfigsCount(mid.configs, None) == 0
    ensures has == mid.configs[n].cfgNum ==> mid.currCfg == mid.configs[n].cfgNum
  {
    SameShape(a, classes, was, mid, n, has);
    assert ConfigOk(was.configs[n], was.currCfg);
  }

  lemma FreeTurn(a: Answers, classes: seq<Puc>, was: Device, mid: Device, now: Device, n: nat, bound: bool)
    requires n < |was.configs| && NoneTaken(a, classes, was, n) && mid == was.(currCfg := CurrAfter(a, was, n))
    requires Turned(a, classes, mid, now, n, bound)
    ensures FreeScanned(a, classes, was, now, n + 1)
    ensures bound <==> !NoneTaken(a, classes, was, n + 1)
    ensures bound ==> now.currCfg == was.configs[n].cfgNum
  {
    assert Selected(a, was, n) <==> a.selects(n) || mid.currCfg == mid.configs[n].cfgNum;
    if bound {
      assert OneScanned(a, classes, was, now, n);
      assert FirstTaken(a, classes, was, n);
    }
  }

  lemma BoundTurn(a: Answers, classes: seq<Puc>, was: Device, mid: Device, now: Device, n: nat, bound: bool)
    requires n < |was.configs| && BoundScanned(a, classes, was, mid, n) && was.currCfg == was.configs[n].cfgNum
    requires Turned(a, classes, mid, now, n, bound)
    ensures BoundScanned(a, classes, was, now, n + 1)
  {
    var pc := was.configs[n];
    assert mid.configs[n] == pc;
    if !bound {
      NothingTaken(a, classes, pc, pc, n);
    }
    assert ConfigScanned(a, classes, pc, now.configs[n], n, |pc.ifs|);
  }

  // Two configurations have different numbers.
  lemma OtherNumber(a: Answers, classes: seq<Puc>, was: Device, mid: Device, n: nat)
    requires DeviceOk(was) && n < |was.configs| && FreeScanned(a, classes, was, mid, n) && !NoneTaken(a, classes, was, n)
    ensures mid.currCfg != was.configs[n].cfgNum
  {
  }

  lemma TurnScanned(a: Answers, classes: seq<Puc>, was: Device, mid: Device, now: Device, n: nat, had: nat, bound: bool, has: nat)
    requires DeviceOk(was) && n < |was.configs| && ConfigsScanned(a, classes, was, mid, n, had)
    requires n < |mid.configs| && (had == 0 || had == mid.configs[n].cfgNum) && Turned(a, classes, mid, now, n, bound)
    requires has == if bound then mid.configs[n].cfgNum else had
    ensures ConfigsScanned(a, classes, was, now, n + 1, has)
    ensures |now.configs| == |was.configs| && now.binding == was.binding
  {
    SameShape(a, classes, was, mid, n, had);
    assert ConfigOk(was.configs[n], was.currCfg);
    if ConfigsCount(was.configs, None) > 0 {
      BoundTurn(a, classes, was, mid, now, n, bound);
    } else {
      if had != 0 {
        OtherNumber(a, classes, was, mid, n);
      }
      FreeTurn(a, classes, was, mid, now, n, bound);
    }
  }

  lemma TurnSkipped(a: Answers, classes: seq<Puc>, was: Device, mid: Device, n: nat, has: nat)
    requires DeviceOk(was) && n < |was.configs| && ConfigsScanned(a, classes, was, mid, n, has)
    requires n < |mid.configs| && has != 0 && has != mid.configs[n].cfgNum
    ensures ConfigsScanned(a, classes, was, mid, n + 1, has)
  {
    SameShape(a, classes, was, mid, n, has);
  }

  // After the interface stage the device is free exactly when nothing was bound in it.
  lemma StageEnds(a: Answers, classes: seq<Puc>, was: Device, mid: Device, has: nat)
    requires !was.noClassBind && was.binding == 0 && a.pipe && (ConfigsCount(was.configs, None) > 0 || a.forcedDev.None?)
    requires ConfigsScanned(a, classes, was, mid, |was.configs|, has)
    ensures has == 0 ==> DeviceCount(mid, None) == 0
    ensures forall now :: (if has == 0 then DeviceOffered(a, classes, None, mid, now) else now == mid) ==> Scanned(a, classes, was, now)
  {
  }

  // ------------------------------------------------------------------ facts about the answers

  // A configuration is in force when its turn comes exactly when it can be set, or it was in
  // force before and none in front of it can be set.
  lemma SelectedIff(a: Answers, dev: Device, k: nat)
    requires k < |dev.configs| && DistinctCfgs(dev.configs)
    ensures Selected(a, dev, k) <==>
            a.selects(k) || (dev.currCfg == dev.configs[k].cfgNum && forall j :: 0 <= j < k ==> !a.selects(j))
  {
    CurrAfterIs(a, dev, k);
  }

  // The last configuration that could be set is in force, or the one before if none could.
  lemma {:induction false} CurrAfterIs(a: Answers, dev: Device, n: nat)
    requires n <= |dev.configs|
    ensures if forall j :: 0 <= j < n ==> !a.selects(j) then CurrAfter(a, dev, n) == dev.currCfg
            else exists j :: 0 <= j < n && a.selects(j) && CurrAfter(a, dev, n) == dev.configs[j].cfgNum &&
                   forall l :: j < l < n ==> !a.selects(l)
  {
    if n > 0 && !a.selects(n - 1) {
      CurrAfterIs(a, dev, n - 1);
    }
  }

  // The winner is the only one.
  lemma OneWinner(a: Answers, classes: seq<Puc>, k: nat, i: nat, alternates: nat, alt: nat, p: nat, alt': nat, p': nat)
    requires Wins(a, classes, k, i, alternates, alt, p) && Wins(a, classes, k, i, alternates, alt', p')
    ensures alt == alt' && p == p'
  {
    assert Works(a, classes, k, i, alt) && Works(a, classes, k, i, alt');
  }

  // ------------------------------------------------------------------ what a scan keeps

  // A class that may take an interface: it is on the list, and for one of the alternates it is
  // the class the user forces, or none is forced.
  ghost predicate MayTake(puc: Puc, classes: seq<Puc>, forced: (nat, nat, nat) -> Option<string>, k: nat, i: nat, alternates: nat) {
    puc in classes && exists alt :: 0 <= alt <= alternates && (forced(k, i, alt).None? || forced(k, i, alt) == Some(puc.name))
  }

  // A scan only adds bindings, of classes that may have them: the tree is the same, whatever
  // was bound still is, and with bound interfaces the configuration stays.
  ghost predicate Kept(a: Device, b: Device, classes: seq<Puc>, forcedDev: Option<string>,
                       forcedIf: (nat, nat, nat) -> Option<string>) {
    && b.noClassBind == a.noClassBind && b.app == a.app && |b.configs| == |a.configs|
    && (a.binding != 0 ==> b == a)
    && (ConfigsCount(a.configs, None) > 0 ==> b.currCfg == a.currCfg && b.binding == 0)
    && (a.binding == 0 && b.binding != 0 ==>
          && b.cls.Some? && b.cls.value in classes && (forcedDev.None? || forcedDev == Some(b.cls.value.name)))
    && forall k :: 0 <= k < |a.configs| ==> KeptConfig(a.configs[k], b.configs[k], classes, forcedIf, k)
  }

  ghost predicate KeptConfig(a: Config, b: Config, classes: seq<Puc>, forcedIf: (nat, nat, nat) -> Option<string>, k: nat) {
    && b.cfgNum == a.cfgNum && |b.ifs| == |a.ifs|
    && forall i :: 0 <= i < |a.ifs| ==> KeptIf(a.ifs[i], b.ifs[i], classes, forcedIf, k, i)
  }

  ghost predicate KeptIf(a: Interface, b: Interface, classes: seq<Puc>, forcedIf: (nat, nat, nat) -> Option<string>, k: nat, i: nat) {
    && b.ifNum == a.ifNum && b.alternates == a.alternates
    && if a.binding != 0 || b.binding == 0 then b == a
       else b.cls.Some? && MayTake(b.cls.value, classes, forcedIf, k, i, a.alternates)
  }

  lemma IfKept(a: Answers, classes: seq<Puc>, was: Interface, now: Interface, k: nat, i: nat)
    requires IfScanned(a, classes, was, now, k, i)
    ensures KeptIf(was, now, classes, a.forcedIf, k, i)
  {
  }

  lemma ConfigKept(a: Answers, classes: seq<Puc>, was: Config, now: Config, k: nat)
    requires ConfigScanned(a, classes, was, now, k, |was.ifs|)
    ensures KeptConfig(was, now, classes, a.forcedIf, k)
  {
    forall i | 0 <= i < |was.ifs|
      ensures KeptIf(was.ifs[i], now.ifs[i], classes, a.forcedIf, k, i)
    {
      IfKept(a, classes, was.ifs[i], now.ifs[i], k, i);
    }
  }

  lemma SameConfigKept(pc: Config, classes: seq<Puc>, forcedIf: (nat, nat, nat) -> Option<string>, k: nat)
    ensures KeptConfig(pc, pc, classes, forcedIf, k)
  {
  }

  lemma ConfigsKept(a: Answers, classes: seq<Puc>, was: Device, now: Device)
    requires Scanned(a, classes, was, now)
    ensures |now.configs| == |was.configs|
    ensures forall k :: 0 <= k < |was.configs| ==> KeptConfig(was.configs[k], now.configs[k], classes, a.forcedIf, k)
  {
    forall k | 0 <= k < |was.configs|
      ensures |now.configs| == |was.configs| && KeptConfig(was.configs[k], now.configs[k], classes, a.forcedIf, k)
    {
      if now.configs[k] == was.configs[k] {
        SameConfigKept(was.configs[k], classes, a.forcedIf, k);
      } else {
        ConfigKept(a, classes, was.configs[k], now.configs[k], k);
      }
    }
  }

  lemma ScanKeeps(a: Answers, classes: seq<Puc>, was: Device, now: Device)
    requires DeviceOk(was) && Scanned(a, classes, was, now)
    ensures Kept(was, now, classes, a.forcedDev, a.forcedIf)
  {
    ConfigsKept(a, classes, was, now);
    if now.binding != was.binding {
      DeviceKept(a, classes, a.forcedDev, was.(currCfg := now.currCfg), now);
    }
  }

  lemma DeviceKept(a: Answers, classes: seq<Puc>, forced: Option<string>, was: Device, now: Device)
    requires DeviceOffered(a, classes, forced, was, now) && now.binding != was.binding
    ensures now.cls.Some? && now.cls.value in classes && (forced.None? || forced == Some(now.cls.value.name))
    ensures now.app == was.app && now.noClassBind == was.noClassBind && now.currCfg == was.currCfg
  {
  }
}
