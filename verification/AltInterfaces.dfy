/**
 psdSetAltInterface on the linked structures: the nodes of pc_Interfaces and pif_AlterIfs are
 moved between lists, and end up as module AltSetting says.
 */
module AltInterfaces {
  import opened AltSetting

  // struct PsdInterface.
  class Node {
    const ifNum: nat
    const num: nat             // pif_Alternate
    var eps: seq<Endpoint>
    var clsBinding: nat
    var ifBinding: nat
    var parentIf: Node?
    var alterIfs: seq<Node>

    constructor (ifNum: nat, num: nat, eps: seq<Endpoint>, parentIf: Node?)
      ensures this.ifNum == ifNum && this.num == num && this.eps == eps
      ensures this.parentIf == parentIf && alterIfs == [] && clsBinding == 0 && ifBinding == 0
    {
      this.ifNum, this.num, this.eps, this.parentIf := ifNum, num, eps, parentIf;
      clsBinding, ifBinding, alterIfs := 0, 0, [];
    }

    ghost function Setting(): Alternate
      reads this
    {
      Alternate(num, eps)
    }
  }

  ghost function Settings(ns: seq<Node>): (r: seq<Alternate>)
    reads ns
    ensures |r| == |ns| && forall j :: 0 <= j < |ns| ==> r[j] == ns[j].Setting()
  {
    if ns == [] then [] else [ns[0].Setting()] + Settings(ns[1..])
  }

  ghost function Meaning(n: Node): Interface
    reads n, n.alterIfs
  {
    Interface(n.ifNum, n.Setting(), Settings(n.alterIfs), Binding(n.clsBinding, n.ifBinding))
  }

  // The other alternates of a head point to it and hold nothing themselves.
  ghost predicate ChildOk(m: Node, n: Node)
    reads m
  {
    m.parentIf == n && m.ifNum == n.ifNum && m.alterIfs == [] && m.clsBinding == 0 && m.ifBinding == 0
  }

  ghost predicate NoDuplicates(ns: seq<Node>) {
    ns != [] ==> ns[0] !in ns[1..] && NoDuplicates(ns[1..])
  }

  lemma {:induction false} Unique(ns: seq<Node>, k: nat)
    requires NoDuplicates(ns) && k < |ns|
    ensures forall j :: 0 <= j < |ns| && j != k ==> ns[j] != ns[k]
  {
    if k == 0 {
      assert forall j :: 0 < j < |ns| ==> ns[j] == ns[1..][j - 1];
    } else {
      Unique(ns[1..], k - 1);
      forall j | 0 <= j < |ns| && j != k ensures ns[j] != ns[k] {
        assert ns[k] == ns[1..][k - 1];
        assert j > 0 ==> ns[j] == ns[1..][j - 1];
      }
    }
  }

  lemma {:induction false} AllUnique(ns: seq<Node>)
    requires forall j, l :: 0 <= j < l < |ns| ==> ns[j] != ns[l]
    ensures NoDuplicates(ns)
  {
    if ns != [] {
      AllUnique(ns[1..]);
    }
  }

  // One interface: a head and its other alternates, which point back to it.
  ghost predicate HeadOk(n: Node)
    reads n, n.alterIfs
  {
    && n.parentIf == null
    && (forall j :: 0 <= j < |n.alterIfs| ==> ChildOk(n.alterIfs[j], n))
    && NoDuplicates(n.alterIfs)
  }

  // The endpoints the controller knows, with their tokens.
  class Controller {
    var endpoints: map<nat, nat>
  }

  // pContextSetInterface; `answer` is how the op ends.
  method ContextSet(hcd: Controller, from: Node, to: Node, answer: OpAnswer) returns (failed: bool)
    requires from != to
    modifies hcd, from`eps, to`eps
    ensures var op := ContextSetInterface(old(hcd.endpoints), old(from.Setting()), old(to.Setting()), answer);
      && from.eps == op.from.eps && to.eps == op.to.eps && hcd.endpoints == op.hcd && failed == !op.ok
  {
    if from.eps == [] && to.eps == [] {
      return false;
    }
    var adds, drops := Addrs(to.eps), Addrs(from.eps);
    from.eps := Forget(from.eps);
    match answer
    case OpFailed =>
      return true;
    case OpDone(tokens) =>
      hcd.endpoints := Configure(hcd.endpoints, drops, adds, tokens);
      to.eps := Issue(to.eps, tokens);
      return false;
  }

  // The nodes of a list have another parent and are otherwise as before.
  twostate predicate Reparented(ns: seq<Node>, parent: Node)
    reads ns
  {
    forall n :: n in ns ==>
      && n.parentIf == parent
      && n.eps == old(n.eps) && n.alterIfs == old(n.alterIfs)
      && n.clsBinding == old(n.clsBinding) && n.ifBinding == old(n.ifBinding)
  }

  // The loop that moves the remaining alternates to the new root.
  method MoveAll(curif: Node, pif: Node)
    requires curif != pif && pif.alterIfs == [] && curif !in curif.alterIfs && pif !in curif.alterIfs
    modifies curif`alterIfs, pif`alterIfs, curif.alterIfs
    ensures curif.alterIfs == [] && pif.alterIfs == old(curif.alterIfs)
    ensures Reparented(pif.alterIfs, pif)
  {
    ghost var all := curif.alterIfs;
    ghost var done := 0;
    while curif.alterIfs != []
      invariant done <= |all| && pif.alterIfs == all[..done] && curif.alterIfs == all[done..]
      invariant Reparented(all[..done], pif)
      invariant forall n :: n in all ==> n.eps == old(n.eps) && n.alterIfs == old(n.alterIfs)
      invariant forall n :: n in all ==> n.clsBinding == old(n.clsBinding) && n.ifBinding == old(n.ifBinding)
      decreases |curif.alterIfs|
    {
      var tmpif := curif.alterIfs[0];
      assert tmpif == all[done];
      curif.alterIfs := curif.alterIfs[1..];
      pif.alterIfs := pif.alterIfs + [tmpif];
      tmpif.parentIf := pif;
      done := done + 1;
    }
  }

  // Remove(&pif->pif_Node) from the list it is in.
  method Unlink(list: seq<Node>, n: Node, ghost k: nat) returns (r: seq<Node>)
    requires k < |list| && list[k] == n && forall j :: 0 <= j < k ==> list[j] != n
    ensures r == list[..k] + list[k + 1..]
  {
    var at := 0;
    while list[at] != n
      invariant at <= k
      decreases k - at
    {
      at := at + 1;
    }
    r := list[..at] + list[at + 1..];
  }

  // What the surgery does: pif takes the place of curif.
  twostate predicate Moved(curif: Node, pif: Node, k: nat)
    requires k < old(|curif.alterIfs|)
    reads pif, pif.alterIfs
  {
    && pif.alterIfs == old(curif.alterIfs[..k] + curif.alterIfs[k + 1..]) + [curif]
    && pif.parentIf == null && pif.eps == old(pif.eps)
    && pif.clsBinding == old(curif.clsBinding) && pif.ifBinding == old(curif.ifBinding)
    && forall n :: n in pif.alterIfs ==> ChildOk(n, pif) && n.eps == old(n.eps)
  }

  method Promote(curif: Node, pif: Node, ghost k: nat)
    requires HeadOk(curif) && k < |curif.alterIfs| && pif == curif.alterIfs[k]
    modifies curif, curif.alterIfs
    ensures Moved(curif, pif, k)
  {
    ghost var others := curif.alterIfs[..k] + curif.alterIfs[k + 1..];
    Unique(curif.alterIfs, k);
    assert forall n :: n in others ==> n in curif.alterIfs && n != pif && n != curif && ChildOk(n, curif);
    curif.alterIfs := Unlink(curif.alterIfs, pif, k);
    pif.parentIf := null;
    pif.clsBinding, pif.ifBinding := curif.clsBinding, curif.ifBinding;
    curif.ifBinding, curif.clsBinding := 0, 0;
    MoveAll(curif, pif);
    pif.alterIfs := pif.alterIfs + [curif];
    curif.parentIf := pif;
  }

  lemma MovedAt<T>(s: seq<T>, k: nat, x: T, j: nat)
    requires k < |s| && j < |s|
    ensures (s[..k] + s[k + 1..] + [x])[j] == if j < k then s[j] else if j < |s| - 1 then s[j + 1] else x
  {
  }

  // Moved, told by what curif meant before (`was`) and the nodes it had (`nodes`).
  lemma MovedIsRotate(was: Interface, nodes: seq<Node>, curif: Node, pif: Node, k: nat)
    requires |was.others| == |nodes| && k < |nodes| && nodes[k] == pif
    requires pif.alterIfs == nodes[..k] + nodes[k + 1..] + [curif]
    requires forall j :: 0 <= j < |nodes| ==> nodes[j].Setting() == was.others[j]
    requires curif.Setting() == was.current
    requires pif.ifNum == was.ifNum && Binding(pif.clsBinding, pif.ifBinding) == was.binding
    ensures Meaning(pif) == Rotate(was, k)
  {
    var target := was.others[..k] + was.others[k + 1..] + [was.current];
    forall j | 0 <= j < |nodes| ensures Settings(pif.alterIfs)[j] == target[j] {
      MovedAt(nodes, k, curif, j);
      MovedAt(was.others, k, was.current, j);
    }
    assert Settings(pif.alterIfs) == target;
  }

  // The new head is one, too.
  lemma HeadMoved(nodes: seq<Node>, curif: Node, pif: Node, k: nat)
    requires k < |nodes| && pif.alterIfs == nodes[..k] + nodes[k + 1..] + [curif]
    requires pif.parentIf == null && forall n :: n in pif.alterIfs ==> ChildOk(n, pif)
    requires curif !in nodes && NoDuplicates(nodes)
    ensures HeadOk(pif)
  {
    forall j, l | 0 <= j < l < |nodes| ensures pif.alterIfs[j] != pif.alterIfs[l] {
      MovedAt(nodes, k, curif, j);
      MovedAt(nodes, k, curif, l);
      Unique(nodes, if j < k then j else j + 1);
    }
    AllUnique(pif.alterIfs);
  }

  lemma WithIs(f: Interface, g: Interface, k: nat)
    requires k < |f.others| && |g.others| == |f.others| && g.ifNum == f.ifNum && g.binding == f.binding
    requires forall j :: 0 <= j < |f.others| && j != k ==> g.others[j] == f.others[j]
    ensures g == WithAlternates(f, k, g.current, g.others[k])
  {
    assert g.others == f.others[k := g.others[k]];
  }

  // A head of which only the endpoints of two alternates changed.
  lemma Changed(head: Node, f: Interface, k: nat)
    requires HeadOk(head) && k < |head.alterIfs| == |f.others|
    requires head.ifNum == f.ifNum && Binding(head.clsBinding, head.ifBinding) == f.binding
    requires forall j :: 0 <= j < |f.others| && j != k ==> head.alterIfs[j].Setting() == f.others[j]
    ensures Meaning(head) == WithAlternates(f, k, head.Setting(), head.alterIfs[k].Setting())
  {
    WithIs(f, Meaning(head), k);
  }

  lemma OpNums(hcd: map<nat, nat>, from: Alternate, to: Alternate, answer: OpAnswer)
    ensures var op := ContextSetInterface(hcd, from, to, answer); op.from.num == from.num && op.to.num == to.num
  {
  }

  // pContextSetInterface from a head to one of its alternates.
  method Leave(hcd: Controller, head: Node, other: Node, answer: OpAnswer, ghost k: nat) returns (failed: bool)
    requires HeadOk(head) && k < |head.alterIfs| && other == head.alterIfs[k]
    modifies hcd, head`eps, other`eps
    ensures HeadOk(head)
    ensures var f := old(Meaning(head));
            var op := ContextSetInterface(old(hcd.endpoints), f.current, f.others[k], answer);
      hcd.endpoints == op.hcd && failed == !op.ok && Meaning(head) == WithAlternates(f, k, op.from, op.to)
  {
    ghost var f := Meaning(head);
    ghost var op := ContextSetInterface(hcd.endpoints, f.current, f.others[k], answer);
    Unique(head.alterIfs, k);
    OpNums(hcd.endpoints, f.current, f.others[k], answer);
    failed := ContextSet(hcd, head, other, answer);
    Changed(head, f, k);
    assert head.Setting() == op.from && other.Setting() == op.to;
  }

  // And back again.
  method TakeBack(hcd: Controller, head: Node, other: Node, answer: OpAnswer, ghost k: nat) returns (failed: bool)
    requires HeadOk(head) && k < |head.alterIfs| && other == head.alterIfs[k]
    modifies hcd, head`eps, other`eps
    ensures HeadOk(head)
    ensures var f := old(Meaning(head));
            var op := ContextSetInterface(old(hcd.endpoints), f.others[k], f.current, answer);
      hcd.endpoints == op.hcd && failed == !op.ok && Meaning(head) == WithAlternates(f, k, op.to, op.from)
  {
    ghost var f := Meaning(head);
    ghost var op := ContextSetInterface(hcd.endpoints, f.others[k], f.current, answer);
    Unique(head.alterIfs, k);
    OpNums(hcd.endpoints, f.others[k], f.current, answer);
    failed := ContextSet(hcd, other, head, answer);
    Changed(head, f, k);
    assert head.Setting() == op.to && other.Setting() == op.from;
  }

  // Promote, told by what the nodes mean.
  method PromoteHead(curif: Node, pif: Node, ghost k: nat)
    requires HeadOk(curif) && k < |curif.alterIfs| && pif == curif.alterIfs[k]
    modifies curif, curif.alterIfs
    ensures HeadOk(pif) && Meaning(pif) == Rotate(old(Meaning(curif)), k)
    ensures pif.alterIfs == old(curif.alterIfs[..k] + curif.alterIfs[k + 1..]) + [curif]
  {
    ghost var was, nodes := Meaning(curif), curif.alterIfs;
    assert curif !in nodes;
    Unique(nodes, k);
    Promote(curif, pif, k);
    forall j | 0 <= j < |nodes| ensures nodes[j].Setting() == was.others[j] {
      if j < k {
        assert pif.alterIfs[j] == nodes[j];
      } else if j > k {
        assert pif.alterIfs[j - 1] == nodes[j];
      }
    }
    assert curif in pif.alterIfs;
    MovedIsRotate(was, nodes, curif, pif, k);
    HeadMoved(nodes, curif, pif, k);
  }

  lemma WithTwice(f: Interface, k: nat, a: Alternate, b: Alternate, c: Alternate, d: Alternate)
    requires k < |f.others|
    ensures var g := WithAlternates(f, k, a, b);
      g.current == a && g.others[k] == b && WithAlternates(g, k, c, d) == WithAlternates(f, k, c, d)
  {
  }

  // psdSetAltInterface with a pipe, once the head of the interface is found.
  method SwitchOne(hcd: Controller, curif: Node, pif: Node, a: Answers, ghost k: nat) returns (ok: bool)
    requires HeadOk(curif) && k < |curif.alterIfs| && pif == curif.alterIfs[k]
    modifies hcd, curif, curif.alterIfs
    ensures HeadOk(if ok then pif else curif)
    ensures One(Meaning(if ok then pif else curif), hcd.endpoints, ok) == SetOne(old(Meaning(curif)), old(hcd.endpoints), k, a)
    ensures ok ==> pif.alterIfs == old(curif.alterIfs[..k] + curif.alterIfs[k + 1..]) + [curif]
    ensures !ok ==> curif.alterIfs == old(curif.alterIfs)
  {
    ghost var f := Meaning(curif);
    ghost var op := ContextSetInterface(hcd.endpoints, f.current, f.others[k], a.first);
    ghost var back := ContextSetInterface(op.hcd, op.to, op.from, a.back);
    WithTwice(f, k, op.from, op.to, back.to, back.from);
    var failed := Leave(hcd, curif, pif, a.first, k);
    if failed {
      return false;
    }
    assert pif.num == f.others[k].num;
    if (a.setErr == 0 || a.setErr == UHIOERR_STALL) && a.getErr == 0 && a.got == pif.num {
      PromoteHead(curif, pif, k);
      return true;
    }
    var _ := TakeBack(hcd, curif, pif, a.back, k);
    return false;
  }

  // psdSetAltInterface once the head is found; `pp` says whether there is a pipe.
  method SwitchNode(hcd: Controller, curif: Node, pif: Node, pp: bool, a: Answers, ghost k: nat) returns (ok: bool)
    requires HeadOk(curif) && k < |curif.alterIfs| && pif == curif.alterIfs[k]
    modifies hcd, curif, curif.alterIfs
    ensures HeadOk(if ok then pif else curif)
    ensures var f, now := old(Meaning(curif)), Meaning(if ok then pif else curif);
      if pp then One(now, hcd.endpoints, ok) == SetOne(f, old(hcd.endpoints), k, a)
      else ok && now == Rotate(f, k) && hcd.endpoints == old(hcd.endpoints)
  {
    if pp {
      ok := SwitchOne(hcd, curif, pif, a, k);
    } else {
      PromoteHead(curif, pif, k);
      ok := true;
    }
  }

  // Two interfaces have no node in common.
  ghost predicate Apart(a: Node, b: Node)
    reads a, b
  {
    a != b && a !in b.alterIfs && b !in a.alterIfs && forall m :: m in a.alterIfs ==> m !in b.alterIfs
  }

  lemma DifferentNumbers(a: Node, b: Node)
    requires HeadOk(a) && HeadOk(b) && a.ifNum != b.ifNum
    ensures Apart(a, b)
  {
    assert forall m :: m in a.alterIfs ==> m.ifNum == a.ifNum;
    assert forall m :: m in b.alterIfs ==> m.ifNum == b.ifNum;
  }

  // The same for one of several heads: the others are as they were.
  method SwitchAmong(heads: seq<Node>, at: nat, pif: Node, pp: bool, hcd: Controller, a: Answers, ghost k: nat) returns (ok: bool)
    requires at < |heads| && HeadOk(heads[at])
    requires k < |heads[at].alterIfs| && pif == heads[at].alterIfs[k]
    requires forall j :: 0 <= j < |heads| && j != at ==> HeadOk(heads[j]) && Apart(heads[j], heads[at])
    modifies hcd, heads[at], heads[at].alterIfs
    ensures HeadOk(if ok then pif else heads[at])
    ensures var f, now := old(Meaning(heads[at])), Meaning(if ok then pif else heads[at]);
      if pp then One(now, hcd.endpoints, ok) == SetOne(f, old(hcd.endpoints), k, a)
      else ok && now == Rotate(f, k) && hcd.endpoints == old(hcd.endpoints)
    ensures forall j :: 0 <= j < |heads| && j != at ==> HeadOk(heads[j]) && Meaning(heads[j]) == old(Meaning(heads[j]))
  {
    ok := SwitchNode(hcd, heads[at], pif, pp, a, k);
  }

  // The interface numbers of a configuration are distinct.
  ghost predicate DistinctNums(ns: seq<Node>) {
    ns != [] ==> (forall j :: 0 < j < |ns| ==> ns[j].ifNum != ns[0].ifNum) && DistinctNums(ns[1..])
  }

  lemma {:induction false} UniqueNum(ns: seq<Node>, i: nat)
    requires DistinctNums(ns) && i < |ns|
    ensures forall j :: 0 <= j < |ns| && j != i ==> ns[j].ifNum != ns[i].ifNum
  {
    if i > 0 {
      UniqueNum(ns[1..], i - 1);
      forall j | 0 <= j < |ns| && j != i ensures ns[j].ifNum != ns[i].ifNum {
        assert ns[i] == ns[1..][i - 1];
        assert j > 0 ==> ns[j] == ns[1..][j - 1];
      }
    }
  }

  lemma AllApart(ns: seq<Node>, i: nat)
    requires DistinctNums(ns) && i < |ns| && forall j :: 0 <= j < |ns| ==> HeadOk(ns[j])
    ensures forall j :: 0 <= j < |ns| && j != i ==> Apart(ns[j], ns[i])
  {
    UniqueNum(ns, i);
    forall j | 0 <= j < |ns| && j != i ensures Apart(ns[j], ns[i]) {
      DifferentNumbers(ns[j], ns[i]);
    }
  }

  lemma {:induction false} NumsKept(ns: seq<Node>, i: nat, n: Node)
    requires DistinctNums(ns) && i < |ns| && n.ifNum == ns[i].ifNum
    ensures DistinctNums(ns[i := n])
  {
    var r := ns[i := n];
    if i == 0 {
      assert r[1..] == ns[1..];
    } else {
      assert r[1..] == ns[1..][i - 1 := n];
      NumsKept(ns[1..], i - 1, n);
    }
  }

  // struct PsdConfig: the alternates in use, in list order.
  class Config {
    var interfaces: seq<Node>

    // The walk to the head with the interface number.
    method FindRoot(ifNum: nat, ghost i: nat) returns (at: nat)
      requires DistinctNums(interfaces) && i < |interfaces| && interfaces[i].ifNum == ifNum
      ensures at == i
    {
      at := 0;
      UniqueNum(interfaces, i);
      while interfaces[at].ifNum != ifNum
        invariant at <= i
        decreases i - at
      {
        at := at + 1;
      }
    }

    // Insert() behind the old root, and Remove() of that.
    method Replace(at: nat, pif: Node)
      requires at < |interfaces|
      modifies `interfaces
      ensures interfaces == old(interfaces)[at := pif]
    {
      interfaces := interfaces[..at + 1] + [pif] + interfaces[at + 1..];
      interfaces := interfaces[..at] + interfaces[at + 1..];
    }

    // psdSetAltInterface once the head is found at position `at`.
    method Switch(at: nat, pif: Node, pp: bool, hcd: Controller, a: Answers, ghost k: nat) returns (ok: bool)
      requires at < |interfaces| && HeadOk(interfaces[at])
      requires k < |interfaces[at].alterIfs| && pif == interfaces[at].alterIfs[k]
      requires forall j :: 0 <= j < |interfaces| && j != at ==> HeadOk(interfaces[j]) && Apart(interfaces[j], interfaces[at])
      modifies `interfaces, hcd, interfaces[at], interfaces[at].alterIfs
      ensures interfaces == if ok then old(interfaces)[at := pif] else old(interfaces)
      ensures HeadOk(interfaces[at])
      ensures var f, hcd0 := old(Meaning(interfaces[at])), old(hcd.endpoints);
        if pp then One(Meaning(interfaces[at]), hcd.endpoints, ok) == SetOne(f, hcd0, k, a)
        else ok && Meaning(interfaces[at]) == Rotate(f, k) && hcd.endpoints == hcd0
      ensures forall j :: 0 <= j < |interfaces| && j != at ==>
        && interfaces[j] == old(interfaces[j]) && HeadOk(interfaces[j])
        && Meaning(interfaces[j]) == old(Meaning(interfaces[j]))
    {
      ok := SwitchAmong(interfaces, at, pif, pp, hcd, a, k);
      if ok {
        Replace(at, pif);
      }
    }

    // psdSetAltInterface for an alternate of the i-th interface: `pp` says whether there is a
    // pipe, `a` how the requests end. Every other interface is as it was.
    method SetAltInterface(pif: Node, pp: bool, hcd: Controller, a: Answers, ghost i: nat, ghost k: nat) returns (ok: bool)
      requires DistinctNums(interfaces) && forall j :: 0 <= j < |interfaces| ==> HeadOk(interfaces[j])
      requires i < |interfaces|
      requires pif == interfaces[i] || (k < |interfaces[i].alterIfs| && pif == interfaces[i].alterIfs[k])
      modifies `interfaces, hcd, interfaces[i], interfaces[i].alterIfs
      ensures DistinctNums(interfaces) && |interfaces| == old(|interfaces|)
      ensures forall j :: 0 <= j < |interfaces| ==> HeadOk(interfaces[j])
      ensures forall j :: 0 <= j < |interfaces| && j != i ==> Meaning(interfaces[j]) == old(Meaning(interfaces[j]))
      ensures var f, hcd0 := old(Meaning(interfaces[i])), old(hcd.endpoints);
        if old(pif == interfaces[i]) then ok && One(Meaning(interfaces[i]), hcd.endpoints, ok) == One(f, hcd0, true)
        else if pp then One(Meaning(interfaces[i]), hcd.endpoints, ok) == SetOne(f, hcd0, k, a)
        else One(Meaning(interfaces[i]), hcd.endpoints, ok) == One(Rotate(f, k), hcd0, true)
    {
      assert pif != interfaces[i] ==> ChildOk(interfaces[i].alterIfs[k], interfaces[i]);
      var at := FindRoot(pif.ifNum, i);
      if interfaces[at] == pif {
        return true;
      }
      NumsKept(interfaces, at, pif);
      AllApart(interfaces, at);
      ok := Switch(at, pif, pp, hcd, a, k);
    }
  }
}
