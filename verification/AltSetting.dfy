/**
 Switching an interface to another alternate setting: the requests to the controller and the
 device, the rotation of the interface list on success, and the rollback on failure.
 */
module AltSetting {
  import opened Common

  const UHIOERR_STALL := 4

  // An endpoint address (number and direction) and the controller's submit token for it.
  datatype Endpoint = Endpoint(addr: nat, token: Option<nat>)

  datatype Alternate = Alternate(num: nat, eps: seq<Endpoint>)

  // The class and its handle bound to an interface; 0 is NULL.
  datatype Binding = Binding(cls: nat, handle: nat)

  // One interface of a configuration: the alternate heading the list, and the others.
  datatype Interface = Interface(ifNum: nat, current: Alternate, others: seq<Alternate>, binding: Binding)

  // A configuration and the controller's endpoints with their tokens.
  datatype State = State(ifs: seq<Interface>, hcd: map<nat, nat>)

  // How a CONFIGURE_ENDPOINTS op ends; a failed one leaves the controller as it was.
  datatype OpAnswer = OpFailed | OpDone(tokens: nat -> nat)

  // The answers of one call: the first op, SET_INTERFACE, GET_INTERFACE and the byte it
  // returned, and the op that takes the endpoints back.
  datatype Answers = Answers(first: OpAnswer, setErr: int, getErr: int, got: nat, back: OpAnswer)

  datatype Result = Result(state: State, ok: bool)

  function Addrs(eps: seq<Endpoint>): set<nat> {
    set e | e in eps :: e.addr
  }

  // ------------------------------------------------------------------ the controller

  function Forget(eps: seq<Endpoint>): (r: seq<Endpoint>)
    ensures |r| == |eps|
    ensures forall i :: 0 <= i < |eps| ==> r[i] == Endpoint(eps[i].addr, None)
  {
    seq(|eps|, i requires 0 <= i < |eps| => Endpoint(eps[i].addr, None))
  }

  function Issue(eps: seq<Endpoint>, tokens: nat -> nat): (r: seq<Endpoint>)
    ensures |r| == |eps|
    ensures forall i :: 0 <= i < |eps| ==> r[i] == Endpoint(eps[i].addr, Some(tokens(eps[i].addr)))
  {
    seq(|eps|, i requires 0 <= i < |eps| => Endpoint(eps[i].addr, Some(tokens(eps[i].addr))))
  }

  // CONFIGURE_ENDPOINTS: drop some endpoints, then add others.
  function Configure(hcd: map<nat, nat>, drops: set<nat>, adds: set<nat>, tokens: nat -> nat): map<nat, nat> {
    map a | a in (hcd.Keys - drops) + adds :: if a in adds then tokens(a) else hcd[a]
  }

  // The alternates being left and entered, the controller, and whether the op worked.
  datatype Op = Op(from: Alternate, to: Alternate, hcd: map<nat, nat>, ok: bool)

  // pContextSetInterface.
  function ContextSetInterface(hcd: map<nat, nat>, from: Alternate, to: Alternate, answer: OpAnswer): Op {
    if from.eps == [] && to.eps == [] then Op(from, to, hcd, true)
    else
      var left := from.(eps := Forget(from.eps));
      match answer
      case OpFailed => Op(left, to, hcd, false)
      case OpDone(tokens) =>
        Op(left, to.(eps := Issue(to.eps, tokens)), Configure(hcd, Addrs(from.eps), Addrs(to.eps), tokens), true)
  }

  // ------------------------------------------------------------------ psdSetAltInterface

  // The k-th other alternate heads the list; the old head goes to the end of the others.
  function Rotate(f: Interface, k: nat): Interface
    requires k < |f.others|
  {
    f.(current := f.others[k], others := f.others[..k] + f.others[k + 1..] + [f.current])
  }

  function WithAlternates(f: Interface, k: nat, from: Alternate, to: Alternate): Interface
    requires k < |f.others|
  {
    f.(current := from, others := f.others[k := to])
  }

  // Did the device follow: SET_INTERFACE may stall, GET_INTERFACE has the last word.
  predicate Followed(a: Answers, num: nat) {
    (a.setErr == 0 || a.setErr == UHIOERR_STALL) && a.getErr == 0 && a.got == num
  }

  // One interface through the call, with the controller.
  datatype One = One(f: Interface, hcd: map<nat, nat>, ok: bool)

  function SetOne(f: Interface, hcd: map<nat, nat>, k: nat, a: Answers): One
    requires k < |f.others|
  {
    var op := ContextSetInterface(hcd, f.current, f.others[k], a.first);
    var f1 := WithAlternates(f, k, op.from, op.to);
    if !op.ok then One(f1, op.hcd, false)
    else if Followed(a, f.others[k].num) then One(Rotate(f1, k), op.hcd, true)
    else
      var back := ContextSetInterface(op.hcd, op.to, op.from, a.back);
      One(WithAlternates(f, k, back.to, back.from), back.hcd, false)
  }

  // psdSetAltInterface with a pipe, on the controller that wants its endpoints configured, for
  // the k-th other alternate of the i-th interface.
  function SetAlt(s: State, i: nat, k: nat, a: Answers): Result
    requires i < |s.ifs| && k < |s.ifs[i].others|
  {
    var r := SetOne(s.ifs[i], s.hcd, k, a);
    Result(State(s.ifs[i := r.f], r.hcd), r.ok)
  }

  // ------------------------------------------------------------------ agreement

  // The endpoint addresses of the alternates heading the list.
  function Heads(ifs: seq<Interface>): (r: set<nat>) {
    set i, e | 0 <= i < |ifs| && e in ifs[i].current.eps :: e.addr
  }

  ghost predicate Agrees(s: State) {
    s.hcd.Keys == Heads(s.ifs)
  }

  // An endpoint has the controller's token.
  ghost predicate Held(e: Endpoint, hcd: map<nat, nat>) {
    e.addr in hcd && e.token == Some(hcd[e.addr])
  }

  // Every endpoint in use has it.
  ghost predicate TokensAgree(s: State) {
    forall i, e :: 0 <= i < |s.ifs| && e in s.ifs[i].current.eps ==> Held(e, s.hcd)
  }

  // All addresses an interface uses in any of its alternates.
  function AllAddrs(f: Interface): (r: set<nat>) {
    Addrs(f.current.eps) + set k, e | 0 <= k < |f.others| && e in f.others[k].eps :: e.addr
  }

  // No two interfaces of a configuration share an endpoint (section 9.6.5 of USB 2.0).
  ghost predicate Disjoint(ifs: seq<Interface>) {
    forall i, j :: 0 <= i < j < |ifs| ==> AllAddrs(ifs[i]) !! AllAddrs(ifs[j])
  }

  // An alternate, an interface and a list of them without their tokens.
  function Bare(a: Alternate): Alternate {
    a.(eps := Forget(a.eps))
  }

  function BareAll(s: seq<Alternate>): (r: seq<Alternate>)
    ensures |r| == |s| && forall i :: 0 <= i < |s| ==> r[i] == Bare(s[i])
  {
    seq(|s|, i requires 0 <= i < |s| => Bare(s[i]))
  }

  function BareInterface(f: Interface): Interface {
    f.(current := Bare(f.current), others := BareAll(f.others))
  }

  // Two configurations are the same but for the tokens.
  ghost predicate SameTree(a: seq<Interface>, b: seq<Interface>) {
    |a| == |b| && forall i :: 0 <= i < |a| ==> BareInterface(a[i]) == BareInterface(b[i])
  }

  // ------------------------------------------------------------------ lemmas

  lemma BareSame(a: Alternate, b: Alternate)
    requires a.num == b.num && |a.eps| == |b.eps| && forall i :: 0 <= i < |a.eps| ==> a.eps[i].addr == b.eps[i].addr
    ensures Bare(a) == Bare(b) && Addrs(a.eps) == Addrs(b.eps)
  {
    assert Forget(a.eps) == Forget(b.eps);
    AddrsOf(a.eps);
    AddrsOf(b.eps);
  }

  lemma AddrsOf(eps: seq<Endpoint>)
    ensures Addrs(eps) == Addrs(Forget(eps))
  {
    var r := Forget(eps);
    assert forall i :: 0 <= i < |eps| ==> eps[i] in eps && r[i] in r;
    forall x | x in Addrs(eps) ensures x in Addrs(r) {
      var i :| 0 <= i < |eps| && eps[i].addr == x;
      assert r[i].addr == x;
    }
  }

  // Whatever the op does, the alternates keep their endpoints.
  lemma OpKeepsBare(hcd: map<nat, nat>, from: Alternate, to: Alternate, answer: OpAnswer)
    ensures var op := ContextSetInterface(hcd, from, to, answer); Bare(op.from) == Bare(from) && Bare(op.to) == Bare(to)
  {
    var op := ContextSetInterface(hcd, from, to, answer);
    BareSame(op.from, from);
    BareSame(op.to, to);
  }

  // The addresses of the heads but the i-th.
  function OtherHeads(ifs: seq<Interface>, i: nat): set<nat> {
    set j, e | 0 <= j < |ifs| && j != i && e in ifs[j].current.eps :: e.addr
  }

  lemma HeadsSplit(ifs: seq<Interface>, i: nat, f: Interface)
    requires i < |ifs|
    ensures Heads(ifs[i := f]) == OtherHeads(ifs, i) + Addrs(f.current.eps)
  {
    var now := ifs[i := f];
    forall x | x in OtherHeads(ifs, i) ensures x in Heads(now) {
      var j, e :| 0 <= j < |ifs| && j != i && e in ifs[j].current.eps && e.addr == x;
      assert e in now[j].current.eps;
    }
    forall x | x in Addrs(f.current.eps) ensures x in Heads(now) {
      var e :| e in f.current.eps && e.addr == x;
      assert e in now[i].current.eps;
    }
  }

  lemma InAllAddrs(f: Interface, k: nat)
    requires k < |f.others|
    ensures Addrs(f.current.eps) <= AllAddrs(f) && Addrs(f.others[k].eps) <= AllAddrs(f)
  {
  }

  lemma OthersApart(ifs: seq<Interface>, i: nat, k: nat)
    requires i < |ifs| && k < |ifs[i].others| && Disjoint(ifs)
    ensures OtherHeads(ifs, i) !! Addrs(ifs[i].current.eps) && OtherHeads(ifs, i) !! Addrs(ifs[i].others[k].eps)
  {
    InAllAddrs(ifs[i], k);
    forall x | x in OtherHeads(ifs, i) ensures x !in AllAddrs(ifs[i]) {
      var j, e :| 0 <= j < |ifs| && j != i && e in ifs[j].current.eps && e.addr == x;
      assert x in AllAddrs(ifs[j]);
    }
  }

  // The controller does nothing, works or fails.
  predicate Worked(f: Interface, k: nat, answer: OpAnswer)
    requires k < |f.others|
  {
    answer.OpDone? || (f.current.eps == [] && f.others[k].eps == [])
  }

  // The controller's endpoints after an op, next to those of the other interfaces.
  lemma OpAddrs(hcd: map<nat, nat>, from: Alternate, to: Alternate, answer: OpAnswer, rest: set<nat>)
    requires hcd.Keys == rest + Addrs(from.eps) && rest !! Addrs(from.eps)
    ensures var op := ContextSetInterface(hcd, from, to, answer);
      && op.ok == (answer.OpDone? || (from.eps == [] && to.eps == []))
      && op.hcd.Keys == rest + (if op.ok then Addrs(to.eps) else Addrs(from.eps))
      && Addrs(op.from.eps) == Addrs(from.eps) && Addrs(op.to.eps) == Addrs(to.eps)
  {
    var op := ContextSetInterface(hcd, from, to, answer);
    BareSame(op.from, from);
    BareSame(op.to, to);
  }

  lemma SameTreeUpdate(ifs: seq<Interface>, i: nat, f: Interface, g: Interface)
    requires i < |ifs| && BareInterface(f) == BareInterface(g)
    ensures SameTree(ifs[i := f], ifs[i := g])
  {
  }

  lemma BareWith(f: Interface, k: nat, from: Alternate, to: Alternate)
    requires k < |f.others| && Bare(from) == Bare(f.current) && Bare(to) == Bare(f.others[k])
    ensures BareInterface(WithAlternates(f, k, from, to)) == BareInterface(f)
    ensures BareInterface(Rotate(WithAlternates(f, k, from, to), k)) == BareInterface(Rotate(f, k))
  {
    var g := WithAlternates(f, k, from, to);
    assert BareAll(g.others) == BareAll(f.others);
    assert BareAll(Rotate(g, k).others) == BareAll(Rotate(f, k).others);
  }

  // When the call succeeds: the controller takes the endpoints, SET_INTERFACE goes through or
  // stalls, and GET_INTERFACE then names the alternate. Only then is the list another one.
  lemma TreeAfter(s: State, i: nat, k: nat, a: Answers)
    requires i < |s.ifs| && k < |s.ifs[i].others|
    ensures var r, f := SetAlt(s, i, k, a), s.ifs[i];
      && (r.ok <==>
            && (a.first.OpDone? || (f.current.eps == [] && f.others[k].eps == []))
            && (a.setErr == 0 || a.setErr == 4)
            && a.getErr == 0 && a.got == f.others[k].num)
      && SameTree(r.state.ifs, if r.ok then s.ifs[i := Rotate(f, k)] else s.ifs)
  {
    var f := s.ifs[i];
    var op := ContextSetInterface(s.hcd, f.current, f.others[k], a.first);
    OpKeepsBare(s.hcd, f.current, f.others[k], a.first);
    BareWith(f, k, op.from, op.to);
    SameTreeUpdate(s.ifs, i, WithAlternates(f, k, op.from, op.to), f);
    assert s.ifs[i := f] == s.ifs;
    if op.ok {
      var back := ContextSetInterface(op.hcd, op.to, op.from, a.back);
      OpKeepsBare(op.hcd, op.to, op.from, a.back);
      BareWith(f, k, back.to, back.from);
      SameTreeUpdate(s.ifs, i, WithAlternates(f, k, back.to, back.from), f);
      SameTreeUpdate(s.ifs, i, Rotate(WithAlternates(f, k, op.from, op.to), k), Rotate(f, k));
    }
  }

  // Switching through a pipe is all-or-nothing: the controller and the list agree on the
  // endpoints afterwards, except when the ends were switched, the device did not follow and
  // the controller does not take the endpoints back.
  lemma AllOrNothing(s: State, i: nat, k: nat, a: Answers)
    requires i < |s.ifs| && k < |s.ifs[i].others| && Agrees(s) && Disjoint(s.ifs)
    ensures var r, f := SetAlt(s, i, k, a), s.ifs[i];
      && SameTree(r.state.ifs, if r.ok then s.ifs[i := Rotate(f, k)] else s.ifs)
      && (Agrees(r.state) <==>
            || r.ok
            || !Worked(f, k, a.first)
            || Worked(f, k, a.back)
            || Addrs(f.current.eps) == Addrs(f.others[k].eps))
  {
    var f := s.ifs[i];
    var rest := OtherHeads(s.ifs, i);
    TreeAfter(s, i, k, a);
    OthersApart(s.ifs, i, k);
    HeadsSplit(s.ifs, i, f);
    assert s.ifs[i := f] == s.ifs;
    OpAddrs(s.hcd, f.current, f.others[k], a.first, rest);
    var op := ContextSetInterface(s.hcd, f.current, f.others[k], a.first);
    var f1 := WithAlternates(f, k, op.from, op.to);
    HeadsSplit(s.ifs, i, f1);
    if op.ok {
      HeadsSplit(s.ifs, i, Rotate(f1, k));
      OpAddrs(op.hcd, op.to, op.from, a.back, rest);
      var back := ContextSetInterface(op.hcd, op.to, op.from, a.back);
      HeadsSplit(s.ifs, i, WithAlternates(f, k, back.to, back.from));
    }
  }

  // ------------------------------------------------------------------ tokens

  // The endpoints of the other heads have the controller's tokens.
  ghost predicate OthersHold(s: State, i: nat) {
    forall j, e :: 0 <= j < |s.ifs| && j != i && e in s.ifs[j].current.eps ==> Held(e, s.hcd)
  }

  ghost predicate AllHeld(eps: seq<Endpoint>, hcd: map<nat, nat>) {
    forall e :: e in eps ==> Held(e, hcd)
  }

  lemma TokensSplit(s: State, i: nat, f: Interface, hcd: map<nat, nat>)
    requires i < |s.ifs|
    ensures TokensAgree(State(s.ifs[i := f], hcd)) <==> OthersHold(State(s.ifs, hcd), i) && AllHeld(f.current.eps, hcd)
  {
    var now := State(s.ifs[i := f], hcd);
    if TokensAgree(now) {
      forall j, e | 0 <= j < |s.ifs| && j != i && e in s.ifs[j].current.eps ensures Held(e, hcd) {
        assert now.ifs[j] == s.ifs[j];
      }
      forall e | e in f.current.eps ensures Held(e, hcd) {
        assert now.ifs[i] == f;
      }
    }
  }

  // An op leaves the tokens of the other interfaces alone, forgets those of the alternate
  // being left, and fetches those of the one entered.
  lemma OpTokens(s: State, i: nat, from: Alternate, to: Alternate, answer: OpAnswer)
    requires i < |s.ifs| && OthersHold(s, i)
    requires OtherHeads(s.ifs, i) !! Addrs(from.eps) && OtherHeads(s.ifs, i) !! Addrs(to.eps)
    ensures var op := ContextSetInterface(s.hcd, from, to, answer);
      && OthersHold(State(s.ifs, op.hcd), i)
      && (op.ok ==> AllHeld(op.to.eps, op.hcd))
      && (AllHeld(op.from.eps, op.hcd) <==> from.eps == [])
  {
    var op := ContextSetInterface(s.hcd, from, to, answer);
    forall j, e | 0 <= j < |s.ifs| && j != i && e in s.ifs[j].current.eps
      ensures Held(e, op.hcd)
    {
      assert Held(e, s.hcd) && e.addr in OtherHeads(s.ifs, i);
    }
    if from.eps != [] {
      assert op.from.eps[0] in op.from.eps && !Held(op.from.eps[0], op.hcd);
    }
    if op.ok && to.eps != [] {
      forall e | e in op.to.eps ensures Held(e, op.hcd) {
        var n :| 0 <= n < |to.eps| && op.to.eps[n] == e;
        assert to.eps[n] in to.eps;
      }
    }
  }

  // The tokens are right afterwards exactly when the switch took place or the controller took
  // the endpoints back; a first op that fails loses the tokens of an alternate with endpoints.
  lemma TokensAfter(s: State, i: nat, k: nat, a: Answers)
    requires i < |s.ifs| && k < |s.ifs[i].others| && TokensAgree(s) && Disjoint(s.ifs)
    ensures var r, f := SetAlt(s, i, k, a), s.ifs[i];
      TokensAgree(r.state) <==>
        || r.ok
        || f.current.eps == []
        || (Worked(f, k, a.first) && Worked(f, k, a.back))
  {
    var f := s.ifs[i];
    OthersApart(s.ifs, i, k);
    assert s.ifs[i := f] == s.ifs;
    TokensSplit(s, i, f, s.hcd);
    OpTokens(s, i, f.current, f.others[k], a.first);
    var op := ContextSetInterface(s.hcd, f.current, f.others[k], a.first);
    var f1 := WithAlternates(f, k, op.from, op.to);
    TokensSplit(s, i, f1, op.hcd);
    if op.ok {
      TokensSplit(s, i, Rotate(f1, k), op.hcd);
      TokensBack(s, i, k, a, op);
    }
  }

  lemma TokensBack(s: State, i: nat, k: nat, a: Answers, op: Op)
    requires i < |s.ifs| && k < |s.ifs[i].others| && Disjoint(s.ifs)
    requires var f := s.ifs[i]; op == ContextSetInterface(s.hcd, f.current, f.others[k], a.first) && op.ok
    requires OthersHold(State(s.ifs, op.hcd), i)
    ensures var f, back := s.ifs[i], ContextSetInterface(op.hcd, op.to, op.from, a.back);
      TokensAgree(State(s.ifs[i := WithAlternates(f, k, back.to, back.from)], back.hcd)) <==>
        f.current.eps == [] || Worked(f, k, a.back)
  {
    var f := s.ifs[i];
    OthersApart(s.ifs, i, k);
    BareSame(op.from, f.current);
    BareSame(op.to, f.others[k]);
    OpTokens(State(s.ifs, op.hcd), i, op.to, op.from, a.back);
    var back := ContextSetInterface(op.hcd, op.to, op.from, a.back);
    TokensSplit(s, i, WithAlternates(f, k, back.to, back.from), back.hcd);
    if !back.ok && f.current.eps != [] {
      var e := back.to.eps[0];
      assert e in back.to.eps && e.token.None?;
    }
  }

  // A first op that fails: the endpoint stays with the controller, its token is gone.
  const KEYBOARD := Interface(0, Alternate(0, [Endpoint(0x81, Some(7))]), [Alternate(1, [])], Binding(0, 0))
  const ATTACHED := State([KEYBOARD], map[0x81 := 7])
  const REFUSED := Answers(OpFailed, 0, 0, 0, OpFailed)

  lemma TokenLost()
    ensures Agrees(ATTACHED) && TokensAgree(ATTACHED) && Disjoint(ATTACHED.ifs)
    ensures var r := SetAlt(ATTACHED, 0, 0, REFUSED);
      !r.ok && Agrees(r.state) && !TokensAgree(r.state) && r.state.ifs[0].current.eps == [Endpoint(0x81, None)]
  {
    var e := Endpoint(0x81, Some(7));
    assert ATTACHED.ifs[0].current.eps[0] == e;
    assert Heads(ATTACHED.ifs) == {0x81} by {
      assert e in ATTACHED.ifs[0].current.eps;
    }
    TokensAfter(ATTACHED, 0, 0, REFUSED);
    AllOrNothing(ATTACHED, 0, 0, REFUSED);
  }

  // ------------------------------------------------------------------ the list

  function Alternates(f: Interface): multiset<Alternate> {
    multiset([f.current] + f.others)
  }

  // A switch keeps the set of alternates, the number, the place and the binding of the
  // interface; switching back finds the old alternate at the end of the others.
  lemma RotateKeeps(f: Interface, k: nat)
    requires k < |f.others|
    ensures var g, last := Rotate(f, k), |f.others| - 1;
      && Alternates(g) == Alternates(f) && |g.others| == |f.others|
      && g.ifNum == f.ifNum && g.binding == f.binding
      && g.current == f.others[k] && g.others[last] == f.current
      && Rotate(g, last).current == f.current
      && Rotate(g, last).others == f.others[..k] + f.others[k + 1..] + [f.others[k]]
  {
    var g, last := Rotate(f, k), |f.others| - 1;
    var kept := f.others[..k] + f.others[k + 1..];
    assert f.others == f.others[..k] + [f.others[k]] + f.others[k + 1..];
    assert g.others == kept + [f.current];
    assert g.others[..last] + g.others[last + 1..] == kept;
  }

  // ------------------------------------------------------------------ runs of calls

  datatype Call = Call(i: nat, k: nat, answers: Answers)

  predicate Valid(s: State, c: Call) {
    c.i < |s.ifs| && c.k < |s.ifs[c.i].others|
  }

  function Next(s: State, c: Call): State
    requires Valid(s, c)
  {
    SetAlt(s, c.i, c.k, c.answers).state
  }

  // Calls that fit the tree they meet and whose take-back, where one is due, works.
  ghost predicate IsRun(s: State, calls: seq<Call>)
    decreases |calls|
  {
    calls == [] || (
      && Valid(s, calls[0])
      && (SetAlt(s, calls[0].i, calls[0].k, calls[0].answers).ok
          || !Worked(s.ifs[calls[0].i], calls[0].k, calls[0].answers.first)
          || Worked(s.ifs[calls[0].i], calls[0].k, calls[0].answers.back))
      && IsRun(Next(s, calls[0]), calls[1..]))
  }

  ghost function End(s: State, calls: seq<Call>): State
    requires IsRun(s, calls)
    decreases |calls|
  {
    if calls == [] then s else End(Next(s, calls[0]), calls[1..])
  }

  lemma SameAddrs(f: Interface, g: Interface)
    requires BareInterface(f) == BareInterface(g)
    ensures AllAddrs(f) == AllAddrs(g)
  {
    AddrsOf(f.current.eps);
    AddrsOf(g.current.eps);
    assert AllAddrs(f) <= AllAddrs(g) by { AddrsWithin(f, g); }
    assert AllAddrs(g) <= AllAddrs(f) by { AddrsWithin(g, f); }
  }

  lemma AddrsWithin(f: Interface, g: Interface)
    requires BareInterface(f) == BareInterface(g)
    ensures AllAddrs(f) <= AllAddrs(g)
  {
    AddrsOf(f.current.eps);
    AddrsOf(g.current.eps);
    forall k, e | 0 <= k < |f.others| && e in f.others[k].eps ensures e.addr in AllAddrs(g) {
      assert BareAll(f.others)[k] == BareAll(g.others)[k];
      AddrsOf(f.others[k].eps);
      AddrsOf(g.others[k].eps);
      assert e.addr in Addrs(f.others[k].eps);
      var e' :| e' in g.others[k].eps && e'.addr == e.addr;
    }
  }

  // Where the rotation puts the j-th alternate, and what it finds there.
  lemma RotatePlaces(f: Interface, k: nat, j: nat)
    requires k < |f.others| && j < |f.others|
    ensures var g, last := Rotate(f, k), |f.others| - 1;
      && |g.others| == |f.others| && g.others[last] == f.current
      && (j != k ==> g.others[if j < k then j else j - 1] == f.others[j])
      && g.others[j] == if j == last then f.current else f.others[if j < k then j else j + 1]
  {
  }

  lemma RotateAddrs(f: Interface, k: nat)
    requires k < |f.others|
    ensures AllAddrs(Rotate(f, k)) == AllAddrs(f)
  {
    var g := Rotate(f, k);
    RotatePlaces(f, k, k);
    forall x | x in AllAddrs(f) ensures x in AllAddrs(g) {
      if x !in Addrs(f.current.eps) {
        var j, e :| 0 <= j < |f.others| && e in f.others[j].eps && e.addr == x;
        RotatePlaces(f, k, j);
      }
    }
    forall x | x in AllAddrs(g) ensures x in AllAddrs(f) {
      if x !in Addrs(g.current.eps) {
        var j, e :| 0 <= j < |g.others| && e in g.others[j].eps && e.addr == x;
        RotatePlaces(f, k, j);
      }
    }
  }

  lemma StaysDisjoint(s: State, c: Call)
    requires Valid(s, c) && Disjoint(s.ifs)
    ensures Disjoint(Next(s, c).ifs)
  {
    var r, f := SetAlt(s, c.i, c.k, c.answers), s.ifs[c.i];
    TreeAfter(s, c.i, c.k, c.answers);
    RotateAddrs(f, c.k);
    var base := if r.ok then s.ifs[c.i := Rotate(f, c.k)] else s.ifs;
    forall j | 0 <= j < |s.ifs| ensures AllAddrs(r.state.ifs[j]) == AllAddrs(s.ifs[j]) {
      SameAddrs(r.state.ifs[j], base[j]);
    }
  }

  // Over any sequence of calls, whatever fails on the way, the controller has exactly the
  // endpoints of the alternates heading the list, as long as every take-back works.
  lemma {:induction false} RunAgrees(s: State, calls: seq<Call>)
    requires Agrees(s) && Disjoint(s.ifs) && IsRun(s, calls)
    ensures Agrees(End(s, calls)) && Disjoint(End(s, calls).ifs)
    decreases |calls|
  {
    if calls != [] {
      var c := calls[0];
      AllOrNothing(s, c.i, c.k, c.answers);
      StaysDisjoint(s, c);
      RunAgrees(Next(s, c), calls[1..]);
    }
  }
}
