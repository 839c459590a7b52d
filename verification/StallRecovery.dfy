/**
 Stall recovery: completions mark halted endpoints and request a sweep, the event task sweeps,
 and a class that clears an endpoint itself cancels the mark. Every step below is one the
 source cannot be interrupted in.
 */
module StallRecovery {

  // ------------------------------------------------------------------ the bit encoding

  const URTF_IN := 0x80

  // PDEPHALT_BIT: OUT endpoint n is bit n, IN endpoint n is bit 16 + n.
  function BitOf(epnum: nat, isin: bool): nat {
    epnum % 16 + if isin then 16 else 0
  }

  // The bit PDEPHALT_MASKADDR selects for an endpoint address.
  function BitOfAddr(epaddr: nat): nat {
    BitOf(epaddr, epaddr / URTF_IN % 2 == 1)
  }

  // PDEPHALT_ADDR.
  function AddrOf(bit: nat): nat {
    bit % 16 + if bit / 16 % 2 == 1 then URTF_IN else 0
  }

  // An address of a bEndpointAddress: a number and a direction.
  predicate IsAddr(a: nat) {
    a < 16 || URTF_IN <= a < URTF_IN + 16
  }

  // Each of the two is the other's inverse, so the clear request for a bit names the endpoint
  // that was marked, and its snoop cancels that bit and no other.
  lemma EncodingInverse(bit: nat, epaddr: nat, epnum: nat, isin: bool)
    ensures bit < 32 ==> IsAddr(AddrOf(bit)) && BitOfAddr(AddrOf(bit)) == bit
    ensures IsAddr(epaddr) ==> BitOfAddr(epaddr) < 32 && AddrOf(BitOfAddr(epaddr)) == epaddr
    ensures epnum < 16 ==> AddrOf(BitOf(epnum, isin)) == epnum + (if isin then URTF_IN else 0)
  {
    var b := BitOf(epnum, isin);
    assert epnum < 16 && isin ==> b / 16 == 1 && b % 16 == epnum;
    assert epnum < 16 && !isin ==> b / 16 == 0;
    if bit < 16 {
      assert AddrOf(bit) == bit;
    } else if bit < 32 {
      assert AddrOf(bit) == URTF_IN + (bit - 16);
      assert (URTF_IN + (bit - 16)) % 16 == bit - 16;
    }
    if URTF_IN <= epaddr < URTF_IN + 16 {
      assert epaddr % 16 == epaddr - URTF_IN;
    }
  }

  // ------------------------------------------------------------------ the machine

  // Where the event task is: outside the sweep, walking the device list, about to drop the
  // marks of a device, clearing one device bit by bit, having sent the clear for a bit, or
  // done with it.
  datatype Place =
    | Outside
    | Walk(d: nat)
    | Dropping(d: nat)
    | Clearing(d: nat, bit: nat)
    | Sent(d: nat, bit: nat)
    | Failed(d: nat)
    | Done

  // pd_EpHaltMask of every listed device, ps_StallRecoveryReq, the completions between their
  // mask write and their flag write, and the event task.
  datatype State = State(masks: seq<set<nat>>, req: bool, marking: nat, task: Place)

  datatype Step =
    | Mark(d: nat, bit: nat)          // a completion sets a bit
    | Request                         // and raises the flag
    | Cancel(d: nat, bit: nat)        // a clear-halt request passes pSubmitPipe
    | Attach                          // a device joins the list
    | Begin                           // the sweep clears the flag and starts walking
    | Look(usable: bool, piped: bool) // the peek at a device's mask, flags, and the pipe
    | Drop                            // all marks of a device are dropped
    | Take                            // pTakeEpHalt
    | SendClear                       // the clear, which is snooped like any other
    | End                             // the flag is raised again

  predicate Enabled(s: State, a: Step) {
    match a
    case Mark(d, bit) => d < |s.masks| && 0 < bit < 32 && bit != 16
    case Request => s.marking > 0
    case Cancel(d, bit) => d < |s.masks|
    case Attach => !s.task.Walk? && !s.task.Dropping?
    case Begin => s.task.Outside? && s.req
    case Look(_, _) => s.task.Walk?
    case Drop => (s.task.Dropping? || s.task.Failed?) && s.task.d < |s.masks|
    case Take => s.task.Clearing? && s.task.d < |s.masks| && s.task.bit < 32
    case SendClear => s.task.Sent? && s.task.d < |s.masks|
    case End => s.task.Done?
  }

  function Clear(masks: seq<set<nat>>, d: nat, bits: set<nat>): seq<set<nat>>
    requires d < |masks|
  {
    masks[d := masks[d] - bits]
  }

  // The next bit to look at.
  function After(d: nat, bit: nat): Place {
    if bit + 1 < 32 then Clearing(d, bit + 1) else Done
  }

  function Next(s: State, a: Step): State
    requires Enabled(s, a)
  {
    match a
    case Mark(d, bit) => s.(masks := s.masks[d := s.masks[d] + {bit}], marking := s.marking + 1)
    case Request => s.(req := true, marking := s.marking - 1)
    case Cancel(d, bit) => s.(masks := Clear(s.masks, d, {bit}))
    case Attach => s.(masks := s.masks + [{}])
    case Begin => s.(req := false, task := Walk(0))
    case Look(usable, piped) =>
      var d := s.task.d;
      if d >= |s.masks| then s.(task := Outside)
      else if s.masks[d] == {} then s.(task := Walk(d + 1))
      else if !usable then s.(task := Dropping(d))
      else if !piped then s.(task := Failed(d))
      else s.(task := Clearing(d, 1))
    case Drop =>
      var d := s.task.d;
      State(s.masks[d := {}], s.req, s.marking, if s.task.Dropping? then Walk(d + 1) else Done)
    case Take =>
      var d, bit := s.task.d, s.task.bit;
      if bit in s.masks[d] then s.(masks := Clear(s.masks, d, {bit}), task := Sent(d, bit))
      else s.(task := After(d, bit))
    case SendClear =>
      var d, bit := s.task.d, s.task.bit;
      s.(masks := Clear(s.masks, d, {BitOfAddr(AddrOf(bit))}), task := After(d, bit))
    case End => s.(req := true, task := Outside)
  }

  // ------------------------------------------------------------------ no mark is lost

  // Some device before the d-th is marked.
  ghost predicate MarkedBefore(masks: seq<set<nat>>, d: nat) {
    exists k :: 0 <= k < d && k < |masks| && masks[k] != {}
  }

  // How far the event task may have to come back for marks.
  function Seen(s: State): nat {
    match s.task
    case Outside => |s.masks|
    case Walk(d) => d
    case Dropping(d) => d
    case _ => 0
  }

  ghost predicate Inv(s: State) {
    && (MarkedBefore(s.masks, Seen(s)) ==> s.req || s.marking > 0)
    && (s.task.Dropping? || s.task.Clearing? || s.task.Sent? || s.task.Failed? ==> s.task.d < |s.masks|)
    && (s.task.Clearing? || s.task.Sent? ==> 0 < s.task.bit < 32)
  }

  const START := State([], false, 0, Outside)

  lemma StepKeepsInv(s: State, a: Step)
    requires Inv(s) && Enabled(s, a)
    ensures Inv(Next(s, a))
  {
    var r := Next(s, a);
    if MarkedBefore(r.masks, Seen(r)) {
      var k :| 0 <= k < Seen(r) && k < |r.masks| && r.masks[k] != {};
      if a.Cancel? || a.Take? || a.SendClear? || a.Drop? || a.Look? || a.Request? || a.Attach? {
        assert k < |s.masks| ==> r.masks[k] <= s.masks[k];
        assert k < |s.masks| && k < Seen(s) ==> MarkedBefore(s.masks, Seen(s));
      }
    }
  }

  ghost predicate IsRun(s: State, run: seq<Step>)
    decreases |run|
  {
    run == [] || (Enabled(s, run[0]) && IsRun(Next(s, run[0]), run[1..]))
  }

  ghost function EndOf(s: State, run: seq<Step>): State
    requires IsRun(s, run)
    decreases |run|
  {
    if run == [] then s else EndOf(Next(s, run[0]), run[1..])
  }

  lemma {:induction false} RunKeepsInv(s: State, run: seq<Step>)
    requires Inv(s) && IsRun(s, run)
    ensures Inv(EndOf(s, run))
    decreases |run|
  {
    if run != [] {
      StepKeepsInv(s, run[0]);
      RunKeepsInv(Next(s, run[0]), run[1..]);
    }
  }

  // In every state any interleaving reaches with the event task outside the sweep, a marked
  // device means that the request flag is up, or that a completion is about to raise it.
  lemma NoMarkLost(run: seq<Step>, d: nat)
    requires IsRun(START, run)
    requires var s := EndOf(START, run); s.task.Outside? && d < |s.masks| && s.masks[d] != {}
    ensures var s := EndOf(START, run); s.req || s.marking > 0
  {
    RunKeepsInv(START, run);
  }

  // ------------------------------------------------------------------ every mark is used once

  // What a step does to one bit of one device.
  datatype Fate = Set | Taken | Cancelled | Dropped | Kept

  function FateOf(s: State, a: Step, d: nat, bit: nat): Fate
    requires Enabled(s, a)
  {
    var had := d < |s.masks| && bit in s.masks[d];
    match a
    case Mark(e, b) => if e == d && b == bit && !had then Set else Kept
    case Cancel(e, b) => if e == d && b == bit && had then Cancelled else Kept
    case SendClear => if s.task.d == d && s.task.bit == bit && had then Cancelled else Kept
    case Drop => if s.task.d == d && had then Dropped else Kept
    case Take => if s.task.d == d && s.task.bit == bit && had then Taken else Kept
    case _ => Kept
  }

  ghost function Times(s: State, run: seq<Step>, d: nat, bit: nat, fate: Fate): nat
    requires IsRun(s, run)
    decreases |run|
  {
    if run == [] then 0
    else (if FateOf(s, run[0], d, bit) == fate then 1 else 0) + Times(Next(s, run[0]), run[1..], d, bit, fate)
  }

  // The clears the event task sends for the bit.
  ghost function ClearsSent(s: State, run: seq<Step>, d: nat, bit: nat): nat
    requires IsRun(s, run)
    decreases |run|
  {
    if run == [] then 0
    else (if run[0].SendClear? && s.task == Sent(d, bit) then 1 else 0) + ClearsSent(Next(s, run[0]), run[1..], d, bit)
  }

  function IsSet(s: State, d: nat, bit: nat): nat {
    if d < |s.masks| && bit in s.masks[d] then 1 else 0
  }

  function IsDue(s: State, d: nat, bit: nat): nat {
    if s.task == Sent(d, bit) then 1 else 0
  }

  // One step changes a bit only in the way its fate says.
  lemma FateTold(s: State, a: Step, d: nat, bit: nat)
    requires Inv(s) && Enabled(s, a)
    ensures IsSet(Next(s, a), d, bit) == IsSet(s, d, bit) +
      match FateOf(s, a, d, bit) { case Set => 1 case Kept => 0 case _ => -1 }
  {
    if a.SendClear? {
      EncodingInverse(s.task.bit, 0, 0, false);
    }
  }

  // Over any interleaving every bit that was set is taken by a clear once, cancelled by a
  // class, dropped with its device, or still set; and each one taken draws one clear.
  lemma {:induction false} MarksConserved(s: State, run: seq<Step>, d: nat, bit: nat)
    requires Inv(s) && IsRun(s, run)
    ensures IsSet(s, d, bit) + Times(s, run, d, bit, Set) ==
      Times(s, run, d, bit, Taken) + Times(s, run, d, bit, Cancelled) + Times(s, run, d, bit, Dropped)
      + IsSet(EndOf(s, run), d, bit)
    ensures IsDue(s, d, bit) + Times(s, run, d, bit, Taken) == ClearsSent(s, run, d, bit) + IsDue(EndOf(s, run), d, bit)
    decreases |run|
  {
    if run != [] {
      FateTold(s, run[0], d, bit);
      StepKeepsInv(s, run[0]);
      MarksConserved(Next(s, run[0]), run[1..], d, bit);
    }
  }

  // ------------------------------------------------------------------ dropped or cleared

  lemma {:induction false} RunPrefix(s: State, run: seq<Step>, n: nat)
    requires IsRun(s, run) && n < |run|
    ensures IsRun(s, run[..n]) && IsRun(s, run[..n + 1])
    ensures Enabled(EndOf(s, run[..n]), run[n])
    ensures EndOf(s, run[..n + 1]) == Next(EndOf(s, run[..n]), run[n])
    decreases n
  {
    if n == 0 {
      assert run[..1] == [run[0]] && run[..1][1..] == [];
    } else {
      assert run[..n][1..] == run[1..][..n - 1] && run[..n + 1][1..] == run[1..][..n];
      RunPrefix(Next(s, run[0]), run[1..], n - 1);
    }
  }

  // The event task only comes to drop the marks of a device when its last look found the device
  // unusable, or no pipe for it.
  lemma {:induction false} DropsExcused(run: seq<Step>, n: nat, d: nat) returns (m: nat)
    requires IsRun(START, run) && n < |run| && IsRun(START, run[..n])
    requires var task := EndOf(START, run[..n]).task; task == Dropping(d) || task == Failed(d)
    ensures m < n && IsRun(START, run[..m]) && EndOf(START, run[..m]).task == Walk(d)
    ensures run[m].Look? && (!run[m].usable || !run[m].piped)
    ensures forall l :: m < l < n ==> !run[l].Look?
    decreases n
  {
    assert n > 0 by {
      assert run[..0] == [];
    }
    RunPrefix(START, run, n - 1);
    if run[n - 1].Look? {
      m := n - 1;
    } else {
      m := DropsExcused(run, n - 1, d);
    }
  }

  // While one device is being cleared: the bits below the place of the event task are gone.
  ghost predicate ClearedSoFar(s: State, d: nat) {
    d < |s.masks| &&
    match s.task
    case Clearing(e, b) => e == d && 0 < b < 32 && forall x :: 0 < x < b ==> x !in s.masks[d]
    case Sent(e, b) => e == d && 0 < b < 32 && forall x :: 0 < x <= b ==> x !in s.masks[d]
    case Done => forall x :: 0 < x < 32 ==> x !in s.masks[d]
    case _ => false
  }

  ghost predicate NoneMarked(run: seq<Step>, d: nat) {
    forall k :: 0 <= k < |run| ==> !run[k].End? && !(run[k].Mark? && run[k].d == d)
  }

  lemma {:induction false} StaysCleared(s: State, run: seq<Step>, d: nat)
    requires Inv(s) && IsRun(s, run) && ClearedSoFar(s, d) && NoneMarked(run, d)
    ensures ClearedSoFar(EndOf(s, run), d)
    ensures forall bit :: Times(s, run, d, bit, Set) == 0 && Times(s, run, d, bit, Dropped) == 0
    decreases |run|
  {
    if run != [] {
      StepKeepsInv(s, run[0]);
      assert NoneMarked(run[1..], d);
      StaysCleared(Next(s, run[0]), run[1..], d);
    }
  }

  // A usable device with a pipe is cleared: once the event task is done with it, every bit that
  // was marked when it looked has drawn one clear of its own, or was cancelled by a class, and
  // no mark is left, unless a completion marks the device meanwhile.
  lemma SweepClears(s: State, run: seq<Step>, d: nat, bit: nat)
    requires Inv(s) && IsRun(s, [Look(true, true)] + run) && s.task == Walk(d) && d < |s.masks| && bit in s.masks[d]
    requires NoneMarked(run, d) && 0 < bit < 32
    requires EndOf(s, [Look(true, true)] + run).task.Done?
    ensures var all := [Look(true, true)] + run;
      && (forall b :: 0 < b < 32 ==> d < |EndOf(s, all).masks| && b !in EndOf(s, all).masks[d])
      && Times(s, all, d, bit, Taken) + Times(s, all, d, bit, Cancelled) == 1
      && ClearsSent(s, all, d, bit) == Times(s, all, d, bit, Taken)
  {
    var all := [Look(true, true)] + run;
    assert all[1..] == run;
    StepKeepsInv(s, Look(true, true));
    StaysCleared(Next(s, all[0]), run, d);
    MarksConserved(s, all, d, bit);
  }

  // ------------------------------------------------------------------ the sweep ends

  predicate OfSweep(a: Step) {
    a.Look? || a.Drop? || a.Take? || a.SendClear? || a.End?
  }

  function Remaining(s: State): nat {
    match s.task
    case Outside => 0
    case Walk(d) => if d <= |s.masks| then 80 * (|s.masks| - d) + 80 else 80
    case Dropping(d) => if d <= |s.masks| then 80 * (|s.masks| - d) + 79 else 79
    case Clearing(_, bit) => if bit < 32 then 2 * (32 - bit) + 3 else 3
    case Sent(_, bit) => if bit < 32 then 2 * (32 - bit) + 2 else 2
    case Failed(_) => 2
    case Done => 1
  }

  // A sweep handles at most one device and ends, however the others interfere.
  lemma SweepEnds(s: State, a: Step)
    requires Inv(s) && Enabled(s, a)
    ensures OfSweep(a) ==> Remaining(Next(s, a)) < Remaining(s)
    ensures !OfSweep(a) && !a.Begin? ==> Remaining(Next(s, a)) == Remaining(s)
    ensures !s.task.Outside? ==> exists b :: OfSweep(b) && Enabled(s, b)
  {
    match s.task
    case Outside =>
    case Walk(_) => assert Enabled(s, Look(true, true));
    case Dropping(_) => assert Enabled(s, Drop);
    case Clearing(_, _) => assert Enabled(s, Take);
    case Sent(_, _) => assert Enabled(s, SendClear);
    case Failed(_) => assert Enabled(s, Drop);
    case Done => assert Enabled(s, End);
  }
}
