/**
 psdBorrowLocksWait on values: a task lends every lock it holds to another task, waits, and
 takes the locks back. The lend phase and the first reclaim loop each run under one Forbid().
 */
module Lending {
  import opened Common
  import opened Locks
  import opened LockRuns

  // struct PsdBorrowLock. The semaphore is named by its place in ps_DeadlockDebug; the
  // record pbl_ReadLock points to is always the borrower's.
  datatype Loan = Loan(sem: nat, excl: nat, count: nat) {
    function Of(kind: Kind): nat {
      match kind
      case Exclusive => excl
      case Shared => count
    }
  }

  // ------------------------------------------------------------------ the lend phase

  function ToHead(q: seq<Waiter>, k: nat, isExcl: bool): seq<Waiter>
    requires k < |q|
  {
    [q[k].(isExcl := isExcl)] + Without(q, k)
  }

  // The lender's read lock k folded into the borrower's kb.
  function Merged(rs: seq<ReadLock>, k: nat, kb: nat): seq<ReadLock>
    requires k < |rs| && kb < |rs|
  {
    Without(rs[kb := rs[kb].(count := rs[kb].count + rs[k].count)], k)
  }

  // One semaphore after the lend phase. A borrower queued on it gets the lock by way of the
  // queue; otherwise the lock is moved to it, or merged into the read lock it already has.
  function LentSem(s: Sem, lender: Task, borrower: Task): Sem
    requires s.shared == |s.readers|
  {
    var k := FindReader(s.readers, lender);
    var kq := FindWaiter(s.queue, borrower);
    var kb := FindReader(s.readers, borrower);
    if s.owner == Some(lender) then
      var rs := if s.readers == [] then [] else [ReadLock(borrower, s.readers[0].count)];
      if kq < |s.queue| then Sem(None, 0, 0, [], ToHead(s.queue, kq, true))
      else s.(owner := Some(borrower), readers := rs)
    else if k == |s.readers| then s
    else if kq < |s.queue| then
      s.(queue := ToHead(s.queue, kq, s.queue[kq].isExcl), readers := Without(s.readers, k), shared := s.shared - 1)
    else if kb < |s.readers| then
      s.(readers := Merged(s.readers, k, kb), shared := s.shared - 1)
    else
      s.(readers := s.readers[k := s.readers[k].(task := borrower)])
  }

  // ------------------------------------------------------------------ what is lent

  // What one semaphore contributes to `borrows`.
  datatype Lent = Lent(excl: nat, count: nat) {
    function Of(kind: Kind): nat {
      match kind
      case Exclusive => excl
      case Shared => count
    }
  }

  function LentOf(s: Sem, lender: Task, borrower: Task): Lent {
    var moves := !Queued(s.queue, borrower);
    Lent(if moves && s.owner == Some(lender) then s.excl else 0,
         if moves then ReadCount(s.readers, lender) else 0)
  }

  function LoansOf(i: nat, l: Lent): seq<Loan> {
    (if l.excl > 0 then [Loan(i, l.excl, 0)] else []) + (if l.count > 0 then [Loan(i, 0, l.count)] else [])
  }

  // What it contributes to `reclaims`: the locks handed over through the queue.
  function HandOver(s: Sem, i: nat, lender: Task, borrower: Task, reclaims: seq<Loan>): seq<Loan> {
    var c := ReadCount(s.readers, lender);
    if !Queued(s.queue, borrower) then reclaims
    else
      (if c > 0 then [Loan(i, 0, c)] else []) + reclaims +
      (if s.owner == Some(lender) then [Loan(i, s.excl, 0)] else [])
  }

  // Locks of one kind on semaphore i that the list `ls` stands for.
  function Owed(ls: seq<Loan>, i: nat, kind: Kind): nat {
    if ls == [] then 0
    else (if ls[0].sem == i then ls[0].Of(kind) else 0) + Owed(ls[1..], i, kind)
  }

  lemma {:induction false} OwedAppend(a: seq<Loan>, b: seq<Loan>, i: nat, kind: Kind)
    ensures Owed(a + b, i, kind) == Owed(a, i, kind) + Owed(b, i, kind)
  {
    if a == [] {
      assert a + b == b;
    } else {
      assert (a + b)[1..] == a[1..] + b;
      OwedAppend(a[1..], b, i, kind);
    }
  }

  // The borrower is parked in pLockSemShared while the lender owns the semaphore.
  predicate HandsToShared(s: Sem, lender: Task, borrower: Task) {
    var k := FindWaiter(s.queue, borrower);
    s.owner == Some(lender) && k < |s.queue| && s.queue[k].call == Shared
  }

  // What the borrower holds on the lender's behalf is still in place.
  ghost predicate InPlace(s: Sem, borrower: Task, l: Lent) {
    && (l.excl > 0 ==> s.owner == Some(borrower) && s.excl >= l.excl && HoldsOf(s, borrower, Shared) == l.count)
    && (l.excl == 0 ==> HoldsOf(s, borrower, Shared) >= l.count)
  }

  // ------------------------------------------------------------------ the lend phase, one semaphore

  lemma ToHeadFacts(q: seq<Waiter>, t: Task, isExcl: bool, u: Task)
    requires DistinctWaiters(q) && Queued(q, t)
    ensures var r := ToHead(q, FindWaiter(q, t), isExcl);
      && DistinctWaiters(r)
      && WaitsFor(r, u) == WaitsFor(q, u)
      && FindWaiter(r, t) == 0
  {
    var k := FindWaiter(q, t);
    var r := ToHead(q, k, isExcl);
    QueueWithout(q, t, t);
    QueueWithout(q, t, u);
    QueuePush(Without(q, k), q[k].(isExcl := isExcl), true, u);
    FindWaiterAt(r, 0);
  }

  lemma ToHeadUnpromoted(q: seq<Waiter>, rs: seq<ReadLock>, k: nat, isExcl: bool)
    requires Unpromoted(q) && WaitersReadless(q, rs) && k < |q|
    ensures Unpromoted(ToHead(q, k, isExcl)) <==> (isExcl <==> q[k].call == Exclusive)
    ensures WaitersReadless(ToHead(q, k, isExcl), rs)
  {
    var r := ToHead(q, k, isExcl);
    assert r[0] == q[k].(isExcl := isExcl);
    forall j | 1 <= j < |r|
      ensures r[j].isExcl <==> r[j].call == Exclusive
      ensures r[j].call == Shared ==> FindReader(rs, r[j].task) == |rs|
    {
      assert r[j] == q[if j - 1 < k then j - 1 else j];
    }
  }

  // Everything the lend phase does to one semaphore, on the way from s to m.
  ghost predicate SemFacts(s: Sem, m: Sem, lender: Task, borrower: Task, u: Task) {
    var l := LentOf(s, lender, borrower);
    && (!HandsToShared(s, lender, borrower) ==> SemInv(m))
    && m.shared == |m.readers|
    && WaitsFor(m.queue, u) == WaitsFor(s.queue, u)
    && HoldsOf(m, u, Exclusive) == HeldAfter(s, l, lender, borrower, u, Exclusive)
    && HoldsOf(m, u, Shared) == HeldAfter(s, l, lender, borrower, u, Shared)
    && InPlace(m, borrower, l)
  }

  // The lender is left with nothing, the borrower has its own locks and the loan.
  ghost function HeldAfter(s: Sem, l: Lent, lender: Task, borrower: Task, u: Task, kind: Kind): nat {
    if u == lender then 0 else if u == borrower then HoldsOf(s, u, kind) + l.Of(kind) else HoldsOf(s, u, kind)
  }

  ghost predicate Lendable(s: Sem, lender: Task, borrower: Task) {
    SemInv(s) && lender != borrower && !Queued(s.queue, lender)
  }

  lemma OwnerReads(s: Sem)
    requires SemInv(s) && s.owner.Some?
    ensures s.readers == [] || s.readers == [ReadLock(s.owner.value, s.readers[0].count)]
  {
    TwoReadersDiffer(s.readers);
  }

  lemma TwoReadersDiffer(rs: seq<ReadLock>)
    requires DistinctReaders(rs)
    ensures |rs| > 1 ==> rs[0].task != rs[1].task
  {
  }

  lemma WaitersReadlessEmpty(q: seq<Waiter>)
    ensures WaitersReadless(q, [])
  {
  }

  // The owner's lock and its read lock leave a semaphore the borrower is queued on.
  lemma OwnedHandedOver(s: Sem, m: Sem, lender: Task, borrower: Task, u: Task)
    requires Lendable(s, lender, borrower) && s.owner == Some(lender) && Queued(s.queue, borrower)
    requires m == Sem(None, 0, 0, [], ToHead(s.queue, FindWaiter(s.queue, borrower), true))
    ensures SemFacts(s, m, lender, borrower, u)
  {
    var k := FindWaiter(s.queue, borrower);
    OwnerReads(s);
    ToHeadFacts(s.queue, borrower, true, u);
    WaitersReadlessEmpty(s.queue);
    ToHeadUnpromoted(s.queue, [], k, true);
  }

  lemma OwnedMoved(s: Sem, m: Sem, lender: Task, borrower: Task, u: Task)
    requires Lendable(s, lender, borrower) && s.owner == Some(lender) && !Queued(s.queue, borrower)
    requires m == s.(owner := Some(borrower), readers := if s.readers == [] then [] else [ReadLock(borrower, s.readers[0].count)])
    ensures SemFacts(s, m, lender, borrower, u)
  {
    OwnerReads(s);
    QueuedIff(s.queue, borrower);
  }

  lemma SharedHandedOver(s: Sem, m: Sem, k: nat, lender: Task, borrower: Task, u: Task)
    requires Lendable(s, lender, borrower) && s.owner.None? && Queued(s.queue, borrower)
    requires k == FindReader(s.readers, lender) < |s.readers|
    requires var kq := FindWaiter(s.queue, borrower);
      m == s.(queue := ToHead(s.queue, kq, s.queue[kq].isExcl), readers := Without(s.readers, k), shared := s.shared - 1)
    ensures SemFacts(s, m, lender, borrower, u)
  {
    var kq := FindWaiter(s.queue, borrower);
    ToHeadFacts(s.queue, borrower, s.queue[kq].isExcl, u);
    ReadersWithout(s.readers, k, u);
    ReadlessWithout(s.queue, s.readers, k);
    ToHeadUnpromoted(s.queue, Without(s.readers, k), kq, s.queue[kq].isExcl);
  }

  lemma MergedFacts(rs: seq<ReadLock>, k: nat, kb: nat, u: Task)
    requires ReadersValid(rs) && k < |rs| && kb < |rs| && rs[k].task != rs[kb].task
    ensures ReadersValid(Merged(rs, k, kb))
    ensures ReadCount(Merged(rs, k, kb), u) ==
            if u == rs[k].task then 0
            else if u == rs[kb].task then rs[kb].count + rs[k].count
            else ReadCount(rs, u)
  {
    var c := rs[kb].count + rs[k].count;
    var up := rs[kb := rs[kb].(count := c)];
    ReadersUpdate(rs, kb, c, u);
    assert up[k].task == rs[k].task;
    ReadersWithout(up, k, u);
  }

  lemma ReadlessMerged(q: seq<Waiter>, rs: seq<ReadLock>, k: nat, kb: nat)
    requires WaitersReadless(q, rs) && k < |rs| && kb < |rs|
    ensures WaitersReadless(q, Merged(rs, k, kb))
  {
    var c := rs[kb].count + rs[k].count;
    ReadlessUpdate(q, rs, kb, c);
    ReadlessWithout(q, rs[kb := rs[kb].(count := c)], k);
  }

  lemma SharedMerged(s: Sem, m: Sem, k: nat, kb: nat, lender: Task, borrower: Task, u: Task)
    requires Lendable(s, lender, borrower) && s.owner.None? && !Queued(s.queue, borrower)
    requires k == FindReader(s.readers, lender) < |s.readers|
    requires kb == FindReader(s.readers, borrower) < |s.readers|
    requires m == s.(readers := Merged(s.readers, k, kb), shared := s.shared - 1)
    ensures SemFacts(s, m, lender, borrower, u)
  {
    MergedFacts(s.readers, k, kb, u);
    MergedFacts(s.readers, k, kb, borrower);
    ReadlessMerged(s.queue, s.readers, k, kb);
  }

  lemma SharedMoved(s: Sem, m: Sem, k: nat, lender: Task, borrower: Task, u: Task)
    requires Lendable(s, lender, borrower) && s.owner.None? && !Queued(s.queue, borrower)
    requires k == FindReader(s.readers, lender) < |s.readers|
    requires FindReader(s.readers, borrower) == |s.readers|
    requires m == s.(readers := s.readers[k := s.readers[k].(task := borrower)])
    ensures SemFacts(s, m, lender, borrower, u)
  {
    ReadersRetask(s.readers, k, borrower, u);
    ReadersRetask(s.readers, k, borrower, borrower);
    ReadlessRetask(s.queue, s.readers, k, borrower);
  }

  lemma ReadlessRetask(q: seq<Waiter>, rs: seq<ReadLock>, k: nat, t: Task)
    requires WaitersReadless(q, rs) && k < |rs| && !Queued(q, t)
    ensures WaitersReadless(q, rs[k := rs[k].(task := t)])
  {
    QueuedIff(q, t);
  }

  lemma NothingLent(s: Sem, m: Sem, lender: Task, borrower: Task, u: Task)
    requires Lendable(s, lender, borrower)
    requires s.owner != Some(lender) && FindReader(s.readers, lender) == |s.readers|
    requires m == s
    ensures SemFacts(s, m, lender, borrower, u)
  {
  }

  lemma LentSemFacts(s: Sem, lender: Task, borrower: Task, u: Task)
    requires Lendable(s, lender, borrower)
    ensures SemFacts(s, LentSem(s, lender, borrower), lender, borrower, u)
  {
    var m := LentSem(s, lender, borrower);
    if s.owner == Some(lender) {
      if Queued(s.queue, borrower) {
        OwnedHandedOver(s, m, lender, borrower, u);
      } else {
        OwnedMoved(s, m, lender, borrower, u);
      }
    } else if FindReader(s.readers, lender) == |s.readers| {
      NothingLent(s, m, lender, borrower, u);
    } else if Queued(s.queue, borrower) {
      SharedHandedOver(s, m, FindReader(s.readers, lender), lender, borrower, u);
    } else if FindReader(s.readers, borrower) < |s.readers| {
      SharedMerged(s, m, FindReader(s.readers, lender), FindReader(s.readers, borrower), lender, borrower, u);
    } else {
      SharedMoved(s, m, FindReader(s.readers, lender), lender, borrower, u);
    }
  }

  // A queued borrower that is handed a lock is first in the queue then; the others keep their order.
  lemma RaisedToHead(s: Sem, lender: Task, borrower: Task, j: nat)
    requires Lendable(s, lender, borrower) && Queued(s.queue, borrower) && Holds(s, lender) > 0 && j < |s.queue|
    ensures var q, k := LentSem(s, lender, borrower).queue, FindWaiter(s.queue, borrower);
      && |q| == |s.queue|
      && q[0].task == borrower && q[0].call == s.queue[k].call
      && (j > 0 ==> q[j] == s.queue[if j - 1 < k then j - 1 else j])
  {
  }

  // ------------------------------------------------------------------ the lend phase, all semaphores

  ghost predicate Counted(sems: seq<Sem>) {
    forall j :: 0 <= j < |sems| ==> sems[j].shared == |sems[j].readers|
  }

  function LentSems(sems: seq<Sem>, lender: Task, borrower: Task): seq<Sem>
    requires Counted(sems)
  {
    seq(|sems|, j requires 0 <= j < |sems| => LentSem(sems[j], lender, borrower))
  }

  function Lents(sems: seq<Sem>, lender: Task, borrower: Task): seq<Lent> {
    seq(|sems|, j requires 0 <= j < |sems| => LentOf(sems[j], lender, borrower))
  }

  // The list `borrows` for the semaphores from i on.
  function LoansFrom(ls: seq<Lent>, i: nat): seq<Loan>
    decreases |ls| - i
  {
    if i >= |ls| then [] else LoansOf(i, ls[i]) + LoansFrom(ls, i + 1)
  }

  // The list `reclaims` once the semaphores from i on have been walked.
  function HandOverFrom(sems: seq<Sem>, i: nat, lender: Task, borrower: Task, reclaims: seq<Loan>): seq<Loan>
    decreases |sems| - i
  {
    if i >= |sems| then reclaims
    else HandOverFrom(sems, i + 1, lender, borrower, HandOver(sems[i], i, lender, borrower, reclaims))
  }

  // The borrower is signalled for every lock handed over.
  function LentSig(sems: seq<Sem>, sig: set<Task>, lender: Task, borrower: Task): set<Task> {
    if exists j :: 0 <= j < |sems| && Queued(sems[j].queue, borrower) && Holds(sems[j], lender) > 0
    then sig + {borrower} else sig
  }

  // The state at the lender's Wait().
  function AfterLend(s: State, lender: Task, borrower: Task): State
    requires Counted(s.sems)
  {
    State(LentSems(s.sems, lender, borrower), LentSig(s.sems, s.sig, lender, borrower))
  }

  lemma HandOverOwed(s: Sem, i: nat, lender: Task, borrower: Task, reclaims: seq<Loan>, j: nat, kind: Kind)
    requires SemInv(s)
    ensures var l := LentOf(s, lender, borrower);
      Owed(HandOver(s, i, lender, borrower, reclaims), j, kind) ==
      Owed(reclaims, j, kind) + (if j == i then HoldsOf(s, lender, kind) - l.Of(kind) else 0)
  {
    var c := ReadCount(s.readers, lender);
    var a := if c > 0 then [Loan(i, 0, c)] else [];
    var b := if s.owner == Some(lender) then [Loan(i, s.excl, 0)] else [];
    OwedAppend(a + reclaims, b, j, kind);
    OwedAppend(a, reclaims, j, kind);
  }

  lemma {:induction false} HandOverFromOwed(sems: seq<Sem>, i: nat, lender: Task, borrower: Task, reclaims: seq<Loan>, j: nat, kind: Kind)
    requires i <= |sems| && j < |sems| && forall k :: 0 <= k < |sems| ==> SemInv(sems[k])
    ensures var l := LentOf(sems[j], lender, borrower);
      Owed(HandOverFrom(sems, i, lender, borrower, reclaims), j, kind) ==
      Owed(reclaims, j, kind) + (if j >= i then HoldsOf(sems[j], lender, kind) - l.Of(kind) else 0)
    decreases |sems| - i
  {
    if i < |sems| {
      HandOverOwed(sems[i], i, lender, borrower, reclaims, j, kind);
      HandOverFromOwed(sems, i + 1, lender, borrower, HandOver(sems[i], i, lender, borrower, reclaims), j, kind);
    }
  }

  // ------------------------------------------------------------------ taking the loans back

  ghost predicate CanTakeBack(s: Sem, x: Loan, borrower: Task) {
    if x.excl > 0 then x.excl <= s.excl
    else FindReader(s.readers, borrower) < |s.readers| && x.count <= ReadCount(s.readers, borrower)
  }

  // One turn of the loop over `borrows`: the semaphore, and whether the loan is settled.
  // An unsettled one is queued in `reclaims`.
  ghost function TakeBack(s: Sem, x: Loan, lender: Task, borrower: Task): (Sem, bool)
    requires s.shared == |s.readers| && CanTakeBack(s, x, borrower)
  {
    var k := FindReader(s.readers, borrower);
    if x.excl > 0 then
      if x.excl == s.excl then (s.(owner := Some(lender)), true)
      else (s.(excl := s.excl - x.excl), false)
    else if x.count != s.readers[k].count then
      (s.(readers := s.readers[k := s.readers[k].(count := s.readers[k].count - x.count)]), false)
    else if s.owner == Some(borrower) then
      (s.(readers := Without(s.readers, k), shared := s.shared - 1), false)
    else
      (s.(readers := s.readers[k := s.readers[k].(task := lender)]), true)
  }

  function Requeue(x: Loan, reclaims: seq<Loan>): seq<Loan> {
    if x.excl > 0 then reclaims + [x] else [x] + reclaims
  }

  // The loop over `borrows` meets only loans it can take back.
  ghost predicate Reclaimable(sems: seq<Sem>, borrows: seq<Loan>, lender: Task, borrower: Task)
    decreases |borrows|
  {
    borrows != [] ==>
      var x := borrows[0];
      && x.sem < |sems|
      && sems[x.sem].shared == |sems[x.sem].readers|
      && CanTakeBack(sems[x.sem], x, borrower)
      && Reclaimable(sems[x.sem := TakeBack(sems[x.sem], x, lender, borrower).0], borrows[1..], lender, borrower)
  }

  ghost function Reclaim(sems: seq<Sem>, borrows: seq<Loan>, reclaims: seq<Loan>, lender: Task, borrower: Task): (seq<Sem>, seq<Loan>)
    requires Reclaimable(sems, borrows, lender, borrower)
    decreases |borrows|
  {
    if borrows == [] then (sems, reclaims)
    else
      var x := borrows[0];
      var (m, settled) := TakeBack(sems[x.sem], x, lender, borrower);
      Reclaim(sems[x.sem := m], borrows[1..], if settled then reclaims else Requeue(x, reclaims), lender, borrower)
  }

  // ------------------------------------------------------------------ taking back, one semaphore

  ghost predicate Settleable(s: Sem, l: Lent, lender: Task, borrower: Task) {
    Lendable(s, lender, borrower) && InPlace(s, borrower, l) && Holds(s, lender) == 0
  }

  // How much of the loan of one kind is to be locked again: all of it when the borrower has more
  // of that kind, or still owns the semaphore; otherwise the lender has it at once.
  function Back(s: Sem, l: Lent, borrower: Task, kind: Kind): nat {
    if HoldsOf(s, borrower, kind) > l.Of(kind) || HoldsOf(s, borrower, Exclusive) > l.excl then l.Of(kind) else 0
  }

  // The semaphore after both loans, spelled out.
  function Taken(s: Sem, l: Lent, lender: Task, borrower: Task): Sem {
    var k := FindReader(s.readers, borrower);
    var s1 := if l.excl == 0 then s
              else if l.excl == s.excl then s.(owner := Some(lender))
              else if l.excl < s.excl then s.(excl := s.excl - l.excl) else s;
    if l.count == 0 || k == |s.readers| || l.count > s.readers[k].count then s1
    else if l.count != s.readers[k].count then
      s1.(readers := s.readers[k := s.readers[k].(count := s.readers[k].count - l.count)])
    else if s1.owner == Some(borrower) then
      s1.(readers := Without(s.readers, k), shared := if s.shared > 0 then s.shared - 1 else 0)
    else
      s1.(readers := s.readers[k := s.readers[k].(task := lender)])
  }

  // What the two turns of the loop leave behind.
  ghost predicate TakenFacts(s: Sem, m: Sem, l: Lent, lender: Task, borrower: Task, u: Task) {
    && SemInv(m)
    && m.queue == s.queue
    && HoldsOf(m, u, Exclusive) == HeldBack(s, l, lender, borrower, u, Exclusive)
    && HoldsOf(m, u, Shared) == HeldBack(s, l, lender, borrower, u, Shared)
  }

  ghost function HeldBack(s: Sem, l: Lent, lender: Task, borrower: Task, u: Task, kind: Kind): int {
    if u == lender then l.Of(kind) - Back(s, l, borrower, kind)
    else if u == borrower then HoldsOf(s, u, kind) - l.Of(kind)
    else HoldsOf(s, u, kind)
  }

  lemma TakenOwned(s: Sem, m: Sem, l: Lent, lender: Task, borrower: Task, u: Task)
    requires Settleable(s, l, lender, borrower) && l.excl > 0 && m == Taken(s, l, lender, borrower)
    ensures TakenFacts(s, m, l, lender, borrower, u)
  {
    OwnerReads(s);
    WaitersReadlessEmpty(s.queue);
    QueuedIff(s.queue, lender);
  }

  lemma TakenPart(s: Sem, m: Sem, k: nat, l: Lent, lender: Task, borrower: Task, u: Task)
    requires Settleable(s, l, lender, borrower) && l.excl == 0 && 0 < l.count
    requires k == FindReader(s.readers, borrower) < |s.readers| && l.count < s.readers[k].count
    requires m == s.(readers := s.readers[k := s.readers[k].(count := s.readers[k].count - l.count)])
    ensures TakenFacts(s, m, l, lender, borrower, u)
  {
    RecountFacts(s, k, s.readers[k].count - l.count, u);
  }

  lemma TakenRemoved(s: Sem, m: Sem, k: nat, l: Lent, lender: Task, borrower: Task, u: Task)
    requires Settleable(s, l, lender, borrower) && l.excl == 0 && 0 < l.count && s.owner == Some(borrower)
    requires k == FindReader(s.readers, borrower) < |s.readers| && l.count == s.readers[k].count
    requires m == s.(readers := Without(s.readers, k), shared := s.shared - 1)
    ensures TakenFacts(s, m, l, lender, borrower, u)
  {
    RecordGoneFacts(s, k, u);
  }

  lemma TakenRetasked(s: Sem, m: Sem, k: nat, l: Lent, lender: Task, borrower: Task, u: Task)
    requires Settleable(s, l, lender, borrower) && l.excl == 0 && 0 < l.count && s.owner != Some(borrower)
    requires k == FindReader(s.readers, borrower) < |s.readers| && l.count == s.readers[k].count
    requires m == s.(readers := s.readers[k := s.readers[k].(task := lender)])
    ensures TakenFacts(s, m, l, lender, borrower, u)
  {
    assert FindReader(s.readers, lender) == |s.readers|;
    ReadersRetask(s.readers, k, lender, u);
    ReadlessRetask(s.queue, s.readers, k, lender);
  }

  lemma TakenShared(s: Sem, m: Sem, l: Lent, lender: Task, borrower: Task, u: Task)
    requires Settleable(s, l, lender, borrower) && l.excl == 0 && l.count > 0 && m == Taken(s, l, lender, borrower)
    ensures TakenFacts(s, m, l, lender, borrower, u)
  {
    var k := FindReader(s.readers, borrower);
    if l.count < s.readers[k].count {
      TakenPart(s, m, k, l, lender, borrower, u);
    } else if s.owner == Some(borrower) {
      TakenRemoved(s, m, k, l, lender, borrower, u);
    } else {
      TakenRetasked(s, m, k, l, lender, borrower, u);
    }
  }

  lemma RequeueOwed(x: Loan, reclaims: seq<Loan>, j: nat, kind: Kind)
    ensures Owed(Requeue(x, reclaims), j, kind) == Owed(reclaims, j, kind) + (if j == x.sem then x.Of(kind) else 0)
  {
    OwedAppend(reclaims, [x], j, kind);
    OwedAppend([x], reclaims, j, kind);
  }

  lemma ReclaimTurn(sems: seq<Sem>, x: Loan, rest: seq<Loan>, reclaims: seq<Loan>, lender: Task, borrower: Task)
    returns (next: seq<Loan>)
    requires x.sem < |sems| && sems[x.sem].shared == |sems[x.sem].readers| && CanTakeBack(sems[x.sem], x, borrower)
    requires Reclaimable(sems[x.sem := TakeBack(sems[x.sem], x, lender, borrower).0], rest, lender, borrower)
    ensures Reclaimable(sems, [x] + rest, lender, borrower)
    ensures Reclaim(sems, [x] + rest, reclaims, lender, borrower) ==
            Reclaim(sems[x.sem := TakeBack(sems[x.sem], x, lender, borrower).0], rest, next, lender, borrower)
    ensures forall j, kind :: Owed(next, j, kind) == Owed(reclaims, j, kind) +
              (if j == x.sem && !TakeBack(sems[x.sem], x, lender, borrower).1 then x.Of(kind) else 0)
  {
    var settled := TakeBack(sems[x.sem], x, lender, borrower).1;
    next := if settled then reclaims else Requeue(x, reclaims);
    assert ([x] + rest)[1..] == rest;
    forall j, kind
      ensures Owed(next, j, kind) == Owed(reclaims, j, kind) + (if j == x.sem && !settled then x.Of(kind) else 0)
    {
      RequeueOwed(x, reclaims, j, kind);
    }
  }

  lemma ExclTurn(s: Sem, i: nat, l: Lent, lender: Task, borrower: Task)
    requires Settleable(s, l, lender, borrower) && l.excl > 0
    ensures CanTakeBack(s, Loan(i, l.excl, 0), borrower)
    ensures var (s1, settled) := TakeBack(s, Loan(i, l.excl, 0), lender, borrower);
      && settled == (Back(s, l, borrower, Exclusive) == 0)
      && s1.shared == |s1.readers|
      && (l.count == 0 ==> s1 == Taken(s, l, lender, borrower))
  {
    OwnerReads(s);
  }

  lemma CountTurn(s: Sem, i: nat, l: Lent, lender: Task, borrower: Task)
    requires Settleable(s, l, lender, borrower) && l.count > 0
    ensures var s1 := if l.excl == 0 then s
                      else if l.excl == s.excl then s.(owner := Some(lender))
                      else s.(excl := s.excl - l.excl);
      var x := Loan(i, 0, l.count);
      && CanTakeBack(s1, x, borrower)
      && TakeBack(s1, x, lender, borrower).0 == Taken(s, l, lender, borrower)
      && TakeBack(s1, x, lender, borrower).1 == (Back(s, l, borrower, Shared) == 0)
  {
    if l.excl > 0 {
      OwnerReads(s);
    }
  }

  // Both loans of semaphore i, in list order.
  lemma ReclaimSem(sems: seq<Sem>, i: nat, l: Lent, rest: seq<Loan>, reclaims: seq<Loan>, lender: Task, borrower: Task)
    returns (next: seq<Loan>)
    requires i < |sems| && Settleable(sems[i], l, lender, borrower)
    requires Reclaimable(sems[i := Taken(sems[i], l, lender, borrower)], rest, lender, borrower)
    ensures Reclaimable(sems, LoansOf(i, l) + rest, lender, borrower)
    ensures Reclaim(sems, LoansOf(i, l) + rest, reclaims, lender, borrower) ==
            Reclaim(sems[i := Taken(sems[i], l, lender, borrower)], rest, next, lender, borrower)
    ensures forall j, kind :: Owed(next, j, kind) == Owed(reclaims, j, kind) + (if j == i then Back(sems[i], l, borrower, kind) else 0)
  {
    if l.excl > 0 && l.count > 0 {
      next := ReclaimBoth(sems, i, l, rest, reclaims, lender, borrower);
    } else if l.excl > 0 {
      next := ReclaimExcl(sems, i, l, rest, reclaims, lender, borrower);
    } else if l.count > 0 {
      next := ReclaimCount(sems, i, l, rest, reclaims, lender, borrower);
    } else {
      assert LoansOf(i, l) + rest == rest;
      assert sems[i := Taken(sems[i], l, lender, borrower)] == sems;
      next := reclaims;
    }
  }

  lemma ReclaimExcl(sems: seq<Sem>, i: nat, l: Lent, rest: seq<Loan>, reclaims: seq<Loan>, lender: Task, borrower: Task)
    returns (next: seq<Loan>)
    requires i < |sems| && Settleable(sems[i], l, lender, borrower) && l.excl > 0 && l.count == 0
    requires Reclaimable(sems[i := Taken(sems[i], l, lender, borrower)], rest, lender, borrower)
    ensures Reclaimable(sems, LoansOf(i, l) + rest, lender, borrower)
    ensures Reclaim(sems, LoansOf(i, l) + rest, reclaims, lender, borrower) ==
            Reclaim(sems[i := Taken(sems[i], l, lender, borrower)], rest, next, lender, borrower)
    ensures forall j, kind :: Owed(next, j, kind) == Owed(reclaims, j, kind) + (if j == i then Back(sems[i], l, borrower, kind) else 0)
  {
    assert LoansOf(i, l) + rest == [Loan(i, l.excl, 0)] + rest;
    ExclTurn(sems[i], i, l, lender, borrower);
    next := ReclaimTurn(sems, Loan(i, l.excl, 0), rest, reclaims, lender, borrower);
  }

  lemma ReclaimCount(sems: seq<Sem>, i: nat, l: Lent, rest: seq<Loan>, reclaims: seq<Loan>, lender: Task, borrower: Task)
    returns (next: seq<Loan>)
    requires i < |sems| && Settleable(sems[i], l, lender, borrower) && l.excl == 0 && l.count > 0
    requires Reclaimable(sems[i := Taken(sems[i], l, lender, borrower)], rest, lender, borrower)
    ensures Reclaimable(sems, LoansOf(i, l) + rest, lender, borrower)
    ensures Reclaim(sems, LoansOf(i, l) + rest, reclaims, lender, borrower) ==
            Reclaim(sems[i := Taken(sems[i], l, lender, borrower)], rest, next, lender, borrower)
    ensures forall j, kind :: Owed(next, j, kind) == Owed(reclaims, j, kind) + (if j == i then Back(sems[i], l, borrower, kind) else 0)
  {
    assert LoansOf(i, l) + rest == [Loan(i, 0, l.count)] + rest;
    CountTurn(sems[i], i, l, lender, borrower);
    next := ReclaimTurn(sems, Loan(i, 0, l.count), rest, reclaims, lender, borrower);
  }

  lemma ReclaimBoth(sems: seq<Sem>, i: nat, l: Lent, rest: seq<Loan>, reclaims: seq<Loan>, lender: Task, borrower: Task)
    returns (next: seq<Loan>)
    requires i < |sems| && Settleable(sems[i], l, lender, borrower) && l.excl > 0 && l.count > 0
    requires Reclaimable(sems[i := Taken(sems[i], l, lender, borrower)], rest, lender, borrower)
    ensures Reclaimable(sems, LoansOf(i, l) + rest, lender, borrower)
    ensures Reclaim(sems, LoansOf(i, l) + rest, reclaims, lender, borrower) ==
            Reclaim(sems[i := Taken(sems[i], l, lender, borrower)], rest, next, lender, borrower)
    ensures forall j, kind :: Owed(next, j, kind) == Owed(reclaims, j, kind) + (if j == i then Back(sems[i], l, borrower, kind) else 0)
  {
    var x, c := Loan(i, l.excl, 0), Loan(i, 0, l.count);
    ExclTurn(sems[i], i, l, lender, borrower);
    CountTurn(sems[i], i, l, lender, borrower);
    var s1 := TakeBack(sems[i], x, lender, borrower).0;
    var sems1 := sems[i := s1];
    assert sems1[i := Taken(sems[i], l, lender, borrower)] == sems[i := Taken(sems[i], l, lender, borrower)];
    assert LoansOf(i, l) + rest == [x] + ([c] + rest);
    var unused := ReclaimTurn(sems1, c, rest, reclaims, lender, borrower);
    var next1 := ReclaimTurn(sems, x, [c] + rest, reclaims, lender, borrower);
    next := ReclaimTurn(sems1, c, rest, next1, lender, borrower);
    forall j, kind
      ensures Owed(next, j, kind) == Owed(reclaims, j, kind) + (if j == i then Back(sems[i], l, borrower, kind) else 0)
    {
      assert Owed(next, j, kind) == Owed(next1, j, kind) + (if j == i && kind == Shared then Back(sems[i], l, borrower, Shared) else 0);
      assert Owed(next1, j, kind) == Owed(reclaims, j, kind) + (if j == i && kind == Exclusive then Back(sems[i], l, borrower, Exclusive) else 0);
    }
  }

  // ------------------------------------------------------------------ taking back, all semaphores

  ghost predicate AllSettleable(sems: seq<Sem>, lents: seq<Lent>, i: nat, lender: Task, borrower: Task) {
    && i <= |sems| == |lents|
    && forall j {:trigger Settleable(sems[j], lents[j], lender, borrower)} ::
         i <= j < |sems| ==> Settleable(sems[j], lents[j], lender, borrower)
  }

  lemma SettleableNext(sems: seq<Sem>, lents: seq<Lent>, i: nat, m: Sem, lender: Task, borrower: Task)
    requires AllSettleable(sems, lents, i, lender, borrower) && i < |sems|
    ensures AllSettleable(sems[i := m], lents, i + 1, lender, borrower)
    ensures Settleable(sems[i], lents[i], lender, borrower)
  {
  }

  lemma {:induction false} ReclaimableFrom(sems: seq<Sem>, lents: seq<Lent>, i: nat, lender: Task, borrower: Task)
    requires AllSettleable(sems, lents, i, lender, borrower)
    ensures Reclaimable(sems, LoansFrom(lents, i), lender, borrower)
    decreases |sems| - i
  {
    if i < |sems| {
      var m := Taken(sems[i], lents[i], lender, borrower);
      SettleableNext(sems, lents, i, m, lender, borrower);
      ReclaimableFrom(sems[i := m], lents, i + 1, lender, borrower);
      var _ := ReclaimSem(sems, i, lents[i], LoansFrom(lents, i + 1), [], lender, borrower);
    }
  }

  lemma ReclaimStep(sems: seq<Sem>, lents: seq<Lent>, i: nat, reclaims: seq<Loan>, lender: Task, borrower: Task)
    returns (next: seq<Sem>, later: seq<Loan>)
    requires AllSettleable(sems, lents, i, lender, borrower) && i < |sems|
    ensures AllSettleable(next, lents, i + 1, lender, borrower)
    ensures next == sems[i := Taken(sems[i], lents[i], lender, borrower)]
    ensures Reclaimable(next, LoansFrom(lents, i + 1), lender, borrower)
    ensures Reclaimable(sems, LoansFrom(lents, i), lender, borrower)
    ensures Reclaim(sems, LoansFrom(lents, i), reclaims, lender, borrower) ==
            Reclaim(next, LoansFrom(lents, i + 1), later, lender, borrower)
    ensures forall j, kind ::
              Owed(later, j, kind) == Owed(reclaims, j, kind) + (if j == i then Back(sems[i], lents[i], borrower, kind) else 0)
  {
    var m := Taken(sems[i], lents[i], lender, borrower);
    next := sems[i := m];
    SettleableNext(sems, lents, i, m, lender, borrower);
    ReclaimableFrom(next, lents, i + 1, lender, borrower);
    later := ReclaimSem(sems, i, lents[i], LoansFrom(lents, i + 1), reclaims, lender, borrower);
  }

  lemma {:induction false} ReclaimSemAt(sems: seq<Sem>, lents: seq<Lent>, i: nat, reclaims: seq<Loan>, lender: Task, borrower: Task, j: nat)
    requires AllSettleable(sems, lents, i, lender, borrower) && j < |sems|
    ensures Reclaimable(sems, LoansFrom(lents, i), lender, borrower)
    ensures var e := Reclaim(sems, LoansFrom(lents, i), reclaims, lender, borrower).0;
      && |e| == |sems|
      && e[j] == if j < i then sems[j] else Taken(sems[j], lents[j], lender, borrower)
    decreases |sems| - i
  {
    if i < |sems| {
      var next, later := ReclaimStep(sems, lents, i, reclaims, lender, borrower);
      ReclaimSemAt(next, lents, i + 1, later, lender, borrower, j);
    }
  }

  lemma {:induction false} ReclaimOwed(sems: seq<Sem>, lents: seq<Lent>, i: nat, reclaims: seq<Loan>, lender: Task, borrower: Task, j: nat, kind: Kind)
    requires AllSettleable(sems, lents, i, lender, borrower) && j < |sems|
    requires Reclaimable(sems, LoansFrom(lents, i), lender, borrower)
    ensures Owed(Reclaim(sems, LoansFrom(lents, i), reclaims, lender, borrower).1, j, kind) == Owed(reclaims, j, kind) +
            (if j >= i then Back(sems[j], lents[j], borrower, kind) else 0)
    decreases |sems| - i
  {
    if i < |sems| {
      var next, later := ReclaimStep(sems, lents, i, reclaims, lender, borrower);
      assert Owed(later, j, kind) == Owed(reclaims, j, kind) + (if j == i then Back(sems[j], lents[j], borrower, kind) else 0);
      ReclaimOwed(next, lents, i + 1, later, lender, borrower, j, kind);
    }
  }

  // ------------------------------------------------------------------ while the lender waits

  ghost predicate NoStepBy(steps: seq<Step>, t: Task) {
    forall k :: 0 <= k < |steps| && !steps[k].Poke? ==> steps[k].t != t
  }

  // The borrower never unlocks more than it locked itself; own[j] is what it holds of
  // semaphore j for itself.
  ghost predicate Disciplined(s: State, steps: seq<Step>, borrower: Task, own: seq<int>)
    requires IsRun(s, steps)
    decreases |steps|
  {
    && (forall j :: 0 <= j < |own| ==> own[j] >= 0)
    && (steps != [] ==> Disciplined(Next(s, steps[0]), steps[1..], borrower, OwnAfter(s, steps[0], borrower, own)))
  }

  ghost function OwnAfter(s: State, a: Step, borrower: Task, own: seq<int>): seq<int>
    requires Enabled(s, a)
  {
    seq(|own|, j requires 0 <= j < |own| => own[j] + Change(s, a, j, borrower))
  }

  // One semaphore between the two phases.
  ghost predicate OnLoan(s: Sem, l: Lent, own: int, lender: Task, borrower: Task) {
    && Settleable(s, l, lender, borrower)
    && own >= 0
    && Holds(s, borrower) == own + l.excl + l.count
  }

  ghost predicate LoansOut(s: State, lents: seq<Lent>, own: seq<int>, lender: Task, borrower: Task) {
    && Safe(s)
    && |s.sems| == |lents| == |own|
    && forall j :: 0 <= j < |lents| ==> OnLoan(s.sems[j], lents[j], own[j], lender, borrower)
  }

  // No segment touches the read records of a semaphore that has an owner before or after it, and
  // only the owner itself ends its ownership.
  lemma SegmentReaders(s: Sem, sig: set<Task>, a: Step)
    requires SemInv(s) && !a.Poke? && (a.Wake? ==> Queued(s.queue, a.t))
    ensures var m := Segment(s, sig, a).sem;
      && (m.readers == s.readers || (s.owner.None? && m.owner.None?))
      && (s.owner.Some? ==> m.owner == s.owner || m.owner.None?)
  {
  }

  // A segment of anyone but the lender leaves the borrowed part in place, unless it unlocks it.
  lemma SegmentInPlace(s: Sem, sig: set<Task>, a: Step, l: Lent, lender: Task, borrower: Task)
    requires Settleable(s, l, lender, borrower) && !a.Poke? && a.t != lender
    requires if a.Wake? then Queued(s.queue, a.t) else !Queued(s.queue, a.t)
    requires Holds(Segment(s, sig, a).sem, borrower) >= l.excl + l.count
    ensures InPlace(Segment(s, sig, a).sem, borrower, l)
  {
    SegmentReaders(s, sig, a);
  }

  lemma NextLoansOut(s: State, a: Step, lents: seq<Lent>, own: seq<int>, lender: Task, borrower: Task)
    requires LoansOut(s, lents, own, lender, borrower) && Enabled(s, a)
    requires !a.Poke? ==> a.t != lender
    requires forall j :: 0 <= j < |own| ==> OwnAfter(s, a, borrower, own)[j] >= 0
    ensures LoansOut(Next(s, a), lents, OwnAfter(s, a, borrower, own), lender, borrower)
  {
    NextSafe(s, a);
    var n := Next(s, a);
    var own' := OwnAfter(s, a, borrower, own);
    forall j | 0 <= j < |lents|
      ensures OnLoan(n.sems[j], lents[j], own'[j], lender, borrower)
    {
      NextHolds(s, a, j, borrower);
      NextHolds(s, a, j, lender);
      assert OnLoan(s.sems[j], lents[j], own[j], lender, borrower);
      if !a.Poke? && a.i == j {
        SegmentFacts(s.sems[j], s.sig, a, lender);
        SegmentInPlace(s.sems[j], s.sig, a, lents[j], lender, borrower);
      }
    }
  }

  lemma {:induction false} RunLoansOut(s: State, steps: seq<Step>, lents: seq<Lent>, own: seq<int>, lender: Task, borrower: Task)
    returns (own': seq<int>)
    requires LoansOut(s, lents, own, lender, borrower) && IsRun(s, steps)
    requires NoStepBy(steps, lender) && Disciplined(s, steps, borrower, own)
    ensures LoansOut(End(s, steps), lents, own', lender, borrower)
    ensures forall j :: 0 <= j < |own| ==> own'[j] == own[j] + Balance(s, steps, j, borrower)
    decreases |steps|
  {
    own' := own;
    if steps != [] {
      var next := OwnAfter(s, steps[0], borrower, own);
      assert Disciplined(Next(s, steps[0]), steps[1..], borrower, next);
      NextLoansOut(s, steps[0], lents, own, lender, borrower);
      assert NoStepBy(steps[1..], lender);
      own' := RunLoansOut(Next(s, steps[0]), steps[1..], lents, next, lender, borrower);
    }
  }

  // ------------------------------------------------------------------ locking again

  // The calls of the last loop of psdBorrowLocksWait.
  datatype LockCall = LockCall(kind: Kind, sem: nat)

  function RelockCalls(reclaims: seq<Loan>): seq<LockCall> {
    if reclaims == [] then []
    else
      var x := reclaims[0];
      seq(x.count, _ => LockCall(Shared, x.sem)) + seq(x.excl, _ => LockCall(Exclusive, x.sem)) + RelockCalls(reclaims[1..])
  }

  // The lock calls task t issues in a run.
  function CallsBy(steps: seq<Step>, t: Task): seq<LockCall> {
    if steps == [] then []
    else
      var rest := CallsBy(steps[1..], t);
      match steps[0]
      case LockExcl(u, i) => if u == t then [LockCall(Exclusive, i)] + rest else rest
      case LockShared(u, i, _) => if u == t then [LockCall(Shared, i)] + rest else rest
      case _ => rest
  }

  function CallsOn(calls: seq<LockCall>, i: nat, kind: Kind): nat {
    if calls == [] then 0 else (if calls[0] == LockCall(kind, i) then 1 else 0) + CallsOn(calls[1..], i, kind)
  }

  lemma {:induction false} CallsOnAppend(a: seq<LockCall>, b: seq<LockCall>, i: nat, kind: Kind)
    ensures CallsOn(a + b, i, kind) == CallsOn(a, i, kind) + CallsOn(b, i, kind)
  {
    if a == [] {
      assert a + b == b;
    } else {
      assert (a + b)[1..] == a[1..] + b;
      CallsOnAppend(a[1..], b, i, kind);
    }
  }

  lemma {:induction false} CallsOnRepeat(c: LockCall, n: nat, i: nat, kind: Kind)
    ensures CallsOn(seq(n, _ => c), i, kind) == if c == LockCall(kind, i) then n else 0
  {
    if n > 0 {
      assert seq(n, _ => c)[1..] == seq(n - 1, _ => c);
      CallsOnRepeat(c, n - 1, i, kind);
    }
  }

  // The last loop asks for as many locks of each kind as the list stands for.
  lemma {:induction false} RelockCallsOwed(reclaims: seq<Loan>, i: nat, kind: Kind)
    ensures CallsOn(RelockCalls(reclaims), i, kind) == Owed(reclaims, i, kind)
  {
    if reclaims != [] {
      var x := reclaims[0];
      var a := seq(x.count, _ => LockCall(Shared, x.sem));
      var b := seq(x.excl, _ => LockCall(Exclusive, x.sem));
      CallsOnRepeat(LockCall(Shared, x.sem), x.count, i, kind);
      CallsOnRepeat(LockCall(Exclusive, x.sem), x.excl, i, kind);
      CallsOnAppend(a + b, RelockCalls(reclaims[1..]), i, kind);
      CallsOnAppend(a, b, i, kind);
      RelockCallsOwed(reclaims[1..], i, kind);
    }
  }

  ghost predicate NeverUnlocks(steps: seq<Step>, t: Task) {
    forall k :: 0 <= k < |steps| && steps[k].Release? ==> steps[k].t != t
  }

  ghost function Pending(s: State, i: nat, t: Task): nat
    requires i < |s.sems|
  {
    if Queued(s.sems[i].queue, t) then 1 else 0
  }

  // A task that only locks holds, or is waiting for, one more lock per call it issued.
  lemma {:induction false} CallsAreKept(s: State, steps: seq<Step>, t: Task, i: nat)
    requires Safe(s) && IsRun(s, steps) && NeverUnlocks(steps, t) && i < |s.sems|
    ensures |End(s, steps).sems| == |s.sems|
    ensures Holds(End(s, steps).sems[i], t) + Pending(End(s, steps), i, t)
         == Holds(s.sems[i], t) + Pending(s, i, t) + CallsOn(CallsBy(steps, t), i, Exclusive) + CallsOn(CallsBy(steps, t), i, Shared)
    decreases |steps|
  {
    if steps != [] {
      var a := steps[0];
      NextSafe(s, a);
      NextHolds(s, a, i, t);
      if !a.Poke? && a.i == i {
        SegmentFacts(s.sems[i], s.sig, a, t);
      }
      assert NeverUnlocks(steps[1..], t);
      CallsAreKept(Next(s, a), steps[1..], t, i);
    }
  }

  // ------------------------------------------------------------------ the whole call

  // The state after the loop over `borrows`, and the list it leaves to lock again.
  ghost function AfterReclaim(s: State, borrows: seq<Loan>, reclaims: seq<Loan>, lender: Task, borrower: Task): (State, seq<Loan>) {
    if Reclaimable(s.sems, borrows, lender, borrower) then
      var (sems, rest) := Reclaim(s.sems, borrows, reclaims, lender, borrower);
      (State(sems, s.sig), rest)
    else (s, reclaims)
  }

  ghost function Borrows(s: State, lender: Task, borrower: Task): seq<Loan> {
    LoansFrom(Lents(s.sems, lender, borrower), 0)
  }

  ghost function Reclaims(s: State, lender: Task, borrower: Task): seq<Loan> {
    HandOverFrom(s.sems, 0, lender, borrower, [])
  }

  // What the borrower holds for itself when the call begins.
  ghost function OwnLocks(s: State, borrower: Task): seq<int> {
    seq(|s.sems|, j requires 0 <= j < |s.sems| => Holds(s.sems[j], borrower))
  }

  ghost predicate MayLend(s: State, lender: Task, borrower: Task) {
    && Safe(s)
    && lender != borrower
    && Free(s, lender)
    && forall j :: 0 <= j < |s.sems| ==> !HandsToShared(s.sems[j], lender, borrower)
  }

  // The lend phase moves everything: the loans are out, nobody else is touched.
  lemma LendPhase(s: State, lender: Task, borrower: Task)
    requires MayLend(s, lender, borrower)
    ensures LoansOut(AfterLend(s, lender, borrower), Lents(s.sems, lender, borrower), OwnLocks(s, borrower), lender, borrower)
    ensures forall j, u, kind :: 0 <= j < |s.sems| ==>
              HoldsOf(AfterLend(s, lender, borrower).sems[j], u, kind) ==
              HeldAfter(s.sems[j], LentOf(s.sems[j], lender, borrower), lender, borrower, u, kind)
  {
    var e := AfterLend(s, lender, borrower);
    forall j, u | 0 <= j < |s.sems|
      ensures Queued(e.sems[j].queue, u) <==> Queued(s.sems[j].queue, u)
    {
      LentSemFacts(s.sems[j], lender, borrower, u);
    }
    forall j, u, kind | 0 <= j < |s.sems|
      ensures HoldsOf(e.sems[j], u, kind) == HeldAfter(s.sems[j], LentOf(s.sems[j], lender, borrower), lender, borrower, u, kind)
    {
      LentSemFacts(s.sems[j], lender, borrower, u);
    }
    forall j | 0 <= j < |s.sems|
      ensures OnLoan(e.sems[j], Lents(s.sems, lender, borrower)[j], OwnLocks(s, borrower)[j], lender, borrower)
    {
      LentOnLoan(s.sems[j], lender, borrower);
    }
    forall j, k, t | 0 <= j < k < |e.sems| && Queued(e.sems[j].queue, t)
      ensures !Queued(e.sems[k].queue, t)
    {
      assert Queued(s.sems[j].queue, t);
    }
  }

  lemma LentOnLoan(s: Sem, lender: Task, borrower: Task)
    requires Lendable(s, lender, borrower) && !HandsToShared(s, lender, borrower)
    ensures OnLoan(LentSem(s, lender, borrower), LentOf(s, lender, borrower), Holds(s, borrower), lender, borrower)
  {
    LentSemFacts(s, lender, borrower, lender);
    LentSemFacts(s, lender, borrower, borrower);
  }

  // Between them the two lists account for every lock the lender held, of each kind: on a
  // semaphore the borrower waits for they are all to be reclaimed, elsewhere all are borrowed.
  lemma ListsCoverHolds(s: State, lender: Task, borrower: Task, j: nat, kind: Kind)
    requires Safe(s) && j < |s.sems|
    ensures var waits := Queued(s.sems[j].queue, borrower);
      && Lents(s.sems, lender, borrower)[j].Of(kind) == (if waits then 0 else HoldsOf(s.sems[j], lender, kind))
      && Owed(Borrows(s, lender, borrower), j, kind) == (if waits then 0 else HoldsOf(s.sems[j], lender, kind))
      && Owed(Reclaims(s, lender, borrower), j, kind) == (if waits then HoldsOf(s.sems[j], lender, kind) else 0)
  {
    HandOverFromOwed(s.sems, 0, lender, borrower, [], j, kind);
    LoansFromOwed(Lents(s.sems, lender, borrower), 0, j, kind);
  }

  lemma {:induction false} LoansFromOwed(ls: seq<Lent>, i: nat, j: nat, kind: Kind)
    requires i <= |ls| && j < |ls|
    ensures Owed(LoansFrom(ls, i), j, kind) == if j >= i then ls[j].Of(kind) else 0
    decreases |ls| - i
  {
    if i < |ls| {
      var a := if ls[i].excl > 0 then [Loan(i, ls[i].excl, 0)] else [];
      var b := if ls[i].count > 0 then [Loan(i, 0, ls[i].count)] else [];
      OwedAppend(a + b, LoansFrom(ls, i + 1), j, kind);
      OwedAppend(a, b, j, kind);
      LoansFromOwed(ls, i + 1, j, kind);
    }
  }

  // The loop over `borrows`: the invariant is back, the borrower keeps exactly its own locks,
  // and what the lender does not hold again is queued to be locked again, kind by kind.
  lemma ReclaimPhase(s: State, lents: seq<Lent>, own: seq<int>, reclaims: seq<Loan>, lender: Task, borrower: Task)
    requires LoansOut(s, lents, own, lender, borrower)
    ensures Reclaimable(s.sems, LoansFrom(lents, 0), lender, borrower)
    ensures var (e, rest) := AfterReclaim(s, LoansFrom(lents, 0), reclaims, lender, borrower);
      && Safe(e)
      && |e.sems| == |s.sems|
      && (forall j :: 0 <= j < |s.sems| ==> e.sems[j].queue == s.sems[j].queue)
      && (forall j, kind :: 0 <= j < |s.sems| ==>
            Owed(rest, j, kind) == Owed(reclaims, j, kind) + Back(s.sems[j], lents[j], borrower, kind))
      && (forall j, u, kind :: 0 <= j < |s.sems| ==>
            HoldsOf(e.sems[j], u, kind) == HeldBack(s.sems[j], lents[j], lender, borrower, u, kind))
      && (forall j :: 0 <= j < |s.sems| ==> Holds(e.sems[j], borrower) == own[j])
  {
    ReclaimShape(s, lents, own, reclaims, lender, borrower);
    ReclaimedHolds(s, lents, own, reclaims, lender, borrower);
    var (e, rest) := AfterReclaim(s, LoansFrom(lents, 0), reclaims, lender, borrower);
    forall j | 0 <= j < |s.sems|
      ensures SemInv(e.sems[j]) && e.sems[j].queue == s.sems[j].queue
      ensures Holds(e.sems[j], borrower) == own[j]
    {
      ReclaimPoint(s, lents, own, reclaims, lender, borrower, j, borrower);
    }
    forall j, kind | 0 <= j < |s.sems|
      ensures Owed(rest, j, kind) == Owed(reclaims, j, kind) + Back(s.sems[j], lents[j], borrower, kind)
    {
      ReclaimOwed(s.sems, lents, 0, reclaims, lender, borrower, j, kind);
    }
  }

  lemma ReclaimedHolds(s: State, lents: seq<Lent>, own: seq<int>, reclaims: seq<Loan>, lender: Task, borrower: Task)
    requires LoansOut(s, lents, own, lender, borrower)
    ensures var e := AfterReclaim(s, LoansFrom(lents, 0), reclaims, lender, borrower).0;
      && |e.sems| == |s.sems|
      && forall j, u, kind :: 0 <= j < |s.sems| ==>
           HoldsOf(e.sems[j], u, kind) == HeldBack(s.sems[j], lents[j], lender, borrower, u, kind)
  {
    ReclaimShape(s, lents, own, reclaims, lender, borrower);
    var e := AfterReclaim(s, LoansFrom(lents, 0), reclaims, lender, borrower).0;
    forall j, u, kind | 0 <= j < |s.sems|
      ensures HoldsOf(e.sems[j], u, kind) == HeldBack(s.sems[j], lents[j], lender, borrower, u, kind)
    {
      ReclaimPoint(s, lents, own, reclaims, lender, borrower, j, u);
      assert kind == Exclusive || kind == Shared;
    }
  }

  lemma ReclaimShape(s: State, lents: seq<Lent>, own: seq<int>, reclaims: seq<Loan>, lender: Task, borrower: Task)
    requires LoansOut(s, lents, own, lender, borrower)
    ensures AllSettleable(s.sems, lents, 0, lender, borrower)
    ensures Reclaimable(s.sems, LoansFrom(lents, 0), lender, borrower)
    ensures var e := AfterReclaim(s, LoansFrom(lents, 0), reclaims, lender, borrower).0;
      && |e.sems| == |s.sems|
      && forall j :: 0 <= j < |s.sems| ==> e.sems[j] == Taken(s.sems[j], lents[j], lender, borrower)
  {
    forall j | 0 <= j < |s.sems|
      ensures Settleable(s.sems[j], lents[j], lender, borrower)
    {
      assert OnLoan(s.sems[j], lents[j], own[j], lender, borrower);
    }
    ReclaimableFrom(s.sems, lents, 0, lender, borrower);
    var e := AfterReclaim(s, LoansFrom(lents, 0), reclaims, lender, borrower).0;
    if |s.sems| > 0 {
      ReclaimSemAt(s.sems, lents, 0, reclaims, lender, borrower, 0);
    } else {
      assert LoansFrom(lents, 0) == [];
    }
    forall j | 0 <= j < |s.sems|
      ensures e.sems[j] == Taken(s.sems[j], lents[j], lender, borrower)
    {
      ReclaimSemAt(s.sems, lents, 0, reclaims, lender, borrower, j);
    }
  }

  lemma ReclaimPoint(s: State, lents: seq<Lent>, own: seq<int>, reclaims: seq<Loan>, lender: Task, borrower: Task, j: nat, u: Task)
    requires LoansOut(s, lents, own, lender, borrower) && j < |s.sems|
    ensures var e := AfterReclaim(s, LoansFrom(lents, 0), reclaims, lender, borrower).0;
      && |e.sems| == |s.sems|
      && SemInv(e.sems[j])
      && e.sems[j].queue == s.sems[j].queue
      && (u == borrower ==> Holds(e.sems[j], u) == own[j])
      && HoldsOf(e.sems[j], u, Exclusive) == HeldBack(s.sems[j], lents[j], lender, borrower, u, Exclusive)
      && HoldsOf(e.sems[j], u, Shared) == HeldBack(s.sems[j], lents[j], lender, borrower, u, Shared)
  {
    ReclaimShape(s, lents, own, reclaims, lender, borrower);
    assert OnLoan(s.sems[j], lents[j], own[j], lender, borrower);
    SettledFacts(s.sems[j], lents[j], lender, borrower, u);
  }

  lemma SettledFacts(s: Sem, l: Lent, lender: Task, borrower: Task, u: Task)
    requires Settleable(s, l, lender, borrower)
    ensures TakenFacts(s, Taken(s, l, lender, borrower), l, lender, borrower, u)
  {
    var m := Taken(s, l, lender, borrower);
    if l.excl > 0 {
      TakenOwned(s, m, l, lender, borrower, u);
    } else if l.count > 0 {
      TakenShared(s, m, l, lender, borrower, u);
    }
  }

  // The lender may lend, and others run `during` while it waits, the borrower never releasing
  // more than it locked itself.
  ghost predicate Episode(s: State, lender: Task, borrower: Task, during: seq<Step>) {
    && MayLend(s, lender, borrower)
    && IsRun(AfterLend(s, lender, borrower), during)
    && NoStepBy(during, lender)
    && Disciplined(AfterLend(s, lender, borrower), during, borrower, OwnLocks(s, borrower))
  }

  // The state when the lender's wait ends.
  ghost function AfterWait(s: State, lender: Task, borrower: Task, during: seq<Step>): State
    requires Episode(s, lender, borrower, during)
  {
    End(AfterLend(s, lender, borrower), during)
  }

  // The state once the loop over `borrows` is through, and what is left to lock again.
  ghost function TakenBack(s: State, lender: Task, borrower: Task, during: seq<Step>): (State, seq<Loan>)
    requires Episode(s, lender, borrower, during)
  {
    AfterReclaim(AfterWait(s, lender, borrower, during), Borrows(s, lender, borrower), Reclaims(s, lender, borrower), lender, borrower)
  }

  // In the steps `after` of all tasks the lender locks `rest` again and does nothing else.
  ghost predicate LocksAgain(m: State, rest: seq<Loan>, after: seq<Step>, lender: Task) {
    && IsRun(m, after)
    && NeverUnlocks(after, lender)
    && CallsBy(after, lender) == RelockCalls(rest)
    && Free(End(m, after), lender)
  }

  // The lender's holds and what is left to lock again add up to what it held, of each kind, and
  // the borrower keeps what it locked itself. The lender is not left to ask for a shared lock it
  // had beside an exclusive one it has back, and where the borrower has nothing left it has
  // everything back at once, unless it handed its locks over through the queue.
  lemma LendAndTakeBack(s: State, lender: Task, borrower: Task, during: seq<Step>, i: nat)
    requires Episode(s, lender, borrower, during) && i < |s.sems|
    ensures Reclaimable(AfterWait(s, lender, borrower, during).sems, Borrows(s, lender, borrower), lender, borrower)
    ensures Safe(AfterLend(s, lender, borrower))
    ensures var m := TakenBack(s, lender, borrower, during).0;
      && Safe(m)
      && |m.sems| == |s.sems|
      && !Queued(m.sems[i].queue, lender)
    ensures AddsUp(s, lender, borrower, during, i, Exclusive) && AddsUp(s, lender, borrower, during, i, Shared)
    ensures var (m, rest) := TakenBack(s, lender, borrower, during);
      && (HoldsOf(m.sems[i], lender, Exclusive) > 0 ==> Owed(rest, i, Shared) == 0)
      && (Holds(m.sems[i], borrower) == 0 && !Queued(s.sems[i].queue, borrower) ==>
            Owed(rest, i, Exclusive) == Owed(rest, i, Shared) == 0)
  {
    TakenBackFacts(s, lender, borrower, during, i, Exclusive);
    TakenBackFacts(s, lender, borrower, during, i, Shared);
  }

  ghost predicate AddsUp(s: State, lender: Task, borrower: Task, during: seq<Step>, i: nat, kind: Kind)
    requires Episode(s, lender, borrower, during) && i < |s.sems|
  {
    var (m, rest) := TakenBack(s, lender, borrower, during);
    && |m.sems| == |s.sems|
    && HoldsOf(m.sems[i], lender, kind) + Owed(rest, i, kind) == HoldsOf(s.sems[i], lender, kind)
    && HoldsOf(m.sems[i], borrower, kind) ==
         HoldsOf(s.sems[i], borrower, kind) + BalanceOf(AfterLend(s, lender, borrower), during, i, borrower, kind)
  }

  // How one kind of lock on semaphore i is settled.
  ghost predicate SettledOf(s: State, lender: Task, borrower: Task, during: seq<Step>, i: nat, kind: Kind)
    requires Episode(s, lender, borrower, during) && i < |s.sems|
  {
    var l := LentOf(s.sems[i], lender, borrower);
    var e := AfterWait(s, lender, borrower, during);
    var m := TakenBack(s, lender, borrower, during).0;
    && |e.sems| == |m.sems| == |s.sems|
    && l.Of(kind) == (if Queued(s.sems[i].queue, borrower) then 0 else HoldsOf(s.sems[i], lender, kind))
    && HoldsOf(m.sems[i], lender, kind) == l.Of(kind) - Back(e.sems[i], l, borrower, kind)
    && HoldsOf(m.sems[i], borrower, kind) == HoldsOf(e.sems[i], borrower, kind) - l.Of(kind)
  }

  lemma TakenBackFacts(s: State, lender: Task, borrower: Task, during: seq<Step>, i: nat, kind: Kind)
    requires Episode(s, lender, borrower, during) && i < |s.sems|
    ensures Reclaimable(AfterWait(s, lender, borrower, during).sems, Borrows(s, lender, borrower), lender, borrower)
    ensures Safe(AfterLend(s, lender, borrower))
    ensures var m := TakenBack(s, lender, borrower, during).0;
      Safe(m) && |m.sems| == |s.sems| && !Queued(m.sems[i].queue, lender)
    ensures SettledOf(s, lender, borrower, during, i, kind) && AddsUp(s, lender, borrower, during, i, kind)
  {
    var s1 := AfterLend(s, lender, borrower);
    var lents := Lents(s.sems, lender, borrower);
    LendPhase(s, lender, borrower);
    var own := RunLoansOut(s1, during, lents, OwnLocks(s, borrower), lender, borrower);
    var e := End(s1, during);
    ReclaimPhase(e, lents, own, Reclaims(s, lender, borrower), lender, borrower);
    assert OnLoan(e.sems[i], lents[i], own[i], lender, borrower);
    RunHoldsOf(s1, during, i, borrower, kind);
    ListsCoverHolds(s, lender, borrower, i, kind);
  }

  // Locking `rest` again gives the lender that much back.
  lemma Relocked(m: State, rest: seq<Loan>, after: seq<Step>, lender: Task, i: nat)
    requires Safe(m) && LocksAgain(m, rest, after, lender) && i < |m.sems| && !Queued(m.sems[i].queue, lender)
    ensures Safe(End(m, after)) && |End(m, after).sems| == |m.sems|
    ensures Holds(End(m, after).sems[i], lender) == Holds(m.sems[i], lender) + Owed(rest, i, Exclusive) + Owed(rest, i, Shared)
  {
    RunSafe(m, after);
    CallsAreKept(m, after, lender, i);
    RelockCallsOwed(rest, i, Exclusive);
    RelockCallsOwed(rest, i, Shared);
  }

  // psdBorrowLocksWait conserves locks. The lender lends everything it holds to the borrower;
  // the others run `during` while it waits; it takes back what it can at once; and it locks
  // the rest again, one call after the other, amid the steps `after` of all tasks. When the
  // last call has returned, the lender's hold count on every semaphore is what it was.
  lemma LendingConservesLocks(s: State, lender: Task, borrower: Task, during: seq<Step>, after: seq<Step>, i: nat)
    requires Episode(s, lender, borrower, during) && i < |s.sems|
    requires var (m, rest) := TakenBack(s, lender, borrower, during); LocksAgain(m, rest, after, lender)
    ensures Reclaimable(AfterWait(s, lender, borrower, during).sems, Borrows(s, lender, borrower), lender, borrower)
    ensures Safe(AfterLend(s, lender, borrower))
    ensures var m := TakenBack(s, lender, borrower, during).0;
      && Safe(m) && Safe(End(m, after))
      && |End(m, after).sems| == |m.sems| == |s.sems|
      && Holds(End(m, after).sems[i], lender) == Holds(s.sems[i], lender)
      && AddsUp(s, lender, borrower, during, i, Exclusive) && AddsUp(s, lender, borrower, during, i, Shared)
  {
    var (m, rest) := TakenBack(s, lender, borrower, during);
    LendAndTakeBack(s, lender, borrower, during, i);
    Relocked(m, rest, after, lender, i);
  }

  // ------------------------------------------------------------------ what the locks are afterwards

  // The list asks for shared locks before it asks for exclusive ones: the first n entries are
  // shared, the others exclusive.
  ghost predicate SharedFirst(ls: seq<Loan>, n: nat) {
    && n <= |ls|
    && (forall j :: 0 <= j < n ==> ls[j].excl == 0)
    && (forall j :: n <= j < |ls| ==> ls[j].count == 0)
  }

  ghost predicate OneKind(ls: seq<Loan>) {
    forall j :: 0 <= j < |ls| ==> ls[j].excl == 0 || ls[j].count == 0
  }

  lemma {:induction false} LoansOneKind(ls: seq<Lent>, i: nat)
    ensures OneKind(LoansFrom(ls, i))
    decreases |ls| - i
  {
    if i < |ls| {
      LoansOneKind(ls, i + 1);
    }
  }

  lemma {:induction false} HandOverSharedFirst(sems: seq<Sem>, i: nat, lender: Task, borrower: Task, reclaims: seq<Loan>, n: nat)
    returns (n': nat)
    requires SharedFirst(reclaims, n)
    ensures SharedFirst(HandOverFrom(sems, i, lender, borrower, reclaims), n')
    decreases |sems| - i
  {
    n' := n;
    if i < |sems| {
      var more := Queued(sems[i].queue, borrower) && ReadCount(sems[i].readers, lender) > 0;
      n' := HandOverSharedFirst(sems, i + 1, lender, borrower, HandOver(sems[i], i, lender, borrower, reclaims),
                                if more then n + 1 else n);
    }
  }

  lemma RequeueSharedFirst(x: Loan, reclaims: seq<Loan>, n: nat) returns (n': nat)
    requires SharedFirst(reclaims, n) && (x.excl == 0 || x.count == 0)
    ensures SharedFirst(Requeue(x, reclaims), n')
  {
    n' := if x.excl > 0 then n else n + 1;
  }

  lemma {:induction false} ReclaimSharedFirst(sems: seq<Sem>, borrows: seq<Loan>, reclaims: seq<Loan>, lender: Task, borrower: Task, n: nat)
    returns (n': nat)
    requires Reclaimable(sems, borrows, lender, borrower) && OneKind(borrows) && SharedFirst(reclaims, n)
    ensures SharedFirst(Reclaim(sems, borrows, reclaims, lender, borrower).1, n')
    decreases |borrows|
  {
    n' := n;
    if borrows != [] {
      var x := borrows[0];
      var (m, settled) := TakeBack(sems[x.sem], x, lender, borrower);
      if settled {
        n' := ReclaimSharedFirst(sems[x.sem := m], borrows[1..], reclaims, lender, borrower, n);
      } else {
        var n1 := RequeueSharedFirst(x, reclaims, n);
        n' := ReclaimSharedFirst(sems[x.sem := m], borrows[1..], Requeue(x, reclaims), lender, borrower, n1);
      }
    }
  }

  // After the first exclusive call all calls are exclusive.
  ghost predicate Sorted(calls: seq<LockCall>) {
    forall a, b :: 0 <= a < b < |calls| && calls[a].kind == Exclusive ==> calls[b].kind == Exclusive
  }

  lemma {:induction false} RelockSorted(ls: seq<Loan>, n: nat)
    requires SharedFirst(ls, n)
    ensures Sorted(RelockCalls(ls))
    ensures n == 0 ==> forall a :: 0 <= a < |RelockCalls(ls)| ==> RelockCalls(ls)[a].kind == Exclusive
  {
    if ls != [] {
      RelockSorted(ls[1..], if n == 0 then 0 else n - 1);
    }
  }

  // Whenever the task asks for a shared lock there is memory for a record.
  ghost predicate WithMemory(steps: seq<Step>, t: Task) {
    forall k :: 0 <= k < |steps| && steps[k].LockShared? && steps[k].t == t ==> steps[k].mem
  }

  ghost function PendingOf(s: State, i: nat, t: Task, kind: Kind): nat
    requires i < |s.sems|
  {
    if WaitsFor(s.sems[i].queue, t) == Some(kind) then 1 else 0
  }

  // No shared call on semaphore i is to come once the task owns it or waits to own it.
  ghost predicate SharedDone(s: State, calls: seq<LockCall>, t: Task, i: nat)
    requires i < |s.sems|
  {
    HoldsOf(s.sems[i], t, Exclusive) + PendingOf(s, i, t, Exclusive) > 0 ==> LockCall(Shared, i) !in calls
  }

  // What a step does to the holds and the pending call of task t.
  lemma KindKept(s: State, a: Step, t: Task, i: nat, kind: Kind)
    requires Safe(s) && Enabled(s, a) && i < |s.sems| && !(a.Release? && a.t == t)
    requires a == LockShared(t, i, true) ==> HoldsOf(s.sems[i], t, Exclusive) == 0
    requires a.LockShared? && a.t == t ==> a.mem
    ensures |Next(s, a).sems| == |s.sems|
    ensures HoldsOf(Next(s, a).sems[i], t, kind) + PendingOf(Next(s, a), i, t, kind)
         == HoldsOf(s.sems[i], t, kind) + PendingOf(s, i, t, kind) + CallsOn(CallsBy([a], t), i, kind)
  {
    if !a.Poke? && a.i == i {
      SegmentFacts(s.sems[i], s.sig, a, t);
    }
  }

  lemma OneCall(s: State, a: Step, todo: seq<LockCall>, t: Task, i: nat)
    requires i < |s.sems| && SharedDone(s, CallsBy([a], t) + todo, t, i)
    ensures a == LockShared(t, i, true) ==> HoldsOf(s.sems[i], t, Exclusive) == 0
  {
    var calls := CallsBy([a], t) + todo;
    assert a == LockShared(t, i, true) ==> calls[0] == LockCall(Shared, i);
  }

  lemma StillDone(s: State, a: Step, todo: seq<LockCall>, t: Task, i: nat)
    requires Safe(s) && Enabled(s, a) && i < |s.sems| && !(a.Release? && a.t == t)
    requires a.LockShared? && a.t == t ==> a.mem
    requires var calls := CallsBy([a], t) + todo; Sorted(calls) && SharedDone(s, calls, t, i)
    ensures |Next(s, a).sems| == |s.sems|
    ensures SharedDone(Next(s, a), todo, t, i)
  {
    OneCall(s, a, todo, t, i);
    KindKept(s, a, t, i, Exclusive);
    NoneToCome(CallsBy([a], t), todo, i);
  }

  lemma NoneToCome(now: seq<LockCall>, todo: seq<LockCall>, i: nat)
    ensures LockCall(Shared, i) in todo ==> LockCall(Shared, i) in now + todo
    ensures Sorted(now + todo) && |now| > 0 && now[0].kind == Exclusive ==> LockCall(Shared, i) !in todo
  {
    var calls := now + todo;
    assert forall k :: 0 <= k < |todo| ==> todo[k] == calls[|now| + k];
    if |now| > 0 {
      assert calls[0] == now[0];
    }
  }

  // A task that only locks, and asks for no shared lock on a semaphore it owns, ends with one
  // more lock of the kind per call, or is waiting for it.
  lemma {:induction false} KindsAreKept(s: State, steps: seq<Step>, t: Task, i: nat, kind: Kind)
    requires Safe(s) && IsRun(s, steps) && NeverUnlocks(steps, t) && WithMemory(steps, t) && i < |s.sems|
    requires Sorted(CallsBy(steps, t)) && SharedDone(s, CallsBy(steps, t), t, i)
    ensures |End(s, steps).sems| == |s.sems|
    ensures HoldsOf(End(s, steps).sems[i], t, kind) + PendingOf(End(s, steps), i, t, kind)
         == HoldsOf(s.sems[i], t, kind) + PendingOf(s, i, t, kind) + CallsOn(CallsBy(steps, t), i, kind)
    decreases |steps|
  {
    if steps != [] {
      var a, todo := steps[0], CallsBy(steps[1..], t);
      assert CallsBy(steps, t) == CallsBy([a], t) + todo;
      CallsOnAppend(CallsBy([a], t), todo, i, kind);
      NextSafe(s, a);
      OneCall(s, a, todo, t, i);
      KindKept(s, a, t, i, kind);
      StillDone(s, a, todo, t, i);
      SortedTail(CallsBy([a], t), todo);
      assert NeverUnlocks(steps[1..], t) && WithMemory(steps[1..], t);
      KindsAreKept(Next(s, a), steps[1..], t, i, kind);
    }
  }

  // Whether or not there is memory, a task that only locks has at least one exclusive lock more,
  // or is waiting for it, per exclusive call.
  lemma {:induction false} ExclusiveGrows(s: State, steps: seq<Step>, t: Task, i: nat)
    requires Safe(s) && IsRun(s, steps) && NeverUnlocks(steps, t) && i < |s.sems|
    ensures |End(s, steps).sems| == |s.sems|
    ensures HoldsOf(End(s, steps).sems[i], t, Exclusive) + PendingOf(End(s, steps), i, t, Exclusive)
         >= HoldsOf(s.sems[i], t, Exclusive) + PendingOf(s, i, t, Exclusive) + CallsOn(CallsBy(steps, t), i, Exclusive)
    decreases |steps|
  {
    if steps != [] {
      var a := steps[0];
      NextSafe(s, a);
      if !a.Poke? && a.i == i {
        SegmentFacts(s.sems[i], s.sig, a, t);
      }
      assert NeverUnlocks(steps[1..], t);
      ExclusiveGrows(Next(s, a), steps[1..], t, i);
    }
  }

  lemma SortedTail(a: seq<LockCall>, b: seq<LockCall>)
    requires Sorted(a + b)
    ensures Sorted(b)
  {
    forall j, k | 0 <= j < k < |b| && b[j].kind == Exclusive
      ensures b[k].kind == Exclusive
    {
      assert (a + b)[|a| + j] == b[j] && (a + b)[|a| + k] == b[k];
    }
  }

  lemma {:induction false} NoCallsIff(calls: seq<LockCall>, i: nat, kind: Kind)
    ensures CallsOn(calls, i, kind) == 0 <==> LockCall(kind, i) !in calls
  {
    if calls != [] {
      NoCallsIff(calls[1..], i, kind);
    }
  }

  lemma RestSharedFirst(s: State, lender: Task, borrower: Task, during: seq<Step>) returns (n: nat)
    requires Episode(s, lender, borrower, during)
    ensures SharedFirst(TakenBack(s, lender, borrower, during).1, n)
  {
    var e := AfterWait(s, lender, borrower, during);
    LoansOneKind(Lents(s.sems, lender, borrower), 0);
    n := HandOverSharedFirst(s.sems, 0, lender, borrower, [], 0);
    if Reclaimable(e.sems, Borrows(s, lender, borrower), lender, borrower) {
      n := ReclaimSharedFirst(e.sems, Borrows(s, lender, borrower), Reclaims(s, lender, borrower), lender, borrower, n);
    }
  }

  // With memory for its read locks the lender has on every semaphore exactly the exclusive and
  // the shared locks it had on entry; it owns again what it owned and nothing else.
  lemma LendingRestoresLocks(s: State, lender: Task, borrower: Task, during: seq<Step>, after: seq<Step>, i: nat)
    requires Episode(s, lender, borrower, during) && i < |s.sems|
    requires var (m, rest) := TakenBack(s, lender, borrower, during); LocksAgain(m, rest, after, lender)
    requires WithMemory(after, lender)
    ensures var m := TakenBack(s, lender, borrower, during).0;
      && |End(m, after).sems| == |s.sems|
      && SemInv(s.sems[i]) && SemInv(End(m, after).sems[i])
      && HoldsOf(End(m, after).sems[i], lender, Exclusive) == HoldsOf(s.sems[i], lender, Exclusive)
      && HoldsOf(End(m, after).sems[i], lender, Shared) == HoldsOf(s.sems[i], lender, Shared)
      && (End(m, after).sems[i].owner == Some(lender) <==> s.sems[i].owner == Some(lender))
  {
    var (m, rest) := TakenBack(s, lender, borrower, during);
    LendAndTakeBack(s, lender, borrower, during, i);
    var n := RestSharedFirst(s, lender, borrower, during);
    RelockSorted(rest, n);
    RelockCallsOwed(rest, i, Shared);
    RelockCallsOwed(rest, i, Exclusive);
    NoCallsIff(RelockCalls(rest), i, Shared);
    RunSafe(m, after);
    assert !Queued(End(m, after).sems[i].queue, lender);
    KindsAreKept(m, after, lender, i, Exclusive);
    KindsAreKept(m, after, lender, i, Shared);
  }

  // Even without memory for read locks the lender owns again what it owned.
  lemma OwnerOwnsAgain(s: State, lender: Task, borrower: Task, during: seq<Step>, after: seq<Step>, i: nat)
    requires Episode(s, lender, borrower, during) && i < |s.sems| && s.sems[i].owner == Some(lender)
    requires var (m, rest) := TakenBack(s, lender, borrower, during); LocksAgain(m, rest, after, lender)
    ensures var m := TakenBack(s, lender, borrower, during).0;
      && |End(m, after).sems| == |s.sems|
      && End(m, after).sems[i].owner == Some(lender)
      && End(m, after).sems[i].excl >= s.sems[i].excl
  {
    var (m, rest) := TakenBack(s, lender, borrower, during);
    LendAndTakeBack(s, lender, borrower, during, i);
    RelockCallsOwed(rest, i, Exclusive);
    RunSafe(m, after);
    assert SemInv(s.sems[i]);
    assert !Queued(End(m, after).sems[i].queue, lender);
    ExclusiveGrows(m, after, lender, i);
  }

  // ------------------------------------------------------------------ wake-ups across a lending

  lemma MovedAwake(s: Sem, sig: set<Task>, lender: Task, borrower: Task)
    requires Lendable(s, lender, borrower) && !Queued(s.queue, borrower) && Awake(s, sig)
    ensures Awake(LentSem(s, lender, borrower), sig)
  {
    var m := LentSem(s, lender, borrower);
    QueuedIff(s.queue, lender);
    QueuedIff(s.queue, borrower);
    if s.owner.Some? {
      OwnerReads(s);
    }
    forall k | 0 <= k < |m.queue| && Grantable(m, m.queue[k])
      ensures m.queue[k].task in sig
    {
      assert Grantable(s, s.queue[k]);
    }
  }

  // Record w may proceed once the lender's lock is gone, and may not have been able to before:
  // the semaphore becomes free, or w's task becomes its sole reader.
  predicate LetThrough(s: Sem, lender: Task, w: Waiter) {
    || s.owner == Some(lender)
    || |s.readers| == 1
    || (|s.readers| == 2 && w.call == Exclusive && FindReader(s.readers, w.task) < |s.readers|)
  }

  // A hand-over signals the borrower alone. Nobody sleeps through it when every other record it
  // lets through has its signal pending beforehand.
  ghost predicate OthersSignalled(s: Sem, sig: set<Task>, lender: Task, borrower: Task) {
    Queued(s.queue, borrower) && Holds(s, lender) > 0 ==>
      forall k :: 0 <= k < |s.queue| && s.queue[k].task != borrower && LetThrough(s, lender, s.queue[k]) ==>
        s.queue[k].task in sig
  }

  // A record of the queue, found again after the hand-over, and the other way round.
  lemma ToHeadRecords(q: seq<Waiter>, k: nat, isExcl: bool, j: nat) returns (there: nat, back: nat)
    requires k < |q| && j < |q|
    ensures |ToHead(q, k, isExcl)| == |q| && there < |q| && back < |q|
    ensures ToHead(q, k, isExcl)[there].task == q[j].task && ToHead(q, k, isExcl)[there].call == q[j].call
    ensures ToHead(q, k, isExcl)[j].task == q[back].task && ToHead(q, k, isExcl)[j].call == q[back].call
  {
    there := if j == k then 0 else if j < k then j + 1 else j;
    back := if j == 0 then k else if j - 1 < k then j - 1 else j;
  }

  // After a hand-over a record may proceed exactly when it was let through, or could proceed before.
  lemma LetThroughIff(s: Sem, lender: Task, borrower: Task, w: Waiter)
    requires Lendable(s, lender, borrower) && Queued(s.queue, borrower) && Holds(s, lender) > 0
    requires w.task != lender
    ensures Grantable(LentSem(s, lender, borrower), w) <==> LetThrough(s, lender, w) || Grantable(s, w)
  {
    var k := FindReader(s.readers, lender);
    if s.owner.None? && |s.readers| == 2 {
      var other := s.readers[1 - k];
      assert Without(s.readers, k) == [other];
      TwoReadersDiffer(s.readers);
      FindReaderAt(s.readers, 1 - k);
    }
  }

  lemma HandedOverAwake(s: Sem, sig: set<Task>, lender: Task, borrower: Task)
    requires Lendable(s, lender, borrower) && Queued(s.queue, borrower) && Holds(s, lender) > 0 && Awake(s, sig)
    ensures Awake(LentSem(s, lender, borrower), sig + {borrower}) <==> OthersSignalled(s, sig, lender, borrower)
  {
    var m := LentSem(s, lender, borrower);
    var kq := FindWaiter(s.queue, borrower);
    var isExcl := m.queue[0].isExcl;
    assert m.queue == ToHead(s.queue, kq, isExcl);
    QueuedIff(s.queue, lender);
    if OthersSignalled(s, sig, lender, borrower) {
      forall j | 0 <= j < |m.queue| && Grantable(m, m.queue[j])
        ensures m.queue[j].task in sig + {borrower}
      {
        var _, back := ToHeadRecords(s.queue, kq, isExcl, j);
        LetThroughIff(s, lender, borrower, s.queue[back]);
      }
    }
    if Awake(m, sig + {borrower}) {
      forall j | 0 <= j < |s.queue| && s.queue[j].task != borrower && LetThrough(s, lender, s.queue[j])
        ensures s.queue[j].task in sig
      {
        var there, _ := ToHeadRecords(s.queue, kq, isExcl, j);
        LetThroughIff(s, lender, borrower, s.queue[j]);
        assert Grantable(m, m.queue[there]);
      }
    }
  }

  // One semaphore, whoever is queued on it, with the signals the whole lend phase leaves.
  lemma LentAwakeIff(s: State, lender: Task, borrower: Task, j: nat)
    requires Safe(s) && lender != borrower && Free(s, lender) && AllAwake(s) && j < |s.sems|
    ensures Awake(LentSem(s.sems[j], lender, borrower), LentSig(s.sems, s.sig, lender, borrower)) <==>
            OthersSignalled(s.sems[j], s.sig, lender, borrower)
  {
    var m := s.sems[j];
    assert Awake(m, s.sig);
    if !Queued(m.queue, borrower) {
      MovedAwake(m, s.sig, lender, borrower);
    } else if Holds(m, lender) > 0 {
      HandedOverAwake(m, s.sig, lender, borrower);
    } else {
      assert LentSem(m, lender, borrower) == m by {
        LentSemFacts(m, lender, borrower, lender);
      }
    }
  }

  // The lend phase loses no wake-up exactly when, on the semaphore the borrower is queued on,
  // nobody but the borrower is let through without a signal.
  lemma LendAwakeIff(s: State, lender: Task, borrower: Task)
    requires Safe(s) && lender != borrower && Free(s, lender) && AllAwake(s)
    ensures AllAwake(AfterLend(s, lender, borrower)) <==>
            forall j :: 0 <= j < |s.sems| ==> OthersSignalled(s.sems[j], s.sig, lender, borrower)
  {
    var e := AfterLend(s, lender, borrower);
    forall j | 0 <= j < |s.sems|
      ensures Awake(e.sems[j], e.sig) <==> OthersSignalled(s.sems[j], s.sig, lender, borrower)
    {
      LentAwakeIff(s, lender, borrower, j);
    }
  }

  lemma TakenAwake(s: Sem, sig: set<Task>, l: Lent, lender: Task, borrower: Task)
    requires Settleable(s, l, lender, borrower) && Awake(s, sig)
    ensures Awake(Taken(s, l, lender, borrower), sig)
  {
    var m := Taken(s, l, lender, borrower);
    QueuedIff(s.queue, lender);
    if s.owner.Some? {
      OwnerReads(s);
    }
    forall k | 0 <= k < |m.queue| && Grantable(m, m.queue[k])
      ensures m.queue[k].task in sig
    {
      assert Grantable(s, s.queue[k]);
    }
  }

  // Under that condition no wake-up is lost while the lender waits or by taking the locks back,
  // whatever the others do, a queued borrower included.
  lemma LendingKeepsAwake(s: State, lender: Task, borrower: Task, during: seq<Step>)
    requires Episode(s, lender, borrower, during) && AllAwake(s)
    requires forall j :: 0 <= j < |s.sems| ==> OthersSignalled(s.sems[j], s.sig, lender, borrower)
    ensures AllAwake(AfterLend(s, lender, borrower))
    ensures AllAwake(AfterWait(s, lender, borrower, during))
    ensures AllAwake(TakenBack(s, lender, borrower, during).0)
  {
    var s1 := AfterLend(s, lender, borrower);
    var lents := Lents(s.sems, lender, borrower);
    LendAwakeIff(s, lender, borrower);
    LendPhase(s, lender, borrower);
    RunAwake(s1, during);
    var own := RunLoansOut(s1, during, lents, OwnLocks(s, borrower), lender, borrower);
    ReclaimAwake(End(s1, during), lents, own, Reclaims(s, lender, borrower), lender, borrower);
  }

  lemma ReclaimAwake(e: State, lents: seq<Lent>, own: seq<int>, reclaims: seq<Loan>, lender: Task, borrower: Task)
    requires LoansOut(e, lents, own, lender, borrower) && AllAwake(e)
    ensures AllAwake(AfterReclaim(e, LoansFrom(lents, 0), reclaims, lender, borrower).0)
  {
    ReclaimShape(e, lents, own, reclaims, lender, borrower);
    var m := AfterReclaim(e, LoansFrom(lents, 0), reclaims, lender, borrower).0;
    forall j | 0 <= j < |m.sems|
      ensures Awake(m.sems[j], m.sig)
    {
      assert OnLoan(e.sems[j], lents[j], own[j], lender, borrower);
      TakenAwake(e.sems[j], e.sig, lents[j], lender, borrower);
    }
  }

  lemma OneThenOther(s: State, a: Step, b: Step)
    requires Enabled(s, a) && Enabled(Next(s, a), b)
    ensures IsRun(s, [a, b]) && End(s, [a, b]) == Next(Next(s, a), b)
  {
    var n := Next(s, a);
    assert [a, b][1..] == [b] && [b][1..] == [];
    assert IsRun(Next(n, b), []) && End(Next(n, b), []) == Next(n, b);
    assert IsRun(n, [b]) && End(n, [b]) == Next(n, b);
  }

  // A step on the only semaphore.
  lemma OnlySem(m: Sem, sig: set<Task>, a: Step, m': Sem, sig': set<Task>)
    requires !a.Poke? && a.i == 0
    requires if a.Wake? then Queued(m.queue, a.t) && a.t in sig else !Queued(m.queue, a.t)
    requires Segment(m, sig, a).sem == m' && Segment(m, sig, a).sig == sig'
    ensures Enabled(State([m], sig), a) && Next(State([m], sig), a) == State([m'], sig')
  {
    assert [m][0 := m'] == [m'];
  }

  // Tasks 1 and 3 read; 3 waits to become the owner, and so does 2.
  const READERS := [ReadLock(1, 1), ReadLock(3, 1)]
  const PROMOTERS := [Waiter(2, true, Exclusive), Waiter(3, true, Exclusive)]
  const CROWDED := Sem(None, 0, 2, READERS, PROMOTERS)
  const ASLEEP := Sem(None, 0, 1, [ReadLock(3, 1)], PROMOTERS)

  lemma CrowdedReached()
    ensures var free := State([Sem(None, 0, 0, [], [])], {});
      var steps := [LockShared(3, 0, true), LockShared(1, 0, true)] + [LockExcl(3, 0), LockExcl(2, 0)];
      && Initial(free)
      && IsRun(free, steps)
      && End(free, steps) == State([CROWDED], {})
  {
    var free := Sem(None, 0, 0, [], []);
    var one := Sem(None, 0, 1, [ReadLock(3, 1)], []);
    var two := Sem(None, 0, 2, READERS, []);
    var three := Sem(None, 0, 2, READERS, [Waiter(3, true, Exclusive)]);
    var a, b, c, d := LockShared(3, 0, true), LockShared(1, 0, true), LockExcl(3, 0), LockExcl(2, 0);
    assert [ReadLock(3, 1)] + [] == [ReadLock(3, 1)];
    OnlySem(free, {}, a, one, {});
    assert [ReadLock(1, 1)] + [ReadLock(3, 1)] == READERS;
    OnlySem(one, {}, b, two, {});
    assert [Waiter(3, true, Exclusive)] + [] == [Waiter(3, true, Exclusive)];
    OnlySem(two, {}, c, three, {});
    assert [Waiter(2, true, Exclusive)] + [Waiter(3, true, Exclusive)] == PROMOTERS;
    OnlySem(three, {}, d, CROWDED, {});
    OneThenOther(State([two], {}), c, d);
    assert [a, b] + [c, d] == [a] + ([b] + [c, d]);
    assert ([a] + ([b] + [c, d]))[1..] == [b] + [c, d];
    assert ([b] + [c, d])[1..] == [c, d];
    assert IsRun(State([one], {}), [b] + [c, d]);
  }

  lemma CrowdedLent()
    ensures AfterLend(State([CROWDED], {}), 1, 2) == State([ASLEEP], {2})
  {
    assert Without(READERS, 0) == [ReadLock(3, 1)];
    assert ToHead(PROMOTERS, 0, true) == PROMOTERS;
    assert LentSem(CROWDED, 1, 2) == ASLEEP;
    assert [CROWDED][0] == CROWDED && Queued([CROWDED][0].queue, 2) && Holds([CROWDED][0], 1) > 0;
    assert LentSig([CROWDED], {}, 1, 2) == {2};
  }

  lemma CrowdedWoken()
    ensures Enabled(State([ASLEEP], {2}), Wake(2, 0))
    ensures Next(State([ASLEEP], {2}), Wake(2, 0)) == State([ASLEEP], {})
  {
    assert Without(PROMOTERS, 0) == [Waiter(3, true, Exclusive)];
    assert [Waiter(2, true, Exclusive)] + [Waiter(3, true, Exclusive)] == PROMOTERS;
    OnlySem(ASLEEP, {2}, Wake(2, 0), ASLEEP, {});
  }

  lemma CrowdedSafe()
    ensures Safe(State([CROWDED], {})) && AllAwake(State([CROWDED], {}))
    ensures Free(State([CROWDED], {}), 1) && MayLend(State([CROWDED], {}), 1, 2)
  {
    assert FindReader(READERS, 1) == 0 && FindReader(READERS, 3) == 1;
    assert SemInv(CROWDED);
    assert !Queued(PROMOTERS, 1);
  }

  // The condition can fail in a run of the program: task 1 lends to 2, which wakes up, finds
  // task 3 reading and waits again; 3 is now the sole reader and could be promoted, but nobody
  // has signalled it.
  lemma HandOverLosesWakeUp()
    ensures var s := State([CROWDED], {});
      && MayLend(s, 1, 2) && AllAwake(s)
      && !OthersSignalled(CROWDED, {}, 1, 2)
      && Enabled(AfterLend(s, 1, 2), Wake(2, 0))
      && Next(AfterLend(s, 1, 2), Wake(2, 0)) == State([ASLEEP], {})
    ensures Grantable(ASLEEP, ASLEEP.queue[1]) && !Awake(ASLEEP, {})
  {
    CrowdedSafe();
    CrowdedLent();
    CrowdedWoken();
    CrowdedPassedOver();
  }

  lemma CrowdedPassedOver()
    ensures !OthersSignalled(CROWDED, {}, 1, 2)
    ensures Grantable(ASLEEP, ASLEEP.queue[1]) && !Awake(ASLEEP, {})
  {
    assert FindReader(READERS, 1) == 0 && FindReader(READERS, 3) == 1;
    assert PROMOTERS[0].task == 2 && PROMOTERS[1].task == 3;
    assert LetThrough(CROWDED, 1, PROMOTERS[1]);
    assert Grantable(ASLEEP, PROMOTERS[1]);
  }

  // ------------------------------------------------------------------ the hand-over that does not keep exclusion

  // However the run goes on, an exclusive owner is alone.
  ghost predicate AlwaysExclusive(s: State) {
    forall steps :: IsRun(s, steps) ==>
      forall i :: 0 <= i < |End(s, steps).sems| ==> MutuallyExclusive(End(s, steps).sems[i])
  }

  lemma SafeMeansAlwaysExclusive(s: State)
    requires Safe(s)
    ensures AlwaysExclusive(s)
  {
    forall steps, i | IsRun(s, steps) && 0 <= i < |End(s, steps).sems|
      ensures MutuallyExclusive(End(s, steps).sems[i])
    {
      RunSafe(s, steps);
      SoundMeansExclusive(End(s, steps).sems[i]);
    }
  }

  // A task number above all that are queued.
  function QueueBound(q: seq<Waiter>): (n: nat)
    ensures forall u :: u >= n ==> !Queued(q, u)
  {
    if q == [] then 0
    else
      var n := QueueBound(q[1..]);
      assert forall u :: Queued(q, u) ==> q[0].task == u || Queued(q[1..], u);
      if q[0].task < n then n else q[0].task + 1
  }

  function SemsBound(sems: seq<Sem>): (n: nat)
    ensures forall j, u :: 0 <= j < |sems| && u >= n ==> !Queued(sems[j].queue, u)
  {
    if sems == [] then 0
    else
      var a, b := QueueBound(sems[0].queue), SemsBound(sems[1..]);
      if a < b then b else a
  }

  // There is always a task that is not blocked, besides any two.
  lemma FreeTask(s: State, lender: Task, borrower: Task) returns (u: Task)
    ensures Free(s, u) && u != lender && u != borrower
  {
    u := SemsBound(s.sems) + lender + borrower + 1;
  }

  // The semaphore once task u has taken a shared lock, and once the borrower has woken up.
  function Overtaken(s: Sem, borrower: Task, u: Task): Sem
    requires Queued(s.queue, borrower)
  {
    Sem(None, 0, 1, [ReadLock(u, 1)], ToHead(s.queue, FindWaiter(s.queue, borrower), true))
  }

  lemma OvertakenWakes(s: Sem, sig: set<Task>, lender: Task, borrower: Task, u: Task)
    requires Lendable(s, lender, borrower) && HandsToShared(s, lender, borrower) && u != borrower
    ensures EnterShared(LentSem(s, lender, borrower), sig, u, true) == Result(Overtaken(s, borrower, u), sig, Granted)
    ensures var m := Overtaken(s, borrower, u);
      && Queued(m.queue, borrower)
      && (var r := Resume(m, sig, borrower).sem; r.owner == Some(borrower) && Holds(r, u) == 1)
  {
    var q := ToHead(s.queue, FindWaiter(s.queue, borrower), true);
    ToHeadFacts(s.queue, borrower, true, borrower);
    assert [ReadLock(u, 1)] + [] == [ReadLock(u, 1)];
    assert q[0].isExcl && q[0].call == Shared;
    assert FindReader([ReadLock(u, 1)], u) == 0;
  }

  // An exclusive lock handed to a task queued for a shared one: any other task u that comes by
  // with a shared lock before the borrower wakes ends up reading beside an exclusive owner.
  lemma HandOverOvertaken(s: State, lender: Task, borrower: Task, j: nat, u: Task)
    requires Safe(s) && lender != borrower && Free(s, lender) && Free(s, u) && u != borrower
    requires j < |s.sems| && HandsToShared(s.sems[j], lender, borrower)
    ensures var e := AfterLend(s, lender, borrower);
      var steps := [LockShared(u, j, true), Wake(borrower, j)];
      && IsRun(e, steps)
      && j < |End(e, steps).sems|
      && End(e, steps).sems[j].owner == Some(borrower)
      && Holds(End(e, steps).sems[j], u) == 1
      && !MutuallyExclusive(End(e, steps).sems[j])
  {
    var e := AfterLend(s, lender, borrower);
    var a, b := LockShared(u, j, true), Wake(borrower, j);
    OvertakenWakes(s.sems[j], e.sig, lender, borrower, u);
    assert Holds(s.sems[j], lender) > 0;
    assert borrower in e.sig;
    forall i | 0 <= i < |e.sems|
      ensures !Queued(e.sems[i].queue, u)
    {
      LentSemFacts(s.sems[i], lender, borrower, u);
    }
    assert Enabled(e, a);
    var n := Next(e, a);
    assert n.sems[j] == Overtaken(s.sems[j], borrower, u) && n.sig == e.sig;
    OneThenOther(e, a, b);
  }

  lemma NotAlwaysExclusive(s: State, steps: seq<Step>, i: nat)
    requires IsRun(s, steps) && i < |End(s, steps).sems| && !MutuallyExclusive(End(s, steps).sems[i])
    ensures !AlwaysExclusive(s)
  {
  }

  lemma HandOverSpoils(s: State, lender: Task, borrower: Task)
    requires Safe(s) && lender != borrower && Free(s, lender) && !MayLend(s, lender, borrower)
    ensures !AlwaysExclusive(AfterLend(s, lender, borrower))
  {
    var j :| 0 <= j < |s.sems| && HandsToShared(s.sems[j], lender, borrower);
    var u := FreeTask(s, lender, borrower);
    HandOverOvertaken(s, lender, borrower, j, u);
    NotAlwaysExclusive(AfterLend(s, lender, borrower), [LockShared(u, j, true), Wake(borrower, j)], j);
  }

  // Lending keeps exclusion over everything that can follow exactly when it hands no exclusive
  // lock to a task queued for a shared one.
  lemma LendSafeIff(s: State, lender: Task, borrower: Task)
    requires Safe(s) && lender != borrower && Free(s, lender)
    ensures AlwaysExclusive(AfterLend(s, lender, borrower)) <==>
            forall j :: 0 <= j < |s.sems| ==> !HandsToShared(s.sems[j], lender, borrower)
    ensures Safe(AfterLend(s, lender, borrower)) <==> MayLend(s, lender, borrower)
  {
    if MayLend(s, lender, borrower) {
      LendPhase(s, lender, borrower);
      SafeMeansAlwaysExclusive(AfterLend(s, lender, borrower));
    } else {
      HandOverSpoils(s, lender, borrower);
      if Safe(AfterLend(s, lender, borrower)) {
        SafeMeansAlwaysExclusive(AfterLend(s, lender, borrower));
      }
    }
  }

  // Task 1 owns the semaphore and task 2 waits for a shared lock on it.
  const PARKED := State([Sem(Some(1), 1, 0, [], [Waiter(2, false, Shared)])], {})

  lemma ParkedIsSafe()
    ensures Safe(PARKED) && AllAwake(PARKED) && Free(PARKED, 1) && Free(PARKED, 3)
    ensures HandsToShared(PARKED.sems[0], 1, 2)
  {
    assert SemInv(PARKED.sems[0]);
  }

  // The smallest case: task 1 lends to 2, and 3 reads beside 2.
  lemma HandOverBreaksExclusion()
    ensures Safe(PARKED) && AllAwake(PARKED) && Free(PARKED, 1)
    ensures var e := AfterLend(PARKED, 1, 2);
      var steps := [LockShared(3, 0, true), Wake(2, 0)];
      && IsRun(e, steps)
      && 0 < |End(e, steps).sems|
      && End(e, steps).sems[0].owner == Some(2)
      && Holds(End(e, steps).sems[0], 3) == 1
  {
    ParkedIsSafe();
    HandOverOvertaken(PARKED, 1, 2, 0, 3);
  }
}
