/**
 The semaphore as the library updates it: struct PsdLockSem with its two lists, changed in
 place, each method one segment between Forbid() and Permit() or Wait().
 */
module LockSemaphores {
  import opened Common
  import opened Locks
  import opened LockRuns
  import opened Lending

  // The tc_SigRecvd bit SIGF_SINGLE of every task.
  class Exec {
    var signalled: set<Task>

    constructor ()
      ensures signalled == {}
    {
      signalled := {};
    }

    method Signal(t: Task)
      modifies this
      ensures signalled == old(signalled) + {t}
    {
      signalled := signalled + {t};
    }

    method ClearSignal(t: Task)
      modifies this
      ensures signalled == old(signalled) - {t}
    {
      signalled := signalled - {t};
    }
  }

  // A semaphore in the middle of its turn in the lend loop.
  datatype Turn = Turn(sem: Sem, sig: set<Task>, borrows: seq<Loan>, reclaims: seq<Loan>)

  function ExclLent(s: Sem, sig: set<Task>, i: nat, borrower: Task, borrows: seq<Loan>, reclaims: seq<Loan>): Turn {
    var k := FindWaiter(s.queue, borrower);
    if k < |s.queue| then
      Turn(s.(queue := ToHead(s.queue, k, true), owner := None, excl := 0), sig + {borrower},
              borrows, reclaims + [Loan(i, s.excl, 0)])
    else
      Turn(s.(owner := Some(borrower)), sig, borrows + [Loan(i, s.excl, 0)], reclaims)
  }

  function ReadLent(s: Sem, sig: set<Task>, i: nat, k: nat, borrower: Task, borrows: seq<Loan>, reclaims: seq<Loan>): Turn
    requires s.shared == |s.readers| && k < |s.readers|
  {
    var kq := FindWaiter(s.queue, borrower);
    var kb := FindReader(s.readers, borrower);
    var loan := Loan(i, 0, s.readers[k].count);
    if kq < |s.queue| then
      Turn(s.(queue := ToHead(s.queue, kq, s.queue[kq].isExcl), readers := Without(s.readers, k), shared := s.shared - 1),
              sig + {borrower}, borrows, [loan] + reclaims)
    else if kb < |s.readers| then
      Turn(s.(readers := Merged(s.readers, k, kb), shared := s.shared - 1), sig, borrows + [loan], reclaims)
    else
      Turn(s.(readers := s.readers[k := s.readers[k].(task := borrower)]), sig, borrows + [loan], reclaims)
  }

  function BothLent(s: Sem, sig: set<Task>, i: nat, lender: Task, borrower: Task, borrows: seq<Loan>, reclaims: seq<Loan>): Turn
    requires s.shared == |s.readers|
  {
    var a := if s.owner == Some(lender) then ExclLent(s, sig, i, borrower, borrows, reclaims) else Turn(s, sig, borrows, reclaims);
    var k := FindReader(s.readers, lender);
    if k < |s.readers| then ReadLent(a.sem, a.sig, i, k, borrower, a.borrows, a.reclaims) else a
  }

  // The two stages in sequence are the lend phase.
  lemma LendStages(s: Sem, sig: set<Task>, i: nat, lender: Task, borrower: Task, borrows: seq<Loan>, reclaims: seq<Loan>)
    requires Lendable(s, lender, borrower)
    ensures var r := BothLent(s, sig, i, lender, borrower, borrows, reclaims);
      && r.sem == LentSem(s, lender, borrower)
      && r.sig == sig + (if Queued(s.queue, borrower) && Holds(s, lender) > 0 then {borrower} else {})
      && r.borrows == borrows + LoansOf(i, LentOf(s, lender, borrower))
      && r.reclaims == HandOver(s, i, lender, borrower, reclaims)
  {
    if s.owner == Some(lender) {
      OwnerReads(s);
      if Queued(s.queue, borrower) {
        StagesHandedOver(s, sig, i, lender, borrower, borrows, reclaims);
      } else {
        StagesMoved(s, sig, i, lender, borrower, borrows, reclaims);
      }
    }
  }

  lemma StagesHandedOver(s: Sem, sig: set<Task>, i: nat, lender: Task, borrower: Task, borrows: seq<Loan>, reclaims: seq<Loan>)
    requires Lendable(s, lender, borrower) && s.owner == Some(lender) && Queued(s.queue, borrower)
    ensures BothLent(s, sig, i, lender, borrower, borrows, reclaims) ==
            Turn(LentSem(s, lender, borrower), sig + {borrower}, borrows, HandOver(s, i, lender, borrower, reclaims))
    ensures LoansOf(i, LentOf(s, lender, borrower)) == []
  {
    OwnerReads(s);
    ToHeadFacts(s.queue, borrower, true, borrower);
  }

  lemma StagesMoved(s: Sem, sig: set<Task>, i: nat, lender: Task, borrower: Task, borrows: seq<Loan>, reclaims: seq<Loan>)
    requires Lendable(s, lender, borrower) && s.owner == Some(lender) && !Queued(s.queue, borrower)
    ensures BothLent(s, sig, i, lender, borrower, borrows, reclaims) ==
            Turn(LentSem(s, lender, borrower), sig, borrows + LoansOf(i, LentOf(s, lender, borrower)), reclaims)
  {
    OwnerReads(s);
  }

  class LockSem {
    var owner: Option<Task>
    var exclLockCount: nat
    var sharedLockCount: nat
    var readLocks: seq<ReadLock>
    var waitQueue: seq<Waiter>

    function State(): Sem
      reads this
    {
      Sem(owner, exclLockCount, sharedLockCount, readLocks, waitQueue)
    }

    ghost predicate Valid()
      reads this
    {
      SemInv(State())
    }

    constructor ()
      ensures Valid() && State() == Sem(None, 0, 0, [], [])
    {
      owner, exclLockCount, sharedLockCount := None, 0, 0;
      readLocks, waitQueue := [], [];
    }

    // Walks pls_ReadLocks for the record of task t.
    method FindReadLock(t: Task) returns (k: nat)
      ensures k == FindReader(readLocks, t)
    {
      k := 0;
      while k < |readLocks| && readLocks[k].task != t
        invariant k <= |readLocks|
        invariant forall j :: 0 <= j < k ==> readLocks[j].task != t
      {
        k := k + 1;
      }
    }

    // Walks pls_WaitQueue for the record of task t.
    method FindWaiting(t: Task) returns (k: nat)
      ensures k == FindWaiter(waitQueue, t)
    {
      k := 0;
      while k < |waitQueue| && waitQueue[k].task != t
        invariant k <= |waitQueue|
        invariant forall j :: 0 <= j < k ==> waitQueue[j].task != t
      {
        k := k + 1;
      }
    }

    // Remove() of a read record.
    method RemoveReader(k: nat)
      requires k < |readLocks| && sharedLockCount > 0
      modifies `readLocks, `sharedLockCount
      ensures readLocks == Without(old(readLocks), k) && sharedLockCount == old(sharedLockCount) - 1
    {
      readLocks := readLocks[..k] + readLocks[k + 1..];
      sharedLockCount := sharedLockCount - 1;
    }

    // Remove() and AddHead() of a waiting record.
    method RaiseWaiter(k: nat, isExcl: bool)
      requires k < |waitQueue|
      modifies `waitQueue
      ensures waitQueue == ToHead(old(waitQueue), k, isExcl)
    {
      waitQueue := [waitQueue[k].(isExcl := isExcl)] + (waitQueue[..k] + waitQueue[k + 1..]);
    }

    // One turn of the loop of pLockSemExcl, entered by a task that is not queued.
    method LockExcl(exec: Exec, t: Task) returns (granted: bool)
      requires Valid() && !Queued(waitQueue, t)
      modifies this, exec
      ensures var r := EnterExcl(old(State()), old(exec.signalled), t);
        State() == r.sem && exec.signalled == r.sig && granted == (r.outcome == Granted)
      ensures Valid()
    {
      EnterExclFacts(State(), exec.signalled, t, t);
      granted := owner == Some(t);
      if !granted && exclLockCount == 0 {
        if sharedLockCount == 0 {
          granted := true;
        } else if sharedLockCount == 1 && readLocks[0].task == t {
          granted := true;
        }
      }
      if granted {
        owner := Some(t);
        exclLockCount := exclLockCount + 1;
      } else {
        waitQueue := [Waiter(t, true, Exclusive)] + waitQueue;
        exec.ClearSignal(t);
      }
    }

    // One turn of the loop of pLockSemShared and what follows it; isExcl is prl_IsExcl.
    method AwaitShared(exec: Exec, t: Task, isExcl: bool) returns (granted: bool)
      modifies this, exec
      ensures var r := WaitShared(old(State()), old(exec.signalled), t, isExcl);
        State() == r.sem && exec.signalled == r.sig && granted == (r.outcome == Granted)
    {
      if owner.Some? {
        waitQueue := waitQueue + [Waiter(t, isExcl, Shared)];
        exec.ClearSignal(t);
        return false;
      }
      if isExcl {
        owner := Some(t);
        exclLockCount := exclLockCount + 1;
      } else {
        readLocks := [ReadLock(t, 1)] + readLocks;
        sharedLockCount := sharedLockCount + 1;
      }
      return true;
    }

    method LockShared(exec: Exec, t: Task, mem: bool) returns (granted: bool)
      requires Valid() && !Queued(waitQueue, t)
      modifies this, exec
      ensures var r := EnterShared(old(State()), old(exec.signalled), t, mem);
        State() == r.sem && exec.signalled == r.sig && granted == (r.outcome == Granted)
      ensures Valid()
    {
      EnterSharedFacts(State(), exec.signalled, t, mem, t);
      if owner == Some(t) {
        exclLockCount := exclLockCount + 1;
        return true;
      }
      var k := FindReadLock(t);
      if k < |readLocks| {
        readLocks := readLocks[k := readLocks[k].(count := readLocks[k].count + 1)];
        return true;
      }
      if !mem {
        granted := LockExcl(exec, t);
      } else {
        granted := AwaitShared(exec, t, false);
      }
    }

    // Wait(SIGF_SINGLE) returned in task t: it leaves the queue and looks again.
    method Woken(exec: Exec, t: Task) returns (granted: bool)
      requires Valid() && Queued(waitQueue, t)
      modifies this, exec
      ensures var r := Resume(old(State()), old(exec.signalled), t);
        State() == r.sem && exec.signalled == r.sig && granted == (r.outcome == Granted)
      ensures Valid()
    {
      SegmentFacts(State(), exec.signalled, Wake(t, 0), t);
      LeaveQueueFacts(State(), t, t);
      exec.ClearSignal(t);
      var k := FindWaiting(t);
      var w := waitQueue[k];
      waitQueue := waitQueue[..k] + waitQueue[k + 1..];
      match w.call
      case Exclusive => granted := LockExcl(exec, t);
      case Shared => granted := AwaitShared(exec, t, w.isExcl);
    }

    method UnlockSem(exec: Exec, t: Task) returns (ok: bool)
      requires Valid() && !Queued(waitQueue, t)
      modifies this, exec
      ensures var r := Unlock(old(State()), old(exec.signalled), t);
        State() == r.sem && exec.signalled == r.sig && ok == (r.outcome == Released)
      ensures Valid()
    {
      UnlockFacts(State(), exec.signalled, t, t);
      if owner.Some? {
        if owner != Some(t) {
          return false;
        }
        exclLockCount := exclLockCount - 1;
        if exclLockCount > 0 {
          return true;
        }
        owner := None;
      } else {
        if sharedLockCount == 0 {
          return false;
        }
        var k := FindReadLock(t);
        if k == |readLocks| {
          return false;
        }
        var c := readLocks[k].count - 1;
        if c > 0 {
          readLocks := readLocks[k := readLocks[k].(count := c)];
          return true;
        }
        RemoveReader(k);
      }
      NotifyWaiters(exec);
      return true;
    }

    method NotifyWaiters(exec: Exec)
      modifies exec
      ensures exec.signalled == old(exec.signalled) + QueueTasks(waitQueue)
    {
      var k := 0;
      while k < |waitQueue|
        invariant k <= |waitQueue|
        invariant exec.signalled == old(exec.signalled) + QueueTasks(waitQueue[..k])
      {
        assert waitQueue[..k + 1] == waitQueue[..k] + [waitQueue[k]];
        exec.Signal(waitQueue[k].task);
        k := k + 1;
      }
      assert waitQueue[..k] == waitQueue;
    }

    // ---------------------------------------------------------------- psdBorrowLocksWait

    // The exclusive lock: handed to a queued borrower, otherwise moved to it.
    method LendExcl(exec: Exec, i: nat, lender: Task, borrower: Task, borrows: seq<Loan>, reclaims: seq<Loan>)
      returns (moveOwner: bool, borrows': seq<Loan>, reclaims': seq<Loan>)
      requires owner == Some(lender)
      modifies this, exec
      ensures moveOwner == !old(Queued(waitQueue, borrower))
      ensures Turn(State(), exec.signalled, borrows', reclaims') ==
              ExclLent(old(State()), old(exec.signalled), i, borrower, borrows, reclaims)
    {
      borrows', reclaims' := borrows, reclaims;
      var k := FindWaiting(borrower);
      if k < |waitQueue| {
        RaiseWaiter(k, true);
        reclaims' := reclaims' + [Loan(i, exclLockCount, 0)];
        exclLockCount := 0;
        owner := None;
        exec.Signal(borrower);
        return false, borrows', reclaims';
      }
      borrows' := borrows' + [Loan(i, exclLockCount, 0)];
      owner := Some(borrower);
      return true, borrows', reclaims';
    }

    // The lender's read lock k: dropped for a queued borrower, merged, or moved.
    method LendRead(exec: Exec, i: nat, k: nat, borrower: Task, moveOwner: bool, borrows: seq<Loan>, reclaims: seq<Loan>)
      returns (borrows': seq<Loan>, reclaims': seq<Loan>)
      requires sharedLockCount == |readLocks| && k < |readLocks| && readLocks[k].task != borrower
      requires !moveOwner ==> Queued(waitQueue, borrower)
      modifies this, exec
      ensures Turn(State(), exec.signalled, borrows', reclaims') ==
              ReadLent(old(State()), old(exec.signalled), i, k, borrower, borrows, reclaims)
    {
      borrows', reclaims' := borrows, reclaims;
      var count := readLocks[k].count;
      var move := moveOwner;
      var kq := FindWaiting(borrower);
      if kq < |waitQueue| {
        RaiseWaiter(kq, waitQueue[kq].isExcl);
        reclaims' := [Loan(i, 0, count)] + reclaims';
        RemoveReader(k);
        exec.Signal(borrower);
        move := false;
      }
      if move {
        var kb := FindReadLock(borrower);
        if kb < |readLocks| {
          borrows' := borrows' + [Loan(i, 0, count)];
          readLocks := readLocks[kb := readLocks[kb].(count := readLocks[kb].count + count)];
          RemoveReader(k);
          move := false;
        }
      }
      if move {
        borrows' := borrows' + [Loan(i, 0, count)];
        readLocks := readLocks[k := readLocks[k].(task := borrower)];
      }
    }

    // The body of the lend loop for this semaphore, the i-th of ps_DeadlockDebug.
    method Lend(exec: Exec, i: nat, lender: Task, borrower: Task, borrows: seq<Loan>, reclaims: seq<Loan>)
      returns (borrows': seq<Loan>, reclaims': seq<Loan>)
      requires Valid() && lender != borrower && !Queued(waitQueue, lender)
      modifies this, exec
      ensures State() == LentSem(old(State()), lender, borrower)
      ensures borrows' == borrows + LoansOf(i, LentOf(old(State()), lender, borrower))
      ensures reclaims' == HandOver(old(State()), i, lender, borrower, reclaims)
      ensures exec.signalled == old(exec.signalled) +
              (if old(Queued(waitQueue, borrower) && Holds(State(), lender) > 0) then {borrower} else {})
    {
      borrows', reclaims' := borrows, reclaims;
      LendStages(State(), exec.signalled, i, lender, borrower, borrows, reclaims);
      var moveOwner := true;
      if owner == Some(lender) {
        OwnerReads(State());
        moveOwner, borrows', reclaims' := LendExcl(exec, i, lender, borrower, borrows, reclaims);
      }
      var k := FindReadLock(lender);
      if k < |readLocks| {
        borrows', reclaims' := LendRead(exec, i, k, borrower, moveOwner, borrows', reclaims');
      }
    }

    // The body of the loop over `borrows`: true if the lock is back with the lender, false
    // if the loan has to be queued again.
    method TakeLoanBack(loan: Loan, lender: Task, borrower: Task) returns (settled: bool)
      requires sharedLockCount == |readLocks| && CanTakeBack(State(), loan, borrower)
      modifies this
      ensures var r := TakeBack(old(State()), loan, lender, borrower);
        State() == r.0 && settled == r.1
    {
      if loan.excl > 0 {
        if loan.excl == exclLockCount {
          owner := Some(lender);
          return true;
        }
        exclLockCount := exclLockCount - loan.excl;
        return false;
      }
      var k := FindReadLock(borrower);
      if owner == Some(borrower) {
        if loan.count == readLocks[k].count {
          RemoveReader(k);
        } else {
          readLocks := readLocks[k := readLocks[k].(count := readLocks[k].count - loan.count)];
        }
        return false;
      }
      if loan.count == readLocks[k].count {
        readLocks := readLocks[k := readLocks[k].(task := lender)];
        return true;
      }
      readLocks := readLocks[k := readLocks[k].(count := readLocks[k].count - loan.count)];
      return false;
    }
  }
}
