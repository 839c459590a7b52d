/**
 psdBorrowLocksWait over all semaphores of the library (ps_DeadlockDebug): the count, the lend
 loop before the Wait(), and the loop over `borrows` after it.
 */
module BorrowLocks {
  import opened Common
  import opened Locks
  import opened LockRuns
  import opened Lending
  import opened LockSemaphores

  function StatesOf(sems: seq<LockSem>): (r: seq<Sem>)
    reads sems
    ensures |r| == |sems|
    ensures forall j :: 0 <= j < |sems| ==> r[j] == sems[j].State()
  {
    if sems == [] then [] else StatesOf(sems[..|sems| - 1]) + [sems[|sems| - 1].State()]
  }

  class SemaphoreList {
    const sems: seq<LockSem>
    const exec: Exec

    ghost predicate Distinct() {
      forall i, j :: 0 <= i < j < |sems| ==> sems[i] != sems[j]
    }

    function Snapshot(): State
      reads sems, exec
    {
      State(StatesOf(sems), exec.signalled)
    }

    constructor (sems: seq<LockSem>, exec: Exec)
      ensures this.sems == sems && this.exec == exec
    {
      this.sems, this.exec := sems, exec;
    }

    // How many entries of the list the lender holds a lock of each kind on.
    method CountHeld(lender: Task) returns (cnt: nat)
      requires Safe(Snapshot())
      ensures cnt == 0 <==> forall j :: 0 <= j < |sems| ==> Holds(sems[j].State(), lender) == 0
    {
      cnt := 0;
      for i := 0 to |sems|
        invariant cnt == 0 <==> forall j :: 0 <= j < i ==> Holds(sems[j].State(), lender) == 0
      {
        assert SemInv(Snapshot().sems[i]);
        HoldsAnything(sems[i].State(), lender);
        if sems[i].owner == Some(lender) {
          cnt := cnt + 1;
        }
        var k := sems[i].FindReadLock(lender);
        if k < |sems[i].readLocks| {
          cnt := cnt + 1;
        }
      }
    }

    // The lend loop has changed the first i semaphores of state s and no others.
    ghost predicate Walked(s: State, i: nat, lender: Task, borrower: Task)
      reads sems
    {
      && i <= |sems| == |s.sems|
      && Counted(s.sems)
      && (forall j :: 0 <= j < i ==> sems[j].State() == LentSem(s.sems[j], lender, borrower))
      && (forall j :: i <= j < |sems| ==> sems[j].State() == s.sems[j])
    }

    method LendNext(ghost s: State, i: nat, lender: Task, borrower: Task, borrows: seq<Loan>, reclaims: seq<Loan>)
      returns (borrows': seq<Loan>, reclaims': seq<Loan>)
      requires Distinct() && Walked(s, i, lender, borrower) && i < |sems| && Lendable(s.sems[i], lender, borrower)
      requires Listed(s, i, lender, borrower, borrows, reclaims, exec.signalled)
      modifies sems, exec
      ensures Walked(s, i + 1, lender, borrower)
      ensures Listed(s, i + 1, lender, borrower, borrows', reclaims', exec.signalled)
    {
      ListedNext(s, i, lender, borrower, borrows, reclaims, exec.signalled);
      borrows', reclaims' := sems[i].Lend(exec, i, lender, borrower, borrows, reclaims);
    }

    // Up to the Wait().
    method LendLocks(lender: Task, borrower: Task) returns (borrows: seq<Loan>, reclaims: seq<Loan>)
      requires Distinct() && Safe(Snapshot()) && lender != borrower && Free(Snapshot(), lender)
      modifies sems, exec
      ensures Snapshot() == AfterLend(old(Snapshot()), lender, borrower)
      ensures borrows == Borrows(old(Snapshot()), lender, borrower)
      ensures reclaims == Reclaims(old(Snapshot()), lender, borrower)
    {
      ghost var s := Snapshot();
      borrows, reclaims := [], [];
      var cnt := CountHeld(lender);
      if cnt == 0 {
        NothingToLend(s, lender, borrower);
        return;
      }
      borrows, reclaims := LendAll(s, lender, borrower);
      WalkedAll(s, lender, borrower, borrows, reclaims);
    }

    method LendAll(ghost s: State, lender: Task, borrower: Task) returns (borrows: seq<Loan>, reclaims: seq<Loan>)
      requires Distinct() && s == Snapshot() && Counted(s.sems) && AllLendable(s, lender, borrower)
      modifies sems, exec
      ensures Walked(s, |sems|, lender, borrower)
      ensures Listed(s, |sems|, lender, borrower, borrows, reclaims, exec.signalled)
    {
      ListedStart(s, lender, borrower);
      borrows, reclaims := [], [];
      var i := 0;
      while i < |sems|
        invariant Walked(s, i, lender, borrower)
        invariant Listed(s, i, lender, borrower, borrows, reclaims, exec.signalled)
      {
        borrows, reclaims := LendNext(s, i, lender, borrower, borrows, reclaims);
        i := i + 1;
      }
    }

    lemma WalkedAll(s: State, lender: Task, borrower: Task, borrows: seq<Loan>, reclaims: seq<Loan>)
      requires Walked(s, |sems|, lender, borrower)
      requires Listed(s, |sems|, lender, borrower, borrows, reclaims, exec.signalled)
      ensures Snapshot() == AfterLend(s, lender, borrower)
      ensures borrows == Borrows(s, lender, borrower)
      ensures reclaims == Reclaims(s, lender, borrower)
    {
      assert s.sems[..|sems|] == s.sems;
      assert Snapshot().sems == LentSems(s.sems, lender, borrower);
      assert borrows + [] == borrows;
    }

    // One turn of that loop.
    method TakeBackAt(loan: Loan, lender: Task, borrower: Task) returns (settled: bool)
      requires Distinct() && loan.sem < |sems| && sems[loan.sem].State().shared == |sems[loan.sem].State().readers|
      requires CanTakeBack(sems[loan.sem].State(), loan, borrower)
      modifies sems
      ensures var r := TakeBack(old(StatesOf(sems))[loan.sem], loan, lender, borrower);
        StatesOf(sems) == old(StatesOf(sems))[loan.sem := r.0] && settled == r.1
    {
      settled := sems[loan.sem].TakeLoanBack(loan, lender, borrower);
    }

    // The loop over `borrows` after the Wait().
    method ReclaimLocks(borrows: seq<Loan>, reclaims: seq<Loan>, lender: Task, borrower: Task) returns (rest: seq<Loan>)
      requires Distinct() && Reclaimable(StatesOf(sems), borrows, lender, borrower)
      modifies sems
      ensures (Snapshot(), rest) == AfterReclaim(old(Snapshot()), borrows, reclaims, lender, borrower)
    {
      var todo := borrows;
      rest := reclaims;
      while todo != []
        invariant Reclaimable(StatesOf(sems), todo, lender, borrower)
        invariant Reclaim(StatesOf(sems), todo, rest, lender, borrower) == Reclaim(old(StatesOf(sems)), borrows, reclaims, lender, borrower)
        decreases |todo|
      {
        var loan := todo[0];
        var settled := TakeBackAt(loan, lender, borrower);
        if !settled {
          rest := if loan.excl > 0 then rest + [loan] else [loan] + rest;
        }
        todo := todo[1..];
      }
    }
  }

  ghost predicate AllLendable(s: State, lender: Task, borrower: Task) {
    forall j {:trigger Lendable(s.sems[j], lender, borrower)} :: 0 <= j < |s.sems| ==> Lendable(s.sems[j], lender, borrower)
  }

  // The lists and signals once the first i semaphores have been walked.
  ghost predicate Listed(s: State, i: nat, lender: Task, borrower: Task, borrows: seq<Loan>, reclaims: seq<Loan>, sig: set<Task>) {
    && i <= |s.sems|
    && borrows + LoansFrom(Lents(s.sems, lender, borrower), i) == Borrows(s, lender, borrower)
    && HandOverFrom(s.sems, i, lender, borrower, reclaims) == Reclaims(s, lender, borrower)
    && sig == s.sig + (if HandedOver(s.sems[..i], lender, borrower) then {borrower} else {})
  }

  lemma ListedStart(s: State, lender: Task, borrower: Task)
    ensures Listed(s, 0, lender, borrower, [], [], s.sig)
  {
    assert [] + Borrows(s, lender, borrower) == Borrows(s, lender, borrower);
    assert s.sig + {} == s.sig && !HandedOver(s.sems[..0], lender, borrower);
  }

  lemma ListedNext(s: State, i: nat, lender: Task, borrower: Task, borrows: seq<Loan>, reclaims: seq<Loan>, sig: set<Task>)
    requires i < |s.sems| && Listed(s, i, lender, borrower, borrows, reclaims, sig)
    ensures Listed(s, i + 1, lender, borrower,
                   borrows + LoansOf(i, LentOf(s.sems[i], lender, borrower)),
                   HandOver(s.sems[i], i, lender, borrower, reclaims),
                   sig + (if Queued(s.sems[i].queue, borrower) && Holds(s.sems[i], lender) > 0 then {borrower} else {}))
  {
    HandedOverNext(s.sems, i, lender, borrower);
    var l := LentOf(s.sems[i], lender, borrower);
    assert (borrows + LoansOf(i, l)) + LoansFrom(Lents(s.sems, lender, borrower), i + 1)
        == borrows + (LoansOf(i, l) + LoansFrom(Lents(s.sems, lender, borrower), i + 1));
  }

  ghost predicate HandedOver(sems: seq<Sem>, lender: Task, borrower: Task) {
    exists j :: 0 <= j < |sems| && Queued(sems[j].queue, borrower) && Holds(sems[j], lender) > 0
  }

  lemma HandedOverNext(sems: seq<Sem>, i: nat, lender: Task, borrower: Task)
    requires i < |sems|
    ensures HandedOver(sems[..i + 1], lender, borrower) <==>
            HandedOver(sems[..i], lender, borrower) || (Queued(sems[i].queue, borrower) && Holds(sems[i], lender) > 0)
  {
    assert sems[..i + 1] == sems[..i] + [sems[i]];
    if HandedOver(sems[..i], lender, borrower) {
      var j :| 0 <= j < i && Queued(sems[..i][j].queue, borrower) && Holds(sems[..i][j], lender) > 0;
      assert sems[..i + 1][j] == sems[..i][j];
    }
    if Queued(sems[i].queue, borrower) && Holds(sems[i], lender) > 0 {
      assert sems[..i + 1][i] == sems[i];
    }
  }

  // A lender that holds nothing changes nothing.
  lemma NothingToLend(s: State, lender: Task, borrower: Task)
    requires Safe(s) && lender != borrower && Free(s, lender)
    requires forall j :: 0 <= j < |s.sems| ==> Holds(s.sems[j], lender) == 0
    ensures AfterLend(s, lender, borrower) == s
    ensures Borrows(s, lender, borrower) == [] && Reclaims(s, lender, borrower) == []
  {
    forall j | 0 <= j < |s.sems|
      ensures s.sems[j].owner != Some(lender) && FindReader(s.sems[j].readers, lender) == |s.sems[j].readers|
    {
      SoundMeansExclusive(s.sems[j]);
    }
    assert LentSems(s.sems, lender, borrower) == s.sems;
    NoLoans(Lents(s.sems, lender, borrower), 0);
    NoHandOver(s.sems, 0, lender, borrower);
  }

  lemma {:induction false} NoLoans(lents: seq<Lent>, i: nat)
    requires i <= |lents| && forall j :: 0 <= j < |lents| ==> lents[j].excl == 0 && lents[j].count == 0
    ensures LoansFrom(lents, i) == []
    decreases |lents| - i
  {
    if i < |lents| {
      NoLoans(lents, i + 1);
    }
  }

  lemma {:induction false} NoHandOver(sems: seq<Sem>, i: nat, lender: Task, borrower: Task)
    requires i <= |sems|
    requires forall j :: 0 <= j < |sems| ==> sems[j].owner != Some(lender) && ReadCount(sems[j].readers, lender) == 0
    ensures HandOverFrom(sems, i, lender, borrower, []) == []
    decreases |sems| - i
  {
    if i < |sems| {
      assert HandOver(sems[i], i, lender, borrower, []) == [];
      NoHandOver(sems, i + 1, lender, borrower);
    }
  }

  // A task holds a semaphore when it owns it or has a read record.
  lemma HoldsAnything(s: Sem, t: Task)
    requires SemInv(s)
    ensures Holds(s, t) == 0 <==> s.owner != Some(t) && FindReader(s.readers, t) == |s.readers|
  {
  }
}
