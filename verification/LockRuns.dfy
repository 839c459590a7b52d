/**
 All runs of lock and unlock calls by any tasks on any number of semaphores: mutual
 exclusion, exact hold counts, and no lost wake-up.
 */
module LockRuns {
  import opened Common
  import opened Locks

  // One semaphore per entry of ps_DeadlockDebug, and the pending SIGF_SINGLE signals.
  datatype State = State(sems: seq<Sem>, sig: set<Task>)

  // A segment run by task `t` on semaphore `i`. Poke is SIGF_SINGLE raised by anybody else.
  datatype Step =
    | LockExcl(t: Task, i: nat)
    | LockShared(t: Task, i: nat, mem: bool)
    | Wake(t: Task, i: nat)
    | Release(t: Task, i: nat)
    | Poke(t: Task)

  ghost predicate Free(s: State, t: Task) {
    forall j :: 0 <= j < |s.sems| ==> !Queued(s.sems[j].queue, t)
  }

  // A task blocked in a lock call only continues by waking; it wakes on its signal.
  ghost predicate Enabled(s: State, a: Step) {
    match a
    case LockExcl(t, i) => i < |s.sems| && Free(s, t)
    case LockShared(t, i, _) => i < |s.sems| && Free(s, t)
    case Release(t, i) => i < |s.sems| && Free(s, t)
    case Wake(t, i) => i < |s.sems| && Queued(s.sems[i].queue, t) && t in s.sig
    case Poke(t) => true
  }

  function Segment(s: Sem, sig: set<Task>, a: Step): Result
    requires a.Wake? ==> Queued(s.queue, a.t)
  {
    match a
    case LockExcl(t, _) => EnterExcl(s, sig, t)
    case LockShared(t, _, mem) => EnterShared(s, sig, t, mem)
    case Wake(t, _) => Resume(s, sig, t)
    case Release(t, _) => Unlock(s, sig, t)
    case Poke(t) => Result(s, sig + {t}, Idle)
  }

  ghost function Next(s: State, a: Step): (r: State)
    requires Enabled(s, a)
  {
    if a.Poke? then s.(sig := s.sig + {a.t})
    else
      var r := Segment(s.sems[a.i], s.sig, a);
      State(s.sems[a.i := r.sem], r.sig)
  }

  ghost function OutcomeOf(s: State, a: Step): Outcome
    requires Enabled(s, a)
  {
    if a.Poke? then Idle else Segment(s.sems[a.i], s.sig, a).outcome
  }

  // ------------------------------------------------------------------ invariants

  // Every semaphore is sound and a task waits in at most one place.
  ghost predicate Safe(s: State) {
    && (forall j :: 0 <= j < |s.sems| ==> SemInv(s.sems[j]))
    && (forall j, k, t :: 0 <= j < k < |s.sems| && Queued(s.sems[j].queue, t) ==> !Queued(s.sems[k].queue, t))
  }

  ghost predicate AllAwake(s: State) {
    forall j :: 0 <= j < |s.sems| ==> Awake(s.sems[j], s.sig)
  }

  // A shared call counts as an exclusive one for the owner, and for a task without a read lock
  // when there is no memory for one.
  ghost function SharedKind(s: Sem, t: Task, mem: bool): Kind {
    if HoldsOf(s, t, Exclusive) > 0 || (HoldsOf(s, t, Shared) == 0 && !mem) then Exclusive else Shared
  }

  // The kind of lock a step asks for or gives back.
  ghost function KindOf(s: Sem, a: Step): Kind
    requires a.Wake? ==> Queued(s.queue, a.t)
  {
    match a
    case LockExcl(_, _) => Exclusive
    case LockShared(t, _, mem) => SharedKind(s, t, mem)
    case Wake(t, _) => WaitsFor(s.queue, t).value
    case Release(t, _) => if HoldsOf(s, t, Exclusive) > 0 then Exclusive else Shared
    case Poke(_) => Shared
  }

  // What one segment does to one semaphore, whoever runs it.
  lemma SegmentFacts(s: Sem, sig: set<Task>, a: Step, u: Task)
    requires SemInv(s) && !a.Poke?
    requires if a.Wake? then Queued(s.queue, a.t) else !Queued(s.queue, a.t)
    ensures var r := Segment(s, sig, a);
      && Facts(s, r, a.t, KindOf(s, a), u)
      && (if a.Release? then r.outcome in {Released, Refused} else r.outcome in {Granted, Blocked})
  {
    match a
    case LockExcl(t, _) => EnterExclFacts(s, sig, t, u);
    case LockShared(t, _, mem) => EnterSharedFacts(s, sig, t, mem, u);
    case Wake(t, _) => ResumeFacts(s, sig, t, u);
    case Release(t, _) => UnlockFacts(s, sig, t, u);
  }

  lemma RecordsWithout(q: seq<Waiter>, rs: seq<ReadLock>, k: nat)
    requires Unpromoted(q) && WaitersReadless(q, rs) && k < |q|
    ensures Unpromoted(Without(q, k)) && WaitersReadless(Without(q, k), rs)
  {
  }

  lemma LeaveQueueFacts(s: Sem, t: Task, u: Task)
    requires SemInv(s) && Queued(s.queue, t)
    ensures var s1 := LeaveQueue(s, t);
      && SemInv(s1)
      && !Queued(s1.queue, t)
      && WaitsFor(s1.queue, u) == (if u == t then None else WaitsFor(s.queue, u))
  {
    QueueWithout(s.queue, t, t);
    QueueWithout(s.queue, t, u);
    RecordsWithout(s.queue, s.readers, FindWaiter(s.queue, t));
    if s.owner.Some? {
      QueueWithout(s.queue, t, s.owner.value);
    }
  }

  lemma ResumeFacts(s: Sem, sig: set<Task>, t: Task, u: Task)
    requires SemInv(s) && Queued(s.queue, t)
    ensures var r := Resume(s, sig, t); Facts(s, r, t, WaitsFor(s.queue, t).value, u) && r.outcome in {Granted, Blocked}
  {
    var s1 := LeaveQueue(s, t);
    var w := s.queue[FindWaiter(s.queue, t)];
    LeaveQueueFacts(s, t, u);
    assert !w.isExcl <==> w.call == Shared;
    if w.call == Exclusive {
      EnterExclFacts(s1, sig - {t}, t, u);
      FactsThrough(s, s1, EnterExcl(s1, sig - {t}, t), t, Exclusive, u);
    } else {
      WaitSharedFacts(s1, sig - {t}, t, u);
      FactsThrough(s, s1, WaitShared(s1, sig - {t}, t, false), t, Shared, u);
    }
  }

  // Leaving the queue first makes no difference to the holds.
  lemma FactsThrough(s: Sem, s1: Sem, r: Result, t: Task, kind: Kind, u: Task)
    requires s1 == s.(queue := s1.queue) && Facts(s1, r, t, kind, u)
    requires WaitsFor(s1.queue, u) == if u == t then None else WaitsFor(s.queue, u)
    ensures Facts(s, r, t, kind, u)
  {
  }

  // The same, for the four building blocks; `r` is the segment's result, `kind` what t asks for
  // or gives back.
  ghost predicate Facts(s: Sem, r: Result, t: Task, kind: Kind, u: Task) {
    && SemInv(r.sem)
    && WaitsFor(r.sem.queue, u) == (if u != t then WaitsFor(s.queue, u) else if r.outcome == Blocked then Some(kind) else None)
    && HoldsOf(r.sem, u, Exclusive) == HoldsOf(s, u, Exclusive) + (if u == t && kind == Exclusive then Delta(r.outcome) else 0)
    && HoldsOf(r.sem, u, Shared) == HoldsOf(s, u, Shared) + (if u == t && kind == Shared then Delta(r.outcome) else 0)
  }

  function Delta(o: Outcome): int {
    match o
    case Granted => 1
    case Released => -1
    case _ => 0
  }

  lemma EnqueueInv(s: Sem, w: Waiter, atHead: bool, u: Task)
    requires SemInv(s) && !Queued(s.queue, w.task) && s.owner != Some(w.task)
    requires w.isExcl <==> w.call == Exclusive
    requires w.call == Shared ==> FindReader(s.readers, w.task) == |s.readers|
    ensures var q := if atHead then [w] + s.queue else s.queue + [w];
      && SemInv(s.(queue := q))
      && WaitsFor(q, u) == if u == w.task then Some(w.call) else WaitsFor(s.queue, u)
  {
    QueuePush(s.queue, w, atHead, u);
    if s.owner.Some? {
      QueuePush(s.queue, w, atHead, s.owner.value);
    }
    RecordsPush(s.queue, s.readers, w, atHead);
  }

  lemma RecordsPush(q: seq<Waiter>, rs: seq<ReadLock>, w: Waiter, atHead: bool)
    requires Unpromoted(q) && WaitersReadless(q, rs)
    requires w.isExcl <==> w.call == Exclusive
    requires w.call == Shared ==> FindReader(rs, w.task) == |rs|
    ensures var r := if atHead then [w] + q else q + [w]; Unpromoted(r) && WaitersReadless(r, rs)
  {
  }

  lemma EnterExclFacts(s: Sem, sig: set<Task>, t: Task, u: Task)
    requires SemInv(s) && !Queued(s.queue, t)
    ensures var r := EnterExcl(s, sig, t); Facts(s, r, t, Exclusive, u) && r.outcome in {Granted, Blocked}
  {
    if CanExcl(s, t) {
      ExclTaken(s, sig, t, u);
    } else {
      ExclQueued(s, sig, t, u);
    }
  }

  lemma ExclTaken(s: Sem, sig: set<Task>, t: Task, u: Task)
    requires SemInv(s) && !Queued(s.queue, t) && CanExcl(s, t)
    ensures Facts(s, Result(TakeExcl(s, t), sig, Granted), t, Exclusive, u)
  {
  }

  lemma ExclQueued(s: Sem, sig: set<Task>, t: Task, u: Task)
    requires SemInv(s) && !Queued(s.queue, t) && !CanExcl(s, t)
    ensures Facts(s, Result(s.(queue := [Waiter(t, true, Exclusive)] + s.queue), sig - {t}, Blocked), t, Exclusive, u)
  {
    EnqueueInv(s, Waiter(t, true, Exclusive), true, u);
  }

  lemma WaitSharedFacts(s: Sem, sig: set<Task>, t: Task, u: Task)
    requires SemInv(s) && !Queued(s.queue, t) && s.owner != Some(t)
    requires FindReader(s.readers, t) == |s.readers|
    ensures var r := WaitShared(s, sig, t, false); Facts(s, r, t, Shared, u) && r.outcome in {Granted, Blocked}
  {
    if s.owner.Some? {
      EnqueueInv(s, Waiter(t, false, Shared), false, u);
    } else {
      ReadersPush(s.readers, t, u);
      ReadlessPush(s.queue, s.readers, t);
    }
  }

  lemma ReadlessPush(q: seq<Waiter>, rs: seq<ReadLock>, t: Task)
    requires WaitersReadless(q, rs) && !Queued(q, t)
    ensures WaitersReadless(q, [ReadLock(t, 1)] + rs)
  {
    QueuedIff(q, t);
  }

  // Another count on a read record.
  lemma RecountFacts(s: Sem, k: nat, c: nat, u: Task)
    requires SemInv(s) && k < |s.readers| && c >= 1
    ensures var m := s.(readers := s.readers[k := s.readers[k].(count := c)]);
      && SemInv(m)
      && HoldsOf(m, u, Exclusive) == HoldsOf(s, u, Exclusive)
      && HoldsOf(m, u, Shared) == HoldsOf(s, u, Shared) + (if u == s.readers[k].task then c - s.readers[k].count else 0)
  {
    ReadersUpdate(s.readers, k, c, u);
    FindReaderAt(s.readers, k);
    ReadlessUpdate(s.queue, s.readers, k, c);
  }

  lemma OwnerAgainFacts(s: Sem, sig: set<Task>, t: Task, u: Task)
    requires SemInv(s) && !Queued(s.queue, t) && s.owner == Some(t)
    ensures Facts(s, Result(s.(excl := s.excl + 1), sig, Granted), t, Exclusive, u)
  {
  }

  lemma ReaderAgainFacts(s: Sem, sig: set<Task>, k: nat, u: Task)
    requires SemInv(s) && k < |s.readers| && !Queued(s.queue, s.readers[k].task)
    ensures var r := s.readers[k];
      Facts(s, Result(s.(readers := s.readers[k := r.(count := r.count + 1)]), sig, Granted), r.task, Shared, u)
  {
    RecountFacts(s, k, s.readers[k].count + 1, u);
  }

  // A read record gone.
  lemma RecordGoneFacts(s: Sem, k: nat, u: Task)
    requires SemInv(s) && k < |s.readers|
    ensures var m := s.(readers := Without(s.readers, k), shared := s.shared - 1);
      && SemInv(m)
      && HoldsOf(m, u, Exclusive) == HoldsOf(s, u, Exclusive)
      && HoldsOf(m, u, Shared) == HoldsOf(s, u, Shared) - (if u == s.readers[k].task then s.readers[k].count else 0)
  {
    ReadersWithout(s.readers, k, u);
    FindReaderAt(s.readers, k);
    ReadlessWithout(s.queue, s.readers, k);
  }

  lemma SharedKindIs(s: Sem, t: Task, mem: bool)
    requires SemInv(s)
    ensures SharedKind(s, t, mem) ==
            if s.owner == Some(t) || (!mem && FindReader(s.readers, t) == |s.readers|) then Exclusive else Shared
  {
  }

  lemma EnterSharedFacts(s: Sem, sig: set<Task>, t: Task, mem: bool, u: Task)
    requires SemInv(s) && !Queued(s.queue, t)
    ensures var r := EnterShared(s, sig, t, mem); Facts(s, r, t, SharedKind(s, t, mem), u) && r.outcome in {Granted, Blocked}
  {
    var k := FindReader(s.readers, t);
    SharedKindIs(s, t, mem);
    if s.owner == Some(t) {
      OwnerAgainFacts(s, sig, t, u);
    } else if k < |s.readers| {
      ReaderAgainFacts(s, sig, k, u);
    } else if !mem {
      EnterExclFacts(s, sig, t, u);
    } else {
      WaitSharedFacts(s, sig, t, u);
    }
  }

  lemma ReadlessUpdate(q: seq<Waiter>, rs: seq<ReadLock>, k: nat, c: nat)
    requires WaitersReadless(q, rs) && k < |rs|
    ensures WaitersReadless(q, rs[k := rs[k].(count := c)])
  {
  }

  lemma ReadlessWithout(q: seq<Waiter>, rs: seq<ReadLock>, k: nat)
    requires WaitersReadless(q, rs) && k < |rs|
    ensures WaitersReadless(q, Without(rs, k))
  {
  }

  lemma UnlockFacts(s: Sem, sig: set<Task>, t: Task, u: Task)
    requires SemInv(s) && !Queued(s.queue, t)
    ensures var r := Unlock(s, sig, t);
      && Facts(s, r, t, KindOf(s, Release(t, 0)), u)
      && r.outcome in {Released, Refused}
      && (r.outcome == Refused <==> Holds(s, t) == 0)
      && (r.outcome == Refused ==> r.sem == s && r.sig == sig)
  {
    var k := FindReader(s.readers, t);
    if s.owner.None? && k < |s.readers| {
      var c := s.readers[k].count;
      if c > 1 {
        RecountFacts(s, k, c - 1, u);
      } else {
        RecordGoneFacts(s, k, u);
      }
    }
  }

  // Whoever gives its last lock of a kind back signals every waiter; any other unlock signals
  // nobody.
  lemma UnlockSignals(s: Sem, sig: set<Task>, t: Task)
    requires SemInv(s) && !Queued(s.queue, t) && Unlock(s, sig, t).outcome == Released
    ensures var r := Unlock(s, sig, t);
      && r.sem.queue == s.queue
      && r.sig == if HoldsOf(r.sem, t, KindOf(s, Release(t, 0))) == 0 then sig + QueueTasks(s.queue) else sig
  {
    if s.owner.None? {
      ReaderSignals(s, sig, t);
    }
  }

  lemma ReaderSignals(s: Sem, sig: set<Task>, t: Task)
    requires SemInv(s) && s.owner.None? && Unlock(s, sig, t).outcome == Released
    ensures var r := Unlock(s, sig, t);
      && r.sem.queue == s.queue
      && r.sig == if HoldsOf(r.sem, t, Shared) == 0 then sig + QueueTasks(s.queue) else sig
  {
    var k := FindReader(s.readers, t);
    var c := s.readers[k].count;
    if c > 1 {
      ReadersUpdate(s.readers, k, c - 1, t);
    } else {
      ReadersWithout(s.readers, k, t);
    }
  }

  // A lock step signals nobody; it takes the signal of its own task, unless the lock is granted
  // at once.
  lemma LockSignals(s: Sem, sig: set<Task>, a: Step)
    requires SemInv(s) && !a.Poke? && !a.Release?
    requires if a.Wake? then Queued(s.queue, a.t) else !Queued(s.queue, a.t)
    ensures var r := Segment(s, sig, a); r.sig == if r.outcome == Granted && !a.Wake? then sig else sig - {a.t}
  {
  }

  // ------------------------------------------------------------------ when a lock is granted

  // No other task holds what a lock of the given kind cannot be held beside.
  ghost predicate Clear(s: Sem, t: Task, kind: Kind) {
    forall u :: u != t ==> HoldsOf(s, u, Exclusive) == 0 && (kind == Exclusive ==> HoldsOf(s, u, Shared) == 0)
  }

  lemma CanExclIff(s: Sem, t: Task)
    requires SemInv(s)
    ensures CanExcl(s, t) <==> Clear(s, t, Exclusive)
  {
    if s.owner.Some? && s.owner != Some(t) {
      assert HoldsOf(s, s.owner.value, Exclusive) > 0;
    } else if s.owner == Some(t) {
      OwnerReadsAlone(s, t);
    } else if s.readers != [] {
      var u := if s.readers[0].task == t && |s.readers| > 1 then s.readers[1].task else s.readers[0].task;
      FindReaderAt(s.readers, if s.readers[0].task == t && |s.readers| > 1 then 1 else 0);
      assert HoldsOf(s, u, Shared) > 0;
    }
  }

  lemma OwnerReadsAlone(s: Sem, t: Task)
    requires SemInv(s) && s.owner == Some(t)
    ensures Clear(s, t, Exclusive)
  {
  }

  lemma OwnerNoneIff(s: Sem, t: Task)
    requires SemInv(s) && s.owner != Some(t)
    ensures s.owner.None? <==> Clear(s, t, Shared)
  {
    if s.owner.Some? {
      assert HoldsOf(s, s.owner.value, Exclusive) > 0;
    }
  }

  lemma ReaderIsClear(s: Sem, t: Task)
    requires SemInv(s) && HoldsOf(s, t, Shared) > 0 && s.owner != Some(t)
    ensures Clear(s, t, Shared)
  {
  }

  // A lock is granted at once, or to a task that wakes up, exactly when nobody else stands in
  // its way: a shared one beside any number of readers, an exclusive one alone.
  lemma GrantedIff(s: Sem, sig: set<Task>, a: Step)
    requires SemInv(s) && !a.Poke? && !a.Release?
    requires if a.Wake? then Queued(s.queue, a.t) else !Queued(s.queue, a.t)
    ensures Segment(s, sig, a).outcome == Granted <==> Clear(s, a.t, KindOf(s, a))
  {
    match a
    case LockExcl(t, _) => CanExclIff(s, t);
    case LockShared(t, _, mem) => SharedGrantedIff(s, sig, t, mem);
    case Wake(t, _) =>
      LeaveQueueFacts(s, t, t);
      CanExclIff(s, t);
      OwnerNoneIff(s, t);
  }

  lemma SharedGrantedIff(s: Sem, sig: set<Task>, t: Task, mem: bool)
    requires SemInv(s) && !Queued(s.queue, t)
    ensures EnterShared(s, sig, t, mem).outcome == Granted <==> Clear(s, t, SharedKind(s, t, mem))
  {
    var k := FindReader(s.readers, t);
    SharedKindIs(s, t, mem);
    if s.owner == Some(t) {
      OwnerReadsAlone(s, t);
    } else if k < |s.readers| {
      ReaderIsClear(s, t);
    } else if !mem {
      CanExclIff(s, t);
    } else {
      OwnerNoneIff(s, t);
    }
  }

  // With memory at hand a shared lock is granted exactly when nobody else owns the semaphore; on
  // one that has no owner the task is then a reader, once more than before, and there is still
  // no owner.
  lemma SharedGrant(s: Sem, sig: set<Task>, t: Task, u: Task)
    requires SemInv(s) && !Queued(s.queue, t)
    ensures var r := EnterShared(s, sig, t, true);
      && (r.outcome == Granted <==> s.owner.None? || s.owner == Some(t))
      && (s.owner.None? ==>
            && SemInv(r.sem) && r.sem.owner.None? && r.sem.queue == s.queue && r.sig == sig
            && ReadCount(r.sem.readers, u) == ReadCount(s.readers, u) + (if u == t then 1 else 0))
  {
    EnterSharedFacts(s, sig, t, true, u);
  }

  // ------------------------------------------------------------------ no lost wake-up

  lemma EnterExclAwake(s: Sem, sig: set<Task>, t: Task)
    requires SemInv(s) && Awake(s, sig) && !Queued(s.queue, t)
    ensures var r := EnterExcl(s, sig, t); Awake(r.sem, r.sig)
  {
    var r := EnterExcl(s, sig, t);
    QueuedIff(s.queue, t);
    forall k | 0 <= k < |r.sem.queue| && Grantable(r.sem, r.sem.queue[k])
      ensures r.sem.queue[k].task in r.sig
    {
      var w := r.sem.queue[k];
      if !CanExcl(s, t) && k > 0 {
        assert w == s.queue[k - 1];
        assert Grantable(s, w);
      }
    }
  }

  lemma WaitSharedAwake(s: Sem, sig: set<Task>, t: Task)
    requires SemInv(s) && Awake(s, sig) && !Queued(s.queue, t)
    ensures var r := WaitShared(s, sig, t, false); Awake(r.sem, r.sig)
  {
    var r := WaitShared(s, sig, t, false);
    QueuedIff(s.queue, t);
    forall k | 0 <= k < |r.sem.queue| && Grantable(r.sem, r.sem.queue[k])
      ensures r.sem.queue[k].task in r.sig
    {
      var w := r.sem.queue[k];
      if k < |s.queue| {
        assert w == s.queue[k];
        assert Grantable(s, w);
      }
    }
  }

  lemma EnterSharedAwake(s: Sem, sig: set<Task>, t: Task, mem: bool)
    requires SemInv(s) && Awake(s, sig) && !Queued(s.queue, t)
    ensures var r := EnterShared(s, sig, t, mem); Awake(r.sem, r.sig)
  {
    var k := FindReader(s.readers, t);
    var r := EnterShared(s, sig, t, mem);
    if s.owner == Some(t) {
    } else if k < |s.readers| {
      forall j | 0 <= j < |r.sem.queue| && Grantable(r.sem, r.sem.queue[j])
        ensures r.sem.queue[j].task in r.sig
      {
        assert Grantable(s, s.queue[j]);
      }
    } else if !mem {
      EnterExclAwake(s, sig, t);
    } else {
      WaitSharedAwake(s, sig, t);
    }
  }

  lemma UnlockAwake(s: Sem, sig: set<Task>, t: Task)
    requires SemInv(s) && Awake(s, sig)
    ensures var r := Unlock(s, sig, t); Awake(r.sem, r.sig)
  {
    var r := Unlock(s, sig, t);
    forall j | 0 <= j < |r.sem.queue| && Grantable(r.sem, r.sem.queue[j])
      ensures r.sem.queue[j].task in r.sig
    {
      if r.sem.owner == s.owner && |r.sem.readers| == |s.readers| {
        assert Grantable(s, s.queue[j]);
      } else {
        assert s.queue[j] in s.queue;
      }
    }
  }

  lemma SegmentAwake(s: Sem, sig: set<Task>, a: Step)
    requires SemInv(s) && Awake(s, sig) && !a.Poke?
    requires if a.Wake? then Queued(s.queue, a.t) else !Queued(s.queue, a.t)
    ensures var r := Segment(s, sig, a); Awake(r.sem, r.sig)
  {
    match a
    case LockExcl(t, _) => EnterExclAwake(s, sig, t);
    case LockShared(t, _, mem) => EnterSharedAwake(s, sig, t, mem);
    case Release(t, _) => UnlockAwake(s, sig, t);
    case Wake(t, _) =>
      var s1 := LeaveQueue(s, t);
      LeaveQueueAwake(s, sig, t);
      if s.queue[FindWaiter(s.queue, t)].call == Exclusive {
        EnterExclAwake(s1, sig - {t}, t);
      } else {
        WaitSharedAwake(s1, sig - {t}, t);
      }
  }

  lemma LeaveQueueAwake(s: Sem, sig: set<Task>, t: Task)
    requires SemInv(s) && Awake(s, sig) && Queued(s.queue, t)
    ensures var s1 := LeaveQueue(s, t); SemInv(s1) && Awake(s1, sig - {t}) && !Queued(s1.queue, t)
  {
    var s1 := LeaveQueue(s, t);
    LeaveQueueFacts(s, t, t);
    QueuedIff(s1.queue, t);
    forall k | 0 <= k < |s1.queue| && Grantable(s1, s1.queue[k])
      ensures s1.queue[k].task in sig - {t}
    {
      var j := if k < FindWaiter(s.queue, t) then k else k + 1;
      assert s1.queue[k] == s.queue[j];
      assert Grantable(s, s.queue[j]);
    }
  }

  // ------------------------------------------------------------------ one step of the system

  // The semaphore a step is about changes as its segment says; the others do not.
  lemma NextSem(s: State, a: Step, j: nat, u: Task)
    requires Safe(s) && Enabled(s, a) && j < |s.sems|
    ensures var n := Next(s, a);
      && |n.sems| == |s.sems|
      && SemInv(n.sems[j])
      && (Queued(n.sems[j].queue, u) ==> Queued(s.sems[j].queue, u) || (!a.Poke? && a.i == j && a.t == u))
  {
    if !a.Poke? && a.i == j {
      SegmentFacts(s.sems[j], s.sig, a, u);
    }
  }

  // A task that blocks was not queued anywhere else.
  lemma BlocksOnce(s: State, a: Step, k: nat)
    requires Safe(s) && Enabled(s, a) && !a.Poke? && k < |s.sems| && k != a.i
    ensures !Queued(s.sems[k].queue, a.t)
  {
  }

  lemma NextSafe(s: State, a: Step)
    requires Safe(s) && Enabled(s, a)
    ensures Safe(Next(s, a)) && |Next(s, a).sems| == |s.sems|
  {
    var n := Next(s, a);
    forall j | 0 <= j < |n.sems|
      ensures SemInv(n.sems[j])
    {
      NextSem(s, a, j, 0);
    }
    forall j, k, t | 0 <= j < k < |n.sems| && Queued(n.sems[j].queue, t)
      ensures !Queued(n.sems[k].queue, t)
    {
      NextSem(s, a, j, t);
      NextSem(s, a, k, t);
      if !a.Poke? && a.t == t {
        if j != a.i { BlocksOnce(s, a, j); }
        if k != a.i { BlocksOnce(s, a, k); }
      }
    }
  }

  lemma NextAwake(s: State, a: Step)
    requires Safe(s) && AllAwake(s) && Enabled(s, a)
    ensures AllAwake(Next(s, a))
  {
    var n := Next(s, a);
    forall j | 0 <= j < |n.sems|
      ensures Awake(n.sems[j], n.sig)
    {
      if !a.Poke? && j == a.i {
        SegmentAwake(s.sems[j], s.sig, a);
      } else {
        QueuedIff(s.sems[j].queue, a.t);
        assert n.sems[j] == s.sems[j] && Awake(s.sems[j], s.sig);
        assert !a.Poke? ==> !Queued(s.sems[j].queue, a.t);
        assert !a.Poke? ==> s.sig - {a.t} <= n.sig;
      }
    }
  }

  // The change of u's hold count on semaphore i that the outcome of step `a` announces.
  ghost function Change(s: State, a: Step, i: nat, u: Task): int
    requires Enabled(s, a)
  {
    if !a.Poke? && a.i == i && a.t == u then Delta(OutcomeOf(s, a)) else 0
  }

  // The part of it that is of one kind.
  ghost function ChangeOf(s: State, a: Step, i: nat, u: Task, kind: Kind): int
    requires Enabled(s, a) && i < |s.sems|
  {
    if !a.Poke? && a.i == i && KindOf(s.sems[i], a) == kind then Change(s, a, i, u) else 0
  }

  lemma NextHoldsOf(s: State, a: Step, i: nat, u: Task, kind: Kind)
    requires Safe(s) && Enabled(s, a) && i < |s.sems|
    ensures HoldsOf(Next(s, a).sems[i], u, kind) == HoldsOf(s.sems[i], u, kind) + ChangeOf(s, a, i, u, kind)
  {
    if !a.Poke? && a.i == i {
      SegmentFacts(s.sems[i], s.sig, a, u);
    }
  }

  lemma NextHolds(s: State, a: Step, i: nat, u: Task)
    requires Safe(s) && Enabled(s, a) && i < |s.sems|
    ensures Holds(Next(s, a).sems[i], u) == Holds(s.sems[i], u) + Change(s, a, i, u)
  {
    if !a.Poke? && a.i == i {
      SegmentFacts(s.sems[i], s.sig, a, u);
    }
  }

  // ------------------------------------------------------------------ runs

  ghost predicate IsRun(s: State, steps: seq<Step>)
    decreases |steps|
  {
    steps == [] || (Enabled(s, steps[0]) && IsRun(Next(s, steps[0]), steps[1..]))
  }

  ghost function End(s: State, steps: seq<Step>): State
    requires IsRun(s, steps)
    decreases |steps|
  {
    if steps == [] then s else End(Next(s, steps[0]), steps[1..])
  }

  // Lock calls completed minus unlock calls accepted, for task u on semaphore i.
  ghost function Balance(s: State, steps: seq<Step>, i: nat, u: Task): int
    requires IsRun(s, steps)
    decreases |steps|
  {
    if steps == [] then 0
    else Change(s, steps[0], i, u) + Balance(Next(s, steps[0]), steps[1..], i, u)
  }

  // The same, of locks of one kind.
  ghost function BalanceOf(s: State, steps: seq<Step>, i: nat, u: Task, kind: Kind): int
    requires IsRun(s, steps) && i < |s.sems|
    decreases |steps|
  {
    if steps == [] then 0
    else ChangeOf(s, steps[0], i, u, kind) + BalanceOf(Next(s, steps[0]), steps[1..], i, u, kind)
  }

  ghost predicate Initial(s: State) {
    forall j :: 0 <= j < |s.sems| ==> s.sems[j] == Sem(None, 0, 0, [], [])
  }

  lemma {:induction false} RunSafe(s: State, steps: seq<Step>)
    requires Safe(s) && IsRun(s, steps)
    ensures Safe(End(s, steps)) && |End(s, steps).sems| == |s.sems|
    decreases |steps|
  {
    if steps != [] {
      NextSafe(s, steps[0]);
      RunSafe(Next(s, steps[0]), steps[1..]);
    }
  }

  lemma {:induction false} RunAwake(s: State, steps: seq<Step>)
    requires Safe(s) && AllAwake(s) && IsRun(s, steps)
    ensures AllAwake(End(s, steps))
    decreases |steps|
  {
    if steps != [] {
      NextSafe(s, steps[0]);
      NextAwake(s, steps[0]);
      RunAwake(Next(s, steps[0]), steps[1..]);
    }
  }

  lemma {:induction false} RunHolds(s: State, steps: seq<Step>, i: nat, u: Task)
    requires Safe(s) && IsRun(s, steps) && i < |s.sems|
    ensures |End(s, steps).sems| == |s.sems|
    ensures Holds(End(s, steps).sems[i], u) == Holds(s.sems[i], u) + Balance(s, steps, i, u)
    decreases |steps|
  {
    if steps != [] {
      NextSafe(s, steps[0]);
      NextHolds(s, steps[0], i, u);
      RunHolds(Next(s, steps[0]), steps[1..], i, u);
    }
  }

  lemma {:induction false} RunHoldsOf(s: State, steps: seq<Step>, i: nat, u: Task, kind: Kind)
    requires Safe(s) && IsRun(s, steps) && i < |s.sems|
    ensures |End(s, steps).sems| == |s.sems|
    ensures HoldsOf(End(s, steps).sems[i], u, kind) == HoldsOf(s.sems[i], u, kind) + BalanceOf(s, steps, i, u, kind)
    decreases |steps|
  {
    if steps != [] {
      NextSafe(s, steps[0]);
      NextHoldsOf(s, steps[0], i, u, kind);
      RunHoldsOf(Next(s, steps[0]), steps[1..], i, u, kind);
    }
  }

  // ------------------------------------------------------------------ what callers rely on

  // An exclusive owner is the only holder, it does hold, and shared holders are distinct tasks.
  ghost predicate MutuallyExclusive(s: Sem) {
    && (s.owner.None? <==> s.excl == 0)
    && (s.owner.Some? ==> Holds(s, s.owner.value) > 0)
    && (forall u :: s.owner.Some? && Holds(s, u) > 0 ==> u == s.owner.value)
    && s.shared == |s.readers|
    && DistinctReaders(s.readers)
    && forall k :: 0 <= k < |s.readers| ==> s.readers[k].count == ReadCount(s.readers, s.readers[k].task) >= 1
  }

  lemma SoundMeansExclusive(s: Sem)
    requires SemInv(s)
    ensures MutuallyExclusive(s)
  {
    forall k | 0 <= k < |s.readers|
      ensures s.readers[k].count == ReadCount(s.readers, s.readers[k].task) >= 1
    {
      FindReaderAt(s.readers, k);
    }
  }

  // From free semaphores, over every run: exclusion, and each task holds exactly what it
  // locked minus what it unlocked, of each kind too.
  lemma ExclusionAndCounting(s: State, steps: seq<Step>, i: nat)
    requires Initial(s) && IsRun(s, steps) && i < |s.sems|
    ensures |End(s, steps).sems| == |s.sems|
    ensures MutuallyExclusive(End(s, steps).sems[i])
    ensures forall u :: Holds(End(s, steps).sems[i], u) == Balance(s, steps, i, u)
    ensures forall u, kind :: HoldsOf(End(s, steps).sems[i], u, kind) == BalanceOf(s, steps, i, u, kind)
  {
    assert Safe(s);
    RunSafe(s, steps);
    SoundMeansExclusive(End(s, steps).sems[i]);
    forall u, kind
      ensures HoldsOf(End(s, steps).sems[i], u, kind) == BalanceOf(s, steps, i, u, kind)
    {
      RunHoldsOf(s, steps, i, u, kind);
    }
    forall u
      ensures Holds(End(s, steps).sems[i], u) == Balance(s, steps, i, u)
    {
      RunHolds(s, steps, i, u);
    }
  }

  // After any run a lock step, of a task that comes by or of one that wakes up, is granted exactly
  // when nobody else holds what its lock cannot be held beside; otherwise the task waits for a
  // lock of that kind.
  lemma GrantedIffClear(s: State, steps: seq<Step>, a: Step)
    requires Initial(s) && IsRun(s, steps)
    requires !a.Poke? && !a.Release? && Enabled(End(s, steps), a)
    ensures var e := End(s, steps);
      var kind := KindOf(e.sems[a.i], a);
      && (OutcomeOf(e, a) == Granted <==> Clear(e.sems[a.i], a.t, kind))
      && (OutcomeOf(e, a) != Granted ==> WaitsFor(Next(e, a).sems[a.i].queue, a.t) == Some(kind))
  {
    assert Safe(s);
    RunSafe(s, steps);
    var e := End(s, steps);
    GrantedIff(e.sems[a.i], e.sig, a);
    SegmentFacts(e.sems[a.i], e.sig, a, a.t);
  }

  // The steps by which the given tasks ask for shared locks on semaphore i, one after the other.
  function ReadSteps(tasks: seq<Task>, i: nat): (r: seq<Step>)
    ensures |r| == |tasks|
  {
    seq(|tasks|, j requires 0 <= j < |tasks| => LockShared(tasks[j], i, true))
  }

  // Any number of tasks read together: on a semaphore without an owner none of them waits, and
  // each ends with as many more shared locks as it asked for.
  lemma {:induction false} ReadTogether(s: State, tasks: seq<Task>, i: nat)
    requires Safe(s) && i < |s.sems| && s.sems[i].owner.None?
    requires forall t :: t in tasks ==> Free(s, t)
    ensures IsRun(s, ReadSteps(tasks, i))
    ensures var e := End(s, ReadSteps(tasks, i));
      && |e.sems| == |s.sems|
      && e.sems[i].owner.None?
      && e.sems[i].queue == s.sems[i].queue
      && forall u :: HoldsOf(e.sems[i], u, Shared) == HoldsOf(s.sems[i], u, Shared) + multiset(tasks)[u]
    decreases |tasks|
  {
    if tasks == [] {
      assert ReadSteps(tasks, i) == [];
    } else {
      var a := LockShared(tasks[0], i, true);
      assert ReadSteps(tasks, i)[1..] == ReadSteps(tasks[1..], i);
      ReadOne(s, tasks[0], i);
      assert forall t :: t in tasks[1..] ==> t in tasks;
      ReadTogether(Next(s, a), tasks[1..], i);
      assert tasks == [tasks[0]] + tasks[1..];
    }
  }

  lemma ReadOne(s: State, t: Task, i: nat)
    requires Safe(s) && i < |s.sems| && s.sems[i].owner.None? && Free(s, t)
    ensures var a := LockShared(t, i, true);
      && Enabled(s, a)
      && OutcomeOf(s, a) == Granted
      && Safe(Next(s, a)) && |Next(s, a).sems| == |s.sems|
      && Next(s, a).sems[i].owner.None?
      && (forall j :: 0 <= j < |s.sems| ==> Next(s, a).sems[j].queue == s.sems[j].queue)
      && forall u :: HoldsOf(Next(s, a).sems[i], u, Shared) == HoldsOf(s.sems[i], u, Shared) + (if u == t then 1 else 0)
  {
    var a := LockShared(t, i, true);
    NextSafe(s, a);
    forall u
      ensures HoldsOf(Next(s, a).sems[i], u, Shared) == HoldsOf(s.sems[i], u, Shared) + (if u == t then 1 else 0)
    {
      SharedGrant(s.sems[i], s.sig, t, u);
    }
  }

  // After any run an unlock is refused exactly when its task's locks and unlocks balance, and
  // a refused unlock changes nothing.
  lemma UnlockRefusedIffNotHeld(s: State, steps: seq<Step>, a: Step)
    requires Initial(s) && IsRun(s, steps)
    requires a.Release? && Enabled(End(s, steps), a) && a.i < |s.sems|
    ensures OutcomeOf(End(s, steps), a) == Refused <==> Balance(s, steps, a.i, a.t) == 0
    ensures OutcomeOf(End(s, steps), a) == Refused ==> Next(End(s, steps), a) == End(s, steps)
  {
    assert Safe(s);
    RunSafe(s, steps);
    RunHolds(s, steps, a.i, a.t);
    UnlockFacts(End(s, steps).sems[a.i], End(s, steps).sig, a.t, a.t);
  }

  // After any run a queued task whose condition holds has its signal pending; and once nobody
  // else holds the semaphore, its condition does hold and its next segment is granted.
  lemma NoLostWakeUp(s: State, steps: seq<Step>, i: nat, k: nat)
    requires Initial(s) && IsRun(s, steps)
    requires i < |End(s, steps).sems| && k < |End(s, steps).sems[i].queue|
    ensures var e := End(s, steps);
      var w := e.sems[i].queue[k];
      && (Grantable(e.sems[i], w) ==> w.task in e.sig)
      && ((forall u :: u != w.task ==> Holds(e.sems[i], u) == 0) ==>
            && Grantable(e.sems[i], w)
            && Enabled(e, Wake(w.task, i))
            && OutcomeOf(e, Wake(w.task, i)) == Granted)
  {
    assert Safe(s);
    RunSafe(s, steps);
    assert AllAwake(s);
    RunAwake(s, steps);
    var e := End(s, steps);
    var m := e.sems[i];
    var w := m.queue[k];
    assert Awake(m, e.sig);
    FindWaiterAt(m.queue, k);
    if forall u :: u != w.task ==> Holds(m, u) == 0 {
      SoleHolderGranted(m, k);
    }
  }

  lemma SoleHolderGranted(m: Sem, k: nat)
    requires SemInv(m) && k < |m.queue|
    requires forall u :: u != m.queue[k].task ==> Holds(m, u) == 0
    ensures Grantable(m, m.queue[k])
  {
    var w := m.queue[k];
    SoundMeansExclusive(m);
    QueuedIff(m.queue, w.task);
    assert m.owner.None?;
    assert |m.readers| > 1 ==> m.readers[0].task != m.readers[1].task;
    forall j | 0 <= j < |m.readers|
      ensures m.readers[j].task == w.task
    {
      assert Holds(m, m.readers[j].task) >= 1;
    }
  }
}
