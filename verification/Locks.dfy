/**
 The reader/writer lock of neptune.library as atomic steps of unboundedly many tasks.

 Every segment of the C code between `Forbid()` and either `Permit()` or `Wait()` is one
 function on semaphore values: entering a lock call, being woken inside one, and unlocking.
 A run is any interleaving of those segments.
 */
module Locks {
  import opened Common

  type Task = nat

  // An obtained shared lock (struct PsdReadLock on pls_ReadLocks).
  datatype ReadLock = ReadLock(task: Task, count: nat)

  // The two ways to hold a semaphore. A queued task is blocked in the call for one of them and
  // resumes inside that call.
  datatype Kind = Exclusive | Shared

  // A waiting record on pls_WaitQueue.
  datatype Waiter = Waiter(task: Task, isExcl: bool, call: Kind)

  datatype Sem = Sem(
    owner: Option<Task>,
    excl: nat,
    shared: nat,
    readers: seq<ReadLock>,
    queue: seq<Waiter>)

  datatype Outcome = Granted | Blocked | Released | Refused | Idle

  // A semaphore, the set of tasks with SIGF_SINGLE pending, and how the segment ended.
  datatype Result = Result(sem: Sem, sig: set<Task>, outcome: Outcome)

  // ------------------------------------------------------------------ list lookups

  // The position a walk from lh_Head stops at: the first record of task t, or the end.
  function FindReader(rs: seq<ReadLock>, t: Task): (k: nat)
    ensures k <= |rs|
    ensures k < |rs| ==> rs[k].task == t
    ensures forall j :: 0 <= j < k ==> rs[j].task != t
  {
    if rs == [] || rs[0].task == t then 0 else 1 + FindReader(rs[1..], t)
  }

  function FindWaiter(q: seq<Waiter>, t: Task): (k: nat)
    ensures k <= |q|
    ensures k < |q| ==> q[k].task == t
    ensures forall j :: 0 <= j < k ==> q[j].task != t
  {
    if q == [] || q[0].task == t then 0 else 1 + FindWaiter(q[1..], t)
  }

  predicate Queued(q: seq<Waiter>, t: Task) {
    FindWaiter(q, t) < |q|
  }

  function Without<T>(s: seq<T>, k: nat): (r: seq<T>)
    requires k < |s|
    ensures |r| == |s| - 1
    ensures forall j :: 0 <= j < |r| ==> r[j] == s[if j < k then j else j + 1]
  {
    s[..k] + s[k + 1..]
  }

  function QueueTasks(q: seq<Waiter>): (ts: set<Task>) {
    set w | w in q :: w.task
  }

  // How often t holds a shared lock.
  function ReadCount(rs: seq<ReadLock>, t: Task): (c: nat) {
    var k := FindReader(rs, t);
    if k < |rs| then rs[k].count else 0
  }

  // How often t holds the semaphore in one way.
  function HoldsOf(s: Sem, t: Task, kind: Kind): nat {
    match kind
    case Exclusive => if s.owner == Some(t) then s.excl else 0
    case Shared => ReadCount(s.readers, t)
  }

  // How often t holds the semaphore, in either way.
  function Holds(s: Sem, t: Task): nat {
    HoldsOf(s, t, Exclusive) + HoldsOf(s, t, Shared)
  }

  // The kind of lock t is blocked for.
  function WaitsFor(q: seq<Waiter>, t: Task): Option<Kind> {
    var k := FindWaiter(q, t);
    if k < |q| then Some(q[k].call) else None
  }

  // ------------------------------------------------------------------ the segments

  // The condition under which pLockSemExcl leaves its loop.
  predicate CanExcl(s: Sem, t: Task) {
    || s.owner == Some(t)
    || (s.excl == 0 && (s.shared == 0 || (s.shared == 1 && s.readers != [] && s.readers[0].task == t)))
  }

  function TakeExcl(s: Sem, t: Task): Sem {
    s.(owner := Some(t), excl := s.excl + 1)
  }

  // pLockSemExcl up to its Permit() or its Wait().
  function EnterExcl(s: Sem, sig: set<Task>, t: Task): Result {
    if CanExcl(s, t) then Result(TakeExcl(s, t), sig, Granted)
    else Result(s.(queue := [Waiter(t, true, Exclusive)] + s.queue), sig - {t}, Blocked)
  }

  // The waiting loop and the tail of pLockSemShared.
  function WaitShared(s: Sem, sig: set<Task>, t: Task, isExcl: bool): Result {
    if s.owner.Some? then
      Result(s.(queue := s.queue + [Waiter(t, isExcl, Shared)]), sig - {t}, Blocked)
    else if isExcl then
      Result(TakeExcl(s, t), sig, Granted)
    else
      Result(s.(readers := [ReadLock(t, 1)] + s.readers, shared := s.shared + 1), sig, Granted)
  }

  // pLockSemShared up to its Permit() or its Wait(); `mem` says whether a read lock could
  // be allocated.
  function EnterShared(s: Sem, sig: set<Task>, t: Task, mem: bool): Result {
    var k := FindReader(s.readers, t);
    if s.owner == Some(t) then
      Result(s.(excl := s.excl + 1), sig, Granted)
    else if k < |s.readers| then
      var r := s.readers[k];
      Result(s.(readers := s.readers[k := r.(count := r.count + 1)]), sig, Granted)
    else if !mem then
      EnterExcl(s, sig, t)
    else
      WaitShared(s, sig, t, false)
  }

  function LeaveQueue(s: Sem, t: Task): Sem
    requires Queued(s.queue, t)
  {
    s.(queue := Without(s.queue, FindWaiter(s.queue, t)))
  }

  // What a queued task does once Wait(SIGF_SINGLE) returns.
  function Resume(s: Sem, sig: set<Task>, t: Task): Result
    requires Queued(s.queue, t)
  {
    var w := s.queue[FindWaiter(s.queue, t)];
    var s1 := LeaveQueue(s, t);
    match w.call
    case Exclusive => EnterExcl(s1, sig - {t}, t)
    case Shared => WaitShared(s1, sig - {t}, t, w.isExcl)
  }

  function Notify(s: Sem, sig: set<Task>): Result {
    Result(s, sig + QueueTasks(s.queue), Released)
  }

  // pUnlockSem.
  function Unlock(s: Sem, sig: set<Task>, t: Task): Result {
    if s.owner.Some? then
      if s.owner != Some(t) then Result(s, sig, Refused)
      else if s.excl > 1 then Result(s.(excl := s.excl - 1), sig, Released)
      else Notify(s.(owner := None, excl := 0), sig)
    else if s.shared == 0 then Result(s, sig, Refused)
    else
      var k := FindReader(s.readers, t);
      if k == |s.readers| then Result(s, sig, Refused)
      else
        var r := s.readers[k];
        if r.count > 1 then
          Result(s.(readers := s.readers[k := r.(count := r.count - 1)]), sig, Released)
        else
          Notify(s.(readers := Without(s.readers, k), shared := s.shared - 1), sig)
  }

  // ------------------------------------------------------------------ the invariant

  ghost predicate DistinctReaders(rs: seq<ReadLock>) {
    forall i, j :: 0 <= i < j < |rs| ==> rs[i].task != rs[j].task
  }

  ghost predicate DistinctWaiters(q: seq<Waiter>) {
    forall i, j :: 0 <= i < j < |q| ==> q[i].task != q[j].task
  }

  // A record queued by pLockSemExcl is exclusive, one queued by pLockSemShared is not.
  ghost predicate Unpromoted(q: seq<Waiter>) {
    forall k :: 0 <= k < |q| ==> (q[k].isExcl <==> q[k].call == Exclusive)
  }

  ghost predicate ReadersValid(rs: seq<ReadLock>) {
    && DistinctReaders(rs)
    && forall k :: 0 <= k < |rs| ==> rs[k].count >= 1
  }

  // A task waiting for a shared lock has none yet.
  ghost predicate WaitersReadless(q: seq<Waiter>, rs: seq<ReadLock>) {
    forall k :: 0 <= k < |q| && q[k].call == Shared ==> FindReader(rs, q[k].task) == |rs|
  }

  ghost predicate SemInv(s: Sem) {
    && (s.owner.None? <==> s.excl == 0)
    && s.shared == |s.readers|
    && ReadersValid(s.readers)
    && (s.owner.Some? ==> forall k :: 0 <= k < |s.readers| ==> s.readers[k].task == s.owner.value)
    && DistinctWaiters(s.queue)
    && Unpromoted(s.queue)
    && WaitersReadless(s.queue, s.readers)
    && (s.owner.Some? ==> !Queued(s.queue, s.owner.value))
  }

  // The condition a queued record waits for.
  predicate Grantable(s: Sem, w: Waiter) {
    match w.call
    case Exclusive => CanExcl(s, w.task)
    case Shared => s.owner.None?
  }

  // No lost wake-up on one semaphore.
  ghost predicate Awake(s: Sem, sig: set<Task>) {
    forall k :: 0 <= k < |s.queue| && Grantable(s, s.queue[k]) ==> s.queue[k].task in sig
  }

  // ------------------------------------------------------------------ facts about lists

  lemma FindReaderAt(rs: seq<ReadLock>, k: nat)
    requires DistinctReaders(rs) && k < |rs|
    ensures FindReader(rs, rs[k].task) == k
  {
    var j := FindReader(rs, rs[k].task);
    assert j <= k;
  }

  lemma FindWaiterAt(q: seq<Waiter>, k: nat)
    requires DistinctWaiters(q) && k < |q|
    ensures FindWaiter(q, q[k].task) == k
  {
    var j := FindWaiter(q, q[k].task);
    assert j <= k;
  }

  lemma ReadersWithout(rs: seq<ReadLock>, k: nat, u: Task)
    requires ReadersValid(rs) && k < |rs|
    ensures ReadersValid(Without(rs, k))
    ensures ReadCount(Without(rs, k), u) == if u == rs[k].task then 0 else ReadCount(rs, u)
  {
    var r := Without(rs, k);
    var j := FindReader(rs, u);
    FindReaderAt(rs, k);
    if u != rs[k].task && j < |rs| {
      var j' := if j < k then j else j - 1;
      assert r[j'] == rs[j];
      FindReaderAt(r, j');
    }
  }

  lemma ReadersUpdate(rs: seq<ReadLock>, k: nat, c: nat, u: Task)
    requires ReadersValid(rs) && k < |rs| && c >= 1
    ensures ReadersValid(rs[k := rs[k].(count := c)])
    ensures ReadCount(rs[k := rs[k].(count := c)], u) == if u == rs[k].task then c else ReadCount(rs, u)
  {
    var r := rs[k := rs[k].(count := c)];
    FindReaderAt(rs, k);
    FindReaderAt(r, k);
    var j := FindReader(rs, u);
    if j < |rs| {
      FindReaderAt(r, j);
    }
  }

  lemma ReadersPush(rs: seq<ReadLock>, t: Task, u: Task)
    requires ReadersValid(rs) && FindReader(rs, t) == |rs|
    ensures ReadersValid([ReadLock(t, 1)] + rs)
    ensures ReadCount([ReadLock(t, 1)] + rs, u) == if u == t then 1 else ReadCount(rs, u)
  {
    PushedCount(rs, ReadLock(t, 1), u);
    PushedValid(rs, ReadLock(t, 1));
  }

  lemma PushedCount(rs: seq<ReadLock>, x: ReadLock, u: Task)
    ensures ReadCount([x] + rs, u) == if u == x.task then x.count else ReadCount(rs, u)
  {
    assert ([x] + rs)[0] == x && ([x] + rs)[1..] == rs;
    var j := FindReader(rs, u);
    if j < |rs| {
      assert ([x] + rs)[j + 1] == rs[j];
    }
  }

  lemma PushedValid(rs: seq<ReadLock>, x: ReadLock)
    requires ReadersValid(rs) && FindReader(rs, x.task) == |rs| && x.count >= 1
    ensures ReadersValid([x] + rs)
  {
    var r := [x] + rs;
    forall i, j | 0 <= i < j < |r|
      ensures r[i].task != r[j].task
    {
      assert r[j] == rs[j - 1];
      if i > 0 {
        assert r[i] == rs[i - 1];
      }
    }
  }

  lemma ReadersRetask(rs: seq<ReadLock>, k: nat, t: Task, u: Task)
    requires ReadersValid(rs) && k < |rs| && FindReader(rs, t) == |rs|
    ensures ReadersValid(rs[k := rs[k].(task := t)])
    ensures ReadCount(rs[k := rs[k].(task := t)], u) ==
            if u == t then rs[k].count else if u == rs[k].task then 0 else ReadCount(rs, u)
  {
    var r := rs[k := rs[k].(task := t)];
    FindReaderAt(rs, k);
    FindReaderAt(r, k);
    var j := FindReader(rs, u);
    if j < |rs| && j != k {
      FindReaderAt(r, j);
    }
  }

  lemma QueuedIff(q: seq<Waiter>, t: Task)
    ensures Queued(q, t) <==> exists k :: 0 <= k < |q| && q[k].task == t
  {
  }

  lemma QueuePushHead(q: seq<Waiter>, w: Waiter, u: Task)
    requires DistinctWaiters(q) && !Queued(q, w.task)
    ensures DistinctWaiters([w] + q)
    ensures WaitsFor([w] + q, u) == if u == w.task then Some(w.call) else WaitsFor(q, u)
  {
    var r := [w] + q;
    assert r[0] == w && r[1..] == q;
    forall i, j | 0 <= i < j < |r|
      ensures r[i].task != r[j].task
    {
      assert r[j] == q[j - 1];
      if i > 0 {
        assert r[i] == q[i - 1];
      }
    }
  }

  lemma QueuePushTail(q: seq<Waiter>, w: Waiter, u: Task)
    requires DistinctWaiters(q) && !Queued(q, w.task)
    ensures DistinctWaiters(q + [w])
    ensures WaitsFor(q + [w], u) == if u == w.task then Some(w.call) else WaitsFor(q, u)
  {
    var r := q + [w];
    assert r[|q|] == w;
    forall i, j | 0 <= i < j < |r|
      ensures r[i].task != r[j].task
    {
      assert r[i] == q[i];
      if j < |q| {
        assert r[j] == q[j];
      }
    }
    WaitsAtTail(q, w, u);
  }

  lemma {:induction false} WaitsAtTail(q: seq<Waiter>, w: Waiter, u: Task)
    requires !Queued(q, w.task)
    ensures WaitsFor(q + [w], u) == if u == w.task then Some(w.call) else WaitsFor(q, u)
  {
    if q == [] {
      assert q + [w] == [w];
    } else {
      assert (q + [w])[0] == q[0] && (q + [w])[1..] == q[1..] + [w];
      WaitsAtTail(q[1..], w, u);
    }
  }

  lemma QueuePush(q: seq<Waiter>, w: Waiter, atHead: bool, u: Task)
    requires DistinctWaiters(q) && !Queued(q, w.task)
    ensures var r := if atHead then [w] + q else q + [w];
            DistinctWaiters(r) && WaitsFor(r, u) == if u == w.task then Some(w.call) else WaitsFor(q, u)
  {
    if atHead {
      QueuePushHead(q, w, u);
    } else {
      QueuePushTail(q, w, u);
    }
  }

  lemma DistinctWithout(q: seq<Waiter>, k: nat)
    requires DistinctWaiters(q) && k < |q|
    ensures DistinctWaiters(Without(q, k))
  {
    var r := Without(q, k);
    forall i, j | 0 <= i < j < |r|
      ensures r[i].task != r[j].task
    {
      assert r[i] == q[if i < k then i else i + 1];
      assert r[j] == q[if j < k then j else j + 1];
    }
  }

  lemma WaitsWithout(q: seq<Waiter>, k: nat, u: Task)
    requires DistinctWaiters(q) && k < |q|
    ensures WaitsFor(Without(q, k), u) == if u == q[k].task then None else WaitsFor(q, u)
  {
    var r := Without(q, k);
    DistinctWithout(q, k);
    if Queued(q, u) && u != q[k].task {
      var j := FindWaiter(q, u);
      var j' := if j < k then j else j - 1;
      assert r[j'] == q[j];
      FindWaiterAt(r, j');
    }
  }

  lemma QueueWithout(q: seq<Waiter>, t: Task, u: Task)
    requires DistinctWaiters(q) && Queued(q, t)
    ensures var r := Without(q, FindWaiter(q, t));
            DistinctWaiters(r) && WaitsFor(r, u) == if u == t then None else WaitsFor(q, u)
  {
    var k := FindWaiter(q, t);
    DistinctWithout(q, k);
    WaitsWithout(q, k, u);
  }
}
