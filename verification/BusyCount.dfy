/**
 pd_IOBusyCount: transfers of any number of pipes in flight at the same time, begun by their
 submitters, ended at completion delivery by whatever task delivers it, and realtime streams
 that hold the device for as long as they run.
 */
module BusyCount {

  // What is submitted on a pipe: a transfer, a lifecycle op of pCtxDoOp, or a command that
  // starts, stops or otherwise concerns a realtime stream.
  datatype Kind = Transfer | Housekeeping | StartStream | StopStream | StreamCommand

  // Where a pipe is: free, between pActivityBegin() and the submit, in flight, or replied with
  // its caller still to look at the outcome.
  datatype Place = Free | Begun(kind: Kind) | Flying(kind: Kind) | Replied(kind: Kind, ok: bool)

  datatype Pipe = Pipe(
    dev: nat,
    weight: nat,        // pp_BusyWeight: 0 on interrupt endpoints, else 1
    place: Place,
    activity: bool,     // PFF_ACTIVITY
    submits: nat,
    replies: nat)

  // The pipes, and pd_IOBusyCount of every device.
  datatype State = State(pipes: seq<Pipe>, busy: seq<int>)

  datatype Step =
    | Begin(p: nat, kind: Kind)    // pActivityBegin(), except for housekeeping
    | Launch(p: nat)               // the request goes out
    | Complete(p: nat, ok: bool)   // pCompletePipe(): at once, when rejected, or later
    | Collect(p: nat)              // the caller sees the outcome
    | NotSent(p: nat)              // psdDoPipe() without a connection: nothing is submitted

  // A pipe is not submitted again while it is pending.
  predicate Enabled(s: State, a: Step) {
    a.p < |s.pipes| && s.pipes[a.p].dev < |s.busy| &&
    match a
    case Begin(p, _) => s.pipes[p].place.Free?
    case Launch(p) => s.pipes[p].place.Begun?
    case Complete(p, _) => s.pipes[p].place.Begun? || s.pipes[p].place.Flying?
    case Collect(p) => s.pipes[p].place.Replied?
    case NotSent(p) => s.pipes[p].place.Free?
  }

  function Add(busy: seq<int>, d: nat, n: int): seq<int>
    requires d < |busy|
  {
    busy[d := busy[d] + n]
  }

  // psdStartRTIso() takes a hold for the lifetime of the stream when the command succeeded,
  // psdStopRTIso() gives one back when it did; neither looks whether the stream runs.
  function Hold(replied: Place): int
    requires replied.Replied?
  {
    if !replied.ok then 0
    else match replied.kind
      case StartStream => 1
      case StopStream => -1
      case _ => 0
  }

  function Next(s: State, a: Step): State
    requires Enabled(s, a)
  {
    var pp := s.pipes[a.p];
    match a
    case Begin(p, kind) =>
      var begun := pp.(place := Begun(kind), submits := pp.submits + 1);
      if kind.Housekeeping? then s.(pipes := s.pipes[p := begun])
      else State(s.pipes[p := begun.(activity := true)], Add(s.busy, pp.dev, pp.weight))
    case Launch(p) => s.(pipes := s.pipes[p := pp.(place := Flying(pp.place.kind))])
    case Complete(p, ok) =>
      var replied := pp.(place := Replied(pp.place.kind, ok), activity := false, replies := pp.replies + 1);
      State(s.pipes[p := replied], if pp.activity then Add(s.busy, pp.dev, 0 - pp.weight) else s.busy)
    case Collect(p) =>
      State(s.pipes[p := pp.(place := Free)], Add(s.busy, pp.dev, Hold(pp.place)))
    case NotSent(_) => s
  }

  // ------------------------------------------------------------------ the count

  // What one pipe adds to the count of a device: its weight while a counted request is in flight.
  function Share(pp: Pipe, d: nat): nat {
    if pp.dev == d && pp.activity then pp.weight else 0
  }

  function Shares(pipes: seq<Pipe>, d: nat): nat {
    if pipes == [] then 0 else Share(pipes[0], d) + Shares(pipes[1..], d)
  }

  lemma {:induction false} SharesUpdate(pipes: seq<Pipe>, p: nat, x: Pipe, d: nat)
    requires p < |pipes|
    ensures Shares(pipes[p := x], d) == Shares(pipes, d) - Share(pipes[p], d) + Share(x, d)
  {
    if p == 0 {
      assert pipes[p := x][1..] == pipes[1..];
    } else {
      assert pipes[p := x][1..] == pipes[1..][p - 1 := x];
      SharesUpdate(pipes[1..], p - 1, x, d);
    }
  }

  predicate Pending(pp: Pipe) {
    pp.place.Begun? || pp.place.Flying?
  }

  // The activity flag marks the counted requests in flight; every submit was replied, but for
  // the one in flight.
  ghost predicate PipeOk(pp: Pipe) {
    && (pp.activity <==> Pending(pp) && !pp.place.kind.Housekeeping?)
    && pp.submits == pp.replies + (if Pending(pp) then 1 else 0)
  }

  // Streams started on a device by this step, less those stopped: a caller sees that its command
  // has succeeded.
  function StreamChange(s: State, a: Step, d: nat): int
    requires Enabled(s, a)
  {
    if !a.Collect? || s.pipes[a.p].dev != d then 0
    else if s.pipes[a.p].place == Replied(StartStream, true) then 1
    else if s.pipes[a.p].place == Replied(StopStream, true) then -1
    else 0
  }

  lemma StepKeepsCount(s: State, a: Step, d: nat)
    requires Enabled(s, a) && d < |s.busy| && forall p :: 0 <= p < |s.pipes| ==> PipeOk(s.pipes[p])
    ensures var r := Next(s, a);
      && |r.pipes| == |s.pipes| && |r.busy| == |s.busy|
      && (forall p :: 0 <= p < |r.pipes| ==> PipeOk(r.pipes[p]))
      && r.busy[d] - Shares(r.pipes, d) == s.busy[d] - Shares(s.pipes, d) + StreamChange(s, a, d)
  {
    var r := Next(s, a);
    assert PipeOk(s.pipes[a.p]);
    SharesUpdate(s.pipes, a.p, r.pipes[a.p], d);
    assert r.pipes == s.pipes[a.p := r.pipes[a.p]];
  }

  ghost predicate IsRun(s: State, run: seq<Step>)
    decreases |run|
  {
    run == [] || (Enabled(s, run[0]) && IsRun(Next(s, run[0]), run[1..]))
  }

  ghost function End(s: State, run: seq<Step>): State
    requires IsRun(s, run)
    decreases |run|
  {
    if run == [] then s else End(Next(s, run[0]), run[1..])
  }

  // Streams of device d started successfully in a run, less those stopped successfully.
  ghost function Streams(s: State, run: seq<Step>, d: nat): int
    requires IsRun(s, run)
    decreases |run|
  {
    if run == [] then 0 else StreamChange(s, run[0], d) + Streams(Next(s, run[0]), run[1..], d)
  }

  // Freshly allocated pipes of any devices.
  ghost predicate Fresh(s: State) {
    && (forall p :: 0 <= p < |s.pipes| ==> PipeFresh(s.pipes[p]))
    && (forall d :: 0 <= d < |s.busy| ==> s.busy[d] == 0)
  }

  ghost predicate PipeFresh(pp: Pipe) {
    pp.place.Free? && !pp.activity && pp.submits == 0 && pp.replies == 0
  }

  lemma {:induction false} NoShares(pipes: seq<Pipe>, d: nat)
    requires forall p :: 0 <= p < |pipes| ==> Share(pipes[p], d) == 0
    ensures Shares(pipes, d) == 0
  {
    if pipes != [] {
      assert Share(pipes[0], d) == 0;
      NoShares(pipes[1..], d);
    }
  }

  lemma {:induction false} RunKeepsCount(s: State, run: seq<Step>, d: nat)
    requires IsRun(s, run) && d < |s.busy| && forall p :: 0 <= p < |s.pipes| ==> PipeOk(s.pipes[p])
    ensures var r := End(s, run);
      && |r.pipes| == |s.pipes| && |r.busy| == |s.busy|
      && (forall p :: 0 <= p < |r.pipes| ==> PipeOk(r.pipes[p]))
      && r.busy[d] - Shares(r.pipes, d) == s.busy[d] - Shares(s.pipes, d) + Streams(s, run, d)
    decreases |run|
  {
    if run != [] {
      StepKeepsCount(s, run[0], d);
      RunKeepsCount(Next(s, run[0]), run[1..], d);
    }
  }

  // ------------------------------------------------------------------ main results

  // Over any interleaving of submits and completions the count of a device is the weight of
  // its counted requests in flight and the streams started, less those stopped; and every
  // submit is replied exactly once or still in flight.
  lemma BusyIsExact(s: State, run: seq<Step>, d: nat, p: nat)
    requires Fresh(s) && IsRun(s, run) && d < |s.busy| && p < |s.pipes|
    ensures var r := End(s, run);
      && |r.busy| == |s.busy| && |r.pipes| == |s.pipes|
      && r.busy[d] == Shares(r.pipes, d) + Streams(s, run, d)
      && (r.pipes[p].activity <==> Pending(r.pipes[p]) && !r.pipes[p].place.kind.Housekeeping?)
      && r.pipes[p].submits == r.pipes[p].replies + (if Pending(r.pipes[p]) then 1 else 0)
  {
    forall q | 0 <= q < |s.pipes| ensures PipeOk(s.pipes[q]) && Share(s.pipes[q], d) == 0 {
      assert PipeFresh(s.pipes[q]);
    }
    NoShares(s.pipes, d);
    RunKeepsCount(s, run, d);
    assert PipeOk(End(s, run).pipes[p]);
  }

  // With nothing in flight a device counts as idle exactly when as many streams were stopped as
  // were started.
  lemma IdleIff(s: State, run: seq<Step>, d: nat)
    requires Fresh(s) && IsRun(s, run) && d < |s.busy|
    requires var r := End(s, run); forall p :: 0 <= p < |r.pipes| && r.pipes[p].dev == d ==> !Pending(r.pipes[p])
    ensures var r := End(s, run); |r.busy| == |s.busy| && (r.busy[d] == 0 <==> Streams(s, run, d) == 0)
  {
    var r := End(s, run);
    forall q | 0 <= q < |s.pipes| ensures PipeOk(s.pipes[q]) && Share(s.pipes[q], d) == 0 {
      assert PipeFresh(s.pipes[q]);
    }
    NoShares(s.pipes, d);
    RunKeepsCount(s, run, d);
    forall p | 0 <= p < |r.pipes| ensures Share(r.pipes[p], d) == 0 {
      assert PipeOk(r.pipes[p]);
    }
    NoShares(r.pipes, d);
  }

  // A stop that succeeds without a start takes the count below zero.
  lemma StrayStop()
    ensures var s := State([Pipe(0, 1, Free, false, 0, 0)], [0]);
      var run := [Begin(0, StopStream), Complete(0, true), Collect(0)];
      Fresh(s) && IsRun(s, run) && End(s, run).busy == [-1]
  {
    var s := State([Pipe(0, 1, Free, false, 0, 0)], [0]);
    var a, b, c := Begin(0, StopStream), Complete(0, true), Collect(0);
    var s1 := State([Pipe(0, 1, Begun(StopStream), true, 1, 0)], [1]);
    var s2 := State([Pipe(0, 1, Replied(StopStream, true), false, 1, 1)], [0]);
    var s3 := State([Pipe(0, 1, Free, false, 1, 1)], [-1]);
    assert Next(s, a) == s1;
    assert Next(s1, b) == s2;
    assert Next(s2, c) == s3;
    assert [a, b, c][1..] == [b, c] && [b, c][1..] == [c] && [c][1..] == [];
    assert IsRun(s3, []) && End(s3, []) == s3;
    assert IsRun(s2, [c]) && End(s2, [c]) == s3;
    assert IsRun(s1, [b, c]) && End(s1, [b, c]) == s3;
  }
}
