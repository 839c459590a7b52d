/**
 Buffered writing to an OUT pipe stream: what is sent, what stays in the buffer, and how much
 of the buffer is ever used.
 */
module StreamWrite {
  import opened Common

  // ------------------------------------------------------------------ packet boundaries

  // The bytes beyond the last packet boundary, and those up to it.
  function Odd(n: nat, p: nat): nat
    requires p > 0
  {
    n % p
  }

  function Whole(n: nat, p: nat): nat
    requires p > 0
  {
    n - n % p
  }

  lemma DivUnique(a: int, q: int, r: int, p: int)
    requires p > 0 && a == q * p + r && 0 <= r < p
    ensures a / p == q && a % p == r
  {
    var q1, r1 := a / p, a % p;
    assert a == q1 * p + r1;
    assert (q - q1) * p == r1 - r && (q1 - q) * p == r - r1;
    if q > q1 {
      MulAtLeast(q - q1, p);
    } else if q < q1 {
      MulAtLeast(q1 - q, p);
    }
  }

  lemma MulAtLeast(k: int, p: int)
    requires k >= 1 && p > 0
    ensures k * p >= p
  {
  }

  // n is some packets and less than one more.
  lemma Split(n: nat, p: nat)
    requires p > 0
    ensures Odd(n, p) < p && Whole(n, p) + Odd(n, p) == n && Whole(n, p) % p == 0 && 0 <= Whole(n, p)
    ensures n < p ==> Whole(n, p) == 0
    ensures n >= p ==> Whole(n, p) >= p
  {
    DivUnique(Whole(n, p), n / p, 0, p);
    if n < p {
      DivUnique(n, 0, n, p);
    } else {
      assert n / p >= 1;
      MulAtLeast(n / p, p);
      assert Whole(n, p) == n / p * p;
    }
  }

  // Adding to a boundary.
  lemma Beyond(w: nat, r: nat, p: nat)
    requires p > 0 && w % p == 0 && r < p
    ensures Odd(w + r, p) == r && Whole(w + r, p) == w
  {
    DivUnique(w + r, w / p, r, p);
  }

  lemma NextBoundary(w: nat, p: nat)
    requires p > 0 && w % p == 0
    ensures (w + p) % p == 0 && (w > 0 ==> w >= p)
  {
    DivUnique(w + p, w / p + 1, 0, p);
    if w > 0 && w < p {
      DivUnique(w, 0, w, p);
    }
  }

  // ------------------------------------------------------------------ one write

  // The buffered bytes, the rest of the caller's data, what was sent, and the furthest the
  // buffer was filled.
  datatype Out = Out(pending: seq<byte>, rest: seq<byte>, sends: seq<seq<byte>>, peak: nat)

  function Max(a: nat, b: nat): nat {
    if a > b then a else b
  }

  // Completing the last packet in the buffer, with `p` bytes a packet in a buffer of `size`.
  function TopUp(pending: seq<byte>, data: seq<byte>, p: nat, size: nat): Out
    requires p > 0
  {
    var n, odd := |pending|, Odd(|pending|, p);
    if odd + |data| < p then Out(pending + data, [], [], n + |data|)
    else
      Split(n, p);
      Split(n + |data|, p);
      var m := if n + |data| <= size then Whole(n + |data|, p) - n else p - odd;
      CopyFits(n, |data|, p);
      Out(pending + data[..m], data[m..], [], n + m)
  }

  // The amounts copied are amounts there are.
  lemma CopyFits(n: nat, len: nat, p: nat)
    requires p > 0 && Odd(n, p) + len >= p
    ensures 0 < p - Odd(n, p) <= len && 0 < Whole(n + len, p) - n <= len
  {
    Split(n, p);
    var w := Whole(n, p);
    NextBoundary(w, p);
    var over := n + len - (w + p);
    Split(over, p);
    WholePast(w + p, over, p);
  }

  lemma WholePast(w: nat, n: nat, p: nat)
    requires p > 0 && w % p == 0
    ensures Whole(w + n, p) == w + Whole(n, p) && Odd(w + n, p) == Odd(n, p)
  {
    DivUnique(w + n, w / p + n / p, n % p, p);
  }

  // Sending the whole packets in the buffer when it is half full or more packets follow.
  function Drain(o: Out, p: nat, size: nat): Out
    requires p > 0
  {
    var n := |o.pending|;
    if |o.rest| >= p || (n >= size / 2 && n >= p) then
      Split(n, p);
      o.(pending := o.pending[Whole(n, p)..], sends := o.sends + [o.pending[..Whole(n, p)]])
    else o
  }

  // Sending whole packets from the caller's data.
  function Bulk(o: Out, p: nat): Out
    requires p > 0
  {
    if |o.rest| >= p then
      Split(|o.rest|, p);
      o.(rest := o.rest[Whole(|o.rest|, p)..], sends := o.sends + [o.rest[..Whole(|o.rest|, p)]])
    else o
  }

  function Keep(o: Out): Out {
    Out(o.pending + o.rest, [], o.sends, Max(o.peak, |o.pending| + |o.rest|))
  }

  // psdStreamWrite, buffered, every transfer complete.
  function Write(pending: seq<byte>, data: seq<byte>, p: nat, size: nat): Out
    requires p > 0
  {
    if data == [] then Out(pending, [], [], |pending|)
    else
      var start := if pending == [] then Out([], data, [], 0) else Drain(TopUp(pending, data, p, size), p, size);
      Keep(Bulk(start, p))
  }

  // ------------------------------------------------------------------ the bound

  // The whole packets in the buffer are none, or fill less than half of it.
  ghost predicate Room(n: nat, p: nat, size: nat)
    requires p > 0
  {
    Whole(n, p) == 0 || Whole(n, p) < size / 2
  }

  // Every send is whole packets.
  ghost predicate WholePackets(sends: seq<seq<byte>>, p: nat)
    requires p > 0
  {
    forall i :: 0 <= i < |sends| ==> |sends[i]| > 0 && |sends[i]| % p == 0
  }

  // What one write promises: nothing lost or reordered, whole packets, and within the buffer.
  ghost predicate Good(pending: seq<byte>, data: seq<byte>, o: Out, p: nat, size: nat)
    requires p > 0
  {
    && Joined(o.sends) + o.pending + o.rest == pending + data
    && WholePackets(o.sends, p)
    && o.peak <= size
  }

  // Too little for a packet: all of it is kept.
  lemma TopUpShort(pending: seq<byte>, data: seq<byte>, p: nat, size: nat)
    requires 0 < p <= size && Room(|pending|, p, size) && Odd(|pending|, p) + |data| < p
    ensures var o := TopUp(pending, data, p, size);
      Good(pending, data, o, p, size) && |o.pending| <= size && Room(|o.pending|, p, size)
  {
    var w, odd := Whole(|pending|, p), Odd(|pending|, p);
    Split(|pending|, p);
    Beyond(w, odd + |data|, p);
  }

  // The buffer is filled to a packet boundary within its size.
  lemma TopUpFull(pending: seq<byte>, data: seq<byte>, p: nat, size: nat)
    requires 0 < p <= size && Room(|pending|, p, size) && pending != [] && Odd(|pending|, p) + |data| >= p
    ensures var o := TopUp(pending, data, p, size);
      Good(pending, data, o, p, size) && |o.pending| <= size && |o.pending| % p == 0 && |o.pending| >= p
  {
    var n, w := |pending|, Whole(|pending|, p);
    Split(n, p);
    NextBoundary(w, p);
    CopyFits(n, |data|, p);
    Split(n + |data|, p);
    var o := TopUp(pending, data, p, size);
    Split(|o.pending|, p);
  }

  // After the top-up: either everything is in the buffer, or it ends on a packet boundary.
  lemma TopUpGood(pending: seq<byte>, data: seq<byte>, p: nat, size: nat)
    requires 0 < p <= size && Room(|pending|, p, size) && pending != []
    ensures var o := TopUp(pending, data, p, size);
      && Good(pending, data, o, p, size) && o.sends == [] && |o.pending| <= size
      && (if Odd(|pending|, p) + |data| < p then o.rest == [] && Room(|o.pending|, p, size)
          else |o.pending| % p == 0 && |o.pending| >= p)
  {
    if Odd(|pending|, p) + |data| < p {
      TopUpShort(pending, data, p, size);
    } else {
      TopUpFull(pending, data, p, size);
    }
  }

  // One more send, of whole packets from the front of a text.
  lemma Sent(sends: seq<seq<byte>>, text: seq<byte>, w: nat, p: nat)
    requires p > 0 && WholePackets(sends, p) && 0 < w <= |text| && w % p == 0
    ensures WholePackets(sends + [text[..w]], p)
    ensures Joined(sends + [text[..w]]) + text[w..] == Joined(sends) + text
  {
    JoinedAppend(sends, [text[..w]]);
    JoinedOne(text[..w]);
    Associative(Joined(sends), text[..w], text[w..]);
    assert text[..w] + text[w..] == text;
  }

  // After the drain: nothing is buffered while whole packets follow, and there is room.
  lemma DrainGood(o: Out, pending: seq<byte>, data: seq<byte>, p: nat, size: nat)
    requires 0 < p <= size && Good(pending, data, o, p, size) && |o.pending| <= size && o.sends == []
    requires |o.pending| % p == 0 || (o.rest == [] && Room(|o.pending|, p, size))
    requires |o.rest| >= p ==> |o.pending| % p == 0 && |o.pending| > 0
    ensures var r := Drain(o, p, size);
      && Good(pending, data, r, p, size) && r.rest == o.rest && |r.pending| <= size
      && (|r.rest| >= p ==> r.pending == [])
      && (|r.pending| % p == 0 || r.rest == [])
      && Room(|r.pending|, p, size)
  {
    var n := |o.pending|;
    Split(n, p);
    NextBoundary(Whole(n, p), p);
    if |o.rest| >= p || (n >= size / 2 && n >= p) {
      var r := Drain(o, p, size);
      Sent(o.sends, o.pending, Whole(n, p), p);
      Split(|r.pending|, p);
    }
  }

  lemma BulkGood(o: Out, pending: seq<byte>, data: seq<byte>, p: nat, size: nat)
    requires 0 < p <= size && Good(pending, data, o, p, size)
    requires |o.rest| >= p ==> o.pending == []
    ensures var r := Bulk(o, p);
      Good(pending, data, r, p, size) && r.pending == o.pending && |r.rest| < p && (|o.rest| < p ==> r == o)
  {
    var n := |o.rest|;
    if n >= p {
      Split(n, p);
      Sent(o.sends, o.rest, Whole(n, p), p);
      var r := Bulk(o, p);
      assert Joined(r.sends) + [] == Joined(r.sends) && Joined(o.sends) + [] == Joined(o.sends);
    }
  }

  // What is left fits behind what is buffered.
  lemma KeepGood(o: Out, pending: seq<byte>, data: seq<byte>, p: nat, size: nat)
    requires 0 < p <= size && Good(pending, data, o, p, size) && |o.rest| < p
    requires |o.pending| % p == 0 || o.rest == []
    requires Room(|o.pending|, p, size) && |o.pending| <= size
    ensures var r := Keep(o);
      Good(pending, data, r, p, size) && r.rest == [] && |r.pending| <= size && Room(|r.pending|, p, size)
  {
    var n := |o.pending|;
    Split(n, p);
    if o.rest != [] {
      Beyond(n, |o.rest|, p);
      NextBoundary(n, p);
    }
    assert Joined(o.sends) + o.pending + o.rest == Joined(o.sends) + (o.pending + o.rest);
  }

  lemma WriteGood(pending: seq<byte>, data: seq<byte>, p: nat, size: nat)
    requires 0 < p <= size && Room(|pending|, p, size) && |pending| <= size
    ensures var r := Write(pending, data, p, size);
      Good(pending, data, r, p, size) && r.rest == [] && |r.pending| <= size && Room(|r.pending|, p, size)
  {
    if data == [] {
      assert pending + data == pending;
    } else if pending == [] {
      var start := Out([], data, [], 0);
      assert Good(pending, data, start, p, size);
      Split(0, p);
      BulkGood(start, pending, data, p, size);
      KeepGood(Bulk(start, p), pending, data, p, size);
    } else {
      TopUpGood(pending, data, p, size);
      var o := TopUp(pending, data, p, size);
      DrainGood(o, pending, data, p, size);
      var drained := Drain(o, p, size);
      Split(0, p);
      BulkGood(drained, pending, data, p, size);
      KeepGood(Bulk(drained, p), pending, data, p, size);
    }
  }

  // ------------------------------------------------------------------ when and how much is sent

  // The sizes of the transfers of one write, of `len` bytes on top of n in a buffer of `size`.
  // With an empty buffer all whole packets go at once. Otherwise what fits is kept back until
  // half the buffer is full, up to a packet boundary if one is reached; what does not fit goes
  // in two transfers, the completed packets in the buffer and the whole packets that follow.
  ghost function Transfers(n: nat, len: nat, p: nat, size: nat): seq<int>
    requires p > 0
  {
    var all := Whole(n + len, p);
    if len == 0 then []
    else if n == 0 then if len >= p then [all] else []
    else if n % p + len >= p && n + len > size then
      var first := Whole(n, p) + p;
      [first] + if n + len - first >= p then [all - first] else []
    else
      var kept := if n % p + len >= p then all else n + len;
      if kept >= size / 2 && kept >= p then [all] else []
  }

  ghost function Lengths(sends: seq<seq<byte>>): (r: seq<int>)
    ensures |r| == |sends| && forall j :: 0 <= j < |sends| ==> r[j] == |sends[j]|
  {
    seq(|sends|, j requires 0 <= j < |sends| => |sends[j]|)
  }

  // What is buffered once the last packet has been completed, or all of the data kept.
  lemma ToppedUp(pending: seq<byte>, data: seq<byte>, p: nat, size: nat)
    requires 0 < p <= size && pending != [] && data != []
    ensures var n, len, o := |pending|, |data|, TopUp(pending, data, p, size);
      && o.sends == []
      && |o.pending| + |o.rest| == n + len
      && |o.pending| == (if n % p + len < p then n + len else if n + len <= size then Whole(n + len, p) else Whole(n, p) + p)
  {
    Split(|pending|, p);
    if Odd(|pending|, p) + |data| >= p {
      CopyFits(|pending|, |data|, p);
      Split(|pending| + |data|, p);
    }
  }

  // A buffer that overflows with whole packets is at least half full of them.
  lemma HalfFull(full: nat, rest: nat, p: nat, size: nat)
    requires 0 < p <= full && full + rest > size && rest < p
    ensures full >= size / 2
  {
  }

  lemma WholeOfRest(n: nat, len: nat, p: nat)
    requires p > 0 && n % p + len >= p
    ensures var first := Whole(n, p) + p;
      && n < first <= n + len && first % p == 0
      && Whole(n + len, p) == first + Whole(n + len - first, p)
  {
    Split(n, p);
    NextBoundary(Whole(n, p), p);
    var first := Whole(n, p) + p;
    Split(n + len - first, p);
    WholePast(first, n + len - first, p);
  }

  lemma OverflowSends(pending: seq<byte>, data: seq<byte>, p: nat, size: nat)
    requires 0 < p <= size && pending != [] && data != []
    requires |pending| % p + |data| >= p && |pending| + |data| > size
    ensures Lengths(Write(pending, data, p, size).sends) == Transfers(|pending|, |data|, p, size)
  {
    var n, len := |pending|, |data|;
    var first := Whole(n, p) + p;
    ToppedUp(pending, data, p, size);
    WholeOfRest(n, len, p);
    Split(n, p);
    Split(first, p);
    Split(n + len - first, p);
    if n + len - first < p {
      HalfFull(first, n + len - first, p, size);
    }
  }

  lemma FittingSends(pending: seq<byte>, data: seq<byte>, p: nat, size: nat)
    requires 0 < p <= size && pending != [] && data != []
    requires |pending| % p + |data| < p || |pending| + |data| <= size
    ensures Lengths(Write(pending, data, p, size).sends) == Transfers(|pending|, |data|, p, size)
  {
    var n, len := |pending|, |data|;
    ToppedUp(pending, data, p, size);
    Split(n + len, p);
    Split(Whole(n + len, p), p);
  }

  // Every write makes exactly those transfers; together with WriteGood that says which bytes.
  lemma WriteSends(pending: seq<byte>, data: seq<byte>, p: nat, size: nat)
    requires 0 < p <= size
    ensures Lengths(Write(pending, data, p, size).sends) == Transfers(|pending|, |data|, p, size)
  {
    if data != [] {
      if pending == [] {
        Split(|data|, p);
      } else if |pending| % p + |data| >= p && |pending| + |data| > size {
        OverflowSends(pending, data, p, size);
      } else {
        FittingSends(pending, data, p, size);
      }
    }
  }

  // ------------------------------------------------------------------ any sequence of calls

  datatype Call = WriteCall(data: seq<byte>) | FlushCall

  // A stream: what is buffered, what was sent so far, and the furthest fill.
  datatype Stream = Stream(pending: seq<byte>, sends: seq<seq<byte>>, peak: nat)

  // psdStreamWrite and psdStreamFlush.
  function Step(s: Stream, c: Call, p: nat, size: nat): Stream
    requires p > 0
  {
    match c
    case WriteCall(data) =>
      var o := Write(s.pending, data, p, size);
      Stream(o.pending, s.sends + o.sends, Max(s.peak, o.peak))
    case FlushCall =>
      if s.pending == [] then s else Stream([], s.sends + [s.pending], s.peak)
  }

  function Run(s: Stream, calls: seq<Call>, p: nat, size: nat): Stream
    requires p > 0
    decreases |calls|
  {
    if calls == [] then s else Run(Step(s, calls[0], p, size), calls[1..], p, size)
  }

  function Accepted(calls: seq<Call>): seq<byte> {
    if calls == [] then []
    else (if calls[0].WriteCall? then calls[0].data else []) + Accepted(calls[1..])
  }

  const OPENED := Stream([], [], 0)

  ghost predicate Sound(s: Stream, p: nat, size: nat)
    requires p > 0
  {
    Room(|s.pending|, p, size) && |s.pending| <= size && s.peak <= size
  }

  lemma AcceptedOne(c: Call)
    ensures Accepted([c]) == if c.WriteCall? then c.data else []
  {
    assert Accepted([c]) == (if c.WriteCall? then c.data else []) + Accepted([c][1..]);
  }

  lemma WriteSound(s: Stream, data: seq<byte>, p: nat, size: nat)
    requires 0 < p <= size && Sound(s, p, size)
    ensures var r := Step(s, WriteCall(data), p, size);
      && Sound(r, p, size)
      && Joined(r.sends) + r.pending == Joined(s.sends) + s.pending + data
      && (WholePackets(s.sends, p) ==> WholePackets(r.sends, p))
  {
    WriteGood(s.pending, data, p, size);
    var o := Write(s.pending, data, p, size);
    assert o.pending + o.rest == o.pending;
    Associative(Joined(o.sends), o.pending, o.rest);
    JoinedAppend(s.sends, o.sends);
    Associative(Joined(s.sends), Joined(o.sends), o.pending);
    Associative(Joined(s.sends), s.pending, data);
  }

  lemma StepSound(s: Stream, c: Call, p: nat, size: nat)
    requires 0 < p <= size && Sound(s, p, size)
    ensures var r := Step(s, c, p, size);
      && Sound(r, p, size)
      && Joined(r.sends) + r.pending == Joined(s.sends) + s.pending + Accepted([c])
      && (c.WriteCall? && WholePackets(s.sends, p) ==> WholePackets(r.sends, p))
      && (c.FlushCall? ==> r.pending == [] && r.sends == if s.pending == [] then s.sends else s.sends + [s.pending])
  {
    AcceptedOne(c);
    match c
    case WriteCall(data) => WriteSound(s, data, p, size);
    case FlushCall =>
      Split(0, p);
      JoinedAppend(s.sends, [s.pending]);
      JoinedOne(s.pending);
  }

  // FIFO over any sequence of writes and flushes: what was sent, followed by what is buffered,
  // is what was accepted, and the buffer was never filled beyond its size.
  lemma {:induction false} StreamIsFifo(s: Stream, calls: seq<Call>, p: nat, size: nat)
    requires 0 < p <= size && Sound(s, p, size)
    ensures var r := Run(s, calls, p, size);
      && Sound(r, p, size)
      && Joined(r.sends) + r.pending == Joined(s.sends) + s.pending + Accepted(calls)
      && ((forall i :: 0 <= i < |calls| ==> calls[i].WriteCall?) && WholePackets(s.sends, p) ==> WholePackets(r.sends, p))
    decreases |calls|
  {
    if calls != [] {
      var mid := Step(s, calls[0], p, size);
      StepSound(s, calls[0], p, size);
      StreamIsFifo(mid, calls[1..], p, size);
      AcceptedOne(calls[0]);
      Associative(Joined(s.sends) + s.pending, Accepted([calls[0]]), Accepted(calls[1..]));
    }
  }

  // The buffer bound holds over all runs exactly when a packet fits the buffer (which is what
  // psdSetAttrs makes sure of), or nothing is ever buffered.
  lemma BoundIff(p: nat, size: nat)
    requires p > 0
    ensures p <= size || p == 1 <==> forall calls: seq<Call> :: Run(OPENED, calls, p, size).peak <= size
  {
    if p <= size {
      Split(0, p);
      forall calls: seq<Call> ensures Run(OPENED, calls, p, size).peak <= size {
        StreamIsFifo(OPENED, calls, p, size);
      }
    } else if p == 1 {
      forall calls: seq<Call> ensures Run(OPENED, calls, p, size).peak <= size {
        NeverBuffers(OPENED, calls);
      }
    } else {
      TooLong(p, size);
    }
  }

  // A byte, and then a buffer full.
  lemma TooLong(p: nat, size: nat)
    requires p > size && p > 1
    ensures var calls := [WriteCall([0]), WriteCall(seq(size, _ => 0))]; Run(OPENED, calls, p, size).peak > size
  {
    var full: seq<byte> := seq(size, _ => 0);
    var calls := [WriteCall([0]), WriteCall(full)];
    DivUnique(1, 0, 1, p);
    var s1 := Step(OPENED, calls[0], p, size);
    assert s1.pending == [0];
    assert Run(OPENED, calls, p, size) == Run(s1, calls[1..], p, size);
    assert calls[1..] == [WriteCall(full)];
    assert Run(s1, calls[1..], p, size) == Run(Step(s1, WriteCall(full), p, size), calls[1..][1..], p, size);
  }

  lemma {:induction false} NeverBuffers(s: Stream, calls: seq<Call>)
    requires s.pending == [] && s.peak == 0
    ensures Run(s, calls, 1, 0).peak == 0
    decreases |calls|
  {
    if calls != [] {
      NeverBuffers(Step(s, calls[0], 1, 0), calls[1..]);
    }
  }
}
