/**
 Buffered reading from an IN pipe stream: packets that arrived, the offset into the first, the
 bytes handed to the reader, and the characters that end a read.
 */
module InStreams {
  import opened Common

  // How one request ends: with data, or failed.
  datatype Reply = Received(packet: seq<byte>) | Failed

  // The bytes of the packets among some replies.
  function Arrived(replies: seq<Reply>): seq<byte> {
    if replies == [] then []
    else
      var last := |replies| - 1;
      Arrived(replies[..last]) + (if replies[last].Received? then replies[last].packet else [])
  }

  // The packets among some replies.
  function Packets(replies: seq<Reply>): seq<seq<byte>> {
    if replies == [] then []
    else
      var last := |replies| - 1;
      Packets(replies[..last]) + (if replies[last].Received? then [replies[last].packet] else [])
  }

  // What the reader finds when it looks at its port, and whether it was told to abort.
  datatype Wakeup = Wakeup(replies: seq<Reply>, abort: bool)

  // All packets it finds when it looks several times.
  function PacketsIn(wakeups: seq<Wakeup>): seq<seq<byte>> {
    if wakeups == [] then []
    else
      var last := |wakeups| - 1;
      PacketsIn(wakeups[..last]) + Packets(wakeups[last].replies)
  }

  lemma PacketsInOne(before: seq<seq<byte>>, seen: seq<Wakeup>, w: Wakeup)
    ensures before + PacketsIn(seen + [w]) == before + PacketsIn(seen) + Packets(w.replies)
  {
    assert (seen + [w])[..|seen|] == seen;
    Associative(before, PacketsIn(seen), Packets(w.replies));
  }

  // One more reply.
  lemma RepliesNext(bytes: seq<byte>, packets: seq<seq<byte>>, replies: seq<Reply>, k: nat)
    requires k < |replies|
    ensures var (seen, r) := (replies[..k], replies[k]);
      && replies[..k + 1] == seen + [r]
      && bytes + Arrived(seen + [r]) == bytes + Arrived(seen) + (if r.Received? then r.packet else [])
      && packets + Packets(seen + [r]) == packets + Packets(seen) + (if r.Received? then [r.packet] else [])
      && (Failed in seen + [r] <==> Failed in seen || r.Failed?)
  {
    var seen, r := replies[..k], replies[k];
    assert (seen + [r])[..k] == seen;
  }

  // A packet queued behind the others.
  lemma PacketBehind(ready: seq<seq<byte>>, packet: seq<byte>, offset: nat)
    requires offset <= |Joined(ready)|
    ensures Joined(ready + [packet]) == Joined(ready) + packet
    ensures Joined(ready + [packet])[offset..] == Joined(ready)[offset..] + packet
    ensures ready != [] ==> (ready + [packet])[0] == ready[0]
  {
    JoinedAppend(ready, [packet]);
    JoinedOne(packet);
    assert (Joined(ready) + packet)[offset..] == Joined(ready)[offset..] + packet;
  }

  // n bytes of the first packet, and what is left.
  lemma PacketTaken(ready: seq<seq<byte>>, offset: nat, n: nat)
    requires ready != [] && offset + n <= |ready[0]|
    ensures |Joined(ready)| == |ready[0]| + |Joined(ready[1..])|
    ensures Joined(ready)[offset..] ==
            ready[0][offset..offset + n] + (if offset + n == |ready[0]| then Joined(ready[1..]) else Joined(ready)[offset + n..])
  {
    var pp, tail := ready[0], Joined(ready[1..]);
    assert Joined(ready) == pp + tail;
    TwoCuts(pp, tail, offset, n);
  }

  lemma TwoCuts(a: seq<byte>, b: seq<byte>, i: nat, n: nat)
    requires i + n <= |a|
    ensures (a + b)[i..] == a[i..i + n] + (a + b)[i + n..] && (a + b)[|a|..] == b
  {
  }

  lemma HandedOut(received: seq<byte>, delivered: seq<byte>, data: seq<byte>, rest: seq<byte>)
    requires received == delivered + data + rest
    ensures |delivered| + |data| <= |received| && received[|delivered|..|delivered| + |data|] == data
  {
  }

  // Where nothing arrives, what is handed out is what was next.
  lemma NextBytes(delivered: seq<byte>, data: seq<byte>, rest: seq<byte>, was: seq<byte>)
    requires delivered + was == delivered + data + rest
    ensures data <= was && rest == was[|data|..]
  {
    assert was == (delivered + was)[|delivered|..];
    Associative(delivered, data, rest);
    assert data + rest == (delivered + (data + rest))[|delivered|..];
  }

  // The books: the pending bytes are those of the packets behind the offset, which stays within
  // the first, and what was delivered goes on there.
  ghost predicate Books(ready: seq<seq<byte>>, offset: nat, pending: nat, received: seq<byte>, delivered: seq<byte>) {
    && pending + offset == |Joined(ready)|
    && (offset == 0 || (ready != [] && offset < |ready[0]|))
    && received == delivered + Joined(ready)[offset..]
  }

  // Packets that a read has finished and what is left of the others: together they are the
  // packets there were, and the bytes handed out are those in front.
  ghost predicate Finished(all: seq<seq<byte>>, from: nat, gone: seq<seq<byte>>, ready: seq<seq<byte>>, offset: nat, n: nat) {
    all == gone + ready && |Joined(gone)| + offset == from + n
  }

  lemma FinishedNext(all: seq<seq<byte>>, from: nat, gone: seq<seq<byte>>, mid: seq<seq<byte>>, at: nat, n: nat,
                     more: seq<seq<byte>>, ready: seq<seq<byte>>, offset: nat, m: nat)
    requires Finished(all, from, gone, mid, at, n) && Finished(mid, at, more, ready, offset, m)
    ensures Finished(all, from, gone + more, ready, offset, n + m)
  {
    JoinedAppend(gone, more);
    Associative(gone, more, ready);
  }

  lemma FinishedBehind(was: seq<seq<byte>>, first: seq<seq<byte>>, from: nat, gone: seq<seq<byte>>, ready: seq<seq<byte>>, offset: nat,
                       n: nat, more: seq<seq<byte>>)
    requires Finished(was + first, from, gone, ready, offset, n)
    ensures Finished(was + first + more, from, gone, ready + more, offset, n)
  {
    Associative(gone, ready, more);
  }

  // A packet that is not full.
  predicate Short(packet: seq<byte>, maxPkt: nat)
    requires maxPkt > 0
  {
    |packet| % maxPkt != 0
  }

  // All packets but the last are full.
  ghost predicate FullBefore(gone: seq<seq<byte>>, maxPkt: nat)
    requires maxPkt > 0
  {
    forall j :: 0 <= j < |gone| - 1 ==> !Short(gone[j], maxPkt)
  }

  ghost predicate ShortLast(gone: seq<seq<byte>>, maxPkt: nat)
    requires maxPkt > 0
  {
    gone != [] && Short(gone[|gone| - 1], maxPkt)
  }

  lemma FullJoined(gone: seq<seq<byte>>, more: seq<seq<byte>>, maxPkt: nat)
    requires maxPkt > 0 && FullBefore(gone, maxPkt) && !ShortLast(gone, maxPkt) && FullBefore(more, maxPkt)
    ensures FullBefore(gone + more, maxPkt) && (ShortLast(gone + more, maxPkt) <==> ShortLast(more, maxPkt))
  {
    var all := gone + more;
    forall j | 0 <= j < |all| - 1
      ensures !Short(all[j], maxPkt)
    {
      assert all[j] == if j < |gone| then gone[j] else more[j - |gone|];
    }
    if more != [] {
      assert all[|all| - 1] == more[|more| - 1];
    } else {
      assert all == gone;
    }
  }

  function Least(a: nat, b: nat): nat {
    if a < b then a else b
  }

  // n bytes of the first packet are handed out, and some are left in it.
  lemma TakenWithin(ready: seq<seq<byte>>, offset: nat, pending: nat, received: seq<byte>, delivered: seq<byte>, n: nat, data: seq<byte>)
    requires Books(ready, offset, pending, received, delivered) && ready != [] && offset + n < |ready[0]|
    requires data == ready[0][offset..offset + n]
    ensures n <= pending && Books(ready, offset + n, pending - n, received, delivered + data)
    ensures data <= Joined(ready)[offset..] && Joined(ready)[offset + n..] == Joined(ready)[offset..][n..]
  {
    PacketTaken(ready, offset, n);
    Associative(delivered, data, Joined(ready)[offset + n..]);
  }

  // n bytes, which are the rest of the packet.
  lemma TakenAll(ready: seq<seq<byte>>, offset: nat, pending: nat, received: seq<byte>, delivered: seq<byte>, n: nat, data: seq<byte>)
    requires Books(ready, offset, pending, received, delivered) && ready != [] && offset + n == |ready[0]|
    requires data == ready[0][offset..offset + n]
    ensures n <= pending && Books(ready[1..], 0, pending - n, received, delivered + data)
    ensures data <= Joined(ready)[offset..] && Joined(ready[1..])[0..] == Joined(ready)[offset..][n..]
  {
    PacketTaken(ready, offset, n);
    Associative(delivered, data, Joined(ready[1..]));
    assert Joined(ready[1..])[0..] == Joined(ready[1..]);
  }

  // ------------------------------------------------------------------ terminators

  // The search through the eight characters of pps_TermArray, from the k-th on: it gives up at a
  // greater character and at one that is repeated.
  predicate StopsFrom(t: seq<byte>, k: nat, c: byte)
    requires k <= |t|
    decreases |t| - k
  {
    if k == |t| || c < t[k] then false
    else if c == t[k] then true
    else if k + 1 < |t| && t[k] == t[k + 1] then false
    else StopsFrom(t, k + 1, c)
  }

  predicate Stops(t: seq<byte>, c: byte) {
    StopsFrom(t, 0, c)
  }

  // On any array: it finds a character exactly when one of its places is reached, past smaller
  // ones none of which is followed by itself.
  lemma {:induction false} StopsIff(t: seq<byte>, k: nat, c: byte)
    requires k <= |t|
    ensures StopsFrom(t, k, c) <==>
            exists i :: k <= i < |t| && t[i] == c && forall j :: k <= j < i ==> t[j] < c && t[j] != t[j + 1]
    decreases |t| - k
  {
    if k < |t| && c > t[k] && !(k + 1 < |t| && t[k] == t[k + 1]) {
      StopsIff(t, k + 1, c);
    }
  }

  // n characters in ascending order, the last one repeated to fill the array.
  ghost predicate Ascending(t: seq<byte>, n: nat) {
    && 0 < n <= |t|
    && (forall i, j :: 0 <= i < j < n ==> t[i] < t[j])
    && (forall j :: n <= j < |t| ==> t[j] == t[n - 1])
  }

  lemma {:induction false} AscendingFrom(t: seq<byte>, n: nat, k: nat, c: byte)
    requires Ascending(t, n) && k < n
    ensures StopsFrom(t, k, c) <==> exists i :: k <= i < |t| && t[i] == c
    decreases n - k
  {
    if k + 1 < n {
      assert t[k] < t[k + 1];
      AscendingFrom(t, n, k + 1, c);
    }
  }

  // In that order the search finds exactly the characters of the array.
  lemma AscendingFindsAll(t: seq<byte>, n: nat, c: byte)
    requires Ascending(t, n)
    ensures Stops(t, c) <==> c in t
  {
    AscendingFrom(t, n, 0, c);
  }

  lemma {:induction false} NoneAbove(t: seq<byte>, k: nat, c: byte)
    requires k <= |t| && forall j :: k <= j < |t| ==> t[j] < c
    ensures !StopsFrom(t, k, c)
    decreases |t| - k
  {
    if k < |t| {
      NoneAbove(t, k + 1, c);
    }
  }

  // With the greatest first, as in descending order, it finds that one alone.
  lemma GreatestFirstFindsOne(t: seq<byte>, c: byte)
    requires t != [] && forall j :: 0 <= j < |t| ==> t[j] <= t[0]
    ensures Stops(t, c) <==> c == t[0]
  {
    if c > t[0] {
      NoneAbove(t, 0, c);
    }
  }

  // No character of the text ends a read; the last one does, and no other.
  ghost predicate Unended(t: seq<byte>, text: seq<byte>) {
    forall j :: 0 <= j < |text| ==> !Stops(t, text[j])
  }

  ghost predicate Ended(t: seq<byte>, text: seq<byte>) {
    text != [] && Stops(t, text[|text| - 1]) && Unended(t, text[..|text| - 1])
  }

  lemma SliceOfSlice(s: seq<byte>, i: nat, n: nat, m: nat)
    requires i + n <= |s| && m <= n
    ensures s[i..i + n][..m] == s[i..i + m]
  {
  }

  lemma NotBoth(t: seq<byte>, text: seq<byte>)
    ensures !(Ended(t, text) && Unended(t, text))
  {
  }

  lemma EndedAfter(t: seq<byte>, a: seq<byte>, b: seq<byte>)
    requires Unended(t, a)
    ensures Unended(t, b) ==> Unended(t, a + b)
    ensures Ended(t, b) ==> Ended(t, a + b)
  {
    if Ended(t, b) {
      assert (a + b)[..|a + b| - 1] == a + b[..|b| - 1];
      assert (a + b)[|a + b| - 1] == b[|b| - 1];
    }
  }

  // How a stream ends reads: at a short packet, and at certain characters.
  datatype Ends = Ends(maxPkt: nat, shortTerm: bool, termArray: seq<byte>)

  // `data` is what a read has taken, in order, of the packets in `all` from the offset `from` on:
  // it stops at the first character that ends it and at the first short packet it finishes.
  ghost predicate Got(e: Ends, all: seq<seq<byte>>, from: nat, gone: seq<seq<byte>>, ready: seq<seq<byte>>, offset: nat, data: seq<byte>)
    requires e.maxPkt > 0
  {
    && Finished(all, from, gone, ready, offset, |data|)
    && (e.shortTerm ==> FullBefore(gone, e.maxPkt))
    && (Ended(e.termArray, data) || Unended(e.termArray, data))
  }

  // The data ends at such a character or such a packet.
  ghost predicate Halts(e: Ends, data: seq<byte>, gone: seq<seq<byte>>)
    requires e.maxPkt > 0
  {
    Ended(e.termArray, data) || (e.shortTerm && ShortLast(gone, e.maxPkt))
  }

  lemma GotNext(e: Ends, all: seq<seq<byte>>, from: nat, gone: seq<seq<byte>>, mid: seq<seq<byte>>, at: nat, before: seq<byte>,
                more: seq<seq<byte>>, ready: seq<seq<byte>>, offset: nat, part: seq<byte>)
    requires e.maxPkt > 0
    requires Got(e, all, from, gone, mid, at, before) && !Halts(e, before, gone)
    requires Got(e, mid, at, more, ready, offset, part)
    ensures Got(e, all, from, gone + more, ready, offset, before + part)
    ensures Halts(e, before + part, gone + more) <==> Halts(e, part, more)
  {
    FinishedNext(all, from, gone, mid, at, |before|, more, ready, offset, |part|);
    EndedAfter(e.termArray, before, part);
    NotBoth(e.termArray, before + part);
    NotBoth(e.termArray, part);
    if e.shortTerm {
      FullJoined(gone, more, e.maxPkt);
    }
  }

  // A read is told to stop, whatever it has.
  ghost predicate Broken(doNotWait: bool, w: Wakeup) {
    doNotWait || w.abort || Failed in w.replies
  }

  // A read of `length` bytes, or -1 for what there is, that has found `seen` and still wants
  // `left`. It goes on as long as it wants more, nothing is buffered, and there is no reason to
  // stop; it is done at the first wakeup where that is not so.
  ghost predicate Reading(e: Ends, doNotWait: bool, length: int, seen: seq<Wakeup>, left: int, data: seq<byte>,
                          gone: seq<seq<byte>>, pending: nat, done: bool)
    requires e.maxPkt > 0
  {
    && (if seen == [] then left == length && !done else left >= 0)
    && (length >= 0 ==> |data| + left == length)
    && (length < 0 && seen != [] ==> done && left == pending)
    && (forall j :: 0 <= j < |seen| - (if done then 1 else 0) ==> !Broken(doNotWait, seen[j]))
    && (if done then left == 0 || Broken(doNotWait, seen[|seen| - 1]) || Halts(e, data, gone)
        else !Halts(e, data, gone) && (seen != [] ==> pending == 0 && left > 0))
  }

  lemma ReadingNext(e: Ends, doNotWait: bool, length: int, seen: seq<Wakeup>, left: int, before: seq<byte>, gone0: seq<seq<byte>>,
                    pending: nat, w: Wakeup, left': int, data: seq<byte>, gone: seq<seq<byte>>, pending': nat, done: bool)
    requires e.maxPkt > 0 && length >= -1 && Reading(e, doNotWait, length, seen, left, before, gone0, pending, false)
    requires left' >= 0 && if left >= 0 then |data| + left' == |before| + left else left' == pending'
    requires done <==> left' == 0 || Broken(doNotWait, w) || Halts(e, data, gone)
    requires !done ==> pending' == 0
    ensures Reading(e, doNotWait, length, seen + [w], left', data, gone, pending', done)
  {
    var all := seen + [w];
    forall j | 0 <= j < |all| - (if done then 1 else 0)
      ensures !Broken(doNotWait, all[j])
    {
      assert all[j] == if j < |seen| then seen[j] else w;
    }
  }

  lemma ReadingEnds(e: Ends, doNotWait: bool, length: int, wakeups: seq<Wakeup>, k: nat, left: int, data: seq<byte>,
                    gone: seq<seq<byte>>, pending: nat, done: bool)
    requires e.maxPkt > 0 && length >= -1 && k <= |wakeups| && Reading(e, doNotWait, length, wakeups[..k], left, data, gone, pending, done)
    ensures length >= 0 ==> |data| <= length
    ensures forall j :: 0 <= j < k - (if done then 1 else 0) ==> !Broken(doNotWait, wakeups[j])
    ensures !done ==> !Halts(e, data, gone) && (k > 0 ==> pending == 0 && |data| < length)
    ensures done ==>
      && k > 0
      && (|data| == length || (length == -1 && pending == 0) || Broken(doNotWait, wakeups[k - 1]) || Halts(e, data, gone))
  {
    var seen := wakeups[..k];
    assert forall j :: 0 <= j < k ==> seen[j] == wakeups[j];
  }

  // The turns of a copy of at most `length` bytes; after a failure only the first.
  ghost predicate Copying(e: Ends, failed: bool, length: nat, all: seq<seq<byte>>, from: nat, gone: seq<seq<byte>>,
                          ready: seq<seq<byte>>, offset: nat, data: seq<byte>)
    requires e.maxPkt > 0
  {
    && |data| <= length
    && Got(e, all, from, gone, ready, offset, data)
    && !Halts(e, data, gone)
    && (failed ==> data == [] && gone == [] && ready == all && offset == from)
  }

  lemma CopyingNext(e: Ends, failed: bool, length: nat, all: seq<seq<byte>>, from: nat, gone: seq<seq<byte>>, mid: seq<seq<byte>>,
                    at: nat, before: seq<byte>, more: seq<seq<byte>>, ready: seq<seq<byte>>, offset: nat, part: seq<byte>)
    requires e.maxPkt > 0 && Copying(e, failed, length, all, from, gone, mid, at, before)
    requires Got(e, mid, at, more, ready, offset, part) && |before| + |part| <= length
    ensures Got(e, all, from, gone + more, ready, offset, before + part)
    ensures Halts(e, before + part, gone + more) <==> Halts(e, part, more)
    ensures !Halts(e, part, more) ==> Copying(e, false, length, all, from, gone + more, ready, offset, before + part)
    ensures failed ==> mid == all && at == from && gone + more == more && before + part == part
  {
    GotNext(e, all, from, gone, mid, at, before, more, ready, offset, part);
  }

  lemma GotBehind(e: Ends, was: seq<seq<byte>>, seen: seq<Wakeup>, from: nat, gone: seq<seq<byte>>, mid: seq<seq<byte>>, at: nat,
                  before: seq<byte>, w: Wakeup, more: seq<seq<byte>>, ready: seq<seq<byte>>, offset: nat, part: seq<byte>)
    requires e.maxPkt > 0
    requires Got(e, was + PacketsIn(seen), from, gone, mid, at, before) && !Halts(e, before, gone)
    requires Got(e, mid + Packets(w.replies), at, more, ready, offset, part)
    ensures Got(e, was + PacketsIn(seen + [w]), from, gone + more, ready, offset, before + part)
    ensures Halts(e, before + part, gone + more) <==> Halts(e, part, more)
  {
    FinishedBehind(was, PacketsIn(seen), from, gone, mid, at, |before|, Packets(w.replies));
    PacketsInOne(was, seen, w);
    GotNext(e, was + PacketsIn(seen + [w]), from, gone, mid + Packets(w.replies), at, before, more, ready, offset, part);
  }

  class InStream {
    const maxPkt: nat                // iouh_MaxPktSize
    const shortTerm: bool            // PSFF_SHORTTERM
    const doNotWait: bool            // PSFF_DONOTWAIT
    const termArray: seq<byte>       // pps_TermArray, eight characters, or none
    var ready: seq<seq<byte>>        // the packets on pps_ReadyPipes; iouh_Actual is the length
    var offset: nat
    var bytesPending: nat
    ghost var received: seq<byte>    // every byte that ever arrived
    ghost var delivered: seq<byte>   // every byte handed out

    ghost predicate Valid()
      reads this
    {
      maxPkt > 0 && (termArray == [] || |termArray| == 8) && Books(ready, offset, bytesPending, received, delivered)
    }

    ghost function Terms(): (e: Ends) {
      Ends(maxPkt, shortTerm, termArray)
    }

    ghost function Rest(): seq<byte>
      requires Valid()
      reads this
    {
      Joined(ready)[offset..]
    }

    constructor (maxPkt: nat, shortTerm: bool, doNotWait: bool, termArray: seq<byte>)
      requires maxPkt > 0 && (termArray == [] || |termArray| == 8)
      ensures Valid() && received == [] && delivered == []
    {
      this.maxPkt, this.shortTerm, this.doNotWait, this.termArray := maxPkt, shortTerm, doNotWait, termArray;
      ready, offset, bytesPending := [], 0, 0;
      received, delivered := [], [];
    }

    method TakePacket(packet: seq<byte>)
      requires Valid()
      modifies `ready, `bytesPending, `received
      ensures Valid() && received == old(received) + packet && ready == old(ready) + [packet]
      ensures bytesPending == old(bytesPending) + |packet|
    {
      PacketBehind(ready, packet, offset);
      Associative(delivered, Rest(), packet);
      bytesPending := bytesPending + |packet|;
      ready := ready + [packet];
      received := received + packet;
    }

    // The loop over the incoming messages.
    method TakeReplies(replies: seq<Reply>) returns (failed: bool)
      requires Valid()
      modifies `ready, `bytesPending, `received
      ensures Valid() && received == old(received) + Arrived(replies)
      ensures ready == old(ready) + Packets(replies) && bytesPending == old(bytesPending) + |Arrived(replies)|
      ensures failed <==> Failed in replies
    {
      failed := false;
      assert replies[..0] == [] && old(received) + [] == old(received) && old(ready) + [] == old(ready);
      for k := 0 to |replies|
        invariant Valid() && received == old(received) + Arrived(replies[..k])
        invariant ready == old(ready) + Packets(replies[..k])
        invariant bytesPending == old(bytesPending) + |Arrived(replies[..k])|
        invariant failed <==> Failed in replies[..k]
      {
        RepliesNext(old(received), old(ready), replies, k);
        match replies[k] {
          case Failed =>
            failed := true;
          case Received(packet) => TakePacket(packet);
        }
      }
      assert replies[..|replies|] == replies;
    }

    // A packet that is not full ends the read, if the stream says so.
    method EndsRead(actual: nat) returns (short: bool)
      requires maxPkt > 0
      ensures short <==> shortTerm && actual % maxPkt != 0
    {
      short := false;
      if shortTerm && actual % maxPkt != 0 {
        short := true;
      }
    }

    // The next n bytes of the packet: the offset moves on, and past the end to the next packet.
    method Advance(n: nat) returns (data: seq<byte>, all: bool)
      requires Valid() && ready != [] && offset + n <= |ready[0]|
      modifies `ready, `offset, `bytesPending, `delivered
      ensures Valid() && |data| == n && data <= old(Rest()) && Rest() == old(Rest())[n..]
      ensures data == old(ready[0][offset..offset + n])
      ensures delivered == old(delivered) + data && bytesPending == old(bytesPending) - n
      ensures all <==> old(offset) + n == |old(ready[0])|
      ensures ready == (if all then old(ready)[1..] else old(ready)) && offset == if all then 0 else old(offset) + n
    {
      all := offset + n == |ready[0]|;
      if all {
        data := FinishPacket(n);
      } else {
        data := KeepPacket(n);
      }
    }

    method KeepPacket(n: nat) returns (data: seq<byte>)
      requires Valid() && ready != [] && offset + n < |ready[0]|
      modifies `offset, `bytesPending, `delivered
      ensures Valid() && data <= old(Rest()) && Rest() == old(Rest())[n..]
      ensures data == old(ready[0][offset..offset + n]) && offset == old(offset) + n
      ensures delivered == old(delivered) + data && bytesPending == old(bytesPending) - n
    {
      data := ready[0][offset..offset + n];
      TakenWithin(ready, offset, bytesPending, received, delivered, n, data);
      bytesPending, offset, delivered := bytesPending - n, offset + n, delivered + data;
    }

    method FinishPacket(n: nat) returns (data: seq<byte>)
      requires Valid() && ready != [] && offset + n == |ready[0]|
      modifies `ready, `offset, `bytesPending, `delivered
      ensures Valid() && data <= old(Rest()) && Rest() == old(Rest())[n..]
      ensures data == old(ready[0][offset..offset + n])
      ensures delivered == old(delivered) + data && bytesPending == old(bytesPending) - n
      ensures ready == old(ready)[1..] && offset == 0
    {
      data := ready[0][offset..offset + n];
      TakenAll(ready, offset, bytesPending, received, delivered, n, data);
      bytesPending, offset, delivered := bytesPending - n, 0, delivered + data;
      ready := ready[1..];
    }

    // The search through the array for one character.
    method IsEnd(c: byte) returns (hit: bool)
      requires |termArray| == 8
      ensures hit <==> Stops(termArray, c)
    {
      var k := 0;
      while k < 8
        invariant k <= 8 && Stops(termArray, c) == StopsFrom(termArray, k, c)
      {
        if c < termArray[k] {
          break;
        }
        if c == termArray[k] {
          return true;
        }
        if k < 7 && termArray[k] == termArray[k + 1] {
          break;
        }
        k := k + 1;
      }
      return false;
    }

    // The copy in EOF mode: up to the first character that ends the read, and with it.
    method CopyUntil(src: seq<byte>) returns (m: nat, hit: bool)
      requires |termArray| == 8
      ensures m <= |src| && if hit then Ended(termArray, src[..m]) else m == |src| && Unended(termArray, src)
    {
      m, hit := 0, false;
      while m < |src| && !hit
        invariant m <= |src|
        invariant if hit then m > 0 && Stops(termArray, src[m - 1]) && Unended(termArray, src[..m - 1])
                  else Unended(termArray, src[..m])
      {
        hit := IsEnd(src[m]);
        m := m + 1;
        assert src[..m] == src[..m - 1] + [src[m - 1]];
      }
      assert hit ==> src[..m][..m - 1] == src[..m - 1];
      assert !hit ==> src[..m] == src;
    }

    // How much of the first packet is copied: what the reader asks for, up to the first
    // character that ends the read.
    method CopyLength(length: nat) returns (m: nat, hit: bool)
      requires Valid() && length > 0 && ready != []
      ensures offset + m <= |ready[0]| && m <= length
      ensures var text := ready[0][offset..offset + m]; if hit then Ended(termArray, text) else Unended(termArray, text)
      ensures !hit ==> m == length || offset + m == |ready[0]|
    {
      m, hit := |ready[0]| - offset, false;
      if length < m {
        m := length;
      }
      if termArray != [] {
        ghost var most := m;
        m, hit := CopyUntil(ready[0][offset..offset + m]);
        SliceOfSlice(ready[0], offset, most, m);
      }
    }

    // One packet, or the part of it that is copied: what the reader asks for, or the rest of the
    // packet, unless a character ends the read before. It ends too with a packet that is used up
    // and short. The two internal errors of the source, an empty queue and an offset beyond the
    // packet, cannot occur here.
    method CopyPacket(length: nat) returns (data: seq<byte>, term: bool, ghost all: bool)
      requires Valid() && length > 0 && bytesPending > 0
      modifies `ready, `offset, `bytesPending, `delivered
      ensures Valid() && |data| <= length && data <= old(Rest()) && Rest() == old(Rest())[|data|..]
      ensures delivered == old(delivered) + data
      ensures bytesPending == old(bytesPending) - |data|
      ensures old(ready) != [] && (all <==> old(offset) + |data| == old(|ready[0]|))
      ensures ready == (if all then old(ready)[1..] else old(ready)) && offset == if all then 0 else old(offset) + |data|
      ensures Ended(termArray, data) || (Unended(termArray, data) && |data| == Least(length, old(|ready[0]| - offset)))
      ensures term <==> Ended(termArray, data) || (shortTerm && all && Short(old(ready[0]), maxPkt))
    {
      var pp := ready[0];
      var m, hit := CopyLength(length);
      var done;
      data, done := Advance(m);
      assert data == pp[old(offset)..old(offset) + m];
      NotBoth(termArray, data);
      term, all := hit, done;
      if done {
        var short := EndsRead(|pp|);
        term := term || short;
      }
    }

    // The same, with the packet that was finished, if any.
    method CopyNext(length: nat) returns (data: seq<byte>, term: bool, ghost gone: seq<seq<byte>>)
      requires Valid() && length > 0 && bytesPending > 0
      modifies `ready, `offset, `bytesPending, `delivered
      ensures Valid() && |data| <= length && data <= old(Rest()) && Rest() == old(Rest())[|data|..]
      ensures delivered == old(delivered) + data
      ensures bytesPending == old(bytesPending) - |data|
      ensures |gone| <= 1 && Got(Terms(), old(ready), old(offset), gone, ready, offset, data)
      ensures old(ready) != [] && (Ended(termArray, data) || |data| == Least(length, old(|ready[0]| - offset)))
      ensures term <==> Halts(Terms(), data, gone)
      ensures |ready| <= old(|ready|) && (term || |ready| < old(|ready|) || |data| == length)
    {
      ghost var all;
      ghost var was := ready;
      data, term, all := CopyPacket(length);
      gone := if all then [was[0]] else [];
      JoinedOne(was[0]);
      assert was == [was[0]] + was[1..];
    }

    // The next turn of a copy that has taken `data0` so far.
    method CopyMore(ghost failed: bool, length: nat, ghost delivered0: seq<byte>, data0: seq<byte>,
                    ghost was: seq<seq<byte>>, ghost from: nat, ghost gone0: seq<seq<byte>>)
      returns (data: seq<byte>, term: bool, ghost gone: seq<seq<byte>>)
      requires Valid() && |data0| < length && bytesPending > 0 && delivered == delivered0 + data0
      requires Copying(Terms(), failed, length, was, from, gone0, ready, offset, data0)
      modifies `ready, `offset, `bytesPending, `delivered
      ensures Valid() && |data| <= length && delivered == delivered0 + data
      ensures bytesPending + |data| == old(bytesPending) + |data0|
      ensures Got(Terms(), was, from, gone, ready, offset, data)
      ensures term <==> Halts(Terms(), data, gone)
      ensures |ready| <= old(|ready|) && (term || |ready| < old(|ready|) || |data| == length)
      ensures !term ==> Copying(Terms(), false, length, was, from, gone, ready, offset, data)
      ensures failed ==> |gone| <= 1 && was != [] && from <= |was[0]| && (Ended(termArray, data) || |data| == Least(length, |was[0]| - from))
    {
      ghost var mid, at, more := ready, offset, [];
      var part;
      part, term, more := CopyNext(length - |data0|);
      CopyingNext(Terms(), failed, length, was, from, gone0, mid, at, data0, more, ready, offset, part);
      Associative(delivered0, data0, part);
      data, gone := data0 + part, gone0 + more;
    }

    // The loop over the buffered packets: everything, up to the length asked for, unless something
    // ends it. After a failure it still takes one packet.
    method CopyOut(length: nat, failed: bool) returns (data: seq<byte>, stop: bool, ghost gone: seq<seq<byte>>)
      requires Valid()
      modifies `ready, `offset, `bytesPending, `delivered
      ensures Valid() && delivered == old(delivered) + data && |data| <= length
      ensures bytesPending + |data| == old(bytesPending) && data <= old(Rest())
      ensures Got(Terms(), old(ready), old(offset), gone, ready, offset, data)
      ensures stop <==> failed || Halts(Terms(), data, gone)
      ensures !stop ==> |data| == length || bytesPending == 0
      ensures failed ==> |gone| <= 1
      ensures failed && length > 0 && old(bytesPending) > 0 && !Ended(termArray, data) ==>
        old(ready) != [] && |data| == Least(length, old(|ready[0]| - offset))
    {
      data, stop, gone := [], failed, [];
      ghost var was := ready;
      while |data| < length && bytesPending > 0
        invariant Valid() && delivered == old(delivered) + data
        invariant bytesPending + |data| == old(bytesPending) && stop == failed
        invariant Copying(Terms(), failed, length, was, old(offset), gone, ready, offset, data)
        decreases |ready|, length - |data|
      {
        var short;
        data, short, gone := CopyMore(failed, length, old(delivered), data, was, old(offset), gone);
        stop := failed || short;
        if stop {
          break;
        }
      }
      NextBytes(old(delivered), data, Rest(), old(Rest()));
    }

    // One look at the port: the replies there are taken, and what is buffered is copied. `left`
    // is what the reader still wants, or -1 for what there is. The read goes on exactly when
    // there is reason to wait for more.
    method ReadOnce(left: int, w: Wakeup) returns (data: seq<byte>, left': int, done: bool, ghost gone: seq<seq<byte>>)
      requires Valid() && left >= -1
      modifies this
      ensures Valid() && received == old(received) + Arrived(w.replies) && delivered == old(delivered) + data
      ensures left' >= 0 && if left >= 0 then |data| + left' == left else left' == bytesPending
      ensures Got(Terms(), old(ready) + Packets(w.replies), old(offset), gone, ready, offset, data)
      ensures done <==> left' == 0 || Broken(doNotWait, w) || Halts(Terms(), data, gone)
      ensures !done ==> bytesPending == 0
    {
      var failed := TakeReplies(w.replies);
      var want := if left == -1 then bytesPending else left;
      var stop;
      data, stop, gone := CopyOut(want, failed);
      left' := want - |data|;
      done := stop || left' == 0 || doNotWait || w.abort;
    }

    // The look after `seen` of a read that has `before` so far.
    method LookAgain(ghost length: int, left: int, w: Wakeup, ghost was: seq<seq<byte>>, ghost seen: seq<Wakeup>, ghost from: nat,
                     ghost delivered0: seq<byte>, before: seq<byte>, ghost gone0: seq<seq<byte>>)
      returns (data: seq<byte>, left': int, done: bool, ghost gone: seq<seq<byte>>)
      requires Valid() && left >= -1 && length >= -1 && delivered == delivered0 + before
      requires Got(Terms(), was + PacketsIn(seen), from, gone0, ready, offset, before)
      requires Reading(Terms(), doNotWait, length, seen, left, before, gone0, bytesPending, false)
      modifies this
      ensures Valid() && old(received) <= received
      ensures delivered == delivered0 + data && left' >= 0
      ensures Got(Terms(), was + PacketsIn(seen + [w]), from, gone, ready, offset, data)
      ensures Reading(Terms(), doNotWait, length, seen + [w], left', data, gone, bytesPending, done)
    {
      ghost var mid, at, more, pending := ready, offset, [], bytesPending;
      var part;
      part, left', done, more := ReadOnce(left, w);
      GotBehind(Terms(), was, seen, from, gone0, mid, at, before, w, more, ready, offset, part);
      Associative(delivered0, before, part);
      data, gone := before + part, gone0 + more;
      ReadingNext(Terms(), doNotWait, length, seen, left, before, gone0, pending, w, left', data, gone, bytesPending, done);
    }

    // The loop of psdStreamRead.
    method ReadLoop(length: int, wakeups: seq<Wakeup>)
      returns (data: seq<byte>, done: bool, ghost looked: nat, ghost gone: seq<seq<byte>>, ghost left: int)
      requires Valid() && length >= -1
      modifies this
      ensures Valid() && looked <= |wakeups| && (looked == |wakeups| || done)
      ensures old(received) <= received && delivered == old(delivered) + data
      ensures Got(Terms(), old(ready) + PacketsIn(wakeups[..looked]), old(offset), gone, ready, offset, data)
      ensures Reading(Terms(), doNotWait, length, wakeups[..looked], left, data, gone, bytesPending, done)
    {
      data, done, looked, gone, left := [], false, 0, [], length;
      var wanted := length;
      var k := 0;
      ghost var was, seen := ready, [];
      assert was + PacketsIn(seen) == was;
      while k < |wakeups| && !done
        invariant looked == k <= |wakeups| && Valid() && old(received) <= received && left == wanted >= -1
        invariant delivered == old(delivered) + data && seen == wakeups[..k]
        invariant Got(Terms(), was + PacketsIn(seen), old(offset), gone, ready, offset, data)
        invariant Reading(Terms(), doNotWait, length, seen, wanted, data, gone, bytesPending, done)
        decreases |wakeups| - k
      {
        data, wanted, done, gone := LookAgain(length, wanted, wakeups[k], was, seen, old(offset), old(delivered), data, gone);
        seen := seen + [wakeups[k]];
        k := k + 1;
        looked, left := k, wanted;
      }
    }

    // psdStreamRead in buffered mode: `wakeups` is what the reader finds each time it looks, and
    // `looked` how often it does. It returns at the first look that gives it what it asked for,
    // the end of a line or message, or a reason not to wait; it is still waiting when the
    // wakeups do not suffice.
    method StreamRead(length: int, wakeups: seq<Wakeup>)
      returns (data: seq<byte>, done: bool, ghost looked: nat, ghost gone: seq<seq<byte>>)
      requires Valid() && length >= -1
      modifies this
      ensures Valid() && looked <= |wakeups| && (looked == |wakeups| || done)
      ensures old(received) <= received && delivered == old(delivered) + data
      ensures var from := |old(delivered)|; from + |data| <= |received| && data == received[from..from + |data|]
      ensures length >= 0 ==> |data| <= length
      ensures Got(Terms(), old(ready) + PacketsIn(wakeups[..looked]), old(offset), gone, ready, offset, data)
      ensures forall k :: 0 <= k < looked - (if done then 1 else 0) ==> !Broken(doNotWait, wakeups[k])
      ensures !done ==> !Halts(Terms(), data, gone) && (looked > 0 ==> bytesPending == 0 && |data| < length)
      ensures done ==>
        && looked > 0
        && (|data| == length || (length == -1 && bytesPending == 0) || Broken(doNotWait, wakeups[looked - 1]) || Halts(Terms(), data, gone))
    {
      ghost var left;
      data, done, looked, gone, left := ReadLoop(length, wakeups);
      ReadingEnds(Terms(), doNotWait, length, wakeups, looked, left, data, gone, bytesPending, done);
      HandedOut(received, old(delivered), data, Rest());
    }
  }
}
