/**
 psdStreamWrite and psdStreamFlush on the stream's buffer, in place.
 */
module OutStreams {
  import opened Common
  import opened StreamWrite

  lemma SmallMod(n: nat, p: nat)
    requires n < p
    ensures n % p == n
  {
  }

  // Where the last two stages of a write start, and that they stay within the buffer.
  ghost function StartOf(pending: seq<byte>, data: seq<byte>, p: nat, size: nat): Out
    requires p > 0
  {
    if pending == [] then Out([], data, [], 0) else Drain(TopUp(pending, data, p, size), p, size)
  }

  lemma RestFits(pending: seq<byte>, data: seq<byte>, p: nat, size: nat)
    requires 0 < p <= size && Room(|pending|, p, size) && |pending| <= size && data != []
    ensures var o, r := StartOf(pending, data, p, size), Write(pending, data, p, size);
      && |o.pending| + |o.rest| % p <= size && |r.pending| <= size && Room(|r.pending|, p, size)
      && r.pending == Keep(Bulk(Out(o.pending, o.rest, [], 0), p)).pending
      && r.sends == o.sends + Keep(Bulk(Out(o.pending, o.rest, [], 0), p)).sends
  {
    WriteGood(pending, data, p, size);
    var o := StartOf(pending, data, p, size);
    Split(|o.rest|, p);
    if |o.rest| < p {
      SmallMod(|o.rest|, p);
    }
  }

  class OutStream {
    const maxPkt: nat            // iouh_MaxPktSize
    const buffer: array<byte>    // pps_Buffer; pps_BufferSize is its length
    var bytesPending: nat
    var wire: seq<seq<byte>>     // the transfers sent, each of them complete

    ghost predicate Valid()
      reads this, buffer
    {
      && 0 < maxPkt <= buffer.Length
      && bytesPending <= buffer.Length
      && Room(bytesPending, maxPkt, buffer.Length)
    }

    ghost function Pending(): seq<byte>
      requires bytesPending <= buffer.Length
      reads this, buffer
    {
      buffer[..bytesPending]
    }

    // psdSetAttrs makes the buffer at least one packet long.
    constructor (maxPkt: nat, size: nat)
      requires maxPkt > 0
      ensures Valid() && Pending() == [] && wire == []
    {
      this.maxPkt := maxPkt;
      buffer := new byte[if size < maxPkt then maxPkt else size](_ => 0);
      bytesPending, wire := 0, [];
      new;
      Split(0, maxPkt);
    }

    // CopyMem() behind what is buffered.
    method Append(src: seq<byte>)
      requires bytesPending + |src| <= buffer.Length
      modifies `bytesPending, buffer
      ensures bytesPending == old(bytesPending) + |src| <= buffer.Length
      ensures Pending() == old(Pending()) + src
    {
      for i := 0 to |src|
        modifies buffer
        invariant forall k :: 0 <= k < bytesPending ==> buffer[k] == old(buffer[k])
        invariant forall k :: bytesPending <= k < bytesPending + i ==> buffer[k] == src[k - bytesPending]
      {
        buffer[bytesPending + i] := src[i];
      }
      bytesPending := bytesPending + |src|;
    }

    // Sending the first n buffered bytes, and moving the rest to the front.
    method SendBuffered(n: nat)
      requires n <= bytesPending <= buffer.Length
      modifies `bytesPending, `wire, buffer
      ensures bytesPending == old(bytesPending) - n && bytesPending <= buffer.Length
      ensures wire == old(wire) + [old(Pending()[..n])]
      ensures Pending() == old(Pending()[n..])
    {
      assert buffer[..n] == Pending()[..n];
      wire := wire + [buffer[..n]];
      var cnt := bytesPending - n;
      for i := 0 to cnt
        modifies buffer
        invariant forall k :: 0 <= k < i ==> buffer[k] == old(buffer[k + n])
        invariant forall k :: i <= k < buffer.Length ==> buffer[k] == old(buffer[k])
      {
        buffer[i] := buffer[i + n];
      }
      bytesPending := cnt;
    }

    // Completing the last packet in the buffer.
    method FillUp(data: seq<byte>) returns (rest: seq<byte>)
      requires Valid() && bytesPending > 0
      modifies `bytesPending, buffer
      ensures bytesPending <= buffer.Length
      ensures var o := TopUp(old(Pending()), data, maxPkt, buffer.Length); Pending() == o.pending && rest == o.rest
    {
      TopUpGood(Pending(), data, maxPkt, buffer.Length);
      var remlen := bytesPending % maxPkt;
      if remlen + |data| < maxPkt {
        Append(data);
        return [];
      }
      CopyFits(bytesPending, |data|, maxPkt);
      if bytesPending + |data| <= buffer.Length {
        remlen := bytesPending + |data| - (bytesPending + |data|) % maxPkt - bytesPending;
      } else {
        remlen := maxPkt - remlen;
      }
      Append(data[..remlen]);
      return data[remlen..];
    }

    // Sending the whole packets when the buffer is half full or more packets follow.
    method SendWhole(rest: seq<byte>)
      requires 0 < maxPkt && bytesPending <= buffer.Length
      modifies `bytesPending, `wire, buffer
      ensures bytesPending <= buffer.Length
      ensures var o := Drain(Out(old(Pending()), rest, [], 0), maxPkt, buffer.Length);
        Pending() == o.pending && wire == old(wire) + o.sends
    {
      if |rest| >= maxPkt || (bytesPending >= buffer.Length / 2 && bytesPending >= maxPkt) {
        Split(bytesPending, maxPkt);
        SendBuffered(bytesPending - bytesPending % maxPkt);
      }
    }

    // Sending whole packets of the caller's data, and buffering what remains.
    method WriteRest(rest: seq<byte>)
      requires 0 < maxPkt && bytesPending <= buffer.Length
      requires bytesPending + |rest| % maxPkt <= buffer.Length
      modifies `bytesPending, `wire, buffer
      ensures bytesPending <= buffer.Length
      ensures var o := Keep(Bulk(Out(old(Pending()), rest, [], 0), maxPkt)); Pending() == o.pending && wire == old(wire) + o.sends
    {
      Split(|rest|, maxPkt);
      var left := rest;
      if |left| >= maxPkt {
        var remlen := |left| - |left| % maxPkt;
        wire := wire + [left[..remlen]];
        left := left[remlen..];
      } else {
        SmallMod(|left|, maxPkt);
      }
      if left != [] {
        Append(left);
      }
    }

    // The part of a write that deals with what is buffered.
    method Begin(data: seq<byte>) returns (rest: seq<byte>)
      requires Valid()
      modifies `bytesPending, `wire, buffer
      ensures bytesPending <= buffer.Length
      ensures var o := StartOf(old(Pending()), data, maxPkt, buffer.Length);
        Pending() == o.pending && rest == o.rest && wire == old(wire) + o.sends
    {
      rest := data;
      if bytesPending > 0 {
        rest := FillUp(data);
        SendWhole(rest);
      }
    }

    // psdStreamWrite in buffered mode.
    method Write(data: seq<byte>) returns (actual: nat)
      requires Valid()
      modifies `bytesPending, `wire, buffer
      ensures Valid() && actual == |data|
      ensures var o := StreamWrite.Write(old(Pending()), data, maxPkt, buffer.Length);
        Pending() == o.pending && wire == old(wire) + o.sends
    {
      if data == [] {
        assert wire == wire + [];
        return 0;
      }
      RestFits(Pending(), data, maxPkt, buffer.Length);
      ghost var start := StartOf(Pending(), data, maxPkt, buffer.Length);
      var rest := Begin(data);
      WriteRest(rest);
      Associative(old(wire), start.sends, Keep(Bulk(Out(start.pending, start.rest, [], 0), maxPkt)).sends);
      return |data|;
    }

    // psdStreamFlush.
    method Flush()
      requires Valid()
      modifies `bytesPending, `wire, buffer
      ensures Valid() && Pending() == []
      ensures wire == old(wire) + if old(bytesPending) > 0 then [old(Pending())] else []
    {
      Split(0, maxPkt);
      if bytesPending > 0 {
        wire := wire + [buffer[..bytesPending]];
        bytesPending := 0;
      }
    }
  }
}
