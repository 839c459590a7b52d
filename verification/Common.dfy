/** Shared types and facts about sequences. */
module Common {

  type byte = b: int | 0 <= b < 256

  datatype Option<+T> = None | Some(value: T)

  lemma Associative<T>(a: seq<T>, b: seq<T>, c: seq<T>)
    ensures a + b + c == a + (b + c)
  {
  }

  // Blocks of bytes, one after the other.
  function Joined(blocks: seq<seq<byte>>): seq<byte> {
    if blocks == [] then [] else blocks[0] + Joined(blocks[1..])
  }

  lemma {:induction false} JoinedAppend(a: seq<seq<byte>>, b: seq<seq<byte>>)
    ensures Joined(a + b) == Joined(a) + Joined(b)
  {
    if a == [] {
      assert a + b == b;
    } else {
      assert (a + b)[1..] == a[1..] + b;
      JoinedAppend(a[1..], b);
    }
  }

  lemma JoinedOne(block: seq<byte>)
    ensures Joined([block]) == block
  {
    assert Joined([block]) == block + Joined([block][1..]);
  }

  lemma FirstMoved<T>(a: seq<T>, b: seq<T>)
    requires b != []
    ensures (a + [b[0]]) + b[1..] == a + b
  {
    assert b == [b[0]] + b[1..];
    Associative(a, [b[0]], b[1..]);
  }
}
