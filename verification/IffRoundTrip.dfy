/**
 The parser against the grammar of EA IFF 85, and the round trip between trees and bytes.
 */
module IffRoundTrip {
  import opened Common
  import opened Iff

  // The contents of a FORM as written: chunks and nested FORMs in any order. The parser takes
  // the size of a FORM for that of its contents also when it is one less.
  datatype Item = Leaf(chunk: Chunk) | Group(id: ulong, items: seq<Item>, short: bool)

  // The bytes an item takes.
  function ItemSpace(it: Item): nat
    decreases it, 1
  {
    match it
    case Leaf(c) => 8 + |c.data| + |c.pad|
    case Group(_, items, _) => 12 + ItemsSpace(items)
  }

  function ItemsSpace(items: seq<Item>): nat
    decreases items, 0
  {
    if items == [] then 0 else ItemSpace(items[0]) + ItemsSpace(items[1..])
  }

  ghost predicate WfItem(it: Item)
    decreases it, 1
  {
    match it
    case Leaf(c) => WfChunk(c)
    case Group(_, items, _) => WfItems(items) && 12 + ItemsSpace(items) < LIMIT
  }

  ghost predicate WfItems(items: seq<Item>)
    decreases items, 0
  {
    items != [] ==> WfItem(items[0]) && WfItems(items[1..])
  }

  ghost function ItemBytes(it: Item): (b: seq<byte>)
    requires WfItem(it)
    ensures |b| == ItemSpace(it)
    decreases it, 1
  {
    match it
    case Leaf(c) => ChunkBytes(c)
    case Group(id, items, short) =>
      Header(GroupSize(items, short), id) + ItemsBytes(items)
  }

  // The size in the header of a FORM.
  function GroupSize(items: seq<Item>, short: bool): nat {
    ItemsSpace(items) + (if short then 3 else 4)
  }

  ghost function ItemsBytes(items: seq<Item>): (b: seq<byte>)
    requires WfItems(items)
    ensures |b| == ItemsSpace(items)
    decreases items, 0
  {
    if items == [] then [] else ItemBytes(items[0]) + ItemsBytes(items[1..])
  }

  // The tree a list of items stands for: a chunk replaces an earlier one of the same id.
  function Put(pic: Form, it: Item): Form
    decreases it, 1
  {
    match it
    case Leaf(c) => pic.(chunks := AddChunk(pic.chunks, c))
    case Group(id, items, _) => pic.(subs := pic.subs + [PutAll(Form(id, [], []), items)])
  }

  function PutAll(pic: Form, items: seq<Item>): Form
    decreases items, 0
  {
    if items == [] then pic else PutAll(Put(pic, items[0]), items[1..])
  }

  // ------------------------------------------------------------------ the parser meets the grammar

  lemma EvenSum(a: int, b: int)
    requires a % 2 == 0 && b % 2 == 0
    ensures (a + b) % 2 == 0
  {
    Halves(a + b, a / 2 + b / 2, 0);
  }

  lemma PaddedIsEven(n: nat)
    ensures (8 + n + n % 2) % 2 == 0
    ensures n < 0x7FFF_FFF0 ==> ChunkSpace(n) == 8 + n + n % 2
  {
    var h, r := n / 2, n % 2;
    Halves(8 + n + r, 4 + h + r, 0);
    if n < 0x7FFF_FFF0 {
      NoWrap(n + 9);
      Halves(n + 9, h + 4 + r, 1 - r);
    }
  }

  lemma {:induction false} ItemEven(it: Item)
    requires WfItem(it)
    ensures ItemSpace(it) % 2 == 0
    decreases it, 1
  {
    match it
    case Leaf(c) => PaddedIsEven(|c.data|);
    case Group(_, items, _) =>
      ItemsEven(items);
      EvenSum(12, ItemsSpace(items));
  }

  lemma {:induction false} ItemsEven(items: seq<Item>)
    requires WfItems(items)
    ensures ItemsSpace(items) % 2 == 0
    decreases items, 0
  {
    if items != [] {
      ItemEven(items[0]);
      ItemsEven(items[1..]);
      EvenSum(ItemSpace(items[0]), ItemsSpace(items[1..]));
    }
  }

  lemma ShortSpaces(k: nat)
    requires k % 2 == 0 && k + 12 < LIMIT
    ensures ChunkSpace(3 + k) == 12 + k && FormSpace(3 + k) == k
  {
    NoWrap(k + 12);
    Halves(k + 12, k / 2 + 6, 0);
    NoWrap(k);
    Halves(k, k / 2, 0);
  }

  lemma GroupSpaces(k: nat)
    requires k % 2 == 0 && k + 12 < LIMIT
    ensures ChunkSpace(4 + k) == 12 + k && FormSpace(4 + k) == k
  {
    NoWrap(k + 13);
    Halves(k + 13, k / 2 + 6, 1);
    NoWrap(k + 1);
    Halves(k + 1, k / 2, 1);
  }

  // The longs an item starts with.
  lemma LeafHead(c: Chunk, rest: seq<byte>)
    requires WfChunk(c)
    ensures var b := ChunkBytes(c) + rest;
      && Long(b, 0) == c.id
      && Long(b, 4) == |c.data|
      && b[8..8 + |c.data|] == c.data
      && b[8 + |c.data|..|ChunkBytes(c)|] == c.pad
  {
    var b := ChunkBytes(c) + rest;
    var tail := c.data + c.pad + rest;
    LongAt([], c.id, LongBytes(|c.data|) + tail);
    LongAt(LongBytes(c.id), |c.data|, tail);
    assert b == [] + LongBytes(c.id) + (LongBytes(|c.data|) + tail);
    assert b == LongBytes(c.id) + LongBytes(|c.data|) + tail;
  }

  lemma GroupHead(id: ulong, n: ulong, tail: seq<byte>, b: seq<byte>)
    requires b == Header(n, id) + tail
    ensures Long(b, 0) == ID_FORM && Long(b, 4) == n && Long(b, 8) == id && b[12..] == tail
  {
    LongAt([], ID_FORM, LongBytes(n) + (LongBytes(id) + tail));
    assert b == [] + LongBytes(ID_FORM) + (LongBytes(n) + (LongBytes(id) + tail));
    LongAt(LongBytes(ID_FORM), n, LongBytes(id) + tail);
    assert b == LongBytes(ID_FORM) + LongBytes(n) + (LongBytes(id) + tail);
    LongAt(LongBytes(ID_FORM) + LongBytes(n), id, tail);
  }

  lemma GroupSplit(id: ulong, items: seq<Item>, short: bool, rest: seq<byte>)
    requires WfItem(Group(id, items, short))
    ensures ItemBytes(Group(id, items, short)) + rest == Header(GroupSize(items, short), id) + (ItemsBytes(items) + rest)
  {
    Associative(Header(GroupSize(items, short), id), ItemsBytes(items), rest);
  }

  // A group seen by the parser: the header, and the contents behind it.
  lemma GroupSeen(id: ulong, items: seq<Item>, short: bool, rest: seq<byte>)
    requires WfItem(Group(id, items, short))
    ensures var b := ItemBytes(Group(id, items, short)) + rest;
      && |b| >= 12
      && Long(b, 0) == ID_FORM
      && Long(b, 4) == GroupSize(items, short)
      && Long(b, 8) == id
      && b[12..] == ItemsBytes(items) + rest
  {
    GroupSplit(id, items, short, rest);
    GroupHead(id, GroupSize(items, short), ItemsBytes(items) + rest, ItemBytes(Group(id, items, short)) + rest);
  }

  // The sizes both loops of the parser step by.
  lemma GroupSteps(id: ulong, items: seq<Item>, short: bool)
    requires WfItem(Group(id, items, short))
    ensures FormSpace(GroupSize(items, short)) == |ItemsBytes(items)|
    ensures ChunkSpace(GroupSize(items, short)) == |ItemBytes(Group(id, items, short))|
  {
    ItemsEven(items);
    if short {
      ShortSpaces(ItemsSpace(items));
    } else {
      GroupSpaces(ItemsSpace(items));
    }
  }

  // pAddCfgChunk on the bytes of any well-formed item does what the item stands for, and the
  // caller's loop steps over exactly those bytes.
  lemma {:induction false} ParseItem(pic: Form, it: Item, rest: seq<byte>)
    requires WfItem(it)
    ensures AddEntry(pic, ItemBytes(it) + rest) == Parsed(Put(pic, it), true)
    ensures |ItemBytes(it)| >= 8 && ChunkSpace(Long(ItemBytes(it) + rest, 4)) == |ItemBytes(it)|
    decreases it, 1
  {
    match it
    case Leaf(c) =>
      PaddedIsEven(|c.data|);
      LeafHead(c, rest);
    case Group(id, items, short) =>
      GroupSeen(id, items, short, rest);
      GroupSteps(id, items, short);
      ParseItems(Form(id, [], []), items, rest);
  }

  // One turn of the loop over the contents of a FORM.
  lemma EntriesStep(pic: Form, head: seq<byte>, more: seq<byte>, len: int, next: Form)
    requires len >= 8 && |head| >= 8 && AddEntry(pic, head + more) == Parsed(next, true)
    requires ChunkSpace(Long(head + more, 4)) == |head|
    ensures AddEntries(pic, head + more, len) == AddEntries(next, more, len - |head|)
  {
    assert (head + more)[|head|..] == more;
  }

  lemma {:induction false} ParseItems(pic: Form, items: seq<Item>, rest: seq<byte>)
    requires WfItems(items)
    ensures AddEntries(pic, ItemsBytes(items) + rest, |ItemsBytes(items)|) == Parsed(PutAll(pic, items), true)
    decreases items, 0
  {
    if items != [] {
      var it := items[0];
      var more := ItemsBytes(items[1..]) + rest;
      Associative(ItemBytes(it), ItemsBytes(items[1..]), rest);
      ParseItem(pic, it, more);
      EntriesStep(pic, ItemBytes(it), more, |ItemsBytes(items)|, Put(pic, it));
      ParseItems(Put(pic, it), items[1..], rest);
    }
  }

  // psdReadCfg on the bytes of any well-formed group.
  lemma ReadGroup(id: ulong, items: seq<Item>, short: bool, pic: Form, rest: seq<byte>)
    requires WfItem(Group(id, items, short))
    ensures ReadCfg(pic, ItemBytes(Group(id, items, short)) + rest) ==
            if pic.id == id then Parsed(PutAll(Form(id, [], []), items), true) else Parsed(pic, false)
  {
    GroupSeen(id, items, short, rest);
    GroupSteps(id, items, short);
    ParseItems(Form(id, [], []), items, rest);
  }

  // ------------------------------------------------------------------ what the parser accepts

  ghost predicate StartsWithItem(buf: seq<byte>) {
    exists it :: WfItem(it) && ItemBytes(it) <= buf
  }

  ghost predicate StartsWithForm(buf: seq<byte>, id: ulong) {
    exists items, short :: WfItem(Group(id, items, short)) && ItemBytes(Group(id, items, short)) <= buf
  }

  lemma LeafOf(buf: seq<byte>) returns (it: Item)
    requires 8 <= |buf| < LIMIT && Long(buf, 0) != ID_FORM
    requires Long(buf, 4) + 8 <= ChunkSpace(Long(buf, 4)) <= |buf|
    ensures it.Leaf? && WfItem(it) && ItemBytes(it) == buf[..ChunkSpace(Long(buf, 4))]
  {
    var n := Long(buf, 4);
    PaddedIsEven(n);
    BytesOfLong(buf, 0);
    BytesOfLong(buf, 4);
    it := Leaf(Chunk(Long(buf, 0), buf[8..8 + n], buf[8 + n..ChunkSpace(n)]));
  }

  lemma FormSpaceOf(n: ulong)
    requires FormSpace(n) >= 0
    ensures FormSpace(n) % 2 == 0 && (n == FormSpace(n) + 3 || n == FormSpace(n) + 4)
  {
    if n >= 3 {
      NoWrap(n - 3);
      Halves(n - 3, (n - 3) / 2, (n - 3) % 2);
    }
  }

  lemma GroupOf(buf: seq<byte>, items: seq<Item>) returns (short: bool)
    requires 12 <= |buf| < LIMIT && Long(buf, 0) == ID_FORM
    requires WfItems(items) && FormSpace(Long(buf, 4)) == ItemsSpace(items)
    requires ItemsBytes(items) <= buf[12..]
    ensures WfItem(Group(Long(buf, 8), items, short)) && ItemBytes(Group(Long(buf, 8), items, short)) <= buf
  {
    short := Long(buf, 4) == ItemsSpace(items) + 3;
    FormSpaceOf(Long(buf, 4));
    HeaderOf(buf);
    PrefixJoined(buf[..12], ItemsBytes(items), buf[12..]);
    assert buf == buf[..12] + buf[12..];
  }

  lemma HeaderOf(buf: seq<byte>)
    requires 12 <= |buf| && Long(buf, 0) == ID_FORM
    ensures Header(Long(buf, 4), Long(buf, 8)) == buf[..12]
  {
    BytesOfLong(buf, 0);
    BytesOfLong(buf, 4);
    BytesOfLong(buf, 8);
  }

  // Whatever is accepted is well-formed.
  lemma {:induction false} AcceptedItem(pic: Form, buf: seq<byte>) returns (it: Item)
    requires |buf| < LIMIT && AddEntry(pic, buf).ok
    ensures WfItem(it) && ItemBytes(it) <= buf
    ensures it.Leaf? <==> Long(buf, 0) != ID_FORM
    decreases |buf|, 0
  {
    if Long(buf, 0) != ID_FORM {
      it := LeafOf(buf);
    } else {
      var items := AcceptedItems(Form(Long(buf, 8), [], []), buf[12..], FormSpace(Long(buf, 4)));
      var short := GroupOf(buf, items);
      it := Group(Long(buf, 8), items, short);
    }
  }

  lemma {:induction false} AcceptedItems(pic: Form, buf: seq<byte>, len: int) returns (items: seq<Item>)
    requires |buf| < LIMIT && AddEntries(pic, buf, len).ok
    ensures WfItems(items) && ItemsSpace(items) == len && ItemsBytes(items) <= buf
    decreases |buf|, 1
  {
    if len < 8 {
      items := [];
    } else {
      var it := AcceptedItem(pic, buf);
      var rest := buf[|ItemBytes(it)|..];
      assert buf == ItemBytes(it) + rest;
      ParseItem(pic, it, rest);
      var more := AcceptedItems(Put(pic, it), rest, len - |ItemBytes(it)|);
      items := [it] + more;
      assert items[1..] == more;
      PrefixJoined(ItemBytes(it), ItemsBytes(more), rest);
    }
  }

  lemma PrefixJoined(a: seq<byte>, b: seq<byte>, c: seq<byte>)
    requires b <= c
    ensures a + b <= a + c
  {
  }

  // pAddCfgChunk accepts memory exactly when a well-formed chunk or FORM starts there; what it
  // does then is `Put` of that item.
  lemma EntryAccepts(pic: Form, buf: seq<byte>)
    requires |buf| < LIMIT
    ensures AddEntry(pic, buf).ok <==> StartsWithItem(buf)
    ensures forall it :: WfItem(it) && ItemBytes(it) <= buf ==> AddEntry(pic, buf).form == Put(pic, it)
  {
    if AddEntry(pic, buf).ok {
      var it := AcceptedItem(pic, buf);
    }
    forall it | WfItem(it) && ItemBytes(it) <= buf
      ensures AddEntry(pic, buf) == Parsed(Put(pic, it), true)
    {
      assert buf == ItemBytes(it) + buf[|ItemBytes(it)|..];
      ParseItem(pic, it, buf[|ItemBytes(it)|..]);
    }
  }

  // psdReadCfg on a given form accepts memory exactly when a well-formed FORM of its type starts
  // there.
  lemma ReadAccepts(pic: Form, buf: seq<byte>)
    requires |buf| < LIMIT
    ensures ReadCfg(pic, buf).ok <==> StartsWithForm(buf, pic.id)
  {
    if ReadCfg(pic, buf).ok {
      ReadIsForm(pic, buf);
    }
    if StartsWithForm(buf, pic.id) {
      var items, short :| WfItem(Group(pic.id, items, short)) && ItemBytes(Group(pic.id, items, short)) <= buf;
      FormIsRead(pic, buf, items, short);
    }
  }

  lemma ReadIsForm(pic: Form, buf: seq<byte>)
    requires |buf| < LIMIT && ReadCfg(pic, buf).ok
    ensures StartsWithForm(buf, pic.id)
  {
    var items := AcceptedItems(Form(pic.id, [], []), buf[12..], FormSpace(Long(buf, 4)));
    var short := GroupOf(buf, items);
    assert WfItem(Group(pic.id, items, short)) && ItemBytes(Group(pic.id, items, short)) <= buf;
  }

  lemma FormIsRead(pic: Form, buf: seq<byte>, items: seq<Item>, short: bool)
    requires WfItem(Group(pic.id, items, short)) && ItemBytes(Group(pic.id, items, short)) <= buf
    ensures ReadCfg(pic, buf) == Parsed(PutAll(Form(pic.id, [], []), items), true)
  {
    var all := ItemBytes(Group(pic.id, items, short));
    assert buf == all + buf[|all|..];
    ReadGroup(pic.id, items, short, pic, buf[|all|..]);
  }

  // ------------------------------------------------------------------ what a refused read leaves

  // The form with one more sub-form, if there is one.
  function WithCut(f: Form, cut: Option<Form>): Form {
    if cut.Some? then f.(subs := f.subs + [cut.value]) else f
  }

  // The loop has put `items`, and stopped where its length ends or no item starts; of a FORM
  // that fails inside it has kept `cut`, a form of that type.
  ghost predicate ReadUpTo(pic: Form, buf: seq<byte>, len: int, items: seq<Item>, cut: Option<Form>, read: Form) {
    && WfItems(items)
    && ItemsBytes(items) <= buf
    && read == WithCut(PutAll(pic, items), cut)
    && var rest := buf[ItemsSpace(items)..];
       && (len - ItemsSpace(items) >= 8 ==> !StartsWithItem(rest))
       && (cut.Some? <==> len - ItemsSpace(items) >= 8 && IsHeader(rest))
       && (cut.Some? ==> cut.value.id == Long(rest, 8))
  }

  lemma ReadStops(pic: Form, buf: seq<byte>, len: int) returns (cut: Option<Form>)
    requires |buf| < LIMIT && (len < 8 || !AddEntry(pic, buf).ok)
    ensures ReadUpTo(pic, buf, len, [], cut, AddEntries(pic, buf, len).form)
  {
    assert buf[0..] == buf;
    cut := None;
    if len >= 8 {
      EntryAccepts(pic, buf);
      if IsHeader(buf) {
        var inner := Form(Long(buf, 8), [], []);
        cut := Some(AddEntries(inner, buf[12..], FormSpace(Long(buf, 4))).form);
        EntriesKeepId(inner, buf[12..], FormSpace(Long(buf, 4)));
      }
    }
  }

  lemma ReadGoesOn(pic: Form, buf: seq<byte>, it: Item, rest: seq<byte>, len: int, items: seq<Item>, cut: Option<Form>, read: Form)
    returns (all: seq<Item>)
    requires WfItem(it) && buf == ItemBytes(it) + rest
    requires ReadUpTo(Put(pic, it), rest, len - |ItemBytes(it)|, items, cut, read)
    ensures ReadUpTo(pic, buf, len, all, cut, read)
  {
    all := [it] + items;
    ItemFirst(pic, it, items);
    PrefixJoined(ItemBytes(it), ItemsBytes(items), rest);
    DropJoined(ItemBytes(it), rest, ItemsSpace(items));
  }

  lemma ItemFirst(pic: Form, it: Item, items: seq<Item>)
    requires WfItem(it) && WfItems(items)
    ensures var all := [it] + items;
      && WfItems(all)
      && ItemsSpace(all) == |ItemBytes(it)| + ItemsSpace(items)
      && ItemsBytes(all) == ItemBytes(it) + ItemsBytes(items)
      && PutAll(pic, all) == PutAll(Put(pic, it), items)
  {
    assert ([it] + items)[1..] == items;
  }

  lemma DropJoined(a: seq<byte>, b: seq<byte>, n: nat)
    requires n <= |b|
    ensures (a + b)[|a| + n..] == b[n..]
  {
  }

  // The item the loop takes, and the memory it goes on with.
  lemma FirstItem(pic: Form, buf: seq<byte>, len: int) returns (it: Item, rest: seq<byte>)
    requires |buf| < LIMIT && len >= 8 && AddEntry(pic, buf).ok
    ensures WfItem(it) && |ItemBytes(it)| >= 8 && buf == ItemBytes(it) + rest
    ensures AddEntries(pic, buf, len) == AddEntries(Put(pic, it), rest, len - |ItemBytes(it)|)
  {
    it := AcceptedItem(pic, buf);
    rest := buf[|ItemBytes(it)|..];
    ParseItem(pic, it, rest);
    EntriesStep(pic, ItemBytes(it), rest, len, Put(pic, it));
  }

  // What psdReadCfg and pAddCfgChunk have read when they stop, whether or not they succeed.
  lemma {:induction false} ReadSoFar(pic: Form, buf: seq<byte>, len: int) returns (items: seq<Item>, cut: Option<Form>)
    requires |buf| < LIMIT
    ensures ReadUpTo(pic, buf, len, items, cut, AddEntries(pic, buf, len).form)
    decreases |buf|
  {
    if len < 8 || !AddEntry(pic, buf).ok {
      items := [];
      cut := ReadStops(pic, buf, len);
    } else {
      var it, rest := FirstItem(pic, buf, len);
      var more, last := ReadSoFar(Put(pic, it), rest, len - |ItemBytes(it)|);
      cut := last;
      items := ReadGoesOn(pic, buf, it, rest, len, more, last, AddEntries(Put(pic, it), rest, len - |ItemBytes(it)|).form);
    }
  }

  // Three longs are there and the first is FORM.
  predicate IsHeader(buf: seq<byte>) {
    |buf| >= 12 && Long(buf, 0) == ID_FORM
  }

  lemma {:induction false} EntriesKeepId(pic: Form, buf: seq<byte>, len: int)
    ensures AddEntries(pic, buf, len).form.id == pic.id
    decreases |buf|
  {
    if len >= 8 {
      var r := AddEntry(pic, buf);
      if r.ok && |buf| >= 8 {
        var space := ChunkSpace(Long(buf, 4));
        if space != 0 && space <= |buf| {
          EntriesKeepId(r.form, buf[space..], len - space);
        }
      }
    }
  }

  // ------------------------------------------------------------------ trees as items

  function Leaves(cs: seq<Chunk>): seq<Item> {
    if cs == [] then [] else [Leaf(cs[0])] + Leaves(cs[1..])
  }

  function Groups(fs: seq<Form>): seq<Item>
    decreases fs, 0
  {
    if fs == [] then [] else [ItemOf(fs[0])] + Groups(fs[1..])
  }

  function ItemOf(f: Form): Item
    decreases f, 1
  {
    Group(f.id, Leaves(f.chunks) + Groups(f.subs), false)
  }

  lemma {:induction false} ItemsAppend(a: seq<Item>, b: seq<Item>)
    ensures ItemsSpace(a + b) == ItemsSpace(a) + ItemsSpace(b)
    ensures WfItems(a + b) <==> WfItems(a) && WfItems(b)
    ensures WfItems(a) && WfItems(b) ==> ItemsBytes(a + b) == ItemsBytes(a) + ItemsBytes(b)
  {
    if a == [] {
      assert a + b == b;
    } else {
      assert (a + b)[1..] == a[1..] + b;
      ItemsAppend(a[1..], b);
    }
  }

  lemma {:induction false} PutAllAppend(pic: Form, a: seq<Item>, b: seq<Item>)
    ensures PutAll(pic, a + b) == PutAll(PutAll(pic, a), b)
    decreases |a|
  {
    if a == [] {
      assert a + b == b;
    } else {
      assert (a + b)[1..] == a[1..] + b;
      PutAllAppend(Put(pic, a[0]), a[1..], b);
    }
  }

  lemma {:induction false} LeavesBytes(cs: seq<Chunk>)
    requires WfChunks(cs)
    ensures WfItems(Leaves(cs)) && ItemsBytes(Leaves(cs)) == Packed(cs)
  {
    if cs != [] {
      LeavesBytes(cs[1..]);
      assert Leaves(cs)[1..] == Leaves(cs[1..]);
    }
  }

  lemma GroupBytes(id: ulong, items: seq<Item>, n: ulong, body: seq<byte>)
    requires WfItems(items) && n == 4 + ItemsSpace(items) && n + 8 < LIMIT && body == ItemsBytes(items)
    ensures WfItem(Group(id, items, false)) && ItemBytes(Group(id, items, false)) == Header(n, id) + body
  {
  }

  lemma GroupOfParts(id: ulong, a: seq<Item>, b: seq<Item>, n: ulong)
    requires WfItems(a) && WfItems(b) && n == 4 + |ItemsBytes(a)| + |ItemsBytes(b)| && n + 8 < LIMIT
    ensures WfItem(Group(id, a + b, false))
    ensures ItemBytes(Group(id, a + b, false)) == Header(n, id) + (ItemsBytes(a) + ItemsBytes(b))
  {
    ItemsAppend(a, b);
    GroupBytes(id, a + b, n, ItemsBytes(a) + ItemsBytes(b));
  }

  lemma RoundEven(n: nat)
    requires n % 2 == 0
    ensures (5 + n) / 2 * 2 == 4 + n
  {
    Halves(5 + n, n / 2 + 2, 1);
  }

  lemma FitsBelow(f: Form)
    requires Fits(f)
    ensures WfChunks(f.chunks) && AllFit(f.subs)
    ensures FormLength(f) == 12 + |Packed(f.chunks)| + FormsLength(f.subs)
    ensures Print(f) == Header(FormLength(f) - 8, f.id) + (Packed(f.chunks) + PrintAll(f.subs))
  {
    LengthIs(f);
  }

  // pGetFormLength is the number of bytes, and the printer writes a well-formed item.
  lemma {:induction false} PrintIsItem(f: Form)
    requires Fits(f)
    ensures WfItem(ItemOf(f)) && Print(f) == ItemBytes(ItemOf(f)) && |Print(f)| == FormLength(f)
    decreases f, 1
  {
    FitsBelow(f);
    LeavesBytes(f.chunks);
    PrintsAreItems(f.subs);
    assert ItemOf(f) == Group(f.id, Leaves(f.chunks) + Groups(f.subs), false);
    GroupOfParts(f.id, Leaves(f.chunks), Groups(f.subs), FormLength(f) - 8);
  }

  lemma {:induction false} PrintsAreItems(fs: seq<Form>)
    requires AllFit(fs)
    ensures WfItems(Groups(fs)) && PrintAll(fs) == ItemsBytes(Groups(fs)) && |PrintAll(fs)| == FormsLength(fs)
    decreases fs, 0
  {
    if fs != [] {
      PrintIsItem(fs[0]);
      PrintsAreItems(fs[1..]);
      assert Groups(fs)[1..] == Groups(fs[1..]);
    }
  }

  // The print part by part: FORM, the size of what follows it, the type, then the chunks as they
  // stand and the sub-forms in order. LongOfBytes and FormLetters say what the bytes are.
  lemma PrintLayout(f: Form)
    requires Fits(f)
    ensures |Print(f)| >= 12 + |Packed(f.chunks)|
    ensures Print(f)[..4] == LongBytes(ID_FORM)
    ensures |Print(f)| < LIMIT && Print(f)[4..8] == LongBytes(|Print(f)| - 8) && Print(f)[8..12] == LongBytes(f.id)
    ensures Print(f)[12..12 + |Packed(f.chunks)|] == Packed(f.chunks)
    ensures Print(f)[12 + |Packed(f.chunks)|..] == PrintAll(f.subs)
  {
    FitsBelow(f);
    PrintIsItem(f);
    var n := FormLength(f) - 8;
    HeaderParts(n, f.id, Packed(f.chunks), PrintAll(f.subs));
  }

  // 'FORM'.
  lemma FormLetters()
    ensures LongBytes(ID_FORM) == [0x46, 0x4F, 0x52, 0x4D]
  {
    FourBytes(0x46, 0x4F, 0x52, 0x4D, ID_FORM);
  }

  lemma HeaderParts(n: ulong, id: ulong, a: seq<byte>, b: seq<byte>)
    ensures var all := Header(n, id) + (a + b);
      && all[..4] == LongBytes(ID_FORM)
      && all[4..8] == LongBytes(n)
      && all[8..12] == LongBytes(id)
      && all[12..12 + |a|] == a
      && all[12 + |a|..] == b
  {
  }

  // ------------------------------------------------------------------ putting the items back

  lemma FreshAppend(cs: seq<Chunk>, c: Chunk)
    requires DistinctIds(cs + [c])
    ensures AddChunk(cs, c) == cs + [c]
  {
    var k := FindChunk(cs, c.id);
    assert (cs + [c])[|cs|] == c;
    assert forall j :: 0 <= j < |cs| ==> (cs + [c])[j] == cs[j];
  }

  lemma {:induction false} PutLeaves(pic: Form, cs: seq<Chunk>)
    requires DistinctIds(pic.chunks + cs)
    ensures PutAll(pic, Leaves(cs)) == pic.(chunks := pic.chunks + cs)
    decreases |cs|
  {
    if cs == [] {
      assert pic.chunks + cs == pic.chunks;
    } else {
      var all := pic.chunks + cs;
      var pre := pic.chunks + [cs[0]];
      assert all == pre + cs[1..];
      assert forall j :: 0 <= j < |pre| ==> pre[j] == all[j];
      FreshAppend(pic.chunks, cs[0]);
      assert Leaves(cs)[1..] == Leaves(cs[1..]);
      PutLeaves(pic.(chunks := pre), cs[1..]);
    }
  }

  lemma GroupsHead(fs: seq<Form>)
    requires fs != []
    ensures Groups(fs)[0] == ItemOf(fs[0]) && Groups(fs)[1..] == Groups(fs[1..])
  {
    var first, rest := [ItemOf(fs[0])], Groups(fs[1..]);
    assert Groups(fs) == first + rest;
    assert (first + rest)[1..] == rest;
  }

  lemma {:induction false} PutGroups(pic: Form, fs: seq<Form>)
    requires WfForms(fs)
    ensures PutAll(pic, Groups(fs)) == pic.(subs := pic.subs + fs)
    decreases fs, 0
  {
    if fs == [] {
      assert pic.subs + fs == pic.subs;
    } else {
      GroupsHead(fs);
      PutItemOf(fs[0]);
      PutGroups(pic.(subs := pic.subs + [fs[0]]), fs[1..]);
      FirstMoved(pic.subs, fs);
    }
  }

  // A tree is what its own items stand for.
  lemma {:induction false} PutItemOf(f: Form)
    requires WfForm(f)
    ensures PutAll(Form(f.id, [], []), Leaves(f.chunks) + Groups(f.subs)) == f
    decreases f, 1
  {
    var empty := Form(f.id, [], []);
    PutAllAppend(empty, Leaves(f.chunks), Groups(f.subs));
    assert [] + f.chunks == f.chunks;
    PutLeaves(empty, f.chunks);
    PutGroups(empty.(chunks := f.chunks), f.subs);
    assert [] + f.subs == f.subs;
  }

  // ------------------------------------------------------------------ main results

  // Printing writes exactly pGetFormLength bytes, and parsing them appends an identical tree.
  lemma RoundTrip(f: Form, pic: Form, rest: seq<byte>)
    requires Fits(f)
    ensures |Print(f)| == FormLength(f)
    ensures AddEntry(pic, Print(f) + rest) == Parsed(pic.(subs := pic.subs + [f]), true)
  {
    PrintIsItem(f);
    ParseItem(pic, ItemOf(f), rest);
    PutItemOf(f);
  }

  // Reading a printed form back replaces a form of the same type by an identical one, and
  // is refused for any other type.
  lemma ReadBack(f: Form, pic: Form, rest: seq<byte>)
    requires Fits(f)
    ensures ReadCfg(pic, Print(f) + rest) == if pic.id == f.id then Parsed(f, true) else Parsed(pic, false)
  {
    PrintIsItem(f);
    PutItemOf(f);
    ReadGroup(f.id, Leaves(f.chunks) + Groups(f.subs), false, pic, rest);
  }

  // ------------------------------------------------------------------ parse, print, parse

  lemma {:induction false} PackedAppend(a: seq<Chunk>, b: seq<Chunk>)
    requires WfChunks(a) && WfChunks(b)
    ensures WfChunks(a + b) && Packed(a + b) == Packed(a) + Packed(b)
  {
    if a == [] {
      assert a + b == b;
    } else {
      assert (a + b)[1..] == a[1..] + b;
      PackedAppend(a[1..], b);
      Associative(ChunkBytes(a[0]), Packed(a[1..]), Packed(b));
    }
  }

  lemma PackedOne(c: Chunk)
    requires WfChunk(c)
    ensures WfChunks([c]) && Packed([c]) == ChunkBytes(c)
  {
    assert Packed([c]) == ChunkBytes(c) + Packed([c][1..]);
  }

  lemma PackedTail(cs: seq<Chunk>, k: nat)
    requires WfChunks(cs) && k < |cs|
    ensures Packed(cs[k..]) == ChunkBytes(cs[k]) + Packed(cs[k + 1..])
  {
    var tail := cs[k..];
    assert tail[0] == cs[k] && tail[1..] == cs[k + 1..];
  }

  lemma CutChunks(cs: seq<Chunk>, k: nat)
    requires WfChunks(cs) && k <= |cs|
    ensures WfChunks(cs[..k]) && WfChunks(cs[k..]) && cs == cs[..k] + cs[k..]
  {
  }

  lemma PackedCut(cs: seq<Chunk>, k: nat)
    requires WfChunks(cs) && k <= |cs|
    ensures WfChunks(cs[..k]) && WfChunks(cs[k..]) && Packed(cs) == Packed(cs[..k]) + Packed(cs[k..])
  {
    CutChunks(cs, k);
    PackedAppend(cs[..k], cs[k..]);
  }

  // The buffer around the k-th chunk.
  lemma PackedSplit(cs: seq<Chunk>, k: nat)
    requires WfChunks(cs) && k < |cs|
    ensures Packed(cs) == Packed(cs[..k]) + (ChunkBytes(cs[k]) + Packed(cs[k + 1..]))
  {
    PackedCut(cs, k);
    PackedTail(cs, k);
  }

  // Adding a chunk keeps the ids distinct and the buffer well-formed.
  lemma AddChunkWf(cs: seq<Chunk>, c: Chunk)
    requires WfChunks(cs) && DistinctIds(cs) && WfChunk(c)
    ensures WfChunks(RemoveChunk(cs, c.id)) && DistinctIds(RemoveChunk(cs, c.id))
    ensures WfChunks(AddChunk(cs, c)) && DistinctIds(AddChunk(cs, c))
  {
    var r := RemoveChunk(cs, c.id);
    RemoveChunkAt(cs, c.id);
    assert forall i :: 0 <= i < |r| ==> (r + [c])[i] == r[i];
  }

  // What is left after removing: every other chunk, in order.
  lemma RemoveChunkAt(cs: seq<Chunk>, id: ulong)
    requires DistinctIds(cs)
    ensures var k, r := FindChunk(cs, id), RemoveChunk(cs, id);
      && (forall i :: 0 <= i < |r| ==> r[i] == cs[if i < k then i else i + 1] && r[i].id != id)
      && DistinctIds(r)
  {
  }

  lemma AddChunkSize(cs: seq<Chunk>, c: Chunk)
    requires WfChunks(cs) && DistinctIds(cs) && WfChunk(c)
    ensures WfChunks(AddChunk(cs, c)) && |Packed(AddChunk(cs, c))| <= |Packed(cs)| + |ChunkBytes(c)|
  {
    AddChunkWf(cs, c);
    var k := FindChunk(cs, c.id);
    PackedOne(c);
    PackedAppend(RemoveChunk(cs, c.id), [c]);
    if k < |cs| {
      PackedSplit(cs, k);
      PackedAppend(cs[..k], cs[k + 1..]);
    }
  }

  lemma {:induction false} FormsAppend(a: seq<Form>, f: Form)
    requires WfForms(a) && WfForm(f)
    ensures WfForms(a + [f]) && FormsLength(a + [f]) == FormsLength(a) + FormLength(f)
  {
    if a == [] {
      assert a + [f] == [f];
      assert FormsLength([f]) == FormLength(f) + FormsLength([f][1..]);
    } else {
      assert (a + [f])[1..] == a[1..] + [f];
      FormsAppend(a[1..], f);
    }
  }

  lemma {:induction false} PackedEven(cs: seq<Chunk>)
    requires WfChunks(cs)
    ensures |Packed(cs)| % 2 == 0
  {
    if cs != [] {
      PaddedIsEven(|cs[0].data|);
      PackedEven(cs[1..]);
      EvenSum(|ChunkBytes(cs[0])|, |Packed(cs[1..])|);
    }
  }

  lemma LengthIs(f: Form)
    requires WfForm(f)
    ensures FormLength(f) == 12 + |Packed(f.chunks)| + FormsLength(f.subs)
  {
    PackedEven(f.chunks);
    RoundEven(|Packed(f.chunks)|);
  }

  // What the parser builds is well-formed and no longer than what it read.
  lemma {:induction false} PutWf(pic: Form, it: Item)
    requires WfForm(pic) && WfItem(it)
    ensures WfForm(Put(pic, it)) && FormLength(Put(pic, it)) <= FormLength(pic) + ItemSpace(it)
    decreases it, 1
  {
    LengthIs(pic);
    match it
    case Leaf(c) =>
      AddChunkWf(pic.chunks, c);
      AddChunkSize(pic.chunks, c);
      LengthIs(Put(pic, it));
    case Group(id, items, _) =>
      var empty := Form(id, [], []);
      LengthIs(empty);
      PutAllWf(empty, items);
      FormsAppend(pic.subs, PutAll(empty, items));
      LengthIs(Put(pic, it));
  }

  lemma {:induction false} PutAllWf(pic: Form, items: seq<Item>)
    requires WfForm(pic) && WfItems(items)
    ensures WfForm(PutAll(pic, items)) && FormLength(PutAll(pic, items)) <= FormLength(pic) + ItemsSpace(items)
    decreases items, 0
  {
    if items != [] {
      PutWf(pic, items[0]);
      PutAllWf(Put(pic, items[0]), items[1..]);
    }
  }

  // Any well-formed bytes parse to a tree that prints, and its print parses to the same tree:
  // printing after a second reading gives the bytes of the first printing.
  lemma PrintParsePrint(id: ulong, items: seq<Item>, short: bool, pic: Form, rest: seq<byte>)
    requires WfItem(Group(id, items, short))
    ensures var f := PutAll(Form(id, [], []), items);
      && AddEntry(pic, ItemBytes(Group(id, items, short)) + rest) == Parsed(pic.(subs := pic.subs + [f]), true)
      && Fits(f)
      && |Print(f)| <= |ItemBytes(Group(id, items, short))|
      && AddEntry(pic, Print(f) + rest) == Parsed(pic.(subs := pic.subs + [f]), true)
  {
    var empty := Form(id, [], []);
    ParseItem(pic, Group(id, items, short), rest);
    LengthIs(empty);
    PutAllWf(empty, items);
    RoundTrip(PutAll(empty, items), pic, rest);
  }
}
