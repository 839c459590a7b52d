/**
 struct PsdIFFContext in place: a growing buffer of packed chunks and a list of sub-forms.
 Every method is tied to the function of module Iff it implements.
 */
module IffContexts {
  import opened Common
  import opened Iff
  import opened IffRoundTrip

  // ------------------------------------------------------------------ reading the buffer

  lemma ChunkLength(c: Chunk)
    requires WfChunk(c)
    ensures ChunkSpace(|c.data|) == |ChunkBytes(c)|
  {
    PaddedIsEven(|c.data|);
  }

  lemma PackedNext(cs: seq<Chunk>, j: nat)
    requires WfChunks(cs) && j < |cs|
    ensures WfChunks(cs[..j]) && WfChunks(cs[..j + 1])
    ensures |Packed(cs[..j + 1])| == |Packed(cs[..j])| + |ChunkBytes(cs[j])| <= |Packed(cs)|
  {
    PackedCut(cs, j + 1);
    PackedOne(cs[j]);
    PackedAppend(cs[..j], [cs[j]]);
    assert cs[..j + 1] == cs[..j] + [cs[j]];
  }

  // The j-th chunk as the walk over the buffer sees it at its offset p.
  lemma ChunkSeen(buf: seq<byte>, cs: seq<Chunk>, j: nat, p: nat)
    requires WfChunks(cs) && j < |cs| && buf == Packed(cs)
    requires WfChunks(cs[..j]) && p == |Packed(cs[..j])|
    ensures p + 8 <= |buf| && Long(buf, p) == cs[j].id && Long(buf, p + 4) == |cs[j].data|
  {
    var c, rest := cs[j], Packed(cs[j + 1..]);
    PackedSplit(cs, j);
    LeafHead(c, rest);
    LongShift(buf, p, ChunkBytes(c) + rest, 0);
    LongShift(buf, p, ChunkBytes(c) + rest, 4);
  }

  // Its id, and where the walk goes from there.
  lemma WalkStep(buf: seq<byte>, cs: seq<Chunk>, j: nat, p: nat)
    requires WfChunks(cs) && j < |cs| && buf == Packed(cs)
    requires WfChunks(cs[..j]) && p == |Packed(cs[..j])|
    ensures p + 8 <= |buf| && Long(buf, p) == cs[j].id
    ensures var next := p + ChunkSpace(Long(buf, p + 4));
      && p < next == p + |ChunkBytes(cs[j])| <= |buf|
      && WfChunks(cs[..j + 1]) && next == |Packed(cs[..j + 1])|
  {
    ChunkSeen(buf, cs, j, p);
    ChunkLength(cs[j]);
    PackedNext(cs, j);
  }

  lemma NotYet(cs: seq<Chunk>, id: ulong, j: nat)
    requires j <= FindChunk(cs, id) && j < |cs| && cs[j].id != id
    ensures j + 1 <= FindChunk(cs, id)
  {
  }

  // At the end of the buffer all chunks have been seen.
  lemma WalkEnds(cs: seq<Chunk>, j: nat)
    requires WfChunks(cs) && j <= |cs| && WfChunks(cs[..j]) && |Packed(cs[..j])| == |Packed(cs)|
    ensures j == |cs|
  {
    if j < |cs| {
      PackedNext(cs, j);
    }
  }

  lemma LongShift(buf: seq<byte>, p: nat, part: seq<byte>, i: nat)
    requires p + |part| <= |buf| && buf[p..p + |part|] == part && i + 4 <= |part|
    ensures Long(buf, p + i) == Long(part, i)
  {
    assert forall k :: 0 <= k < |part| ==> buf[p + k] == part[k];
  }

  // Moving down what follows the k-th chunk leaves the buffer without that chunk.
  lemma PackedRemove(buf: seq<byte>, cs: seq<Chunk>, k: nat, p: nat, next: nat)
    requires WfChunks(cs) && k < |cs| && buf == Packed(cs)
    requires WfChunks(cs[..k]) && p == |Packed(cs[..k])| && next == p + |ChunkBytes(cs[k])|
    ensures WfChunks(cs[..k] + cs[k + 1..])
    ensures next <= |buf| && Packed(cs[..k] + cs[k + 1..]) == buf[..p] + buf[next..]
  {
    PackedAppend(cs[..k], cs[k + 1..]);
    PackedSplit(cs, k);
    CutMiddle(Packed(cs[..k]), ChunkBytes(cs[k]), Packed(cs[k + 1..]));
  }

  lemma CutMiddle(a: seq<byte>, b: seq<byte>, c: seq<byte>)
    ensures var s := a + (b + c); s[..|a|] == a && s[|a| + |b|..] == c
  {
  }

  // The chunk at the front of memory, read and written back.
  lemma ChunkRead(mem: seq<byte>, n: nat, space: nat, c: Chunk)
    requires |mem| < LIMIT && 8 <= n + 8 <= space <= |mem|
    requires n == Long(mem, 4) && space == ChunkSpace(n)
    requires c == Chunk(Long(mem, 0), mem[8..8 + n], mem[8 + n..space])
    ensures |c.pad| == n % 2 && mem[..space] == ChunkBytes(c)
  {
    PaddedIsEven(n);
    BytesOfLong(mem, 0);
    BytesOfLong(mem, 4);
  }

  lemma RemoveChunkWf(cs: seq<Chunk>, id: ulong)
    requires WfChunks(cs) && DistinctIds(cs)
    ensures WfChunks(RemoveChunk(cs, id)) && DistinctIds(RemoveChunk(cs, id))
  {
    RemoveChunkAt(cs, id);
  }

  // memcpy to a lower address, byte by byte from the front.
  method MoveDown(a: array<byte>, at: nat, gap: nat, n: nat)
    requires at + gap + n <= a.Length
    modifies a
    ensures a[..at] == old(a[..at])
    ensures a[at..at + n] == old(a[at + gap..at + gap + n])
  {
    for i := 0 to n
      invariant forall k {:trigger a[k]} :: 0 <= k < at ==> a[k] == old(a[k])
      invariant forall k {:trigger a[k]} :: at <= k < at + i ==> a[k] == old(a[k + gap])
      invariant forall k {:trigger a[k]} :: at + i <= k < a.Length ==> a[k] == old(a[k])
    {
      a[at + i] := a[at + gap + i];
    }
  }

  // `bytes` was written at offset `at`, up to `next`, and nothing before it changed.
  ghost predicate Wrote(was: seq<byte>, now: seq<byte>, at: nat, next: nat, bytes: seq<byte>) {
    && at + |bytes| == next <= |now| == |was|
    && now[..at] == was[..at] && now[at..next] == bytes
  }

  lemma WroteMore(a: seq<byte>, b: seq<byte>, c: seq<byte>, at: nat, mid: nat, next: nat, x: seq<byte>, y: seq<byte>)
    requires Wrote(a, b, at, mid, x) && Wrote(b, c, mid, next, y)
    ensures Wrote(a, c, at, next, x + y)
  {
    assert c[..at] == c[..mid][..at];
    assert c[at..next] == c[..mid][at..] + c[mid..next];
  }

  lemma WroteTail(was: seq<byte>, now: seq<byte>, at: nat, next: nat, bytes: seq<byte>)
    requires Wrote(was, now, at, next, bytes)
    ensures now[..next] == was[..at] + bytes
  {
    assert now[..next] == now[..at] + now[at..next];
  }

  // memcpy into another block.
  method CopyInto(a: array<byte>, at: nat, src: seq<byte>)
    requires at + |src| <= a.Length
    modifies a
    ensures Wrote(old(a[..]), a[..], at, at + |src|, src)
  {
    for i := 0 to |src|
      invariant forall k :: 0 <= k < at ==> a[k] == old(a[k])
      invariant forall k :: at <= k < at + i ==> a[k] == src[k - at]
    {
      a[at + i] := src[i];
    }
  }

  ghost function PrintHead(f: Form): seq<byte>
    requires Fits(f)
  {
    Header(FormLength(f) - 8, f.id) + Packed(f.chunks)
  }

  lemma HeadLength(f: Form)
    requires Fits(f)
    ensures AllFit(f.subs) && FormLength(f) == |PrintHead(f)| + FormsLength(f.subs)
  {
    LengthIs(f);
  }

  lemma PrintParts(f: Form)
    requires Fits(f)
    ensures AllFit(f.subs) && Print(f) == PrintHead(f) + PrintAll(f.subs)
  {
    FitsBelow(f);
    HeadAndTail(Header(FormLength(f) - 8, f.id), Packed(f.chunks), PrintAll(f.subs), Print(f), PrintHead(f));
  }

  lemma HeadAndTail(a: seq<byte>, b: seq<byte>, c: seq<byte>, all: seq<byte>, head: seq<byte>)
    requires all == a + (b + c) && head == a + b
    ensures all == head + c
  {
    Associative(a, b, c);
  }

  lemma FormsStep(fs: seq<Form>, i: nat)
    requires i < |fs| && WfForms(fs[i..])
    ensures WfForm(fs[i]) && WfForms(fs[i + 1..])
    ensures FormsLength(fs[i..]) == FormLength(fs[i]) + FormsLength(fs[i + 1..])
    ensures FormsLength(fs[i..]) < LIMIT ==> PrintAll(fs[i..]) == Print(fs[i]) + PrintAll(fs[i + 1..])
  {
    assert fs[i..][0] == fs[i] && fs[i..][1..] == fs[i + 1..];
  }

  lemma {:induction false} FormsUpdate(fs: seq<Form>, m: nat, f: Form)
    requires m < |fs| && WfForms(fs) && WfForm(f)
    ensures WfForms(fs[m := f])
  {
    if m == 0 {
      assert fs[m := f][1..] == fs[1..];
    } else {
      assert fs[m := f][1..] == fs[1..][m - 1 := f];
      FormsUpdate(fs[1..], m - 1, f);
    }
  }

  // The loop over the sub-forms has printed the first i of them.
  ghost predicate WritingSubs(fs: seq<Form>, i: nat, at: nat, next: nat, done: seq<byte>) {
    && AllFit(fs) && i <= |fs| && AllFit(fs[i..])
    && next + FormsLength(fs[i..]) == at + FormsLength(fs)
    && done + PrintAll(fs[i..]) == PrintAll(fs)
  }

  lemma NextSub(fs: seq<Form>, i: nat, at: nat, next: nat, done: seq<byte>)
    requires WritingSubs(fs, i, at, next, done) && i < |fs|
    ensures Fits(fs[i]) && next + FormLength(fs[i]) <= at + FormsLength(fs)
    ensures WritingSubs(fs, i + 1, at, next + FormLength(fs[i]), done + Print(fs[i]))
  {
    FormsStep(fs, i);
    Associative(done, Print(fs[i]), PrintAll(fs[i + 1..]));
  }

  // ------------------------------------------------------------------ the class

  class Context {
    var formId: ulong
    var chunks: array<byte>      // pic_BufferLen is chunks.Length
    var chunksLen: nat
    var subForms: seq<Context>
    ghost var form: Form         // what the object stands for
    ghost var repr: set<object>

    // The buffer holds the chunks of the form, packed.
    ghost predicate BufferOk()
      reads this, chunks
    {
      && chunksLen <= chunks.Length
      && form.id == formId
      && WfChunks(form.chunks) && DistinctIds(form.chunks)
      && chunks[..chunksLen] == Packed(form.chunks)
    }

    ghost predicate Valid()
      reads this, repr
      decreases repr, 1
    {
      this in repr && chunks in repr && BufferOk() && SubFormsOk()
    }

    // The sub-forms are separate trees and stand for the sub-forms of the form.
    ghost predicate SubFormsOk()
      requires this in repr
      reads this, repr
      decreases repr, 0
    {
      && |subForms| == |form.subs| && WfForms(form.subs)
      && (forall i :: 0 <= i < |subForms| ==>
            && subForms[i] in repr && subForms[i].repr <= repr - {this, chunks}
            && subForms[i].Valid() && subForms[i].form == form.subs[i])
      && (forall i, j :: 0 <= i < j < |subForms| ==> subForms[i].repr !! subForms[j].repr)
    }

    // What a valid form says of its sub-forms.
    lemma SubFacts()
      requires Valid()
      ensures |subForms| == |form.subs| && WfForms(form.subs) && this in repr && chunks in repr && BufferOk()
      ensures forall i :: 0 <= i < |subForms| ==>
        && subForms[i] in repr && subForms[i].repr <= repr - {this, chunks}
        && subForms[i].Valid() && subForms[i].form == form.subs[i] && subForms[i].formId == form.subs[i].id
      ensures forall i, j :: 0 <= i < j < |subForms| ==> subForms[i].repr !! subForms[j].repr
    {
      assert SubFormsOk();
    }

    lemma SubCount()
      requires Valid()
      ensures |subForms| == |form.subs| && this in repr && chunksLen <= chunks.Length
    {
      SubFacts();
    }

    lemma SubAt(i: nat)
      requires Valid() && i < |form.subs|
      ensures |subForms| == |form.subs| && subForms[i] in repr && subForms[i].repr <= repr
      ensures subForms[i].Valid() && subForms[i].form == form.subs[i] && subForms[i].formId == form.subs[i].id
      ensures subForms[i].chunksLen <= subForms[i].chunks.Length
    {
      SubFacts();
    }

    // pAllocForm, before it is linked into its parent.
    constructor (id: ulong)
      ensures Valid() && fresh(repr) && form == Form(id, [], [])
    {
      formId := id;
      chunks := new byte[0];
      chunksLen := 0;
      subForms := [];
      form := Form(id, [], []);
      new;
      repr := {this, chunks};
    }

    // The id of the j-th chunk, at offset p, and the offset of the chunk behind it.
    method ReadHead(p: nat, ghost j: nat) returns (id: ulong, next: nat)
      requires BufferOk() && j < |form.chunks|
      requires WfChunks(form.chunks[..j]) && p == |Packed(form.chunks[..j])|
      ensures id == form.chunks[j].id
      ensures WfChunks(form.chunks[..j + 1]) && next == |Packed(form.chunks[..j + 1])|
      ensures p < next == p + |ChunkBytes(form.chunks[j])| <= chunksLen
    {
      var buf := chunks[..chunksLen];
      WalkStep(buf, form.chunks, j, p);
      id, next := Long(buf, p), p + ChunkSpace(Long(buf, p + 4));
    }

    // pFindCfgChunk: the offset of the chunk, or the length of the buffer.
    method FindCfgChunk(id: ulong) returns (p: nat)
      requires BufferOk()
      ensures var k := FindChunk(form.chunks, id);
        && WfChunks(form.chunks[..k])
        && p == |Packed(form.chunks[..k])| <= chunksLen
        && (p < chunksLen <==> k < |form.chunks|)
    {
      ghost var cs := form.chunks;
      ghost var j := 0;
      p := 0;
      assert cs[..0] == [] && cs[..|cs|] == cs;
      while p < chunksLen
        invariant j <= FindChunk(cs, id) && WfChunks(cs[..j])
        invariant p == |Packed(cs[..j])| <= chunksLen
        decreases chunksLen - p
      {
        var found, next := ReadHead(p, j);
        if found == id {
          return;
        }
        NotYet(cs, id, j);
        p := next;
        j := j + 1;
      }
      WalkEnds(cs, j);
    }

    // The compaction inside pRemCfgChunk.
    method DropBytes(p: nat, next: nat)
      requires p <= next <= chunksLen <= chunks.Length
      modifies `chunksLen, chunks
      ensures chunksLen <= chunks.Length
      ensures chunks[..chunksLen] == old(chunks[..p]) + old(chunks[next..chunksLen])
    {
      MoveDown(chunks, p, next - p, chunksLen - next);
      chunksLen := chunksLen - (next - p);
      assert chunks[..chunksLen] == chunks[..p] + chunks[p..chunksLen];
    }

    // pRemCfgChunk once the walk has found the k-th chunk.
    method CutChunk(p: nat, ghost k: nat)
      requires BufferOk() && k < |form.chunks|
      requires WfChunks(form.chunks[..k]) && p == |Packed(form.chunks[..k])|
      modifies `chunksLen, `form, chunks
      ensures form == old(form).(chunks := old(form).chunks[..k] + old(form).chunks[k + 1..])
      ensures chunksLen <= chunks.Length && form.id == formId
      ensures WfChunks(form.chunks) && chunks[..chunksLen] == Packed(form.chunks)
    {
      ghost var cs := form.chunks;
      var _, next := ReadHead(p, k);
      PackedRemove(chunks[..chunksLen], cs, k, p, next);
      DropBytes(p, next);
      form := form.(chunks := cs[..k] + cs[k + 1..]);
    }

    // pRemCfgChunk.
    method RemCfgChunk(id: ulong) returns (found: bool)
      requires BufferOk()
      modifies `chunksLen, `form, chunks
      ensures BufferOk() && form == old(form).(chunks := RemoveChunk(old(form).chunks, id))
      ensures found <==> FindChunk(old(form).chunks, id) < |old(form).chunks|
    {
      RemoveChunkWf(form.chunks, id);
      var p := FindCfgChunk(id);
      found := p < chunksLen;
      if found {
        CutChunk(p, FindChunk(form.chunks, id));
      }
    }

    // A buffer twice the size needed, with the old contents.
    method Grow(need: nat)
      requires chunksLen <= chunks.Length < need
      modifies `chunks
      ensures fresh(chunks) && chunks.Length == 2 * need
      ensures chunks[..chunksLen] == old(chunks[..chunksLen])
    {
      var bigger := new byte[2 * need](_ => 0);
      ghost var blank := bigger[..];
      CopyInto(bigger, 0, chunks[..chunksLen]);
      WroteTail(blank, bigger[..], 0, chunksLen, chunks[..chunksLen]);
      chunks := bigger;
    }

    // The tail of pAddCfgChunk: room for twice the new size when the buffer is too small.
    method AppendBytes(src: seq<byte>)
      requires chunksLen <= chunks.Length
      modifies `chunks, `chunksLen, chunks
      ensures chunksLen <= chunks.Length && (chunks == old(chunks) || fresh(chunks))
      ensures chunks[..chunksLen] == old(chunks[..chunksLen]) + src
      ensures chunks.Length == var need := old(chunksLen) + |src|;
                               if need > old(chunks.Length) then 2 * need else old(chunks.Length)
    {
      var need := chunksLen + |src|;
      if need > chunks.Length {
        Grow(need);
      }
      ghost var was := chunks[..];
      CopyInto(chunks, chunksLen, src);
      WroteTail(was, chunks[..], chunksLen, need, src);
      chunksLen := need;
    }

    // pAddCfgChunk for a data chunk.
    method AddDataChunk(id: ulong, bytes: seq<byte>, ghost c: Chunk)
      requires BufferOk() && WfChunk(c) && id == c.id && bytes == ChunkBytes(c)
      modifies `chunks, `chunksLen, `form, chunks
      ensures BufferOk() && (chunks == old(chunks) || fresh(chunks))
      ensures form == old(form).(chunks := AddChunk(old(form).chunks, c))
    {
      ghost var cs := form.chunks;
      var _ := RemCfgChunk(id);
      AddChunkWf(cs, c);
      PackedOne(c);
      PackedAppend(RemoveChunk(cs, id), [c]);
      AppendBytes(bytes);
      form := form.(chunks := AddChunk(cs, c));
    }

    // The AddTail() of pAllocForm.
    method Link(sub: Context)
      requires Valid() && sub.Valid() && sub.repr !! repr
      modifies `subForms, `form, `repr
      ensures Valid() && repr == old(repr) + sub.repr
      ensures form == old(form).(subs := old(form).subs + [sub.form])
    {
      FormsAppend(form.subs, sub.form);
      subForms := subForms + [sub];
      form := form.(subs := form.subs + [sub.form]);
      repr := repr + sub.repr;
    }

    // pAllocForm below a parent.
    method NewSub(id: ulong)
      requires Valid()
      modifies `subForms, `form, `repr
      ensures Valid() && fresh(repr - old(repr))
      ensures form == old(form).(subs := old(form).subs + [Form(id, [], [])])
    {
      var sub := new Context(id);
      Link(sub);
    }

    // Sub-form m was changed through its own pointer; the form that holds it now stands for that.
    ghost method Renew(m: nat)
      requires m < |subForms| == |form.subs| && this in repr && chunks in repr && BufferOk() && WfForms(form.subs)
      requires forall i :: 0 <= i < |subForms| && i != m ==>
        && subForms[i] in repr && subForms[i].repr <= repr - {this, chunks}
        && subForms[i].Valid() && subForms[i].form == form.subs[i]
        && subForms[i].repr !! subForms[m].repr
      requires forall i, j :: 0 <= i < j < |subForms| && i != m && j != m ==> subForms[i].repr !! subForms[j].repr
      requires subForms[m] in repr && subForms[m].Valid() && this !in subForms[m].repr && chunks !in subForms[m].repr
      modifies `form, `repr
      ensures Valid() && repr == old(repr) + subForms[m].repr
      ensures form == old(form).(subs := old(form).subs[m := subForms[m].form])
    {
      FormsUpdate(form.subs, m, subForms[m].form);
      form := form.(subs := form.subs[m := subForms[m].form]);
      repr := repr + subForms[m].repr;
    }

    // psdRemCfgChunk with no id: everything goes.
    method Clear()
      requires Valid()
      modifies `subForms, `chunksLen, `form
      ensures Valid() && form == Form(old(form).id, [], [])
    {
      subForms, chunksLen := [], 0;
      form := Form(form.id, [], []);
    }

    // pAddCfgChunk for a FORM, behind its header. The source links the new form before it
    // fills it; nothing reads the list in between.
    method AddSubForm(id: ulong, mem: seq<byte>, len: int) returns (ok: bool)
      requires Valid() && |mem| < LIMIT
      modifies repr
      ensures Valid() && fresh(repr - old(repr))
      ensures var r := AddEntries(Form(id, [], []), mem, len);
              ok == r.ok && form == old(form).(subs := old(form).subs + [r.form])
      decreases |mem|, 2
    {
      var sub := new Context(id);
      ok := sub.AddContents(mem, len);
      Link(sub);
    }

    // pAddCfgChunk.
    method AddCfgChunk(mem: seq<byte>) returns (ok: bool)
      requires Valid() && |mem| < LIMIT
      modifies repr
      ensures Valid() && fresh(repr - old(repr))
      ensures Parsed(form, ok) == AddEntry(old(form), mem)
      decreases |mem|, 0
    {
      if |mem| < 8 {
        return false;
      }
      var id, n := Long(mem, 0), Long(mem, 4);
      if id == ID_FORM {
        if |mem| < 12 {
          return false;
        }
        ok := AddSubForm(Long(mem, 8), mem[12..], FormSpace(n));
      } else {
        ok := AddData(mem, id, n);
      }
    }

    // pAddCfgChunk for anything else.
    method AddData(mem: seq<byte>, id: ulong, n: ulong) returns (ok: bool)
      requires Valid() && 8 <= |mem| < LIMIT && id == Long(mem, 0) != ID_FORM && n == Long(mem, 4)
      modifies repr
      ensures Valid() && fresh(repr - old(repr))
      ensures Parsed(form, ok) == AddEntry(old(form), mem)
    {
      var space := ChunkSpace(n);
      if space > |mem| || n + 8 > space {
        return false;
      }
      ghost var c := Chunk(id, mem[8..8 + n], mem[8 + n..space]);
      ChunkRead(mem, n, space, c);
      AddDataChunk(id, mem[..space], c);
      repr := repr + {chunks};
      return true;
    }

    // The loop over the contents of a FORM.
    method AddContents(mem: seq<byte>, len: int) returns (ok: bool)
      requires Valid() && |mem| < LIMIT
      modifies repr
      ensures Valid() && fresh(repr - old(repr))
      ensures Parsed(form, ok) == AddEntries(old(form), mem, len)
      decreases |mem|, 1
    {
      var at, left := mem, len;
      while left >= 8
        invariant Valid() && fresh(repr - old(repr))
        invariant |at| <= |mem|
        invariant AddEntries(form, at, left) == AddEntries(old(form), mem, len)
        decreases |at|
      {
        ok := AddCfgChunk(at);
        if !ok || |at| < 8 {
          return false;
        }
        var space := ChunkSpace(Long(at, 4));
        if space == 0 || space > |at| {
          return false;
        }
        at, left := at[space..], left - space;
      }
      ok := left == 0;
    }

    // psdReadCfg.
    method ReadCfg(mem: seq<byte>) returns (ok: bool)
      requires Valid() && |mem| < LIMIT
      modifies repr
      ensures Valid() && fresh(repr - old(repr))
      ensures Parsed(form, ok) == Iff.ReadCfg(old(form), mem)
    {
      if |mem| < 12 || Long(mem, 0) != ID_FORM || Long(mem, 8) != formId {
        return false;
      }
      Clear();
      ok := AddContents(mem[12..], FormSpace(Long(mem, 4)));
    }

    // pGetFormLength.
    method GetFormLength() returns (len: nat)
      requires Valid()
      ensures WfForm(form) && len == FormLength(form)
      decreases repr
    {
      len := (5 + chunksLen) / 2 * 2;
      var i := 0;
      assert form.subs[0..] == form.subs;
      while i < |subForms|
        invariant i <= |subForms| && WfForms(form.subs[i..])
        invariant len + FormsLength(form.subs[i..]) + 8 == FormLength(form)
      {
        FormsStep(form.subs, i);
        var sub := subForms[i].GetFormLength();
        len := len + sub;
        i := i + 1;
      }
      len := len + 8;
    }

    // pInternalWriteForm up to its loop: the header and the chunks.
    method WriteHead(out: array<byte>, at: nat) returns (next: nat)
      requires Valid() && Fits(form) && at + FormLength(form) <= out.Length
      requires out != chunks
      modifies out
      ensures Wrote(old(out[..]), out[..], at, next, PrintHead(form))
    {
      LengthIs(form);
      var len := GetFormLength();
      CopyInto(out, at, Header(len - 8, formId));
      ghost var mid := out[..];
      CopyInto(out, at + 12, chunks[..chunksLen]);
      next := at + 12 + chunksLen;
      WroteMore(old(out[..]), mid, out[..], at, at + 12, next, Header(len - 8, formId), Packed(form.chunks));
    }

    // pInternalWriteForm, with the sizes pGetFormLength reports.
    method WriteForm(out: array<byte>, at: nat) returns (next: nat)
      requires Valid() && Fits(form) && out !in repr && at + FormLength(form) <= out.Length
      modifies out
      ensures next == at + FormLength(form) && Wrote(old(out[..]), out[..], at, next, Print(form))
      decreases repr, 2
    {
      HeadLength(form);
      PrintParts(form);
      ghost var head := PrintHead(form);
      var mid := WriteHead(out, at);
      ghost var half := out[..];
      next := WriteSubForms(out, mid);
      WroteMore(old(out[..]), half, out[..], at, mid, next, head, PrintAll(form.subs));
    }

    // One sub-form, behind what is written already.
    method WriteSub(out: array<byte>, ghost at: nat, next: nat, i: nat, ghost was: seq<byte>, ghost done: seq<byte>)
      returns (end: nat)
      requires Valid() && i < |form.subs| && Fits(form.subs[i]) && out !in repr
      requires next + FormLength(form.subs[i]) <= out.Length && Wrote(was, out[..], at, next, done)
      modifies out
      ensures end == next + FormLength(form.subs[i])
      ensures Wrote(was, out[..], at, end, done + Print(form.subs[i]))
      decreases repr, 0
    {
      SubAt(i);
      ghost var mid := out[..];
      SubSmaller(i);
      end := subForms[i].WriteForm(out, next);
      WroteMore(was, mid, out[..], at, next, end, done, Print(form.subs[i]));
    }

    lemma SubSmaller(i: nat)
      requires Valid() && i < |form.subs|
      ensures |subForms| == |form.subs| && subForms[i].repr < repr
    {
      SubFacts();
    }

    // Its loop over the sub-forms.
    method WriteSubForms(out: array<byte>, at: nat) returns (next: nat)
      requires Valid() && AllFit(form.subs) && out !in repr && at + FormsLength(form.subs) <= out.Length
      modifies out
      ensures next == at + FormsLength(form.subs) && Wrote(old(out[..]), out[..], at, next, PrintAll(form.subs))
      decreases repr, 1
    {
      next := at;
      var i := 0;
      ghost var done: seq<byte> := [];
      ghost var fs, was := form.subs, out[..];
      assert fs[0..] == fs;
      SubCount();
      while i < |subForms|
        invariant WritingSubs(fs, i, at, next, done) && Wrote(was, out[..], at, next, done)
      {
        NextSub(fs, i, at, next, done);
        next := WriteSub(out, at, next, i, was, done);
        done := done + Print(fs[i]);
        i := i + 1;
      }
    }
  }
}
