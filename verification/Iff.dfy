/**
 The configuration as an EA IFF 85 tree: FORMs that hold a packed buffer of chunks and a list
 of sub-forms; the length pass, the printer and the recursive parser over big-endian bytes.
 */
module Iff {
  import opened Common

  type ulong = v: int | 0 <= v < 0x1_0000_0000

  const ID_FORM: ulong := 0x464F524D  // 'FORM'

  // A data chunk; odd-sized data is followed by one pad byte ("Chunks", EA IFF 85).
  datatype Chunk = Chunk(id: ulong, data: seq<byte>, pad: seq<byte>)

  // struct PsdIFFContext with its chunk buffer read as the list of chunks packed in it.
  datatype Form = Form(id: ulong, chunks: seq<Chunk>, subs: seq<Form>)

  // ------------------------------------------------------------------ numbers in memory

  // The n low bytes of v, most significant first.
  function BigEndian(v: nat, n: nat): (b: seq<byte>)
    ensures |b| == n
  {
    if n == 0 then [] else BigEndian(v / 0x100, n - 1) + [v % 0x100]
  }

  function LongBytes(v: ulong): (b: seq<byte>)
    ensures |b| == 4
  {
    BigEndian(v, 4)
  }

  function Long(b: seq<byte>, i: nat): ulong
    requires i + 4 <= |b|
  {
    var b0: int, b1: int, b2: int, b3: int := b[i], b[i + 1], b[i + 2], b[i + 3];
    b0 * 0x100_0000 + b1 * 0x1_0000 + b2 * 0x100 + b3
  }

  // Most significant byte first, and back.
  lemma LongOfBytes(v: ulong)
    ensures LongBytes(v) == [v / 0x100_0000, v / 0x1_0000 % 0x100, v / 0x100 % 0x100, v % 0x100]
    ensures Long(LongBytes(v), 0) == v
  {
    var v1, v2, v3 := v / 0x100, v / 0x1_0000, v / 0x100_0000;
    assert v1 / 0x100 == v2 && v2 / 0x100 == v3 && v3 < 0x100;
    assert BigEndian(v3, 1) == [v3] by { assert BigEndian(v3 / 0x100, 0) == []; }
    assert BigEndian(v2, 2) == [v3, v2 % 0x100];
    assert BigEndian(v1, 3) == [v3, v2 % 0x100, v1 % 0x100];
    assert BigEndian(v, 4) == [v3, v2 % 0x100, v1 % 0x100, v % 0x100];
  }

  lemma BytesOfLong(b: seq<byte>, i: nat)
    requires i + 4 <= |b|
    ensures LongBytes(Long(b, i)) == b[i..i + 4]
  {
    FourBytes(b[i], b[i + 1], b[i + 2], b[i + 3], Long(b, i));
    assert b[i..i + 4] == [b[i], b[i + 1], b[i + 2], b[i + 3]];
  }

  lemma ByteSplit(v: nat, low: byte)
    ensures (v * 0x100 + low) / 0x100 == v && (v * 0x100 + low) % 0x100 == low
  {
  }

  lemma BigEndianStep(v: nat, low: byte, n: nat)
    ensures BigEndian(v * 0x100 + low, n + 1) == BigEndian(v, n) + [low]
  {
    ByteSplit(v, low);
  }

  lemma FourBytes(b0: byte, b1: byte, b2: byte, b3: byte, v: ulong)
    requires v == ((b0 * 0x100 + b1) * 0x100 + b2) * 0x100 + b3
    ensures LongBytes(v) == [b0, b1, b2, b3]
  {
    assert BigEndian(0, 0) == [];
    BigEndianStep(0, b0, 0);
    BigEndianStep(b0, b1, 1);
    BigEndianStep(b0 * 0x100 + b1, b2, 2);
    BigEndianStep((b0 * 0x100 + b1) * 0x100 + b2, b3, 3);
  }

  lemma LongAt(pre: seq<byte>, v: ulong, rest: seq<byte>)
    ensures |pre + LongBytes(v) + rest| >= |pre| + 4
    ensures Long(pre + LongBytes(v) + rest, |pre|) == v
  {
    LongOfBytes(v);
    var b := pre + LongBytes(v) + rest;
    assert forall j :: 0 <= j < 4 ==> b[|pre| + j] == LongBytes(v)[j];
    assert b[|pre| + 0] == LongBytes(v)[0];
  }

  lemma Halves(x: int, q: int, r: int)
    requires x == 2 * q + r && 0 <= r < 2
    ensures x / 2 == q && x % 2 == r
  {
  }

  lemma NoWrap(x: int)
    requires 0 <= x < 0x1_0000_0000
    ensures x % 0x1_0000_0000 == x && (x + 0x1_0000_0000) % 0x1_0000_0000 == x
  {
  }

  // (n + 9) & ~1 in 32 bits: the space a chunk of n data bytes takes.
  function ChunkSpace(n: ulong): ulong {
    ((n + 9) % 0x1_0000_0000) / 2 * 2
  }

  // (n - 3) & ~1 in 32 bits, read as a LONG: what follows the type of a FORM of size n.
  function FormSpace(n: ulong): int {
    var u := ((n - 3 + 0x1_0000_0000) % 0x1_0000_0000) / 2 * 2;
    if u >= 0x8000_0000 then u - 0x1_0000_0000 else u
  }

  // ------------------------------------------------------------------ chunk lists

  ghost predicate WfChunk(c: Chunk) {
    c.id != ID_FORM && |c.data| < 0x7FFF_FFF0 && |c.pad| == |c.data| % 2
  }

  function ChunkBytes(c: Chunk): seq<byte>
    requires |c.data| < 0x1_0000_0000
  {
    LongBytes(c.id) + LongBytes(|c.data|) + c.data + c.pad
  }

  ghost predicate WfChunks(cs: seq<Chunk>) {
    forall i :: 0 <= i < |cs| ==> WfChunk(cs[i])
  }

  // The packed buffer.
  ghost function Packed(cs: seq<Chunk>): seq<byte>
    requires WfChunks(cs)
  {
    if cs == [] then [] else ChunkBytes(cs[0]) + Packed(cs[1..])
  }

  // The position of the first chunk with the given id, or the end.
  function FindChunk(cs: seq<Chunk>, id: ulong): (k: nat)
    ensures k <= |cs|
    ensures k < |cs| ==> cs[k].id == id
    ensures forall j :: 0 <= j < k ==> cs[j].id != id
  {
    if cs == [] || cs[0].id == id then 0 else 1 + FindChunk(cs[1..], id)
  }

  // pRemCfgChunk and pAddCfgChunk on the list.
  function RemoveChunk(cs: seq<Chunk>, id: ulong): seq<Chunk> {
    var k := FindChunk(cs, id);
    if k < |cs| then cs[..k] + cs[k + 1..] else cs
  }

  function AddChunk(cs: seq<Chunk>, c: Chunk): seq<Chunk> {
    RemoveChunk(cs, c.id) + [c]
  }

  ghost predicate DistinctIds(cs: seq<Chunk>) {
    forall i, j :: 0 <= i < j < |cs| ==> cs[i].id != cs[j].id
  }

  // ------------------------------------------------------------------ trees

  ghost predicate WfForm(f: Form)
    decreases f, 1
  {
    WfChunks(f.chunks) && DistinctIds(f.chunks) && WfForms(f.subs)
  }

  ghost predicate WfForms(fs: seq<Form>)
    decreases fs, 0
  {
    fs != [] ==> WfForm(fs[0]) && WfForms(fs[1..])
  }

  // pGetFormLength: the size of the form with its 8-byte header.
  ghost function FormLength(f: Form): nat
    requires WfForm(f)
    decreases f, 1
  {
    (5 + |Packed(f.chunks)|) / 2 * 2 + FormsLength(f.subs) + 8
  }

  ghost function FormsLength(fs: seq<Form>): nat
    requires WfForms(fs)
    decreases fs, 0
  {
    if fs == [] then 0 else FormLength(fs[0]) + FormsLength(fs[1..])
  }

  // Sizes stay below what the LONG arithmetic of the parser holds.
  const LIMIT := 0x7FFF_FFF0

  ghost predicate Fits(f: Form) {
    WfForm(f) && FormLength(f) < LIMIT
  }

  ghost predicate AllFit(fs: seq<Form>) {
    WfForms(fs) && FormsLength(fs) < LIMIT
  }

  // The three longs a FORM starts with.
  function Header(size: ulong, id: ulong): (b: seq<byte>)
    ensures |b| == 12
  {
    LongBytes(ID_FORM) + LongBytes(size) + LongBytes(id)
  }

  // pInternalWriteForm, the size field as pGetFormLength left it.
  ghost function Print(f: Form): seq<byte>
    requires Fits(f)
    decreases f, 1
  {
    Header(FormLength(f) - 8, f.id) + (Packed(f.chunks) + PrintAll(f.subs))
  }

  ghost function PrintAll(fs: seq<Form>): seq<byte>
    requires AllFit(fs)
    decreases fs, 0
  {
    if fs == [] then [] else Print(fs[0]) + PrintAll(fs[1..])
  }

  // ------------------------------------------------------------------ the parser

  // The receiving form after the call and whether the call succeeded.
  datatype Parsed = Parsed(form: Form, ok: bool)

  // pAddCfgChunk; `buf` is the memory from the chunk on. A chunk that reaches beyond that
  // memory counts as a failure.
  function AddEntry(pic: Form, buf: seq<byte>): Parsed
    decreases |buf|, 0
  {
    if |buf| < 8 then Parsed(pic, false)
    else if Long(buf, 0) == ID_FORM then
      if |buf| < 12 then Parsed(pic, false)
      else
        var r := AddEntries(Form(Long(buf, 8), [], []), buf[12..], FormSpace(Long(buf, 4)));
        Parsed(pic.(subs := pic.subs + [r.form]), r.ok)
    else
      var n := Long(buf, 4);
      var space := ChunkSpace(n);
      if space > |buf| || n + 8 > space then Parsed(pic, false)
      else
        var c := Chunk(Long(buf, 0), buf[8..8 + n], buf[8 + n..space]);
        Parsed(pic.(chunks := AddChunk(pic.chunks, c)), true)
  }

  // The loop of pAddCfgChunk and psdReadCfg over the contents of a FORM.
  function AddEntries(pic: Form, buf: seq<byte>, len: int): Parsed
    decreases |buf|, 1
  {
    if len < 8 then Parsed(pic, len == 0)
    else
      var r := AddEntry(pic, buf);
      if !r.ok || |buf| < 8 then Parsed(r.form, false)
      else
        var space := ChunkSpace(Long(buf, 4));
        if space == 0 || space > |buf| then Parsed(r.form, false)
        else AddEntries(r.form, buf[space..], len - space)
  }

  // psdReadCfg: replace what a form holds by the contents of a FORM of the same type.
  function ReadCfg(pic: Form, buf: seq<byte>): Parsed {
    if |buf| < 12 || Long(buf, 0) != ID_FORM || Long(buf, 8) != pic.id then Parsed(pic, false)
    else AddEntries(Form(pic.id, [], []), buf[12..], FormSpace(Long(buf, 4)))
  }
}
