/**
 The keyed store on top of the configuration tree: per-device and per-interface data under
 (owner, device id, interface id), and forced bindings under (device id, interface id).
 */
module ConfigStore {
  import opened Common
  import opened Iff
  import opened IffRoundTrip

  const IFFFORM_DEVICECFG: ulong := 0x44455643   // 'DEVC'
  const IFFFORM_DEVCFGDATA: ulong := 0x44434647  // 'DCFG'
  const IFFFORM_DEVCLSDATA: ulong := 0x44435044  // 'DCPD'
  const IFFFORM_IFCFGDATA: ulong := 0x49434647   // 'ICFG'
  const IFFFORM_IFCLSDATA: ulong := 0x49435044   // 'ICPD'
  const IFFCHNK_DEVID: ulong := 0x44564944       // 'DVID'
  const IFFCHNK_IFID: ulong := 0x49464944        // 'IFID'
  const IFFCHNK_OWNER: ulong := 0x4F574E52       // 'OWNR'
  const IFFCHNK_FORCEDBIND: ulong := 0x46424E44  // 'FBND'

  // A C string without its terminator.
  type cstring = s: seq<byte> | 0 !in s

  // The string at the start of a block, which a NUL or the end of the block closes.
  function CStr(data: seq<byte>): cstring {
    if data == [] || data[0] == 0 then [] else [data[0]] + CStr(data[1..])
  }

  // ------------------------------------------------------------------ chunks as a map

  // The data of the chunk pFindCfgChunk finds.
  function Lookup(cs: seq<Chunk>, id: ulong): Option<seq<byte>> {
    var k := FindChunk(cs, id);
    if k < |cs| then Some(cs[k].data) else None
  }

  lemma LookupAt(cs: seq<Chunk>, k: nat)
    requires DistinctIds(cs) && k < |cs|
    ensures FindChunk(cs, cs[k].id) == k
  {
    var j := FindChunk(cs, cs[k].id);
    assert j <= k;
  }

  lemma RemoveIsMapRemove(cs: seq<Chunk>, gone: ulong, id: ulong)
    requires DistinctIds(cs)
    ensures DistinctIds(RemoveChunk(cs, gone))
    ensures Lookup(RemoveChunk(cs, gone), id) == if id == gone then None else Lookup(cs, id)
  {
    var r, k, j := RemoveChunk(cs, gone), FindChunk(cs, gone), FindChunk(cs, id);
    RemoveChunkAt(cs, gone);
    if id != gone && j < |cs| {
      var j' := if j < k then j else j - 1;
      assert r[j'] == cs[j];
      LookupAt(r, j');
    }
  }

  lemma AddIsMapUpdate(cs: seq<Chunk>, c: Chunk, id: ulong)
    requires DistinctIds(cs)
    ensures DistinctIds(AddChunk(cs, c))
    ensures AddChunk(cs, c)[|AddChunk(cs, c)| - 1] == c
    ensures Lookup(AddChunk(cs, c), id) == if id == c.id then Some(c.data) else Lookup(cs, id)
  {
    var r, all := RemoveChunk(cs, c.id), AddChunk(cs, c);
    RemoveChunkAt(cs, c.id);
    RemoveIsMapRemove(cs, c.id, id);
    assert forall i :: 0 <= i < |r| ==> all[i] == r[i];
    var j := FindChunk(r, id);
    if id == c.id {
      LookupAt(all, |r|);
    } else if j < |r| {
      LookupAt(all, j);
    }
  }

  // ------------------------------------------------------------------ string chunks and forms

  // The chunk pAddStringChunk builds in cleared memory.
  function StringChunk(id: ulong, str: cstring): Chunk {
    Chunk(id, str + [0], if |str| % 2 == 0 then [0] else [])
  }

  function AddString(f: Form, id: ulong, str: cstring): Form {
    f.(chunks := AddChunk(f.chunks, StringChunk(id, str)))
  }

  // pMatchStringChunk.
  predicate MatchesText(f: Form, id: ulong, str: cstring) {
    var d := Lookup(f.chunks, id);
    d.Some? && CStr(d.value) == str
  }

  // What the loops over psdFindCfgForm and psdNextCfgForm look for.
  datatype Wanted =
    | DeviceOf(devid: cstring)
    | ItemFor(slot: Slot)
    | InterfaceOf(ifid: cstring)
    | ForcedOf(ifid: cstring)
    | DataOf(id: ulong)

  // Under what a device's data is stored; without an interface it is the device's own.
  datatype Slot = Slot(owner: cstring, ifid: Option<cstring>)

  predicate Selects(w: Wanted, f: Form) {
    match w
    case DeviceOf(devid) => f.id == IFFFORM_DEVICECFG && MatchesText(f, IFFCHNK_DEVID, devid)
    case ItemFor(Slot(owner, None)) => f.id == IFFFORM_DEVCFGDATA && MatchesText(f, IFFCHNK_OWNER, owner)
    case ItemFor(Slot(owner, Some(ifid))) =>
      f.id == IFFFORM_IFCFGDATA && MatchesText(f, IFFCHNK_IFID, ifid) && MatchesText(f, IFFCHNK_OWNER, owner)
    case InterfaceOf(ifid) => f.id == IFFFORM_IFCFGDATA && MatchesText(f, IFFCHNK_IFID, ifid)
    case ForcedOf(ifid) =>
      f.id == IFFFORM_IFCFGDATA && MatchesText(f, IFFCHNK_IFID, ifid) && Lookup(f.chunks, IFFCHNK_FORCEDBIND).Some?
    case DataOf(id) => f.id == id
  }

  // The position of the first such form, or the end.
  function FindForm(fs: seq<Form>, w: Wanted): (k: nat)
    ensures k <= |fs|
    ensures k < |fs| ==> Selects(w, fs[k])
    ensures forall j {:trigger Selects(w, fs[j])} :: 0 <= j < k ==> !Selects(w, fs[j])
  {
    if fs == [] || Selects(w, fs[0]) then 0 else 1 + FindForm(fs[1..], w)
  }

  lemma FindIs(fs: seq<Form>, w: Wanted, k: nat)
    requires k <= |fs| && (k < |fs| ==> Selects(w, fs[k]))
    requires forall j {:trigger fs[j]} :: 0 <= j < k ==> !Selects(w, fs[j])
    ensures FindForm(fs, w) == k
  {
    var found := FindForm(fs, w);
    if found < |fs| {
      assert Selects(w, fs[found]);
    }
  }

  predicate Has(fs: seq<Form>, w: Wanted) {
    FindForm(fs, w) < |fs|
  }

  // ------------------------------------------------------------------ device and interface data

  function ItemId(slot: Slot): ulong {
    if slot.ifid.None? then IFFFORM_DEVCFGDATA else IFFFORM_IFCFGDATA
  }

  function DataId(slot: Slot): ulong {
    if slot.ifid.None? then IFFFORM_DEVCLSDATA else IFFFORM_IFCLSDATA
  }

  function GetData(item: Form, slot: Slot): Option<Form> {
    var c := FindForm(item.subs, DataOf(DataId(slot)));
    if c < |item.subs| then Some(item.subs[c]) else None
  }

  function LookIn(fs: seq<Form>, slot: Slot): Option<Form> {
    var m := FindForm(fs, ItemFor(slot));
    if m < |fs| then GetData(fs[m], slot) else None
  }

  // psdGetUsbDevCfg.
  function GetUsbDevCfg(cfg: Form, devid: cstring, slot: Slot): Option<Form> {
    var d := FindForm(cfg.subs, DeviceOf(devid));
    if d < |cfg.subs| then LookIn(cfg.subs[d].subs, slot) else None
  }

  // What a write does to the data form: read the given form, or with none clear it.
  function Write(f: Form, data: Option<seq<byte>>): Parsed {
    match data
    case None => Parsed(Form(f.id, [], []), true)
    case Some(mem) => ReadCfg(f, mem)
  }

  // The data form a write starts from.
  function Start(slot: Slot, current: Option<Form>): Form {
    if current.Some? then current.value else Form(DataId(slot), [], [])
  }

  function PutData(item: Form, slot: Slot, data: Option<seq<byte>>): Parsed {
    var c := FindForm(item.subs, DataOf(DataId(slot)));
    var r := Write(Start(slot, GetData(item, slot)), data);
    Parsed(item.(subs := if c < |item.subs| then item.subs[c := r.form] else item.subs + [r.form]), r.ok)
  }

  function NewItem(slot: Slot): Form {
    var item := AddString(Form(ItemId(slot), [], []), IFFCHNK_OWNER, slot.owner);
    if slot.ifid.None? then item else AddString(item, IFFCHNK_IFID, slot.ifid.value)
  }

  function PutItem(dev: Form, slot: Slot, data: Option<seq<byte>>): Parsed {
    var m := FindForm(dev.subs, ItemFor(slot));
    var r := PutData(if m < |dev.subs| then dev.subs[m] else NewItem(slot), slot, data);
    Parsed(dev.(subs := if m < |dev.subs| then dev.subs[m := r.form] else dev.subs + [r.form]), r.ok)
  }

  function NewDevice(devid: cstring): Form {
    AddString(Form(IFFFORM_DEVICECFG, [], []), IFFCHNK_DEVID, devid)
  }

  // The first half of psdSetUsbDevCfg: the device is known.
  function SetKnown(cfg: Form, devid: cstring, slot: Slot, data: Option<seq<byte>>): Parsed {
    var d := FindForm(cfg.subs, DeviceOf(devid));
    if d == |cfg.subs| then Parsed(cfg, false)
    else
      var r := PutItem(cfg.subs[d], slot, data);
      Parsed(cfg.(subs := cfg.subs[d := r.form]), r.ok)
  }

  // psdSetUsbDevCfg: unless that worked, add a device form.
  function SetUsbDevCfg(cfg: Form, devid: cstring, slot: Slot, data: Option<seq<byte>>): Parsed {
    var known := SetKnown(cfg, devid, slot, data);
    if known.ok then known
    else
      var r := PutItem(NewDevice(devid), slot, data);
      Parsed(known.form.(subs := known.form.subs + [r.form]), r.ok)
  }

  // ------------------------------------------------------------------ forced bindings

  function ForcedText(cs: seq<Chunk>): Option<cstring> {
    var d := Lookup(cs, IFFCHNK_FORCEDBIND);
    if d.Some? then Some(CStr(d.value)) else None
  }

  function ForcedIn(fs: seq<Form>, ifid: cstring): Option<cstring> {
    var m := FindForm(fs, ForcedOf(ifid));
    if m < |fs| then ForcedText(fs[m].chunks) else None
  }

  function GetForcedIn(dev: Form, ifid: Option<cstring>): Option<cstring> {
    match ifid
    case None => ForcedText(dev.chunks)
    case Some(i) => ForcedIn(dev.subs, i)
  }

  // psdGetForcedBinding.
  function GetForcedBinding(cfg: Form, devid: cstring, ifid: Option<cstring>): Option<cstring> {
    var d := FindForm(cfg.subs, DeviceOf(devid));
    if d < |cfg.subs| then GetForcedIn(cfg.subs[d], ifid) else None
  }

  // Replace the forced binding; no owner removes it.
  function Force(f: Form, owner: cstring): Form {
    if owner == [] then f.(chunks := RemoveChunk(f.chunks, IFFCHNK_FORCEDBIND))
    else AddString(f, IFFCHNK_FORCEDBIND, owner)
  }

  function ForceOne(f: Form, ifid: cstring, owner: cstring): Form {
    if Selects(InterfaceOf(ifid), f) then Force(f, owner) else f
  }

  // Every form of the interface gets it.
  function ForceAll(fs: seq<Form>, ifid: cstring, owner: cstring): (r: seq<Form>)
    ensures |r| == |fs|
  {
    if fs == [] then [] else [ForceOne(fs[0], ifid, owner)] + ForceAll(fs[1..], ifid, owner)
  }

  lemma {:induction false} ForceAllAt(fs: seq<Form>, ifid: cstring, owner: cstring, k: nat)
    requires k < |fs|
    ensures ForceAll(fs, ifid, owner)[k] == ForceOne(fs[k], ifid, owner)
  {
    if k > 0 {
      ForceAllAt(fs[1..], ifid, owner, k - 1);
    }
  }

  function NewForced(ifid: cstring, owner: cstring): Form {
    var item := AddString(Form(IFFFORM_IFCFGDATA, [], []), IFFCHNK_OWNER, owner);
    AddString(AddString(item, IFFCHNK_FORCEDBIND, owner), IFFCHNK_IFID, ifid)
  }

  function SetForcedIn(dev: Form, ifid: Option<cstring>, owner: cstring): Form {
    match ifid
    case None => Force(dev, owner)
    case Some(i) =>
      if owner != [] && !Has(dev.subs, InterfaceOf(i)) then dev.(subs := dev.subs + [NewForced(i, owner)])
      else dev.(subs := ForceAll(dev.subs, i, owner))
  }

  // psdSetForcedBinding, which always succeeds.
  function SetForcedBinding(cfg: Form, devid: cstring, ifid: Option<cstring>, owner: cstring): Form {
    var d := FindForm(cfg.subs, DeviceOf(devid));
    if d < |cfg.subs| then cfg.(subs := cfg.subs[d := SetForcedIn(cfg.subs[d], ifid, owner)])
    else if owner == [] then cfg
    else cfg.(subs := cfg.subs + [SetForcedIn(NewDevice(devid), ifid, owner)])
  }
}
