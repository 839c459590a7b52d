/**
 The keyed store behaves as two separate maps, one for data and one for forced bindings, over
 any sequence of writes.
 */
module ConfigStoreLaws {
  import opened Common
  import opened Iff
  import opened IffRoundTrip
  import opened ConfigStore

  // Chunk ids are distinct throughout a tree.
  ghost predicate Distinct(f: Form)
    decreases f, 1
  {
    DistinctIds(f.chunks) && AllDistinct(f.subs)
  }

  ghost predicate AllDistinct(fs: seq<Form>)
    decreases fs, 0
  {
    fs != [] ==> Distinct(fs[0]) && AllDistinct(fs[1..])
  }

  // ------------------------------------------------------------------ strings

  lemma {:induction false} CStrOfString(str: cstring)
    ensures CStr(str + [0]) == str
  {
    if str != [] {
      assert (str + [0])[1..] == str[1..] + [0];
      CStrOfString(str[1..]);
    }
  }

  lemma AddedText(f: Form, id: ulong, str: cstring, id': ulong, str': cstring)
    requires DistinctIds(f.chunks)
    ensures DistinctIds(AddString(f, id, str).chunks)
    ensures Lookup(AddString(f, id, str).chunks, id) == Some(str + [0])
    ensures MatchesText(AddString(f, id, str), id', str') <==> if id' == id then str' == str else MatchesText(f, id', str')
  {
    AddIsMapUpdate(f.chunks, StringChunk(id, str), id');
    AddIsMapUpdate(f.chunks, StringChunk(id, str), id);
    CStrOfString(str);
  }

  // ------------------------------------------------------------------ searching

  lemma FindUpdate(fs: seq<Form>, k: nat, g: Form, w: Wanted)
    requires k < |fs| && (Selects(w, g) <==> Selects(w, fs[k]))
    ensures FindForm(fs[k := g], w) == FindForm(fs, w)
  {
    FindIs(fs[k := g], w, FindForm(fs, w));
  }

  lemma FindAppend(fs: seq<Form>, g: Form, w: Wanted)
    ensures FindForm(fs + [g], w) ==
            if Has(fs, w) then FindForm(fs, w) else if Selects(w, g) then |fs| else |fs| + 1
  {
    FindIs(fs + [g], w, if Has(fs, w) then FindForm(fs, w) else if Selects(w, g) then |fs| else |fs| + 1);
  }

  lemma {:induction false} DistinctAt(fs: seq<Form>, k: nat)
    requires AllDistinct(fs) && k < |fs|
    ensures Distinct(fs[k])
  {
    if k > 0 {
      DistinctAt(fs[1..], k - 1);
    }
  }

  lemma {:induction false} DistinctUpdate(fs: seq<Form>, k: nat, g: Form)
    requires AllDistinct(fs) && k < |fs| && Distinct(g)
    ensures AllDistinct(fs[k := g])
  {
    if k == 0 {
      assert fs[k := g][1..] == fs[1..];
    } else {
      assert fs[k := g][1..] == fs[1..][k - 1 := g];
      DistinctUpdate(fs[1..], k - 1, g);
    }
  }

  lemma {:induction false} DistinctAppend(fs: seq<Form>, g: Form)
    requires AllDistinct(fs) && Distinct(g)
    ensures AllDistinct(fs + [g])
  {
    if fs == [] {
      assert fs + [g] == [g];
      assert AllDistinct([g][1..]);
    } else {
      assert (fs + [g])[1..] == fs[1..] + [g];
      DistinctAppend(fs[1..], g);
    }
  }

  // Any bytes, well-formed or not, leave the ids distinct.
  lemma {:induction false} EntryDistinct(pic: Form, buf: seq<byte>)
    requires Distinct(pic)
    ensures Distinct(AddEntry(pic, buf).form) && AddEntry(pic, buf).form.id == pic.id
    decreases |buf|, 0
  {
    if |buf| >= 8 {
      if Long(buf, 0) != ID_FORM {
        var n := Long(buf, 4);
        var space := ChunkSpace(n);
        if n + 8 <= space <= |buf| {
          AddIsMapUpdate(pic.chunks, Chunk(Long(buf, 0), buf[8..8 + n], buf[8 + n..space]), 0);
        }
      } else if |buf| >= 12 {
        var empty := Form(Long(buf, 8), [], []);
        EntriesDistinct(empty, buf[12..], FormSpace(Long(buf, 4)));
        DistinctAppend(pic.subs, AddEntries(empty, buf[12..], FormSpace(Long(buf, 4))).form);
      }
    }
  }

  lemma {:induction false} EntriesDistinct(pic: Form, buf: seq<byte>, len: int)
    requires Distinct(pic)
    ensures Distinct(AddEntries(pic, buf, len).form) && AddEntries(pic, buf, len).form.id == pic.id
    decreases |buf|, 1
  {
    if len >= 8 {
      EntryDistinct(pic, buf);
      var r := AddEntry(pic, buf);
      if r.ok && |buf| >= 8 {
        var space := ChunkSpace(Long(buf, 4));
        if space != 0 && space <= |buf| {
          EntriesDistinct(r.form, buf[space..], len - space);
        }
      }
    }
  }

  lemma WriteDistinct(f: Form, data: Option<seq<byte>>)
    requires Distinct(f)
    ensures Distinct(Write(f, data).form) && Write(f, data).form.id == f.id
  {
    if data.Some? && |data.value| >= 12 {
      EntriesDistinct(Form(f.id, [], []), data.value[12..], FormSpace(Long(data.value, 4)));
    }
  }

  // ------------------------------------------------------------------ writing data

  // A form belongs to one slot.
  lemma ItemUnique(f: Form, a: Slot, b: Slot)
    requires Selects(ItemFor(a), f)
    ensures Selects(ItemFor(b), f) <==> a == b
  {
  }

  lemma NewItemIs(slot: Slot, other: Slot)
    ensures Distinct(NewItem(slot)) && NewItem(slot).subs == []
    ensures Selects(ItemFor(other), NewItem(slot)) <==> other == slot
    ensures Lookup(NewItem(slot).chunks, IFFCHNK_FORCEDBIND).None?
  {
    var f0 := Form(ItemId(slot), [], []);
    var f1 := AddString(f0, IFFCHNK_OWNER, slot.owner);
    AddedText(f0, IFFCHNK_OWNER, slot.owner, IFFCHNK_OWNER, other.owner);
    AddIsMapUpdate(f0.chunks, StringChunk(IFFCHNK_OWNER, slot.owner), IFFCHNK_FORCEDBIND);
    if slot.ifid.Some? {
      var i := slot.ifid.value;
      AddedText(f1, IFFCHNK_IFID, i, IFFCHNK_OWNER, other.owner);
      if other.ifid.Some? {
        AddedText(f1, IFFCHNK_IFID, i, IFFCHNK_IFID, other.ifid.value);
      }
      AddIsMapUpdate(f1.chunks, StringChunk(IFFCHNK_IFID, i), IFFCHNK_FORCEDBIND);
    }
  }

  // The data a write leaves behind.
  function Written(slot: Slot, current: Option<Form>, data: Option<seq<byte>>): Form {
    Write(Start(slot, current), data).form
  }

  // Whether a write is accepted: there is nothing to read, or it reads as the right form.
  predicate Accepts(slot: Slot, data: Option<seq<byte>>) {
    Write(Form(DataId(slot), [], []), data).ok
  }

  lemma PutDataLaw(item: Form, slot: Slot, data: Option<seq<byte>>)
    requires Distinct(item)
    ensures var r := PutData(item, slot, data);
      && (r.ok <==> Accepts(slot, data))
      && r.form == item.(subs := r.form.subs) && Distinct(r.form)
      && GetData(r.form, slot) == Some(Written(slot, GetData(item, slot), data))
  {
    var w := DataOf(DataId(slot));
    var c := FindForm(item.subs, w);
    if c < |item.subs| {
      DistinctAt(item.subs, c);
    }
    var start := Start(slot, GetData(item, slot));
    var next := Write(start, data).form;
    WriteDistinct(start, data);
    if c < |item.subs| {
      FindUpdate(item.subs, c, next, w);
      DistinctUpdate(item.subs, c, next);
    } else {
      FindAppend(item.subs, next, w);
      DistinctAppend(item.subs, next);
    }
  }

  // The first item of the slot is replaced by one with the same strings.
  lemma ItemReplaced(fs: seq<Form>, slot: Slot, next: Form, other: Slot)
    requires Has(fs, ItemFor(slot))
    requires var item := fs[FindForm(fs, ItemFor(slot))]; next == item.(subs := next.subs)
    ensures var now := fs[FindForm(fs, ItemFor(slot)) := next];
            LookIn(now, other) == if other == slot then GetData(next, other) else LookIn(fs, other)
  {
    var m := FindForm(fs, ItemFor(slot));
    ItemUnique(fs[m], slot, other);
    FindUpdate(fs, m, next, ItemFor(other));
  }

  lemma ItemAppended(fs: seq<Form>, slot: Slot, next: Form, other: Slot)
    requires !Has(fs, ItemFor(slot)) && Selects(ItemFor(slot), next)
    ensures LookIn(fs + [next], other) == if other == slot then GetData(next, other) else LookIn(fs, other)
  {
    ItemUnique(next, slot, other);
    FindAppend(fs, next, ItemFor(other));
  }

  lemma ForcedReplaced(fs: seq<Form>, m: nat, next: Form, ifid: cstring)
    requires m < |fs| && next == fs[m].(subs := next.subs)
    ensures ForcedIn(fs[m := next], ifid) == ForcedIn(fs, ifid)
  {
    FindUpdate(fs, m, next, ForcedOf(ifid));
  }

  lemma ForcedAppended(fs: seq<Form>, next: Form, ifid: cstring)
    requires !Selects(ForcedOf(ifid), next)
    ensures ForcedIn(fs + [next], ifid) == ForcedIn(fs, ifid)
  {
    FindAppend(fs, next, ForcedOf(ifid));
  }

  // Writing below one device changes that device's data in the slot, and nothing else.
  ghost predicate ItemWritten(dev: Form, r: Form, slot: Slot, next: Form, other: Slot, ifid: Option<cstring>) {
    && r == dev.(subs := r.subs) && Distinct(r)
    && LookIn(r.subs, other) == (if other == slot then Some(next) else LookIn(dev.subs, other))
    && GetForcedIn(r, ifid) == GetForcedIn(dev, ifid)
  }

  lemma WrittenKnown(dev: Form, next: Form, slot: Slot, data: Form, other: Slot, ifid: Option<cstring>)
    requires Distinct(dev) && Distinct(next) && Has(dev.subs, ItemFor(slot)) && GetData(next, slot) == Some(data)
    requires var item := dev.subs[FindForm(dev.subs, ItemFor(slot))]; next == item.(subs := next.subs)
    ensures var m := FindForm(dev.subs, ItemFor(slot));
            ItemWritten(dev, dev.(subs := dev.subs[m := next]), slot, data, other, ifid)
  {
    var m := FindForm(dev.subs, ItemFor(slot));
    DistinctUpdate(dev.subs, m, next);
    ItemReplaced(dev.subs, slot, next, other);
    if ifid.Some? {
      ForcedReplaced(dev.subs, m, next, ifid.value);
    }
  }

  lemma WrittenNew(dev: Form, next: Form, slot: Slot, data: Form, other: Slot, ifid: Option<cstring>)
    requires Distinct(dev) && Distinct(next) && !Has(dev.subs, ItemFor(slot)) && GetData(next, slot) == Some(data)
    requires Selects(ItemFor(slot), next) && Lookup(next.chunks, IFFCHNK_FORCEDBIND).None?
    ensures ItemWritten(dev, dev.(subs := dev.subs + [next]), slot, data, other, ifid)
  {
    DistinctAppend(dev.subs, next);
    ItemAppended(dev.subs, slot, next, other);
    if ifid.Some? {
      ForcedAppended(dev.subs, next, ifid.value);
    }
  }

  lemma PutItemLaw(dev: Form, slot: Slot, data: Option<seq<byte>>, other: Slot, ifid: Option<cstring>)
    requires Distinct(dev)
    ensures var r, next := PutItem(dev, slot, data), Written(slot, LookIn(dev.subs, slot), data);
            (r.ok <==> Accepts(slot, data)) && ItemWritten(dev, r.form, slot, next, other, ifid)
  {
    var m := FindForm(dev.subs, ItemFor(slot));
    if m < |dev.subs| {
      DistinctAt(dev.subs, m);
      PutDataLaw(dev.subs[m], slot, data);
      WrittenKnown(dev, PutData(dev.subs[m], slot, data).form, slot, Written(slot, LookIn(dev.subs, slot), data), other, ifid);
    } else {
      NewItemIs(slot, slot);
      PutDataLaw(NewItem(slot), slot, data);
      WrittenNew(dev, PutData(NewItem(slot), slot, data).form, slot, Written(slot, None, data), other, ifid);
    }
  }

  // ------------------------------------------------------------------ devices

  lemma DeviceReplaced(fs: seq<Form>, devid: cstring, next: Form, x: cstring)
    requires Has(fs, DeviceOf(devid))
    requires var dev := fs[FindForm(fs, DeviceOf(devid))];
             next.id == dev.id && Lookup(next.chunks, IFFCHNK_DEVID) == Lookup(dev.chunks, IFFCHNK_DEVID)
    ensures var d := FindForm(fs, DeviceOf(devid));
      && FindForm(fs[d := next], DeviceOf(x)) == FindForm(fs, DeviceOf(x))
      && (FindForm(fs, DeviceOf(x)) == d <==> x == devid)
  {
    var d := FindForm(fs, DeviceOf(devid));
    FindUpdate(fs, d, next, DeviceOf(x));
  }

  lemma DeviceAppended(fs: seq<Form>, devid: cstring, next: Form, x: cstring)
    requires Selects(DeviceOf(devid), next)
    ensures FindForm(fs + [next], DeviceOf(x)) ==
            if Has(fs, DeviceOf(x)) then FindForm(fs, DeviceOf(x)) else if x == devid then |fs| else |fs| + 1
  {
    FindAppend(fs, next, DeviceOf(x));
  }

  lemma NewDeviceIs(devid: cstring)
    ensures Distinct(NewDevice(devid)) && NewDevice(devid).subs == []
    ensures Selects(DeviceOf(devid), NewDevice(devid))
    ensures Lookup(NewDevice(devid).chunks, IFFCHNK_FORCEDBIND).None?
  {
    var f := Form(IFFFORM_DEVICECFG, [], []);
    AddedText(f, IFFCHNK_DEVID, devid, IFFCHNK_DEVID, devid);
    AddIsMapUpdate(f.chunks, StringChunk(IFFCHNK_DEVID, devid), IFFCHNK_FORCEDBIND);
  }

  // ------------------------------------------------------------------ psdSetUsbDevCfg

  // Where to look: data of one device and slot, and a forced binding of that device.
  datatype Probe = Probe(devid: cstring, slot: Slot, ifid: Option<cstring>)

  // The data under (devid, slot) is now `data`; the rest of the store is as it was.
  ghost predicate StoreWritten(cfg: Form, now: Form, devid: cstring, slot: Slot, data: Form, at: Probe) {
    && Distinct(now) && now.id == cfg.id && now.chunks == cfg.chunks
    && GetUsbDevCfg(now, at.devid, at.slot) ==
       (if at.devid == devid && at.slot == slot then Some(data) else GetUsbDevCfg(cfg, at.devid, at.slot))
    && GetForcedBinding(now, at.devid, at.ifid) == GetForcedBinding(cfg, at.devid, at.ifid)
  }

  // What the store shows when the form of a device is replaced, or a new one appended.
  lemma ReplacedView(cfg: Form, devid: cstring, next: Form, at: Probe)
    requires Distinct(cfg) && Distinct(next) && Has(cfg.subs, DeviceOf(devid))
    requires var dev := cfg.subs[FindForm(cfg.subs, DeviceOf(devid))];
             next.id == dev.id && Lookup(next.chunks, IFFCHNK_DEVID) == Lookup(dev.chunks, IFFCHNK_DEVID)
    ensures var now := cfg.(subs := cfg.subs[FindForm(cfg.subs, DeviceOf(devid)) := next]);
      && Distinct(now)
      && GetUsbDevCfg(now, at.devid, at.slot) ==
         (if at.devid == devid then LookIn(next.subs, at.slot) else GetUsbDevCfg(cfg, at.devid, at.slot))
      && GetForcedBinding(now, at.devid, at.ifid) ==
         (if at.devid == devid then GetForcedIn(next, at.ifid) else GetForcedBinding(cfg, at.devid, at.ifid))
  {
    DistinctUpdate(cfg.subs, FindForm(cfg.subs, DeviceOf(devid)), next);
    DeviceReplaced(cfg.subs, devid, next, at.devid);
  }

  lemma AppendedView(cfg: Form, devid: cstring, next: Form, at: Probe)
    requires Distinct(cfg) && Distinct(next) && !Has(cfg.subs, DeviceOf(devid)) && Selects(DeviceOf(devid), next)
    ensures var now := cfg.(subs := cfg.subs + [next]);
      && Distinct(now)
      && GetUsbDevCfg(now, at.devid, at.slot) ==
         (if at.devid == devid then LookIn(next.subs, at.slot) else GetUsbDevCfg(cfg, at.devid, at.slot))
      && GetForcedBinding(now, at.devid, at.ifid) ==
         (if at.devid == devid then GetForcedIn(next, at.ifid) else GetForcedBinding(cfg, at.devid, at.ifid))
  {
    DistinctAppend(cfg.subs, next);
    DeviceAppended(cfg.subs, devid, next, at.devid);
  }

  lemma SetKnownLaw(cfg: Form, devid: cstring, slot: Slot, data: Option<seq<byte>>, at: Probe)
    requires Distinct(cfg) && Has(cfg.subs, DeviceOf(devid))
    ensures var r := SetKnown(cfg, devid, slot, data);
      && (r.ok <==> Accepts(slot, data))
      && StoreWritten(cfg, r.form, devid, slot, Written(slot, GetUsbDevCfg(cfg, devid, slot), data), at)
  {
    var d := FindForm(cfg.subs, DeviceOf(devid));
    DistinctAt(cfg.subs, d);
    PutItemLaw(cfg.subs[d], slot, data, at.slot, at.ifid);
    ReplacedView(cfg, devid, PutItem(cfg.subs[d], slot, data).form, at);
  }

  lemma SetNewLaw(cfg: Form, devid: cstring, slot: Slot, data: Option<seq<byte>>, at: Probe)
    requires Distinct(cfg) && !Has(cfg.subs, DeviceOf(devid))
    ensures var r := PutItem(NewDevice(devid), slot, data);
      && (r.ok <==> Accepts(slot, data))
      && StoreWritten(cfg, cfg.(subs := cfg.subs + [r.form]), devid, slot, Written(slot, None, data), at)
  {
    NewDeviceIs(devid);
    NothingIn(devid, at);
    PutItemLaw(NewDevice(devid), slot, data, at.slot, at.ifid);
    AppendedView(cfg, devid, PutItem(NewDevice(devid), slot, data).form, at);
  }

  // A new device form holds nothing yet.
  lemma NothingIn(devid: cstring, at: Probe)
    ensures LookIn(NewDevice(devid).subs, at.slot) == None && GetForcedIn(NewDevice(devid), at.ifid) == None
  {
    NewDeviceIs(devid);
  }

  // A second form for a known device is never looked at.
  lemma HiddenDevice(cfg: Form, devid: cstring, next: Form, at: Probe)
    requires Distinct(cfg) && Has(cfg.subs, DeviceOf(devid)) && Selects(DeviceOf(devid), next) && Distinct(next)
    ensures var now := cfg.(subs := cfg.subs + [next]);
      && Distinct(now)
      && GetUsbDevCfg(now, at.devid, at.slot) == GetUsbDevCfg(cfg, at.devid, at.slot)
      && GetForcedBinding(now, at.devid, at.ifid) == GetForcedBinding(cfg, at.devid, at.ifid)
  {
    DistinctAppend(cfg.subs, next);
    DeviceAppended(cfg.subs, devid, next, at.devid);
  }

  // The forms below the root: a write adds none when it is accepted for a known device, and one
  // otherwise. No device is forgotten.
  lemma SetDataTree(cfg: Form, devid: cstring, slot: Slot, data: Option<seq<byte>>, x: cstring)
    requires Distinct(cfg)
    ensures var now := SetUsbDevCfg(cfg, devid, slot, data).form.subs;
      && |now| == |cfg.subs| + (if Has(cfg.subs, DeviceOf(devid)) && Accepts(slot, data) then 0 else 1)
      && (Has(cfg.subs, DeviceOf(x)) ==> Has(now, DeviceOf(x)))
  {
    var added := PutItem(NewDevice(devid), slot, data).form;
    NewDeviceIs(devid);
    PutItemLaw(NewDevice(devid), slot, data, slot, None);
    var known := SetKnown(cfg, devid, slot, data);
    if Has(cfg.subs, DeviceOf(devid)) {
      var d := FindForm(cfg.subs, DeviceOf(devid));
      DistinctAt(cfg.subs, d);
      PutItemLaw(cfg.subs[d], slot, data, slot, None);
      DeviceReplaced(cfg.subs, devid, PutItem(cfg.subs[d], slot, data).form, x);
    }
    DeviceAppended(known.form.subs, devid, added, x);
  }

  // What a refused write leaves behind for a known device, besides the first form of that device:
  // another form of it, with the key's item in it.
  lemma RefusedLeaves(cfg: Form, devid: cstring, slot: Slot, data: Option<seq<byte>>)
    requires Distinct(cfg) && Has(cfg.subs, DeviceOf(devid)) && !Accepts(slot, data)
    ensures var now := SetUsbDevCfg(cfg, devid, slot, data).form.subs;
      && |now| == |cfg.subs| + 1
      && Selects(DeviceOf(devid), now[|cfg.subs|])
      && LookIn(now[|cfg.subs|].subs, slot) == Some(Written(slot, None, data))
      && FindForm(now, DeviceOf(devid)) == FindForm(cfg.subs, DeviceOf(devid)) < |cfg.subs|
  {
    NewDeviceIs(devid);
    PutItemLaw(NewDevice(devid), slot, data, slot, None);
    var d := FindForm(cfg.subs, DeviceOf(devid));
    DistinctAt(cfg.subs, d);
    PutItemLaw(cfg.subs[d], slot, data, slot, None);
    var next := PutItem(cfg.subs[d], slot, data).form;
    DeviceReplaced(cfg.subs, devid, next, devid);
    DeviceAppended(cfg.subs[d := next], devid, PutItem(NewDevice(devid), slot, data).form, devid);
  }

  // psdSetUsbDevCfg against psdGetUsbDevCfg and psdGetForcedBinding, whether or not the data
  // is accepted: what was written is under its key, every other key and every forced binding
  // is as before. Writing nothing empties the data. The tree grows by a device form unless the
  // device was known and the data is accepted.
  lemma SetUsbDevCfgLaw(cfg: Form, devid: cstring, slot: Slot, data: Option<seq<byte>>, at: Probe)
    requires Distinct(cfg)
    ensures var r := SetUsbDevCfg(cfg, devid, slot, data);
      && (r.ok <==> Accepts(slot, data))
      && StoreWritten(cfg, r.form, devid, slot, Written(slot, GetUsbDevCfg(cfg, devid, slot), data), at)
      && |r.form.subs| == |cfg.subs| + (if Has(cfg.subs, DeviceOf(devid)) && Accepts(slot, data) then 0 else 1)
      && (data.None? ==> r.ok && GetUsbDevCfg(r.form, devid, slot) == Some(Form(DataId(slot), [], [])))
  {
    SetDataTree(cfg, devid, slot, data, devid);
    SetDataStore(cfg, devid, slot, data, at);
    SetDataStore(cfg, devid, slot, data, Probe(devid, slot, None));
    StoredType(cfg, devid, slot);
  }

  // What is stored under a key has the type of the key's data.
  lemma StoredType(cfg: Form, devid: cstring, slot: Slot)
    ensures var stored := GetUsbDevCfg(cfg, devid, slot); stored.Some? ==> stored.value.id == DataId(slot)
  {
  }

  // The memory starts with the header of a FORM of the given type.
  predicate HasHeader(buf: seq<byte>, id: ulong) {
    IsHeader(buf) && Long(buf, 8) == id
  }

  // A well-formed FORM of the right type is what is stored then, without a trace of what was there.
  ghost predicate StoredWhole(slot: Slot, mem: seq<byte>, now: Form) {
    forall items, short :: WfItem(Group(DataId(slot), items, short)) && ItemBytes(Group(DataId(slot), items, short)) <= mem ==>
      now == PutAll(Form(DataId(slot), [], []), items)
  }

  // What breaks off behind the right header is kept as far as it can be read.
  ghost predicate StoredInPart(slot: Slot, mem: seq<byte>, now: Form)
    requires HasHeader(mem, DataId(slot))
  {
    exists items, cut :: ReadUpTo(Form(DataId(slot), [], []), mem[12..], FormSpace(Long(mem, 4)), items, cut, now)
  }

  // What the data form is after a write of a given form, and whether the write succeeds. Memory
  // without the right header changes nothing.
  ghost predicate Shows(slot: Slot, was: Option<Form>, mem: seq<byte>, ok: bool, now: Form) {
    && (ok <==> StartsWithForm(mem, DataId(slot)))
    && StoredWhole(slot, mem, now)
    && (if HasHeader(mem, DataId(slot)) then StoredInPart(slot, mem, now)
        else now == if was.Some? then was.value else Form(DataId(slot), [], []))
  }

  lemma WholeIsStored(slot: Slot, start: Form, mem: seq<byte>)
    requires start.id == DataId(slot)
    ensures StoredWhole(slot, mem, Write(start, Some(mem)).form)
  {
    forall items, short | WfItem(Group(DataId(slot), items, short)) && ItemBytes(Group(DataId(slot), items, short)) <= mem
      ensures Write(start, Some(mem)).form == PutAll(Form(DataId(slot), [], []), items)
    {
      var all := ItemBytes(Group(DataId(slot), items, short));
      assert mem == all + mem[|all|..];
      ReadGroup(DataId(slot), items, short, start, mem[|all|..]);
    }
  }

  lemma PartIsStored(slot: Slot, start: Form, mem: seq<byte>)
    requires |mem| < LIMIT && start.id == DataId(slot) && HasHeader(mem, DataId(slot))
    ensures StoredInPart(slot, mem, Write(start, Some(mem)).form)
  {
    var items, cut := ReadSoFar(Form(DataId(slot), [], []), mem[12..], FormSpace(Long(mem, 4)));
  }

  lemma WrittenShows(slot: Slot, was: Option<Form>, mem: seq<byte>)
    requires |mem| < LIMIT && (was.Some? ==> was.value.id == DataId(slot))
    ensures Shows(slot, was, mem, Accepts(slot, Some(mem)), Written(slot, was, Some(mem)))
  {
    var start := Start(slot, was);
    ReadAccepts(Form(DataId(slot), [], []), mem);
    WholeIsStored(slot, start, mem);
    if HasHeader(mem, DataId(slot)) {
      PartIsStored(slot, start, mem);
    }
  }

  // The same through psdSetUsbDevCfg and psdGetUsbDevCfg.
  lemma GetAfterSet(cfg: Form, devid: cstring, slot: Slot, mem: seq<byte>)
    requires Distinct(cfg) && |mem| < LIMIT
    ensures var r := SetUsbDevCfg(cfg, devid, slot, Some(mem));
      var now := GetUsbDevCfg(r.form, devid, slot);
      now.Some? && Shows(slot, GetUsbDevCfg(cfg, devid, slot), mem, r.ok, now.value)
  {
    SetDataStore(cfg, devid, slot, Some(mem), Probe(devid, slot, None));
    StoredType(cfg, devid, slot);
    WrittenShows(slot, GetUsbDevCfg(cfg, devid, slot), mem);
  }

  lemma SetDataStore(cfg: Form, devid: cstring, slot: Slot, data: Option<seq<byte>>, at: Probe)
    requires Distinct(cfg)
    ensures var r := SetUsbDevCfg(cfg, devid, slot, data);
      && (r.ok <==> Accepts(slot, data))
      && StoreWritten(cfg, r.form, devid, slot, Written(slot, GetUsbDevCfg(cfg, devid, slot), data), at)
  {
    if Has(cfg.subs, DeviceOf(devid)) {
      SetKnownLaw(cfg, devid, slot, data, at);
      var known := SetKnown(cfg, devid, slot, data);
      if !known.ok {
        NewDeviceIs(devid);
        PutItemLaw(NewDevice(devid), slot, data, at.slot, at.ifid);
        SetKnownLaw(cfg, devid, slot, data, Probe(devid, slot, None));
        StillKnown(cfg, devid, slot, data);
        HiddenDevice(known.form, devid, PutItem(NewDevice(devid), slot, data).form, at);
      }
    } else {
      SetNewLaw(cfg, devid, slot, data, at);
    }
  }

  lemma StillKnown(cfg: Form, devid: cstring, slot: Slot, data: Option<seq<byte>>)
    requires Distinct(cfg) && Has(cfg.subs, DeviceOf(devid))
    ensures Has(SetKnown(cfg, devid, slot, data).form.subs, DeviceOf(devid))
  {
    var d := FindForm(cfg.subs, DeviceOf(devid));
    DistinctAt(cfg.subs, d);
    PutItemLaw(cfg.subs[d], slot, data, slot, None);
    DeviceReplaced(cfg.subs, devid, PutItem(cfg.subs[d], slot, data).form, devid);
  }

  // Storing a printed form stores that form. A form of another type is refused and leaves the
  // data that was there; a key without data then has an empty form.
  lemma StorePrinted(slot: Slot, current: Option<Form>, f: Form, rest: seq<byte>)
    requires Fits(f) && (current.Some? ==> current.value.id == DataId(slot))
    ensures var data := Some(Print(f) + rest);
      && (Accepts(slot, data) <==> f.id == DataId(slot))
      && Written(slot, current, data) ==
         if f.id == DataId(slot) then f else if current.Some? then current.value else Form(DataId(slot), [], [])
  {
    ReadBack(f, Start(slot, current), rest);
    ReadBack(f, Form(DataId(slot), [], []), rest);
  }

  // The forms a first write for a device adds, as they stand in the tree: 'DEVC' with the device,
  // in it 'DCFG' or 'ICFG' with owner and interface, in that the data.
  lemma FirstWrite(cfg: Form, devid: cstring, slot: Slot, data: Option<seq<byte>>)
    requires Distinct(cfg) && !Has(cfg.subs, DeviceOf(devid))
    ensures var owner := StringChunk(0x4F574E52, slot.owner);
      var written := Written(slot, None, data);
      var item := match slot.ifid
                  case None => Form(0x44434647, [owner], [written])
                  case Some(ifid) => Form(0x49434647, [owner, StringChunk(0x49464944, ifid)], [written]);
      SetUsbDevCfg(cfg, devid, slot, data).form.subs == cfg.subs + [Form(0x44455643, [StringChunk(0x44564944, devid)], [item])]
    ensures DataId(slot) == if slot.ifid.None? then 0x44435044 else 0x49435044
  {
    var f0 := Form(ItemId(slot), [], []);
    OneChunk(f0, IFFCHNK_OWNER, slot.owner);
    if slot.ifid.Some? {
      TwoChunks(StringChunk(IFFCHNK_OWNER, slot.owner), IFFCHNK_IFID, slot.ifid.value);
    }
    OneChunk(Form(IFFFORM_DEVICECFG, [], []), IFFCHNK_DEVID, devid);
    OnlyOne(PutData(NewItem(slot), slot, data).form);
    OnlyOne(Written(slot, None, data));
  }

  lemma OneChunk(f: Form, id: ulong, str: cstring)
    requires f.chunks == []
    ensures AddString(f, id, str).chunks == [StringChunk(id, str)]
  {
    assert RemoveChunk([], id) == [];
  }

  lemma TwoChunks(c: Chunk, id: ulong, str: cstring)
    requires c.id != id
    ensures AddChunk([c], StringChunk(id, str)) == [c, StringChunk(id, str)]
  {
    assert FindChunk([c], id) == 1;
  }

  lemma OnlyOne(f: Form)
    ensures [] + [f] == [f]
  {
  }

  // ------------------------------------------------------------------ psdSetForcedBinding

  function ForcedAs(owner: cstring): Option<cstring> {
    if owner == [] then None else Some(owner)
  }

  lemma ForceLaw(f: Form, owner: cstring, id: ulong)
    requires DistinctIds(f.chunks)
    ensures var r := Force(f, owner);
      && r.id == f.id && r.subs == f.subs && DistinctIds(r.chunks)
      && ForcedText(r.chunks) == ForcedAs(owner)
      && (id != IFFCHNK_FORCEDBIND ==> Lookup(r.chunks, id) == Lookup(f.chunks, id))
  {
    if owner == [] {
      RemoveIsMapRemove(f.chunks, IFFCHNK_FORCEDBIND, id);
      RemoveIsMapRemove(f.chunks, IFFCHNK_FORCEDBIND, IFFCHNK_FORCEDBIND);
    } else {
      CStrOfString(owner);
      AddIsMapUpdate(f.chunks, StringChunk(IFFCHNK_FORCEDBIND, owner), id);
      AddIsMapUpdate(f.chunks, StringChunk(IFFCHNK_FORCEDBIND, owner), IFFCHNK_FORCEDBIND);
    }
  }

  lemma ForceOneLaw(f: Form, ifid: cstring, owner: cstring, slot: Slot, x: cstring)
    requires Distinct(f)
    ensures var r := ForceOne(f, ifid, owner);
      && Distinct(r) && r.subs == f.subs
      && (Selects(ItemFor(slot), r) <==> Selects(ItemFor(slot), f))
      && (Selects(ForcedOf(x), r) <==> if x == ifid then Selects(InterfaceOf(x), f) && owner != [] else Selects(ForcedOf(x), f))
      && (Selects(ForcedOf(x), r) ==> ForcedText(r.chunks) == if x == ifid then Some(owner) else ForcedText(f.chunks))
  {
    ForceLaw(f, owner, IFFCHNK_IFID);
    ForceLaw(f, owner, IFFCHNK_OWNER);
  }

  lemma {:induction false} ForceAllDistinct(fs: seq<Form>, ifid: cstring, owner: cstring)
    requires AllDistinct(fs)
    ensures AllDistinct(ForceAll(fs, ifid, owner))
  {
    if fs != [] {
      ForceOneLaw(fs[0], ifid, owner, Slot([], None), []);
      ForceAllDistinct(fs[1..], ifid, owner);
      assert ForceAll(fs, ifid, owner)[1..] == ForceAll(fs[1..], ifid, owner);
    }
  }

  lemma ForceAllData(fs: seq<Form>, ifid: cstring, owner: cstring, slot: Slot)
    requires AllDistinct(fs)
    ensures LookIn(ForceAll(fs, ifid, owner), slot) == LookIn(fs, slot)
  {
    var r := ForceAll(fs, ifid, owner);
    forall k | 0 <= k < |fs|
      ensures r[k].subs == fs[k].subs && (Selects(ItemFor(slot), r[k]) <==> Selects(ItemFor(slot), fs[k]))
    {
      DistinctAt(fs, k);
      ForceOneLaw(fs[k], ifid, owner, slot, []);
      ForceAllAt(fs, ifid, owner, k);
    }
    FindIs(r, ItemFor(slot), FindForm(fs, ItemFor(slot)));
  }

  lemma ForceAllForced(fs: seq<Form>, ifid: cstring, owner: cstring, x: cstring)
    requires AllDistinct(fs) && (owner != [] ==> Has(fs, InterfaceOf(ifid)))
    ensures ForcedIn(ForceAll(fs, ifid, owner), x) == if x == ifid then ForcedAs(owner) else ForcedIn(fs, x)
  {
    var r := ForceAll(fs, ifid, owner);
    forall k | 0 <= k < |fs|
      ensures Selects(ForcedOf(x), r[k]) <==>
        (if x == ifid then Selects(InterfaceOf(x), fs[k]) && owner != [] else Selects(ForcedOf(x), fs[k]))
      ensures Selects(ForcedOf(x), r[k]) ==> ForcedText(r[k].chunks) == if x == ifid then Some(owner) else ForcedText(fs[k].chunks)
    {
      DistinctAt(fs, k);
      ForceOneLaw(fs[k], ifid, owner, Slot([], None), x);
      ForceAllAt(fs, ifid, owner, k);
    }
    if x != ifid {
      FindIs(r, ForcedOf(x), FindForm(fs, ForcedOf(x)));
    } else if owner == [] {
      FindIs(r, ForcedOf(x), |fs|);
    } else {
      FindIs(r, ForcedOf(x), FindForm(fs, InterfaceOf(x)));
    }
  }

  lemma NewForcedIs(ifid: cstring, owner: cstring, slot: Slot, x: cstring)
    ensures var f := NewForced(ifid, owner);
      && Distinct(f) && f.subs == []
      && (Selects(ItemFor(slot), f) <==> slot == Slot(owner, Some(ifid)))
      && (Selects(InterfaceOf(x), f) <==> x == ifid)
      && (Selects(ForcedOf(x), f) <==> x == ifid)
      && ForcedText(f.chunks) == Some(owner)
  {
    var f0 := Form(IFFFORM_IFCFGDATA, [], []);
    var f1 := AddString(f0, IFFCHNK_OWNER, owner);
    var f2 := AddString(f1, IFFCHNK_FORCEDBIND, owner);
    AddedText(f0, IFFCHNK_OWNER, owner, IFFCHNK_OWNER, slot.owner);
    AddedText(f1, IFFCHNK_FORCEDBIND, owner, IFFCHNK_OWNER, slot.owner);
    AddedText(f2, IFFCHNK_IFID, ifid, IFFCHNK_OWNER, slot.owner);
    AddedText(f2, IFFCHNK_IFID, ifid, IFFCHNK_IFID, x);
    if slot.ifid.Some? {
      AddedText(f2, IFFCHNK_IFID, ifid, IFFCHNK_IFID, slot.ifid.value);
    }
    CStrOfString(owner);
    AddIsMapUpdate(f1.chunks, StringChunk(IFFCHNK_FORCEDBIND, owner), IFFCHNK_FORCEDBIND);
    AddIsMapUpdate(f2.chunks, StringChunk(IFFCHNK_IFID, ifid), IFFCHNK_FORCEDBIND);
  }

  // An interface nobody has a form for gets one, with no data in it.
  lemma ForceNew(fs: seq<Form>, ifid: cstring, owner: cstring, slot: Slot, x: cstring)
    requires AllDistinct(fs) && !Has(fs, InterfaceOf(ifid))
    ensures var r := fs + [NewForced(ifid, owner)];
      && AllDistinct(r)
      && LookIn(r, slot) == LookIn(fs, slot)
      && ForcedIn(r, x) == if x == ifid then Some(owner) else ForcedIn(fs, x)
  {
    var f := NewForced(ifid, owner);
    NewForcedIs(ifid, owner, slot, x);
    DistinctAppend(fs, f);
    FindAppend(fs, f, ItemFor(slot));
    FindAppend(fs, f, ForcedOf(x));
    if x == ifid && Has(fs, ForcedOf(x)) {
      assert Selects(InterfaceOf(x), fs[FindForm(fs, ForcedOf(x))]);
    }
  }

  // Every form of the interface has the binding, or none has; other forms are as they were.
  lemma ForcedEverywhere(fs: seq<Form>, ifid: cstring, owner: cstring, k: nat)
    requires AllDistinct(fs) && k < |fs|
    ensures var r := ForceAll(fs, ifid, owner);
      && |r| == |fs|
      && (if Selects(InterfaceOf(ifid), fs[k]) then ForcedText(r[k].chunks) == ForcedAs(owner) else r[k] == fs[k])
  {
    DistinctAt(fs, k);
    ForceAllAt(fs, ifid, owner, k);
    ForceLaw(fs[k], owner, IFFCHNK_IFID);
  }

  // A form is added exactly for an interface without one, and it is then the one in which the
  // same owner keeps its data for the interface.
  lemma ForcedItem(dev: Form, ifid: cstring, owner: cstring)
    requires Distinct(dev)
    ensures var r := SetForcedIn(dev, Some(ifid), owner).subs;
      if owner == [] || Has(dev.subs, InterfaceOf(ifid)) then |r| == |dev.subs|
      else |r| == |dev.subs| + 1 && r[..|dev.subs|] == dev.subs && FindForm(r, ItemFor(Slot(owner, Some(ifid)))) == |dev.subs|
  {
    if owner != [] && !Has(dev.subs, InterfaceOf(ifid)) {
      var slot := Slot(owner, Some(ifid));
      NewForcedIs(ifid, owner, slot, ifid);
      FindAppend(dev.subs, NewForced(ifid, owner), ItemFor(slot));
      if Has(dev.subs, ItemFor(slot)) {
        assert Selects(InterfaceOf(ifid), dev.subs[FindForm(dev.subs, ItemFor(slot))]);
      }
    }
  }

  // Forcing a binding below one device.
  lemma SetForcedInLaw(dev: Form, ifid: Option<cstring>, owner: cstring, slot: Slot, x: Option<cstring>)
    requires Distinct(dev)
    ensures var r := SetForcedIn(dev, ifid, owner);
      && Distinct(r) && r.id == dev.id
      && Lookup(r.chunks, IFFCHNK_DEVID) == Lookup(dev.chunks, IFFCHNK_DEVID)
      && LookIn(r.subs, slot) == LookIn(dev.subs, slot)
      && GetForcedIn(r, x) == if x == ifid then ForcedAs(owner) else GetForcedIn(dev, x)
  {
    match ifid
    case None => ForceLaw(dev, owner, IFFCHNK_DEVID);
    case Some(i) =>
      var y := if x.Some? then x.value else [];
      if owner != [] && !Has(dev.subs, InterfaceOf(i)) {
        ForceNew(dev.subs, i, owner, slot, y);
      } else {
        ForceAllDistinct(dev.subs, i, owner);
        ForceAllData(dev.subs, i, owner, slot);
        ForceAllForced(dev.subs, i, owner, y);
      }
  }

  // The forced binding of (devid, ifid) is now `owner`, or none; the rest is as it was.
  ghost predicate StoreForced(cfg: Form, now: Form, devid: cstring, ifid: Option<cstring>, owner: cstring, at: Probe) {
    && Distinct(now)
    && GetUsbDevCfg(now, at.devid, at.slot) == GetUsbDevCfg(cfg, at.devid, at.slot)
    && GetForcedBinding(now, at.devid, at.ifid) ==
       if at.devid == devid && at.ifid == ifid then ForcedAs(owner) else GetForcedBinding(cfg, at.devid, at.ifid)
  }

  // psdSetForcedBinding against psdGetForcedBinding and psdGetUsbDevCfg, removal included.
  lemma SetForcedBindingLaw(cfg: Form, devid: cstring, ifid: Option<cstring>, owner: cstring, at: Probe)
    requires Distinct(cfg)
    ensures StoreForced(cfg, SetForcedBinding(cfg, devid, ifid, owner), devid, ifid, owner, at)
  {
    var d := FindForm(cfg.subs, DeviceOf(devid));
    if d < |cfg.subs| {
      DistinctAt(cfg.subs, d);
      SetForcedInLaw(cfg.subs[d], ifid, owner, at.slot, at.ifid);
      ReplacedView(cfg, devid, SetForcedIn(cfg.subs[d], ifid, owner), at);
    } else if owner != [] {
      NewDeviceIs(devid);
      NothingIn(devid, at);
      SetForcedInLaw(NewDevice(devid), ifid, owner, at.slot, at.ifid);
      AppendedView(cfg, devid, SetForcedIn(NewDevice(devid), ifid, owner), at);
    }
  }

  // ------------------------------------------------------------------ any sequence of writes

  datatype Op =
    | SetData(devid: cstring, slot: Slot, data: Option<seq<byte>>)
    | SetForced(devid: cstring, ifid: Option<cstring>, owner: cstring)

  function Apply(cfg: Form, op: Op): Form {
    match op
    case SetData(devid, slot, data) => SetUsbDevCfg(cfg, devid, slot, data).form
    case SetForced(devid, ifid, owner) => SetForcedBinding(cfg, devid, ifid, owner)
  }

  function Run(cfg: Form, ops: seq<Op>): Form
    decreases |ops|
  {
    if ops == [] then cfg else Run(Apply(cfg, ops[0]), ops[1..])
  }

  // What one key of each map holds after the same writes, seen on their own.
  function DataAfter(current: Option<Form>, ops: seq<Op>, devid: cstring, slot: Slot): Option<Form>
    decreases |ops|
  {
    if ops == [] then current
    else
      var op := ops[0];
      var next := if op.SetData? && op.devid == devid && op.slot == slot then Some(Written(slot, current, op.data)) else current;
      DataAfter(next, ops[1..], devid, slot)
  }

  function ForcedAfter(current: Option<cstring>, ops: seq<Op>, devid: cstring, ifid: Option<cstring>): Option<cstring>
    decreases |ops|
  {
    if ops == [] then current
    else
      var op := ops[0];
      var next := if op.SetForced? && op.devid == devid && op.ifid == ifid then ForcedAs(op.owner) else current;
      ForcedAfter(next, ops[1..], devid, ifid)
  }

  // Over any sequence of writes, accepted or refused, the store is these two maps.
  lemma {:induction false} StoreIsTwoMaps(cfg: Form, ops: seq<Op>, at: Probe)
    requires Distinct(cfg)
    ensures Distinct(Run(cfg, ops))
    ensures GetUsbDevCfg(Run(cfg, ops), at.devid, at.slot) ==
            DataAfter(GetUsbDevCfg(cfg, at.devid, at.slot), ops, at.devid, at.slot)
    ensures GetForcedBinding(Run(cfg, ops), at.devid, at.ifid) ==
            ForcedAfter(GetForcedBinding(cfg, at.devid, at.ifid), ops, at.devid, at.ifid)
    decreases |ops|
  {
    if ops != [] {
      match ops[0] {
        case SetData(devid, slot, data) => SetUsbDevCfgLaw(cfg, devid, slot, data, at);
        case SetForced(devid, ifid, owner) => SetForcedBindingLaw(cfg, devid, ifid, owner, at);
      }
      StoreIsTwoMaps(Apply(cfg, ops[0]), ops[1..], at);
    }
  }

  // ------------------------------------------------------------------ the size of the tree

  lemma SetForcedTree(cfg: Form, devid: cstring, ifid: Option<cstring>, owner: cstring, x: cstring)
    requires Distinct(cfg)
    ensures var now := SetForcedBinding(cfg, devid, ifid, owner).subs;
      && |now| == |cfg.subs| + (if Has(cfg.subs, DeviceOf(devid)) || owner == [] then 0 else 1)
      && (Has(cfg.subs, DeviceOf(x)) ==> Has(now, DeviceOf(x)))
  {
    var slot := Slot([], None);
    var d := FindForm(cfg.subs, DeviceOf(devid));
    if d < |cfg.subs| {
      DistinctAt(cfg.subs, d);
      SetForcedInLaw(cfg.subs[d], ifid, owner, slot, ifid);
      DeviceReplaced(cfg.subs, devid, SetForcedIn(cfg.subs[d], ifid, owner), x);
    } else if owner != [] {
      NewDeviceIs(devid);
      SetForcedInLaw(NewDevice(devid), ifid, owner, slot, ifid);
      DeviceAppended(cfg.subs, devid, SetForcedIn(NewDevice(devid), ifid, owner), x);
    }
  }

  // The data writes among `ops` that are refused.
  function Refusals(ops: seq<Op>): nat {
    if ops == [] then 0
    else (if ops[0].SetData? && !Accepts(ops[0].slot, ops[0].data) then 1 else 0) + Refusals(ops[1..])
  }

  // Over any writes of both kinds for devices that are known, the tree grows by one form for
  // every refused data write, and by nothing else.
  lemma {:induction false} RefusalsPile(cfg: Form, ops: seq<Op>)
    requires Distinct(cfg) && forall k :: 0 <= k < |ops| ==> Has(cfg.subs, DeviceOf(ops[k].devid))
    ensures |Run(cfg, ops).subs| == |cfg.subs| + Refusals(ops)
    decreases |ops|
  {
    if ops != [] {
      var next := Apply(cfg, ops[0]);
      var at := Probe([], Slot([], None), None);
      forall k | 0 <= k < |ops[1..]|
        ensures Has(next.subs, DeviceOf(ops[1..][k].devid))
      {
        var x := ops[k + 1].devid;
        match ops[0]
        case SetData(devid, slot, data) => SetDataTree(cfg, devid, slot, data, x);
        case SetForced(devid, ifid, owner) => SetForcedTree(cfg, devid, ifid, owner, x);
      }
      assert Has(cfg.subs, DeviceOf(ops[0].devid));
      match ops[0] {
        case SetData(devid, slot, data) => SetUsbDevCfgLaw(cfg, devid, slot, data, at);
        case SetForced(devid, ifid, owner) =>
          SetForcedTree(cfg, devid, ifid, owner, devid);
          SetForcedBindingLaw(cfg, devid, ifid, owner, at);
      }
      RefusalsPile(next, ops[1..]);
    }
  }
}
