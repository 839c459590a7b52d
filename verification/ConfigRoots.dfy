/**
 The keyed store as the library walks it: the loops over sibling forms of one type below
 ps_ConfigRoot, changing the forms they find through their own pointers.
 */
module ConfigRoots {
  import opened Common
  import opened Iff
  import opened IffRoundTrip
  import opened IffContexts
  import opened ConfigStore

  // ------------------------------------------------------------------ finding forms

  // psdFindCfgForm and psdNextCfgForm: the next form of a type from position `from` on.
  method NextCfgForm(pic: Context, id: ulong, from: nat) returns (k: nat)
    requires pic.Valid() && from <= |pic.form.subs|
    ensures from <= k <= |pic.form.subs|
    ensures k < |pic.form.subs| ==> pic.form.subs[k].id == id
    ensures forall j :: from <= j < k ==> pic.form.subs[j].id != id
  {
    pic.SubCount();
    k := from;
    while k < |pic.subForms| && pic.subForms[k].formId != id
      invariant from <= k <= |pic.subForms|
      invariant forall j :: from <= j < k ==> pic.form.subs[j].id != id
    {
      pic.SubAt(k);
      k := k + 1;
    }
    if k < |pic.subForms| {
      pic.SubAt(k);
    }
  }

  // The end of the string in a block.
  lemma {:induction false} CStrEnd(data: seq<byte>)
    ensures |CStr(data)| <= |data| && CStr(data) == data[..|CStr(data)|]
    ensures |CStr(data)| < |data| ==> data[|CStr(data)|] == 0
  {
    if data != [] && data[0] != 0 {
      CStrEnd(data[1..]);
    }
  }

  // The data of the k-th chunk, at offset p of the buffer.
  lemma DataSeen(buf: seq<byte>, cs: seq<Chunk>, k: nat, p: nat)
    requires WfChunks(cs) && k < |cs| && buf == Packed(cs)
    requires WfChunks(cs[..k]) && p == |Packed(cs[..k])|
    ensures p + 8 + |cs[k].data| <= |buf| && buf[p + 8..p + 8 + |cs[k].data|] == cs[k].data
  {
    PackedSplit(cs, k);
    InnerPart(Packed(cs[..k]), LongBytes(cs[k].id) + LongBytes(|cs[k].data|), cs[k].data, cs[k].pad, Packed(cs[k + 1..]));
  }

  lemma InnerPart(a: seq<byte>, head: seq<byte>, data: seq<byte>, pad: seq<byte>, z: seq<byte>)
    ensures var all := a + ((head + data + pad) + z); var at := |a| + |head|;
      at + |data| <= |all| && all[at..at + |data|] == data
  {
    assert a + ((head + data + pad) + z) == (a + head) + data + (pad + z);
  }

  // Where the data of a chunk is in the buffer of its form.
  method FindData(f: Context, id: ulong) returns (found: bool, at: nat, len: nat)
    requires f.Valid()
    ensures found <==> Lookup(f.form.chunks, id).Some?
    ensures found ==> at + len <= f.chunksLen && f.chunks[at..at + len] == Lookup(f.form.chunks, id).value
  {
    at, len := 0, 0;
    var p := f.FindCfgChunk(id);
    found := p < f.chunksLen;
    if found {
      ghost var cs, k := f.form.chunks, FindChunk(f.form.chunks, id);
      var buf := f.chunks[..f.chunksLen];
      ChunkSeen(buf, cs, k, p);
      DataSeen(buf, cs, k, p);
      at, len := p + 8, Long(buf, p + 4);
    }
  }

  // The loop of pMatchStringChunk over the characters at `at`.
  method MatchText(buf: array<byte>, at: nat, len: nat, str: cstring) returns (r: bool)
    requires at + len <= buf.Length
    ensures r <==> CStr(buf[at..at + len]) == str
  {
    ghost var data := buf[at..at + len];
    ghost var text := CStr(data);
    CStrEnd(data);
    var i := 0;
    while i < len && buf[at + i] != 0
      invariant i <= len && i <= |text| && i <= |str| && str[..i] == text[..i]
    {
      assert data[i] == buf[at + i] && i < |text| && text[i] == data[i];
      if i == |str| || str[i] != buf[at + i] {
        return false;
      }
      i := i + 1;
    }
    assert i == |text| by {
      if i < len {
        assert data[i] == 0;
      }
    }
    return i == |str|;
  }

  // pMatchStringChunk.
  method MatchStringChunk(f: Context, id: ulong, str: cstring) returns (r: bool)
    requires f.Valid()
    ensures r <==> MatchesText(f.form, id, str)
  {
    var found, at, len := FindData(f, id);
    if !found {
      return false;
    }
    r := MatchText(f.chunks, at, len, str);
  }

  // The loop over the device forms.
  method FindDevice(cfg: Context, devid: cstring) returns (d: nat)
    requires cfg.Valid()
    ensures d == FindForm(cfg.form.subs, DeviceOf(devid))
  {
    cfg.SubCount();
    ghost var fs := cfg.form.subs;
    d := NextCfgForm(cfg, IFFFORM_DEVICECFG, 0);
    while d < |cfg.subForms|
      invariant d <= |fs| && (d < |fs| ==> fs[d].id == IFFFORM_DEVICECFG)
      invariant forall j {:trigger fs[j]} :: 0 <= j < d ==> !Selects(DeviceOf(devid), fs[j])
    {
      cfg.SubAt(d);
      var hit := MatchStringChunk(cfg.subForms[d], IFFCHNK_DEVID, devid);
      if hit {
        break;
      }
      d := NextCfgForm(cfg, IFFFORM_DEVICECFG, d + 1);
    }
    FindIs(fs, DeviceOf(devid), d);
  }

  // Whether a form of the right type is that of the slot.
  method MatchItem(f: Context, slot: Slot) returns (hit: bool)
    requires f.Valid() && f.formId == ItemId(slot)
    ensures hit <==> Selects(ItemFor(slot), f.form)
  {
    hit := true;
    if slot.ifid.Some? {
      hit := MatchStringChunk(f, IFFCHNK_IFID, slot.ifid.value);
    }
    if hit {
      hit := MatchStringChunk(f, IFFCHNK_OWNER, slot.owner);
    }
  }

  // The loop over the items of a device.
  method FindItem(dev: Context, slot: Slot) returns (m: nat)
    requires dev.Valid()
    ensures m == FindForm(dev.form.subs, ItemFor(slot))
  {
    dev.SubCount();
    ghost var fs := dev.form.subs;
    m := NextCfgForm(dev, ItemId(slot), 0);
    while m < |dev.subForms|
      invariant m <= |fs| && (m < |fs| ==> fs[m].id == ItemId(slot))
      invariant forall j {:trigger fs[j]} :: 0 <= j < m ==> !Selects(ItemFor(slot), fs[j])
    {
      dev.SubAt(m);
      var hit := MatchItem(dev.subForms[m], slot);
      if hit {
        break;
      }
      m := NextCfgForm(dev, ItemId(slot), m + 1);
    }
    FindIs(fs, ItemFor(slot), m);
  }

  // ------------------------------------------------------------------ writing strings

  // What fits into memory with its chunk header.
  predicate Short(str: cstring) {
    |str| < LIMIT - 16
  }

  predicate ShortSlot(slot: Slot) {
    Short(slot.owner) && (slot.ifid.Some? ==> Short(slot.ifid.value))
  }

  lemma ChunkText(id: ulong, str: cstring)
    requires Short(str)
    ensures var rest: seq<byte> := if |str| % 2 == 0 then [] else [0];
      ChunkBytes(StringChunk(id, str)) + rest == LongBytes(id) + LongBytes(|str| + 1) + str + [0, 0]
  {
    var rest: seq<byte> := if |str| % 2 == 0 then [] else [0];
    assert [0] + ([0] + []) == [0, 0] && [0] + ([] + [0]) == [0, 0];
    Parts(LongBytes(id) + LongBytes(|str| + 1), str, StringChunk(id, str).pad, rest);
  }

  lemma TextBytes(pic: Form, id: ulong, str: cstring)
    requires Short(str) && id != ID_FORM
    ensures AddEntry(pic, LongBytes(id) + LongBytes(|str| + 1) + str + [0, 0]) == Parsed(AddString(pic, id, str), true)
  {
    var c := StringChunk(id, str);
    var rest: seq<byte> := if |str| % 2 == 0 then [] else [0];
    assert WfItem(Leaf(c));
    ParseItem(pic, Leaf(c), rest);
    ChunkText(id, str);
  }

  lemma Parts(head: seq<byte>, str: seq<byte>, pad: seq<byte>, rest: seq<byte>)
    requires [0] + (pad + rest) == [0, 0]
    ensures head + (str + [0]) + pad + rest == head + str + [0, 0]
  {
    assert head + (str + [0]) + pad + rest == head + str + ([0] + (pad + rest));
  }

  // pAddStringChunk.
  method AddStringChunk(f: Context, id: ulong, str: cstring)
    requires f.Valid() && Short(str) && id != ID_FORM
    modifies f.repr
    ensures f.Valid() && fresh(f.repr - old(f.repr)) && f.form == AddString(old(f.form), id, str)
  {
    TextBytes(f.form, id, str);
    var _ := f.AddCfgChunk(LongBytes(id) + LongBytes(|str| + 1) + str + [0, 0]);
  }

  // The same for sub-form m of a form.
  method AddStringBelow(pic: Context, m: nat, id: ulong, str: cstring)
    requires pic.Valid() && m < |pic.form.subs| && Short(str) && id != ID_FORM
    modifies pic.repr
    ensures pic.Valid() && fresh(pic.repr - old(pic.repr))
    ensures pic.form == old(pic.form).(subs := old(pic.form).subs[m := AddString(old(pic.form).subs[m], id, str)])
  {
    pic.SubFacts();
    AddStringChunk(pic.subForms[m], id, str);
    pic.Renew(m);
  }

  lemma LastUpdated(fs: seq<Form>, f: Form, g: Form)
    ensures (fs + [f])[|fs| := g] == fs + [g]
  {
  }

  // The same for the form at the end of the list.
  method AddStringLast(pic: Context, ghost subs: seq<Form>, ghost f: Form, id: ulong, str: cstring)
    requires pic.Valid() && pic.form.subs == subs + [f] && Short(str) && id != ID_FORM
    modifies pic.repr
    ensures pic.Valid() && fresh(pic.repr - old(pic.repr))
    ensures pic.form == old(pic.form).(subs := subs + [AddString(f, id, str)])
  {
    pic.SubCount();
    AddStringBelow(pic, |pic.subForms| - 1, id, str);
    LastUpdated(subs, f, AddString(f, id, str));
  }

  // ------------------------------------------------------------------ storing data

  // The data form c of an item: read anew or cleared.
  method WriteData(item: Context, c: nat, data: Option<seq<byte>>) returns (ok: bool)
    requires item.Valid() && c < |item.form.subs| && (data.Some? ==> |data.value| < LIMIT)
    modifies item.repr
    ensures item.Valid() && fresh(item.repr - old(item.repr))
    ensures var w := Write(old(item.form).subs[c], data);
      ok == w.ok && item.form == old(item.form).(subs := old(item.form).subs[c := w.form])
  {
    item.SubFacts();
    ok := WriteForm(item.subForms[c], data);
    item.Renew(c);
  }

  method WriteForm(f: Context, data: Option<seq<byte>>) returns (ok: bool)
    requires f.Valid() && (data.Some? ==> |data.value| < LIMIT)
    modifies f.repr
    ensures f.Valid() && fresh(f.repr - old(f.repr)) && Parsed(f.form, ok) == Write(old(f.form), data)
  {
    match data
    case Some(mem) => ok := f.ReadCfg(mem);
    case None =>
      f.SubCount();
      f.Clear();
      ok := true;
  }

  // The data form of an item, which is allocated when missing.
  method StoreInItem(item: Context, slot: Slot, data: Option<seq<byte>>) returns (ok: bool)
    requires item.Valid() && (data.Some? ==> |data.value| < LIMIT)
    modifies item.repr
    ensures item.Valid() && fresh(item.repr - old(item.repr))
    ensures Parsed(item.form, ok) == PutData(old(item.form), slot, data)
  {
    item.SubCount();
    ghost var was := item.form;
    var c := NextCfgForm(item, DataId(slot), 0);
    FindIs(was.subs, DataOf(DataId(slot)), c);
    if c == |item.subForms| {
      item.NewSub(DataId(slot));
      ok := WriteData(item, c, data);
      LastUpdated(was.subs, Start(slot, None), Write(Start(slot, None), data).form);
    } else {
      ok := WriteData(item, c, data);
    }
  }

  method StoreItemBelow(dev: Context, m: nat, slot: Slot, data: Option<seq<byte>>) returns (ok: bool)
    requires dev.Valid() && m < |dev.form.subs| && (data.Some? ==> |data.value| < LIMIT)
    modifies dev.repr
    ensures dev.Valid() && fresh(dev.repr - old(dev.repr))
    ensures var r := PutData(old(dev.form).subs[m], slot, data);
      ok == r.ok && dev.form == old(dev.form).(subs := old(dev.form).subs[m := r.form])
  {
    dev.SubFacts();
    ok := StoreInItem(dev.subForms[m], slot, data);
    dev.Renew(m);
  }

  // A new item form with its strings.
  method AddItem(dev: Context, slot: Slot)
    requires dev.Valid() && ShortSlot(slot)
    modifies dev.repr
    ensures dev.Valid() && fresh(dev.repr - old(dev.repr))
    ensures dev.form == old(dev.form).(subs := old(dev.form).subs + [NewItem(slot)])
  {
    ghost var subs, f := dev.form.subs, Form(ItemId(slot), [], []);
    dev.NewSub(ItemId(slot));
    AddStringLast(dev, subs, f, IFFCHNK_OWNER, slot.owner);
    if slot.ifid.Some? {
      AddStringLast(dev, subs, AddString(f, IFFCHNK_OWNER, slot.owner), IFFCHNK_IFID, slot.ifid.value);
    }
  }

  // The part of psdSetUsbDevCfg below one device form.
  method StoreInDevice(dev: Context, slot: Slot, data: Option<seq<byte>>) returns (ok: bool)
    requires dev.Valid() && ShortSlot(slot) && (data.Some? ==> |data.value| < LIMIT)
    modifies dev.repr
    ensures dev.Valid() && fresh(dev.repr - old(dev.repr))
    ensures Parsed(dev.form, ok) == PutItem(old(dev.form), slot, data)
  {
    dev.SubCount();
    ghost var subs := dev.form.subs;
    var m := FindItem(dev, slot);
    if m == |dev.subForms| {
      AddItem(dev, slot);
      ok := StoreItemBelow(dev, m, slot, data);
      LastUpdated(subs, NewItem(slot), PutData(NewItem(slot), slot, data).form);
    } else {
      ok := StoreItemBelow(dev, m, slot, data);
    }
  }

  // ------------------------------------------------------------------ forced bindings

  // pAddStringChunk or pRemCfgChunk on one form.
  method ForceForm(f: Context, owner: cstring)
    requires f.Valid() && Short(owner)
    modifies f.repr
    ensures f.Valid() && fresh(f.repr - old(f.repr)) && f.form == Force(old(f.form), owner)
  {
    if owner == [] {
      var _ := f.RemCfgChunk(IFFCHNK_FORCEDBIND);
    } else {
      AddStringChunk(f, IFFCHNK_FORCEDBIND, owner);
    }
  }

  // The forms of a device before position m have been forced.
  ghost predicate ForcedTo(was: Form, now: Form, m: nat, ifid: cstring, owner: cstring) {
    && now == was.(subs := now.subs) && m <= |now.subs| == |was.subs|
    && forall j :: 0 <= j < |was.subs| ==>
         now.subs[j] == if j < m then ForceOne(was.subs[j], ifid, owner) else was.subs[j]
  }

  lemma ForcedToAll(was: Form, now: Form, ifid: cstring, owner: cstring)
    requires ForcedTo(was, now, |was.subs|, ifid, owner)
    ensures now == was.(subs := ForceAll(was.subs, ifid, owner))
  {
    forall j | 0 <= j < |was.subs| ensures now.subs[j] == ForceAll(was.subs, ifid, owner)[j] {
      ForceAllAt(was.subs, ifid, owner, j);
    }
    assert now.subs == ForceAll(was.subs, ifid, owner);
  }

  lemma ForcedNext(was: Form, mid: Form, now: Form, m: nat, ifid: cstring, owner: cstring)
    requires m < |was.subs| && ForcedTo(was, mid, m, ifid, owner)
    requires now == mid.(subs := mid.subs[m := ForceOne(mid.subs[m], ifid, owner)])
    ensures ForcedTo(was, now, m + 1, ifid, owner)
  {
  }

  method ForceFormBelow(dev: Context, m: nat, owner: cstring)
    requires dev.Valid() && m < |dev.form.subs| && Short(owner)
    modifies dev.repr
    ensures dev.Valid() && fresh(dev.repr - old(dev.repr))
    ensures dev.form == old(dev.form).(subs := old(dev.form).subs[m := Force(old(dev.form).subs[m], owner)])
  {
    dev.SubFacts();
    ForceForm(dev.subForms[m], owner);
    dev.Renew(m);
  }

  // Sub-form m, if it is a form of the interface.
  method ForceBelow(dev: Context, m: nat, ifid: cstring, owner: cstring) returns (hit: bool)
    requires dev.Valid() && m < |dev.form.subs| && Short(owner)
    modifies dev.repr
    ensures dev.Valid() && fresh(dev.repr - old(dev.repr))
    ensures dev.form == old(dev.form).(subs := old(dev.form).subs[m := ForceOne(old(dev.form).subs[m], ifid, owner)])
    ensures hit <==> Selects(InterfaceOf(ifid), old(dev.form).subs[m])
  {
    dev.SubAt(m);
    hit := false;
    if dev.subForms[m].formId == IFFFORM_IFCFGDATA {
      hit := MatchStringChunk(dev.subForms[m], IFFCHNK_IFID, ifid);
    }
    if hit {
      ForceFormBelow(dev, m, owner);
    } else {
      assert dev.form.subs == dev.form.subs[m := dev.form.subs[m]];
    }
  }

  // The loop of psdSetForcedBinding over the interface forms of a device.
  method ForceInterfaces(dev: Context, ifid: cstring, owner: cstring) returns (done: bool)
    requires dev.Valid() && Short(owner)
    modifies dev.repr
    ensures dev.Valid() && fresh(dev.repr - old(dev.repr))
    ensures dev.form == old(dev.form).(subs := ForceAll(old(dev.form).subs, ifid, owner))
    ensures done <==> Has(old(dev.form).subs, InterfaceOf(ifid))
  {
    ghost var was := dev.form;
    done := false;
    var m := 0;
    dev.SubCount();
    while m < |dev.subForms|
      invariant dev.Valid() && fresh(dev.repr - old(dev.repr)) && |dev.subForms| == |was.subs| && ForcedTo(was, dev.form, m, ifid, owner)
      invariant done <==> exists j :: 0 <= j < m && Selects(InterfaceOf(ifid), was.subs[j])
      decreases |was.subs| - m
    {
      ghost var mid := dev.form;
      var hit := ForceBelow(dev, m, ifid, owner);
      ForcedNext(was, mid, dev.form, m, ifid, owner);
      dev.SubCount();
      done, m := done || hit, m + 1;
    }
    ForcedToAll(was, dev.form, ifid, owner);
  }

  // A form for an interface that has none.
  method AddForced(dev: Context, ifid: cstring, owner: cstring)
    requires dev.Valid() && Short(ifid) && Short(owner)
    modifies dev.repr
    ensures dev.Valid() && fresh(dev.repr - old(dev.repr))
    ensures dev.form == old(dev.form).(subs := old(dev.form).subs + [NewForced(ifid, owner)])
  {
    ghost var subs, f := dev.form.subs, Form(IFFFORM_IFCFGDATA, [], []);
    ghost var g := AddString(f, IFFCHNK_OWNER, owner);
    dev.NewSub(IFFFORM_IFCFGDATA);
    AddStringLast(dev, subs, f, IFFCHNK_OWNER, owner);
    AddStringLast(dev, subs, g, IFFCHNK_FORCEDBIND, owner);
    AddStringLast(dev, subs, AddString(g, IFFCHNK_FORCEDBIND, owner), IFFCHNK_IFID, ifid);
  }

  // The part of psdSetForcedBinding below one device form.
  method ForceInDevice(dev: Context, ifid: Option<cstring>, owner: cstring)
    requires dev.Valid() && Short(owner) && (ifid.Some? ==> Short(ifid.value))
    modifies dev.repr
    ensures dev.Valid() && fresh(dev.repr - old(dev.repr))
    ensures dev.form == SetForcedIn(old(dev.form), ifid, owner)
  {
    match ifid
    case None => ForceForm(dev, owner);
    case Some(i) =>
      ghost var subs := dev.form.subs;
      var done := ForceInterfaces(dev, i, owner);
      if !done {
        NothingForced(subs, i, owner);
        if owner != [] {
          AddForced(dev, i, owner);
        }
      }
  }

  lemma {:induction false} NothingForced(fs: seq<Form>, ifid: cstring, owner: cstring)
    requires !Has(fs, InterfaceOf(ifid))
    ensures ForceAll(fs, ifid, owner) == fs
  {
    if fs != [] {
      NothingForced(fs[1..], ifid, owner);
    }
  }

  // ------------------------------------------------------------------ the root

  class ConfigRoot {
    var roots: seq<Context>   // ps_ConfigRoot; the first one is the configuration

    ghost predicate Valid()
      reads this, roots, if roots == [] then {} else roots[0].repr
    {
      roots != [] ==> roots[0].Valid() && this !in roots[0].repr
    }

    // What may change: the tree of the configuration.
    ghost function Tree(): set<object>
      reads this, roots
    {
      if roots == [] then {} else roots[0].repr
    }

    // A new device form with its id.
    method AddDevice(cfg: Context, devid: cstring)
      requires cfg.Valid() && Short(devid)
      modifies cfg.repr
      ensures cfg.Valid() && fresh(cfg.repr - old(cfg.repr))
      ensures cfg.form == old(cfg.form).(subs := old(cfg.form).subs + [NewDevice(devid)])
    {
      ghost var subs := cfg.form.subs;
      cfg.NewSub(IFFFORM_DEVICECFG);
      AddStringLast(cfg, subs, Form(IFFFORM_DEVICECFG, [], []), IFFCHNK_DEVID, devid);
    }

    // psdReadCfg with no form given.
    method ReadCfg(mem: seq<byte>) returns (ok: bool)
      requires Valid() && |mem| < LIMIT
      modifies Tree()
      ensures Valid() && roots == old(roots) && fresh(Tree() - old(Tree()))
      ensures if roots == [] then !ok else Parsed(roots[0].form, ok) == Iff.ReadCfg(old(roots[0].form), mem)
    {
      if roots == [] {
        return false;
      }
      ok := roots[0].ReadCfg(mem);
    }

    // psdSetUsbDevCfg.
    method SetUsbDevCfg(devid: cstring, slot: Slot, data: Option<seq<byte>>) returns (result: bool)
      requires Valid() && Short(devid) && ShortSlot(slot) && (data.Some? ==> |data.value| < LIMIT)
      modifies Tree()
      ensures Valid() && roots == old(roots) && fresh(Tree() - old(Tree()))
      ensures if roots == [] then !result
              else Parsed(roots[0].form, result) == ConfigStore.SetUsbDevCfg(old(roots[0].form), devid, slot, data)
    {
      if roots == [] {
        return false;
      }
      var cfg := roots[0];
      result := StoreKnown(cfg, devid, slot, data);
      if !result {
        result := StoreNew(cfg, devid, slot, data);
      }
    }

    method StoreKnown(cfg: Context, devid: cstring, slot: Slot, data: Option<seq<byte>>) returns (result: bool)
      requires cfg.Valid() && ShortSlot(slot) && (data.Some? ==> |data.value| < LIMIT)
      modifies cfg.repr
      ensures cfg.Valid() && fresh(cfg.repr - old(cfg.repr))
      ensures Parsed(cfg.form, result) == SetKnown(old(cfg.form), devid, slot, data)
    {
      cfg.SubCount();
      result := false;
      var d := FindDevice(cfg, devid);
      if d < |cfg.subForms| {
        result := StoreDeviceBelow(cfg, d, slot, data);
      }
    }

    method StoreDeviceBelow(cfg: Context, d: nat, slot: Slot, data: Option<seq<byte>>) returns (ok: bool)
      requires cfg.Valid() && d < |cfg.form.subs| && ShortSlot(slot) && (data.Some? ==> |data.value| < LIMIT)
      modifies cfg.repr
      ensures cfg.Valid() && fresh(cfg.repr - old(cfg.repr))
      ensures var r := PutItem(old(cfg.form).subs[d], slot, data);
        ok == r.ok && cfg.form == old(cfg.form).(subs := old(cfg.form).subs[d := r.form])
    {
      cfg.SubFacts();
      ok := StoreInDevice(cfg.subForms[d], slot, data);
      cfg.Renew(d);
    }

    method StoreNew(cfg: Context, devid: cstring, slot: Slot, data: Option<seq<byte>>) returns (result: bool)
      requires cfg.Valid() && Short(devid) && ShortSlot(slot) && (data.Some? ==> |data.value| < LIMIT)
      modifies cfg.repr
      ensures cfg.Valid() && fresh(cfg.repr - old(cfg.repr))
      ensures var r := PutItem(NewDevice(devid), slot, data);
        result == r.ok && cfg.form == old(cfg.form).(subs := old(cfg.form).subs + [r.form])
    {
      cfg.SubCount();
      ghost var subs := cfg.form.subs;
      var d := |cfg.subForms|;
      AddDevice(cfg, devid);
      result := StoreDeviceBelow(cfg, d, slot, data);
      LastUpdated(subs, NewDevice(devid), PutItem(NewDevice(devid), slot, data).form);
    }

    // psdGetUsbDevCfg: a pointer to the data form itself.
    method GetUsbDevCfg(devid: cstring, slot: Slot) returns (r: Context?)
      requires Valid()
      ensures var stored := if roots == [] then None else ConfigStore.GetUsbDevCfg(roots[0].form, devid, slot);
        if r == null then stored == None else r in Tree() && r.Valid() && stored == Some(r.form)
    {
      if roots == [] {
        return null;
      }
      var cfg := roots[0];
      cfg.SubCount();
      var d := FindDevice(cfg, devid);
      if d == |cfg.subForms| {
        return null;
      }
      cfg.SubAt(d);
      r := GetBelow(cfg.subForms[d], slot);
    }

    method GetBelow(dev: Context, slot: Slot) returns (r: Context?)
      requires dev.Valid()
      ensures var stored := LookIn(dev.form.subs, slot);
        if r == null then stored == None else r in dev.repr && r.Valid() && stored == Some(r.form)
    {
      dev.SubCount();
      var m := FindItem(dev, slot);
      if m == |dev.subForms| {
        return null;
      }
      dev.SubAt(m);
      r := DataForm(dev.subForms[m], slot);
    }

    method DataForm(item: Context, slot: Slot) returns (r: Context?)
      requires item.Valid()
      ensures var stored := GetData(item.form, slot);
        if r == null then stored == None else r in item.repr && r.Valid() && stored == Some(r.form)
    {
      item.SubCount();
      var c := NextCfgForm(item, DataId(slot), 0);
      FindIs(item.form.subs, DataOf(DataId(slot)), c);
      if c == |item.subForms| {
        return null;
      }
      item.SubAt(c);
      r := item.subForms[c];
    }

    // psdSetForcedBinding; no owner and an empty one are the same.
    method SetForcedBinding(devid: cstring, ifid: Option<cstring>, owner: cstring) returns (result: bool)
      requires Valid() && Short(devid) && Short(owner) && (ifid.Some? ==> Short(ifid.value))
      modifies Tree()
      ensures Valid() && roots == old(roots) && fresh(Tree() - old(Tree()))
      ensures result <==> roots != [] || owner == []
      ensures roots != [] ==> roots[0].form == ConfigStore.SetForcedBinding(old(roots[0].form), devid, ifid, owner)
    {
      result := owner == [];
      if roots == [] {
        return;
      }
      var cfg := roots[0];
      var d := FindDevice(cfg, devid);
      cfg.SubCount();
      if d < |cfg.subForms| {
        ForceDeviceBelow(cfg, d, ifid, owner);
        result := true;
      }
      if !result {
        ForceNewDevice(cfg, devid, ifid, owner);
        result := true;
      }
    }

    method ForceDeviceBelow(cfg: Context, d: nat, ifid: Option<cstring>, owner: cstring)
      requires cfg.Valid() && d < |cfg.form.subs| && Short(owner) && (ifid.Some? ==> Short(ifid.value))
      modifies cfg.repr
      ensures cfg.Valid() && fresh(cfg.repr - old(cfg.repr))
      ensures cfg.form == old(cfg.form).(subs := old(cfg.form).subs[d := SetForcedIn(old(cfg.form).subs[d], ifid, owner)])
    {
      cfg.SubFacts();
      ForceInDevice(cfg.subForms[d], ifid, owner);
      cfg.Renew(d);
    }

    method ForceNewDevice(cfg: Context, devid: cstring, ifid: Option<cstring>, owner: cstring)
      requires cfg.Valid() && Short(devid) && Short(owner) && (ifid.Some? ==> Short(ifid.value))
      modifies cfg.repr
      ensures cfg.Valid() && fresh(cfg.repr - old(cfg.repr))
      ensures cfg.form == old(cfg.form).(subs := old(cfg.form).subs + [SetForcedIn(NewDevice(devid), ifid, owner)])
    {
      cfg.SubCount();
      ghost var subs := cfg.form.subs;
      var d := |cfg.subForms|;
      AddDevice(cfg, devid);
      ForceDeviceBelow(cfg, d, ifid, owner);
      LastUpdated(subs, NewDevice(devid), SetForcedIn(NewDevice(devid), ifid, owner));
    }

    // psdGetForcedBinding: where the string is, in the buffer of the form that holds it.
    method GetForcedBinding(devid: cstring, ifid: Option<cstring>) returns (f: Context?, at: nat, len: nat)
      requires Valid()
      ensures var forced := if roots == [] then None else ConfigStore.GetForcedBinding(roots[0].form, devid, ifid);
        if f == null then forced == None
        else f in Tree() && at + len <= f.chunks.Length && forced == Some(CStr(f.chunks[at..at + len]))
    {
      f, at, len := null, 0, 0;
      var h := FindHolder(devid, ifid);
      if h != null {
        f, at, len := ForcedData(h);
      }
    }

    method ForcedData(h: Context) returns (f: Context?, at: nat, len: nat)
      requires h.Valid()
      ensures var forced := ForcedText(h.form.chunks);
        if f == null then forced == None
        else f == h && at + len <= f.chunks.Length && forced == Some(CStr(f.chunks[at..at + len]))
    {
      var found;
      found, at, len := FindData(h, IFFCHNK_FORCEDBIND);
      h.SubCount();
      f := if found then h else null;
    }

    // The form whose forced binding counts.
    method FindHolder(devid: cstring, ifid: Option<cstring>) returns (h: Context?)
      requires Valid()
      ensures var forced := if roots == [] then None else ConfigStore.GetForcedBinding(roots[0].form, devid, ifid);
        if h == null then forced == None else h in Tree() && h.Valid() && forced == ForcedText(h.form.chunks)
    {
      h := null;
      if roots == [] {
        return;
      }
      var cfg := roots[0];
      cfg.SubCount();
      var d := FindDevice(cfg, devid);
      if d < |cfg.subForms| {
        cfg.SubAt(d);
        h := HolderBelow(cfg.subForms[d], ifid);
      }
    }

    method HolderBelow(dev: Context, ifid: Option<cstring>) returns (h: Context?)
      requires dev.Valid()
      ensures var forced := GetForcedIn(dev.form, ifid);
        if h == null then forced == None else h in dev.repr && h.Valid() && forced == ForcedText(h.form.chunks)
    {
      dev.SubCount();
      match ifid
      case None => h := dev;
      case Some(i) =>
        var m := FindForced(dev, i);
        if m == |dev.subForms| {
          return null;
        }
        dev.SubAt(m);
        h := dev.subForms[m];
    }

    method MatchForced(f: Context, ifid: cstring) returns (hit: bool)
      requires f.Valid() && f.formId == IFFFORM_IFCFGDATA
      ensures hit <==> Selects(ForcedOf(ifid), f.form)
    {
      hit := MatchStringChunk(f, IFFCHNK_IFID, ifid);
      if hit {
        var found, _, _ := FindData(f, IFFCHNK_FORCEDBIND);
        hit := found;
      }
    }

    // The loop over the interface forms to one that forces a binding.
    method FindForced(dev: Context, ifid: cstring) returns (m: nat)
      requires dev.Valid()
      ensures m == FindForm(dev.form.subs, ForcedOf(ifid))
    {
      dev.SubCount();
      ghost var fs := dev.form.subs;
      m := NextCfgForm(dev, IFFFORM_IFCFGDATA, 0);
      while m < |dev.subForms|
        invariant m <= |fs| && (m < |fs| ==> fs[m].id == IFFFORM_IFCFGDATA)
        invariant forall j {:trigger fs[j]} :: 0 <= j < m ==> !Selects(ForcedOf(ifid), fs[j])
      {
        dev.SubAt(m);
        var hit := MatchForced(dev.subForms[m], ifid);
        if hit {
          break;
        }
        m := NextCfgForm(dev, IFFFORM_IFCFGDATA, m + 1);
      }
      FindIs(fs, ForcedOf(ifid), m);
    }
  }
}
