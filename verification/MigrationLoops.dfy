/**
 pMigrateCfg on the configuration in memory: strings are compared where they are in the chunk
 buffers, and each new string is built before the buffer it comes from is compacted.
 */
module MigrationLoops {
  import opened Common
  import opened Iff
  import opened IffContexts
  import opened ConfigStore
  import opened ConfigRoots
  import opened Migration

  // ------------------------------------------------------------------ strings in a buffer

  // Copies the C string at `at`.
  method ReadText(buf: array<byte>, at: nat, len: nat) returns (s: cstring)
    requires at + len <= buf.Length
    ensures s == CStr(buf[at..at + len])
  {
    ghost var data := buf[at..at + len];
    CStrEnd(data);
    s := [];
    while |s| < len && buf[at + |s|] != 0
      invariant |s| <= |CStr(data)| && s == data[..|s|]
      decreases len - |s|
    {
      assert data[|s|] == buf[at + |s|];
      s := s + [buf[at + |s|]];
    }
    assert |s| == |CStr(data)| by {
      if |s| < len {
        assert data[|s|] == 0;
      }
    }
  }

  lemma {:induction false} CStrFrom(data: seq<byte>, n: nat)
    requires n <= |CStr(data)|
    ensures n <= |data| && CStr(data[n..]) == CStr(data)[n..]
  {
    if n > 0 {
      CStrFrom(data[1..], n - 1);
      assert data[1..][n - 1..] == data[n..];
    }
  }

  lemma EndDiffers(str: cstring, was: cstring)
    requires |str| < |was|
    ensures Lower(At(str, |str|)) != Lower(At(was, |str|))
  {
    assert was[|str|] in was;
  }

  // The comparison ends at a terminator only when the names differ there.
  lemma PrefixCompared(str: cstring, was: cstring)
    requires SameUpTo(str, was, if |was| <= |str| then |was| else |str| + 1)
    ensures |was| <= |str| && forall i :: 0 <= i < |was| ==> Lower(str[i]) == Lower(was[i])
  {
    if |str| < |was| {
      EndDiffers(str, was);
    } else {
      forall i | 0 <= i < |was| ensures Lower(str[i]) == Lower(was[i]) {
        assert At(str, i) == str[i] && At(was, i) == was[i];
      }
    }
  }

  lemma OldCompares(str: cstring, was: cstring)
    ensures IsOld(str, was) ==> SameUpTo(str, was, |was|)
  {
    if IsOld(str, was) {
      forall i | 0 <= i < |was| ensures Lower(At(str, i)) == Lower(At(was, i)) {
        assert At(str, i) == str[i] && At(was, i) == was[i];
      }
    }
  }

  // ------------------------------------------------------------------ one chunk

  // There is room for the new string.
  ghost predicate TextFits(f: Form, id: ulong, r: Rename) {
    var d := Lookup(f.chunks, id);
    d.Some? ==> |d.value| + |r.now| < LIMIT - 16
  }

  // Whether the string at `at` is to be rewritten.
  method CheckOld(buf: array<byte>, at: nat, len: nat, was: cstring) returns (stale: bool)
    requires at + len <= buf.Length
    ensures stale <==> IsOld(CStr(buf[at..at + len]), was)
    ensures stale ==> |was| <= |CStr(buf[at..at + len])| <= len
  {
    var str := ReadText(buf, at, len);
    CStrEnd(buf[at..at + len]);
    var cmp := Strnicmp(str, was, |was|);
    if cmp != 0 {
      OldCompares(str, was);
      return false;
    }
    PrefixCompared(str, was);
    return |str| == |was| || str[|was|] == SLASH;
  }

  // pMigrateCfgString.
  method MigrateChunk(f: Context, id: ulong, r: Rename) returns (changed: bool)
    requires f.Valid() && id != ID_FORM && TextFits(f.form, id, r)
    modifies f.repr
    ensures f.Valid() && fresh(f.repr - old(f.repr))
    ensures Migrated(f.form, changed) == MigrateCfgString(old(f.form), id, r)
  {
    var found, at, len := FindData(f, id);
    if !found {
      return false;
    }
    f.SubCount();
    changed := CheckOld(f.chunks, at, len, r.was);
    if changed {
      var newstr := NewText(f.chunks, at, len, r);
      AddStringChunk(f, id, newstr);
    }
  }

  // The new name and the rest of the old string.
  method NewText(buf: array<byte>, at: nat, len: nat, r: Rename) returns (s: cstring)
    requires at + len <= buf.Length && IsOld(CStr(buf[at..at + len]), r.was)
    ensures s == Renamed(CStr(buf[at..at + len]), r) && |s| <= |r.now| + len
  {
    ghost var data := buf[at..at + len];
    CStrEnd(data);
    CStrFrom(data, |r.was|);
    assert data[|r.was|..] == buf[at + |r.was|..at + len];
    var rest := ReadText(buf, at + |r.was|, len - |r.was|);
    s := r.now + rest;
  }

  // ------------------------------------------------------------------ the loops

  ghost predicate FormsFit(fs: seq<Form>, formId: ulong, id: ulong, r: Rename) {
    forall j :: 0 <= j < |fs| && fs[j].id == formId ==> TextFits(fs[j], id, r)
  }

  function MigrateOne(f: Form, formId: ulong, id: ulong, r: Rename): Migrated {
    if f.id == formId then MigrateCfgString(f, id, r) else Migrated(f, false)
  }

  // The forms of a type before position m have been migrated.
  ghost predicate MigratedTo(was: Form, now: Form, changed: bool, m: nat, formId: ulong, id: ulong, r: Rename) {
    && now == was.(subs := now.subs) && m <= |now.subs| == |was.subs|
    && (forall j :: 0 <= j < |was.subs| ==>
          now.subs[j] == if j < m then MigrateOne(was.subs[j], formId, id, r).form else was.subs[j])
    && (changed <==> exists j :: 0 <= j < m && MigrateOne(was.subs[j], formId, id, r).changed)
  }

  lemma {:induction false} MigrateFormsIs(fs: seq<Form>, now: seq<Form>, changed: bool, formId: ulong, id: ulong, r: Rename)
    requires |now| == |fs| && forall j :: 0 <= j < |fs| ==> now[j] == MigrateOne(fs[j], formId, id, r).form
    requires changed <==> exists j :: 0 <= j < |fs| && MigrateOne(fs[j], formId, id, r).changed
    ensures MigrateForms(fs, formId, id, r) == Forms(now, changed)
  {
    if fs != [] {
      var rest := exists j :: 0 <= j < |fs[1..]| && MigrateOne(fs[1..][j], formId, id, r).changed;
      MigrateFormsIs(fs[1..], now[1..], rest, formId, id, r);
      if changed && !MigrateOne(fs[0], formId, id, r).changed {
        var j :| 0 <= j < |fs| && MigrateOne(fs[j], formId, id, r).changed;
        assert fs[1..][j - 1] == fs[j];
      }
      assert now == [now[0]] + now[1..];
    }
  }

  lemma MigratedNext(was: Form, mid: Form, now: Form, c0: bool, c1: bool, m: nat, formId: ulong, id: ulong, r: Rename)
    requires MigratedTo(was, mid, c0, m, formId, id, r) && m < |was.subs|
    requires var one := MigrateOne(was.subs[m], formId, id, r);
      now == mid.(subs := mid.subs[m := one.form]) && c1 == (c0 || one.changed)
    ensures MigratedTo(was, now, c1, m + 1, formId, id, r)
  {
  }

  method MigrateBelow(pic: Context, m: nat, formId: ulong, id: ulong, r: Rename) returns (changed: bool)
    requires pic.Valid() && m < |pic.form.subs| && id != ID_FORM
    requires pic.form.subs[m].id == formId ==> TextFits(pic.form.subs[m], id, r)
    modifies pic.repr
    ensures pic.Valid() && fresh(pic.repr - old(pic.repr))
    ensures var one := MigrateOne(old(pic.form).subs[m], formId, id, r);
      changed == one.changed && pic.form == old(pic.form).(subs := old(pic.form).subs[m := one.form])
  {
    pic.SubFacts();
    changed := false;
    if pic.subForms[m].formId == formId {
      changed := MigrateChunk(pic.subForms[m], id, r);
    }
    pic.Renew(m);
  }

  // The loop over the forms of a type.
  method MigrateSubForms(pic: Context, formId: ulong, id: ulong, r: Rename) returns (changed: bool)
    requires pic.Valid() && id != ID_FORM && FormsFit(pic.form.subs, formId, id, r)
    modifies pic.repr
    ensures pic.Valid() && fresh(pic.repr - old(pic.repr))
    ensures var all := MigrateForms(old(pic.form).subs, formId, id, r);
      changed == all.changed && pic.form == old(pic.form).(subs := all.forms)
  {
    ghost var was := pic.form;
    changed := false;
    var m := 0;
    pic.SubCount();
    while m < |pic.subForms|
      invariant pic.Valid() && fresh(pic.repr - old(pic.repr)) && |pic.subForms| == |was.subs|
      invariant MigratedTo(was, pic.form, changed, m, formId, id, r)
      decreases |was.subs| - m
    {
      ghost var mid, c0 := pic.form, changed;
      var hit := MigrateBelow(pic, m, formId, id, r);
      changed := changed || hit;
      MigratedNext(was, mid, pic.form, c0, changed, m, formId, id, r);
      pic.SubCount();
      m := m + 1;
    }
    MigrateFormsIs(was.subs, pic.form.subs, changed, formId, id, r);
  }

  ghost predicate StackFits(f: Form) {
    && FormsFit(f.subs, IFFFORM_USBCLASS, IFFCHNK_NAME, ClassPath())
    && TextFits(f, IFFCHNK_INSERTSND, PresetPath()) && TextFits(f, IFFCHNK_REMOVESND, PresetPath())
  }

  ghost predicate DeviceFits(f: Form) {
    && FormsFit(f.subs, IFFFORM_DEVCFGDATA, IFFCHNK_OWNER, OwnerName())
    && FormsFit(f.subs, IFFFORM_IFCFGDATA, IFFCHNK_OWNER, OwnerName())
  }

  // Rewriting one string leaves the others.
  lemma StillFits(f: Form, id: ulong, r: Rename, other: ulong)
    requires DistinctIds(f.chunks) && id != other && TextFits(f, other, r)
    ensures TextFits(MigrateCfgString(f, id, r).form, other, r)
  {
    var d := Lookup(f.chunks, id);
    if d.Some? {
      AddIsMapUpdate(f.chunks, StringChunk(id, Renamed(CStr(d.value), r)), other);
    }
  }

  method MigrateStackForm(f: Context) returns (changed: bool)
    requires f.Valid() && StackFits(f.form)
    modifies f.repr
    ensures f.Valid() && fresh(f.repr - old(f.repr)) && Migrated(f.form, changed) == MigrateStack(old(f.form))
  {
    changed := MigrateSubForms(f, IFFFORM_USBCLASS, IFFCHNK_NAME, ClassPath());
    f.SubCount();
    StillFits(f.form, IFFCHNK_INSERTSND, PresetPath(), IFFCHNK_REMOVESND);
    var insert := MigrateChunk(f, IFFCHNK_INSERTSND, PresetPath());
    var remove := MigrateChunk(f, IFFCHNK_REMOVESND, PresetPath());
    changed := changed || insert || remove;
  }

  // Rewriting the forms of one type leaves those of another.
  lemma {:induction false} OthersFit(fs: seq<Form>, formId: ulong, id: ulong, r: Rename, other: ulong)
    requires formId != other && FormsFit(fs, other, id, r)
    ensures FormsFit(MigrateForms(fs, formId, id, r).forms, other, id, r)
  {
    if fs != [] {
      OthersFit(fs[1..], formId, id, r, other);
      var now := MigrateForms(fs, formId, id, r).forms;
      forall j | 0 <= j < |now| && now[j].id == other ensures TextFits(now[j], id, r) {
        if j > 0 {
          assert now[j] == MigrateForms(fs[1..], formId, id, r).forms[j - 1];
        }
      }
    }
  }

  method MigrateDeviceForm(f: Context) returns (changed: bool)
    requires f.Valid() && DeviceFits(f.form)
    modifies f.repr
    ensures f.Valid() && fresh(f.repr - old(f.repr)) && Migrated(f.form, changed) == MigrateDevice(old(f.form))
  {
    OthersFit(f.form.subs, IFFFORM_DEVCFGDATA, IFFCHNK_OWNER, OwnerName(), IFFFORM_IFCFGDATA);
    var device := MigrateSubForms(f, IFFFORM_DEVCFGDATA, IFFCHNK_OWNER, OwnerName());
    var interface := MigrateSubForms(f, IFFFORM_IFCFGDATA, IFFCHNK_OWNER, OwnerName());
    changed := device || interface;
  }

  // ------------------------------------------------------------------ the tree

  function MigrateOneDevice(f: Form): Migrated {
    if f.id == IFFFORM_DEVICECFG then MigrateDevice(f) else Migrated(f, false)
  }

  ghost predicate DevicesFit(fs: seq<Form>) {
    forall j :: 0 <= j < |fs| && fs[j].id == IFFFORM_DEVICECFG ==> DeviceFits(fs[j])
  }

  ghost predicate DevicesTo(was: Form, now: Form, changed: bool, m: nat) {
    && now == was.(subs := now.subs) && m <= |now.subs| == |was.subs|
    && (forall j :: 0 <= j < |was.subs| ==>
          now.subs[j] == if j < m then MigrateOneDevice(was.subs[j]).form else was.subs[j])
    && (changed <==> exists j :: 0 <= j < m && MigrateOneDevice(was.subs[j]).changed)
  }

  lemma {:induction false} MigrateDevicesIs(fs: seq<Form>, now: seq<Form>, changed: bool)
    requires |now| == |fs| && forall j :: 0 <= j < |fs| ==> now[j] == MigrateOneDevice(fs[j]).form
    requires changed <==> exists j :: 0 <= j < |fs| && MigrateOneDevice(fs[j]).changed
    ensures MigrateDevices(fs) == Forms(now, changed)
  {
    if fs != [] {
      var rest := exists j :: 0 <= j < |fs[1..]| && MigrateOneDevice(fs[1..][j]).changed;
      MigrateDevicesIs(fs[1..], now[1..], rest);
      if changed && !MigrateOneDevice(fs[0]).changed {
        var j :| 0 <= j < |fs| && MigrateOneDevice(fs[j]).changed;
        assert fs[1..][j - 1] == fs[j];
      }
      assert now == [now[0]] + now[1..];
    }
  }

  lemma DevicesNext(was: Form, mid: Form, now: Form, c0: bool, c1: bool, m: nat)
    requires DevicesTo(was, mid, c0, m) && m < |was.subs|
    requires var one := MigrateOneDevice(was.subs[m]);
      now == mid.(subs := mid.subs[m := one.form]) && c1 == (c0 || one.changed)
    ensures DevicesTo(was, now, c1, m + 1)
  {
  }

  method MigrateDeviceBelow(cfg: Context, m: nat) returns (changed: bool)
    requires cfg.Valid() && m < |cfg.form.subs|
    requires cfg.form.subs[m].id == IFFFORM_DEVICECFG ==> DeviceFits(cfg.form.subs[m])
    modifies cfg.repr
    ensures cfg.Valid() && fresh(cfg.repr - old(cfg.repr))
    ensures var one := MigrateOneDevice(old(cfg.form).subs[m]);
      changed == one.changed && cfg.form == old(cfg.form).(subs := old(cfg.form).subs[m := one.form])
  {
    cfg.SubFacts();
    changed := false;
    if cfg.subForms[m].formId == IFFFORM_DEVICECFG {
      changed := MigrateDeviceForm(cfg.subForms[m]);
    }
    cfg.Renew(m);
  }

  // The loop over the device forms.
  method MigrateDeviceForms(cfg: Context) returns (changed: bool)
    requires cfg.Valid() && DevicesFit(cfg.form.subs)
    modifies cfg.repr
    ensures cfg.Valid() && fresh(cfg.repr - old(cfg.repr))
    ensures var all := MigrateDevices(old(cfg.form).subs);
      changed == all.changed && cfg.form == old(cfg.form).(subs := all.forms)
  {
    ghost var was := cfg.form;
    changed := false;
    var m := 0;
    cfg.SubCount();
    while m < |cfg.subForms|
      invariant cfg.Valid() && fresh(cfg.repr - old(cfg.repr)) && |cfg.subForms| == |was.subs|
      invariant DevicesTo(was, cfg.form, changed, m)
      decreases |was.subs| - m
    {
      ghost var mid, c0 := cfg.form, changed;
      var hit := MigrateDeviceBelow(cfg, m);
      changed := changed || hit;
      DevicesNext(was, mid, cfg.form, c0, changed, m);
      cfg.SubCount();
      m := m + 1;
    }
    MigrateDevicesIs(was.subs, cfg.form.subs, changed);
  }

  lemma {:induction false} FirstStackIs(fs: seq<Form>, k: nat)
    requires k <= |fs| && (k < |fs| ==> fs[k].id == IFFFORM_STACKCFG)
    requires forall j :: 0 <= j < k ==> fs[j].id != IFFFORM_STACKCFG
    ensures MigrateFirstStack(fs) ==
            if k == |fs| then Forms(fs, false) else Forms(fs[k := MigrateStack(fs[k]).form], MigrateStack(fs[k]).changed)
  {
    if fs != [] {
      assert fs == [fs[0]] + fs[1..];
      if k > 0 {
        FirstStackIs(fs[1..], k - 1);
      }
    }
  }

  method MigrateStackBelow(cfg: Context, s: nat) returns (changed: bool)
    requires cfg.Valid() && s < |cfg.form.subs| && StackFits(cfg.form.subs[s])
    modifies cfg.repr
    ensures cfg.Valid() && fresh(cfg.repr - old(cfg.repr))
    ensures var one := MigrateStack(old(cfg.form).subs[s]);
      changed == one.changed && cfg.form == old(cfg.form).(subs := old(cfg.form).subs[s := one.form])
  {
    cfg.SubFacts();
    changed := MigrateStackForm(cfg.subForms[s]);
    cfg.Renew(s);
  }

  // pMigrateCfg; every new string fits.
  method MigrateTree(cfg: Context) returns (changed: bool)
    requires cfg.Valid() && DevicesFit(cfg.form.subs)
    requires forall j :: 0 <= j < |cfg.form.subs| && cfg.form.subs[j].id == IFFFORM_STACKCFG ==> StackFits(cfg.form.subs[j])
    modifies cfg.repr
    ensures cfg.Valid() && fresh(cfg.repr - old(cfg.repr)) && Migrated(cfg.form, changed) == MigrateCfg(old(cfg.form))
  {
    cfg.SubCount();
    ghost var fs := cfg.form.subs;
    changed := false;
    var s := NextCfgForm(cfg, IFFFORM_STACKCFG, 0);
    FirstStackIs(fs, s);
    if s < |cfg.subForms| {
      changed := MigrateStackBelow(cfg, s);
    }
    var devices := MigrateDeviceForms(cfg);
    changed := changed || devices;
  }
}
