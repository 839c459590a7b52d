/**
 Rewriting Poseidon's names in an imported configuration: which strings change, and that a
 second pass changes nothing.
 */
module Migration {
  import opened Common
  import opened Iff
  import opened ConfigStore
  import opened ConfigStoreLaws

  const IFFFORM_STACKCFG: ulong := 0x53544B43    // 'STKC'
  const IFFFORM_USBCLASS: ulong := 0x55434C53    // 'UCLS'
  const IFFCHNK_NAME: ulong := 0x4E414D45        // 'NAME'
  const IFFCHNK_INSERTSND: ulong := 0x494E5346   // 'INSF'
  const IFFCHNK_REMOVESND: ulong := 0x524D5346   // 'RMSF'

  // A literal as bytes.
  function Text(s: string): (r: cstring)
    requires forall i :: 0 <= i < |s| ==> 0 < s[i] as int < 256
    ensures |r| == |s| && forall i :: 0 <= i < |s| ==> r[i] == s[i] as int
  {
    seq(|s|, i requires 0 <= i < |s| => s[i] as int)
  }

  // An old name and what replaces it.
  datatype Rename = Rename(was: cstring, now: cstring)

  function ClassPath(): Rename { Rename(Text("SYS:Classes/USB"), Text("DEVS:USBClasses")) }

  function PresetPath(): Rename { Rename(Text("SYS:Prefs/Presets/Poseidon"), Text("SYS:Prefs/Presets/Neptune")) }

  function OwnerName(): Rename { Rename(Text("Trident"), Text("NeptuneUSB")) }

  // ------------------------------------------------------------------ comparing names

  const SLASH: byte := 47

  // _ci_lc.
  function Lower(c: byte): byte {
    if 65 <= c <= 90 then c + 32 else c
  }

  // A character of a C string, its terminator included.
  function At(s: cstring, i: nat): byte {
    if i < |s| then s[i] else 0
  }

  ghost predicate SameUpTo(a: cstring, b: cstring, n: nat) {
    forall i :: 0 <= i < n ==> Lower(At(a, i)) == Lower(At(b, i))
  }

  // strnicmp: the difference at the first n characters that differ, terminators included.
  method Strnicmp(a: cstring, b: cstring, n: nat) returns (r: int)
    ensures r == 0 <==> SameUpTo(a, b, if n <= |a| then n else |a| + 1)
    ensures r != 0 ==> exists i :: 0 <= i < n && SameUpTo(a, b, i) && r == Lower(At(a, i)) as int - Lower(At(b, i)) as int
  {
    var i := 0;
    while i < n
      invariant i <= n && i <= |a| && SameUpTo(a, b, i)
    {
      var ca, cb := Lower(At(a, i)), Lower(At(b, i));
      if ca != cb {
        return ca as int - cb as int;
      }
      if ca == 0 {
        return 0;
      }
      i := i + 1;
    }
    return 0;
  }

  // The old name is a whole leading part of a path, or the whole value.
  predicate IsOld(text: cstring, was: cstring) {
    && |was| <= |text|
    && (forall i :: 0 <= i < |was| ==> Lower(text[i]) == Lower(was[i]))
    && (|text| > |was| ==> text[|was|] == SLASH)
  }

  function Renamed(text: cstring, r: Rename): cstring {
    if IsOld(text, r.was) then r.now + text[|r.was|..] else text
  }

  // ------------------------------------------------------------------ one chunk, many forms

  datatype Migrated = Migrated(form: Form, changed: bool)

  // pMigrateCfgString.
  function MigrateCfgString(f: Form, id: ulong, r: Rename): Migrated {
    var d := Lookup(f.chunks, id);
    if d.Some? && IsOld(CStr(d.value), r.was) then Migrated(AddString(f, id, Renamed(CStr(d.value), r)), true)
    else Migrated(f, false)
  }

  // One string in every form of a type.
  datatype Forms = Forms(forms: seq<Form>, changed: bool)

  function MigrateForms(fs: seq<Form>, formId: ulong, id: ulong, r: Rename): Forms {
    if fs == [] then Forms([], false)
    else
      var m := if fs[0].id == formId then MigrateCfgString(fs[0], id, r) else Migrated(fs[0], false);
      var rest := MigrateForms(fs[1..], formId, id, r);
      Forms([m.form] + rest.forms, m.changed || rest.changed)
  }

  // The class paths and sounds of the stack form.
  function MigrateStack(f: Form): Migrated {
    var classes := MigrateForms(f.subs, IFFFORM_USBCLASS, IFFCHNK_NAME, ClassPath());
    var m0 := MigrateCfgString(f.(subs := classes.forms), IFFCHNK_INSERTSND, PresetPath());
    var m1 := MigrateCfgString(m0.form, IFFCHNK_REMOVESND, PresetPath());
    Migrated(m1.form, classes.changed || m0.changed || m1.changed)
  }

  // The owners in a device form.
  function MigrateDevice(f: Form): Migrated {
    var d := MigrateForms(f.subs, IFFFORM_DEVCFGDATA, IFFCHNK_OWNER, OwnerName());
    var i := MigrateForms(d.forms, IFFFORM_IFCFGDATA, IFFCHNK_OWNER, OwnerName());
    Migrated(f.(subs := i.forms), d.changed || i.changed)
  }

  function MigrateDevices(fs: seq<Form>): Forms {
    if fs == [] then Forms([], false)
    else
      var m := if fs[0].id == IFFFORM_DEVICECFG then MigrateDevice(fs[0]) else Migrated(fs[0], false);
      var rest := MigrateDevices(fs[1..]);
      Forms([m.form] + rest.forms, m.changed || rest.changed)
  }

  // Only the first stack form counts.
  function MigrateFirstStack(fs: seq<Form>): Forms {
    if fs == [] then Forms([], false)
    else if fs[0].id == IFFFORM_STACKCFG then
      var m := MigrateStack(fs[0]);
      Forms([m.form] + fs[1..], m.changed)
    else
      var rest := MigrateFirstStack(fs[1..]);
      Forms([fs[0]] + rest.forms, rest.changed)
  }

  // pMigrateCfg.
  function MigrateCfg(cfg: Form): Migrated {
    var s := MigrateFirstStack(cfg.subs);
    var d := MigrateDevices(s.forms);
    Migrated(cfg.(subs := d.forms), s.changed || d.changed)
  }

  // ------------------------------------------------------------------ nothing left to rename

  // The new name cannot be taken for the old one.
  ghost predicate Clash(r: Rename) {
    exists k :: 0 <= k < |r.was| && k < |r.now| && Lower(r.was[k]) != Lower(r.now[k])
  }

  lemma NamesClash()
    ensures Clash(ClassPath()) && Clash(PresetPath()) && Clash(OwnerName())
  {
    assert Lower(ClassPath().was[0]) != Lower(ClassPath().now[0]);
    assert Lower(PresetPath().was[18]) != Lower(PresetPath().now[18]);
    assert Lower(OwnerName().was[0]) != Lower(OwnerName().now[0]);
  }

  lemma RenamedIsNew(text: cstring, r: Rename)
    requires Clash(r) && IsOld(text, r.was)
    ensures !IsOld(Renamed(text, r), r.was) && Renamed(text, r) != text
  {
    var k :| 0 <= k < |r.was| && k < |r.now| && Lower(r.was[k]) != Lower(r.now[k]);
    assert Renamed(text, r)[k] == r.now[k];
  }

  predicate Clean(f: Form, id: ulong, was: cstring) {
    var d := Lookup(f.chunks, id);
    d.Some? ==> !IsOld(CStr(d.value), was)
  }

  // A text begins with a name, whatever the case of the letters, and ends there or goes on with a
  // slash.
  ghost predicate StartsWith(text: cstring, name: cstring) {
    exists rest: cstring :: (rest == [] || rest[0] == 0x2F) && |text| == |name| + |rest| && text[|name|..] == rest &&
      forall i :: 0 <= i < |name| ==> Lower(text[i]) == Lower(name[i])
  }

  lemma StartsWithIff(text: cstring, name: cstring)
    ensures StartsWith(text, name) <==> IsOld(text, name)
  {
    if IsOld(text, name) {
      var rest := text[|name|..];
      assert 0 !in rest;
    }
  }

  // A string is rewritten exactly when it is there and begins with the old name.
  lemma MigratesIff(f: Form, id: ulong, r: Rename)
    ensures MigrateCfgString(f, id, r).changed <==>
            Lookup(f.chunks, id).Some? && StartsWith(CStr(Lookup(f.chunks, id).value), r.was)
  {
    if Lookup(f.chunks, id).Some? {
      StartsWithIff(CStr(Lookup(f.chunks, id).value), r.was);
    }
  }

  // pMigrateCfgString rewrites exactly a string that starts with the old name up to a
  // component boundary, tells so, and keeps every other chunk.
  lemma MigrateStringLaw(f: Form, id: ulong, r: Rename, other: ulong)
    requires Distinct(f) && Clash(r)
    ensures var m := MigrateCfgString(f, id, r);
      && (m.changed <==> !Clean(f, id, r.was)) && (m.changed <==> m.form != f)
      && Distinct(m.form) && m.form.id == f.id && m.form.subs == f.subs
      && Clean(m.form, id, r.was)
      && (other != id ==> Lookup(m.form.chunks, other) == Lookup(f.chunks, other))
      && (m.changed ==>
            && var text := CStr(Lookup(f.chunks, id).value);
            && Lookup(m.form.chunks, id).Some?
            && CStr(Lookup(m.form.chunks, id).value) == Renamed(text, r) == r.now + text[|r.was|..])
  {
    var m := MigrateCfgString(f, id, r);
    if m.changed {
      var text := CStr(Lookup(f.chunks, id).value);
      RenamedIsNew(text, r);
      CStrOfString(Renamed(text, r));
      AddIsMapUpdate(f.chunks, StringChunk(id, Renamed(text, r)), id);
      AddIsMapUpdate(f.chunks, StringChunk(id, Renamed(text, r)), other);
    }
  }

  predicate CleanForms(fs: seq<Form>, formId: ulong, id: ulong, was: cstring) {
    fs != [] ==> (fs[0].id == formId ==> Clean(fs[0], id, was)) && CleanForms(fs[1..], formId, id, was)
  }

  lemma {:induction false} MigrateFormsLaw(fs: seq<Form>, formId: ulong, id: ulong, r: Rename)
    requires AllDistinct(fs) && Clash(r)
    ensures var m := MigrateForms(fs, formId, id, r);
      && AllDistinct(m.forms) && CleanForms(m.forms, formId, id, r.was)
      && (m.changed <==> !CleanForms(fs, formId, id, r.was)) && (m.changed <==> m.forms != fs)
  {
    if fs != [] {
      MigrateStringLaw(fs[0], id, r, id);
      MigrateFormsLaw(fs[1..], formId, id, r);
      var m := MigrateForms(fs, formId, id, r);
      assert m.forms[1..] == MigrateForms(fs[1..], formId, id, r).forms;
      assert fs == [fs[0]] + fs[1..];
    }
  }

  // Renaming in one type of form does not bring back old names in another.
  lemma {:induction false} StaysClean(fs: seq<Form>, formId: ulong, id: ulong, r: Rename, formId': ulong, id': ulong, was: cstring)
    requires AllDistinct(fs) && Clash(r) && formId' != formId
    ensures CleanForms(MigrateForms(fs, formId, id, r).forms, formId', id', was) <==> CleanForms(fs, formId', id', was)
  {
    if fs != [] {
      MigrateStringLaw(fs[0], id, r, id);
      StaysClean(fs[1..], formId, id, r, formId', id', was);
      var m := MigrateForms(fs, formId, id, r);
      assert m.forms[1..] == MigrateForms(fs[1..], formId, id, r).forms;
    }
  }

  predicate CleanStack(f: Form) {
    && CleanForms(f.subs, IFFFORM_USBCLASS, IFFCHNK_NAME, ClassPath().was)
    && Clean(f, IFFCHNK_INSERTSND, PresetPath().was)
    && Clean(f, IFFCHNK_REMOVESND, PresetPath().was)
  }

  predicate CleanDevice(f: Form) {
    && CleanForms(f.subs, IFFFORM_DEVCFGDATA, IFFCHNK_OWNER, OwnerName().was)
    && CleanForms(f.subs, IFFFORM_IFCFGDATA, IFFCHNK_OWNER, OwnerName().was)
  }

  // What one step of the migration promises about a form.
  ghost predicate Settles(f: Form, m: Migrated, clean: bool, after: bool) {
    Distinct(m.form) && m.form.id == f.id && after && (m.changed <==> !clean) && (m.changed <==> m.form != f)
  }

  lemma MigrateStackLaw(f: Form)
    requires Distinct(f)
    ensures var m := MigrateStack(f); Settles(f, m, CleanStack(f), CleanStack(m.form))
  {
    NamesClash();
    MigrateFormsLaw(f.subs, IFFFORM_USBCLASS, IFFCHNK_NAME, ClassPath());
    var f0 := f.(subs := MigrateForms(f.subs, IFFFORM_USBCLASS, IFFCHNK_NAME, ClassPath()).forms);
    MigrateStringLaw(f0, IFFCHNK_INSERTSND, PresetPath(), IFFCHNK_REMOVESND);
    var f1 := MigrateCfgString(f0, IFFCHNK_INSERTSND, PresetPath()).form;
    MigrateStringLaw(f1, IFFCHNK_REMOVESND, PresetPath(), IFFCHNK_INSERTSND);
  }

  lemma MigrateDeviceLaw(f: Form)
    requires Distinct(f)
    ensures var m := MigrateDevice(f); Settles(f, m, CleanDevice(f), CleanDevice(m.form))
  {
    NamesClash();
    MigrateFormsLaw(f.subs, IFFFORM_DEVCFGDATA, IFFCHNK_OWNER, OwnerName());
    var fs := MigrateForms(f.subs, IFFFORM_DEVCFGDATA, IFFCHNK_OWNER, OwnerName()).forms;
    StaysClean(f.subs, IFFFORM_DEVCFGDATA, IFFCHNK_OWNER, OwnerName(), IFFFORM_IFCFGDATA, IFFCHNK_OWNER, OwnerName().was);
    MigrateFormsLaw(fs, IFFFORM_IFCFGDATA, IFFCHNK_OWNER, OwnerName());
    StaysClean(fs, IFFFORM_IFCFGDATA, IFFCHNK_OWNER, OwnerName(), IFFFORM_DEVCFGDATA, IFFCHNK_OWNER, OwnerName().was);
  }

  predicate CleanDevices(fs: seq<Form>) {
    fs != [] ==> (fs[0].id == IFFFORM_DEVICECFG ==> CleanDevice(fs[0])) && CleanDevices(fs[1..])
  }

  predicate CleanFirstStack(fs: seq<Form>) {
    fs != [] ==> if fs[0].id == IFFFORM_STACKCFG then CleanStack(fs[0]) else CleanFirstStack(fs[1..])
  }

  lemma {:induction false} MigrateDevicesLaw(fs: seq<Form>)
    requires AllDistinct(fs)
    ensures var m := MigrateDevices(fs);
      && AllDistinct(m.forms) && CleanDevices(m.forms)
      && (m.changed <==> !CleanDevices(fs)) && (m.changed <==> m.forms != fs)
      && (CleanFirstStack(m.forms) <==> CleanFirstStack(fs))
  {
    if fs != [] {
      MigrateDeviceLaw(fs[0]);
      MigrateDevicesLaw(fs[1..]);
      var m := MigrateDevices(fs);
      assert m.forms[1..] == MigrateDevices(fs[1..]).forms;
      assert fs == [fs[0]] + fs[1..];
    }
  }

  lemma {:induction false} MigrateFirstStackLaw(fs: seq<Form>)
    requires AllDistinct(fs)
    ensures var m := MigrateFirstStack(fs);
      && AllDistinct(m.forms) && CleanFirstStack(m.forms)
      && (m.changed <==> !CleanFirstStack(fs)) && (m.changed <==> m.forms != fs)
      && (CleanDevices(m.forms) <==> CleanDevices(fs))
  {
    if fs != [] {
      var m := MigrateFirstStack(fs);
      assert fs == [fs[0]] + fs[1..];
      if fs[0].id == IFFFORM_STACKCFG {
        MigrateStackLaw(fs[0]);
        assert m.forms[1..] == fs[1..];
      } else {
        MigrateFirstStackLaw(fs[1..]);
        assert m.forms[1..] == MigrateFirstStack(fs[1..]).forms;
      }
    }
  }

  predicate CleanCfg(cfg: Form) {
    CleanFirstStack(cfg.subs) && CleanDevices(cfg.subs)
  }

  // pMigrateCfg changes the tree, and says so, exactly when an old name is left in it; it
  // leaves none, so a second pass returns FALSE and changes nothing.
  lemma MigrateIdempotent(cfg: Form)
    requires Distinct(cfg)
    ensures var m := MigrateCfg(cfg);
      && (m.changed <==> !CleanCfg(cfg)) && (m.changed <==> m.form != cfg)
      && CleanCfg(m.form)
      && MigrateCfg(m.form) == Migrated(m.form, false)
  {
    MigrateOnce(cfg);
    MigrateOnce(MigrateCfg(cfg).form);
  }

  lemma MigrateOnce(cfg: Form)
    requires Distinct(cfg)
    ensures var m := MigrateCfg(cfg);
      && Distinct(m.form) && CleanCfg(m.form)
      && (m.changed <==> !CleanCfg(cfg)) && (m.changed <==> m.form != cfg)
  {
    MigrateFirstStackLaw(cfg.subs);
    MigrateDevicesLaw(MigrateFirstStack(cfg.subs).forms);
  }

  // ------------------------------------------------------------------ what a migration leaves alone

  lemma {:induction false} FormsMigrated(fs: seq<Form>, formId: ulong, id: ulong, r: Rename, k: nat)
    requires k < |fs|
    ensures var m := MigrateForms(fs, formId, id, r).forms;
      |m| == |fs| && m[k] == if fs[k].id == formId then MigrateCfgString(fs[k], id, r).form else fs[k]
    decreases |fs|
  {
    if k > 0 {
      FormsMigrated(fs[1..], formId, id, r, k - 1);
    } else if |fs| > 1 {
      FormsMigrated(fs[1..], formId, id, r, 0);
    }
  }

  // In a device form the owner strings of both kinds of items are migrated, each form in its
  // place, and nothing else is touched.
  lemma DeviceMigrated(f: Form, k: nat)
    requires k < |f.subs|
    ensures var m := MigrateDevice(f).form;
      && m.id == f.id && m.chunks == f.chunks && |m.subs| == |f.subs|
      && m.subs[k] == if f.subs[k].id == IFFFORM_DEVCFGDATA || f.subs[k].id == IFFFORM_IFCFGDATA
                      then MigrateCfgString(f.subs[k], IFFCHNK_OWNER, OwnerName()).form else f.subs[k]
  {
    FormsMigrated(f.subs, IFFFORM_DEVCFGDATA, IFFCHNK_OWNER, OwnerName(), k);
    var d := MigrateForms(f.subs, IFFFORM_DEVCFGDATA, IFFCHNK_OWNER, OwnerName()).forms;
    FormsMigrated(d, IFFFORM_IFCFGDATA, IFFCHNK_OWNER, OwnerName(), k);
  }

  // In the stack form the class paths are migrated form by form, and of its own chunks only the
  // two sounds.
  lemma StackMigrated(f: Form, k: nat, id: ulong)
    requires Distinct(f) && k < |f.subs|
    ensures var m := MigrateStack(f).form;
      && m.id == f.id && |m.subs| == |f.subs|
      && m.subs[k] == (if f.subs[k].id == IFFFORM_USBCLASS then MigrateCfgString(f.subs[k], IFFCHNK_NAME, ClassPath()).form
                       else f.subs[k])
      && Lookup(m.chunks, id) == (if id == IFFCHNK_INSERTSND || id == IFFCHNK_REMOVESND
                                  then Lookup(MigrateCfgString(f, id, PresetPath()).form.chunks, id)
                                  else Lookup(f.chunks, id))
  {
    NamesClash();
    FormsMigrated(f.subs, IFFFORM_USBCLASS, IFFCHNK_NAME, ClassPath(), k);
    MigrateFormsLaw(f.subs, IFFFORM_USBCLASS, IFFCHNK_NAME, ClassPath());
    var f0 := f.(subs := MigrateForms(f.subs, IFFFORM_USBCLASS, IFFCHNK_NAME, ClassPath()).forms);
    MigrateStringLaw(f0, IFFCHNK_INSERTSND, PresetPath(), id);
    var f1 := MigrateCfgString(f0, IFFCHNK_INSERTSND, PresetPath()).form;
    MigrateStringLaw(f0, IFFCHNK_INSERTSND, PresetPath(), IFFCHNK_REMOVESND);
    MigrateStringLaw(f1, IFFCHNK_REMOVESND, PresetPath(), id);
    assert Lookup(MigrateCfgString(f, IFFCHNK_INSERTSND, PresetPath()).form.chunks, IFFCHNK_INSERTSND) == Lookup(f1.chunks, IFFCHNK_INSERTSND);
    SameLookup(f, f1, IFFCHNK_REMOVESND);
  }

  // What becomes of a string depends on that string alone.
  lemma SameLookup(f: Form, g: Form, id: ulong)
    requires DistinctIds(f.chunks) && DistinctIds(g.chunks) && Lookup(f.chunks, id) == Lookup(g.chunks, id)
    ensures Lookup(MigrateCfgString(f, id, PresetPath()).form.chunks, id) == Lookup(MigrateCfgString(g, id, PresetPath()).form.chunks, id)
  {
    if Lookup(f.chunks, id).Some? {
      var c := StringChunk(id, Renamed(CStr(Lookup(f.chunks, id).value), PresetPath()));
      AddIsMapUpdate(f.chunks, c, id);
      AddIsMapUpdate(g.chunks, c, id);
    }
  }

  // Below the root every device form is migrated, of the stack forms the first, and nothing else;
  // every form keeps its place.
  lemma CfgMigrated(cfg: Form, k: nat)
    requires k < |cfg.subs|
    ensures var m, f := MigrateCfg(cfg).form, cfg.subs[k];
      && m.id == cfg.id && m.chunks == cfg.chunks && |m.subs| == |cfg.subs|
      && m.subs[k] == (if f.id == IFFFORM_DEVICECFG then MigrateDevice(f).form
                       else if f.id == IFFFORM_STACKCFG && forall j :: 0 <= j < k ==> cfg.subs[j].id != IFFFORM_STACKCFG
                       then MigrateStack(f).form else f)
  {
    FirstStackMigrated(cfg.subs, k);
    DevicesMigrated(MigrateFirstStack(cfg.subs).forms, k);
  }

  lemma {:induction false} FirstStackMigrated(fs: seq<Form>, k: nat)
    requires k < |fs|
    ensures var m := MigrateFirstStack(fs).forms;
      && |m| == |fs|
      && m[k] == if fs[k].id == IFFFORM_STACKCFG && forall j :: 0 <= j < k ==> fs[j].id != IFFFORM_STACKCFG
                 then MigrateStack(fs[k]).form else fs[k]
    decreases |fs|
  {
    if fs[0].id != IFFFORM_STACKCFG && |fs| > 1 {
      FirstStackMigrated(fs[1..], if k > 0 then k - 1 else 0);
      assert forall j :: 0 < j < |fs| ==> fs[j] == fs[1..][j - 1];
    }
  }

  lemma {:induction false} DevicesMigrated(fs: seq<Form>, k: nat)
    requires k < |fs|
    ensures var m := MigrateDevices(fs).forms;
      |m| == |fs| && m[k] == if fs[k].id == IFFFORM_DEVICECFG then MigrateDevice(fs[k]).form else fs[k]
    decreases |fs|
  {
    if |fs| > 1 {
      DevicesMigrated(fs[1..], if k > 0 then k - 1 else 0);
    }
  }
}
