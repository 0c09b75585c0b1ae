/**
 The settings as they run: backends whose fields change in place and the
 loops over them. Each method does what SettingsStore says.
 */
module Settings {

  import opened Basics
  import opened KeyStrings
  import opened SettingsStore

  class DesktopBackend {
    var entries: Entries
    var dirty: bool
    var pending: bool
    var disk: Entries
    var synced: bool
    var saveFailed: bool
    var writes: nat
    var announced: seq<Change>

    function Abs(): Backend
      reads this
    {
      Backend(entries, dirty, pending, disk, synced, saveFailed, writes, announced)
    }

    constructor (file: Entries, readable: bool)
      ensures Abs() == Load(file, readable)
    {
      entries := if readable then file else map[];
      dirty, pending, disk, synced, saveFailed, writes, announced := false, false, file, readable, false, 0, [];
    }

    method GetValue(key: string) returns (value: Option<string>)
      ensures value == SettingsStore.GetValue(Abs(), key)
    {
      var p := Parse(key);
      if p == None {
        return None;
      }
      var e := (p.value.group, p.value.key);
      value := if e in entries then Some(entries[e]) else None;
    }

    method QueueSave()
      modifies this
      ensures Abs() == SettingsStore.QueueSave(old(Abs()))
    {
      if !dirty {
        return;
      }
      if pending {
        return;
      }
      pending := true;
    }

    method SetValue(key: string, value: string, accepts: Names) returns (ok: bool)
      modifies this
      ensures (Abs(), ok) == SettingsStore.SetValue(old(Abs()), key, value, accepts)
    {
      var p := Parse(key);
      if p == None {
        return false;
      }
      var e := (p.value.group, p.value.key);
      var was := Lookup(entries, e);
      if accepts(e.0, e.1) {
        entries := entries[e := value];
      }
      dirty := true;
      QueueSave();
      announced := announced + [Change(key, was, value)];
      return true;
    }

    method SaveSettings(works: bool)
      modifies this
      ensures Abs() == Save(old(Abs()), works)
    {
      if !dirty {
        return;
      }
      if !works {
        saveFailed := true;
        return;
      }
      disk, synced, saveFailed, writes := entries, true, false, writes + 1;
      dirty := false;
    }

    method SaveSettingsTimer(works: bool)
      modifies this
      ensures Abs() == SaveTimer(old(Abs()), works)
    {
      SaveSettings(works);
      pending := false;
    }

    method Handle(e: Event, accepts: Names)
      modifies this
      ensures Abs() == Step(old(Abs()), e, accepts)
    {
      match e
      case Set(key, value) => var _ := SetValue(key, value, accepts);
      case Timer(works) =>
        if pending {
          SaveSettingsTimer(works);
        }
    }
  }

  lemma TakenIffReadable(b: Backend, key: string, value: string, accepts: Names)
    ensures var (c, ok) := SettingsStore.SetValue(b, key, value, accepts);
            (ok <==> EntryOf(key).Some?) && (!ok ==> c == b)
  {
  }

  lemma LayersAfter(before: seq<Backend>, after: seq<Backend>, key: string, value: string, accepts: Names)
    requires before != [] && |after| == |before|
    requires forall j :: 1 <= j < |before| ==> after[j] == before[j]
    requires after[0] ==
             if EntryOf(key).Some? then SettingsStore.SetValue(before[0], key, value, accepts).0 else before[0]
    ensures SetLayered(before, key, value, accepts) == (after, EntryOf(key).Some?)
  {
    if EntryOf(key).None? {
      UnreadableKey(before, key, value, accepts);
      assert after == before;
    } else {
      assert after == [after[0]] + before[1..];
    }
  }

  class Layers {
    const backends: seq<DesktopBackend>

    /** A backend is in the list once. */
    ghost predicate Valid() {
      forall i, j :: 0 <= i < j < |backends| ==> backends[i] != backends[j]
    }

    constructor (custom: DesktopBackend?, runtime: DesktopBackend?)
      requires custom != null ==> custom != runtime
      ensures Valid()
      ensures backends == (if runtime == null then [] else [runtime]) + (if custom == null then [] else [custom])
    {
      backends := (if runtime == null then [] else [runtime]) + (if custom == null then [] else [custom]);
    }

    static ghost function Values(objs: seq<DesktopBackend>): (r: seq<Backend>)
      reads objs
      ensures |r| == |objs| && forall i :: 0 <= i < |objs| ==> r[i] == objs[i].Abs()
    {
      if objs == [] then [] else [objs[0].Abs()] + Values(objs[1..])
    }

    /** With no backend at all the source leaves its result unset. */
    method GetValue(key: string) returns (value: Option<string>)
      requires backends != []
      ensures value == GetLayered(Values(backends), key)
    {
      var i := 0;
      value := None;
      while i < |backends| && value == None
        invariant i <= |backends|
        invariant value == None ==> GetLayered(Values(backends), key) == GetLayered(Values(backends)[i..], key)
        invariant value != None ==> GetLayered(Values(backends), key) == value
      {
        value := backends[i].GetValue(key);
        i := i + 1;
      }
    }

    method SetValue(key: string, value: string, accepts: Names) returns (ok: bool)
      requires Valid() && backends != []
      modifies backends
      ensures (Values(backends), ok) == SetLayered(old(Values(backends)), key, value, accepts)
    {
      hide SetLayered, SettingsStore.SetValue, EntryOf;
      ghost var before := Values(backends);
      ok := false;
      var i := 0;
      while i < |backends| && !ok
        invariant i <= |backends|
        invariant ok || i > 0 ==> (ok <==> EntryOf(key).Some?)
        invariant ok ==> i == 1
        invariant !ok ==> forall j :: 0 <= j < |backends| ==> backends[j].Abs() == before[j]
        invariant ok ==> backends[0].Abs() == SettingsStore.SetValue(before[0], key, value, accepts).0
        invariant ok ==> forall j :: 1 <= j < |backends| ==> backends[j].Abs() == before[j]
      {
        TakenIffReadable(before[i], key, value, accepts);
        ok := backends[i].SetValue(key, value, accepts);
        i := i + 1;
      }
      LayersAfter(before, Values(backends), key, value, accepts);
    }
  }
}
