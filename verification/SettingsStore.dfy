/**
 The settings: a key file that is saved some time after it was changed
 (common/scdm-settings-desktop-backend.c), and the layers of them that are
 asked in turn (common/scdm-settings.c).
 */
module SettingsStore {

  import opened Basics
  import opened KeyStrings

  /** A key file: the value of each key of each group. */
  type Entry = (string, string)
  type Entries = map<Entry, string>

  /** Which names GKeyFile accepts when it stores a value. */
  type Names = (string, string) -> bool

  datatype Change = Change(key: string, was: Option<string>, value: string)

  datatype Backend = Backend(
    entries: Entries,
    dirty: bool,
    pending: bool,           // save_id is a source
    disk: Entries,
    // What happened, for the statements below.
    synced: bool,            // the file was read or written at least once
    saveFailed: bool,        // the last save did not succeed
    writes: nat,
    announced: seq<Change>)

  /** Reading the file; it may not be there to be read. */
  function Load(disk: Entries, readable: bool): Backend {
    Backend(if readable then disk else map[], false, false, disk, readable, false, 0, [])
  }

  function EntryOf(key: string): Option<Entry> {
    var p := Parse(key);
    if p.Some? then Some((p.value.group, p.value.key)) else None
  }

  function Lookup(entries: Entries, e: Entry): Option<string> {
    if e in entries then Some(entries[e]) else None
  }

  function GetValue(b: Backend, key: string): Option<string> {
    var e := EntryOf(key);
    if e.Some? then Lookup(b.entries, e.value) else None
  }

  function QueueSave(b: Backend): Backend {
    if !b.dirty || b.pending then b else b.(pending := true)
  }

  /** g_key_file_set_value: names it does not accept change nothing. */
  function Store(entries: Entries, e: Entry, value: string, accepts: Names): Entries {
    if accepts(e.0, e.1) then entries[e := value] else entries
  }

  /** The new state, and whether the value was taken. */
  function SetValue(b: Backend, key: string, value: string, accepts: Names): (Backend, bool) {
    var e := EntryOf(key);
    if e.None? then (b, false)
    else
      var was := Lookup(b.entries, e.value);
      var c := QueueSave(b.(entries := Store(b.entries, e.value, value, accepts), dirty := true));
      (c.(announced := c.announced + [Change(key, was, value)]), true)
  }

  function Save(b: Backend, works: bool): Backend {
    if !b.dirty then b
    else if !works then b.(saveFailed := true)
    else b.(disk := b.entries, dirty := false, synced := true, saveFailed := false, writes := b.writes + 1)
  }

  function SaveTimer(b: Backend, works: bool): Backend {
    Save(b, works).(pending := false)
  }

  datatype Event = Set(key: string, value: string) | Timer(works: bool)

  /** The timer runs only while it is pending. */
  function Step(b: Backend, e: Event, accepts: Names): Backend {
    match e
    case Set(key, value) => SetValue(b, key, value, accepts).0
    case Timer(works) => if b.pending then SaveTimer(b, works) else b
  }

  function Run(b: Backend, evs: seq<Event>, accepts: Names): Backend {
    if evs == [] then b else Step(Run(b, evs[..|evs| - 1], accepts), evs[|evs| - 1], accepts)
  }

  /**
   A clean backend agrees with its file; a dirty one has its timer pending,
   or its last save failed.
   */
  predicate Safe(b: Backend) {
    && (b.synced && !b.dirty ==> b.disk == b.entries)
    && (b.dirty <==> b.pending || b.saveFailed)
  }

  lemma {:induction false} NothingIsLost(disk: Entries, readable: bool, evs: seq<Event>, accepts: Names)
    ensures Safe(Run(Load(disk, readable), evs, accepts))
  {
    if evs != [] {
      NothingIsLost(disk, readable, evs[..|evs| - 1], accepts);
    }
  }

  /** The last value set for an entry, if any was. */
  function LastSet(evs: seq<Event>, e: Entry): Option<string> {
    if evs == [] then None
    else
      var last := evs[|evs| - 1];
      if last.Set? && EntryOf(last.key) == Some(e) then Some(last.value) else LastSet(evs[..|evs| - 1], e)
  }

  /** After any run an entry has the value last set for it, or the one it had. */
  lemma {:induction false} LastValueWins(b: Backend, evs: seq<Event>, accepts: Names, e: Entry)
    ensures Lookup(Run(b, evs, accepts).entries, e) ==
            if accepts(e.0, e.1) && LastSet(evs, e).Some? then LastSet(evs, e) else Lookup(b.entries, e)
  {
    if evs != [] {
      LastValueWins(b, evs[..|evs| - 1], accepts, e);
    }
  }

  predicate OnlySets(evs: seq<Event>) {
    forall i :: 0 <= i < |evs| ==> evs[i].Set?
  }

  /** Some set of the burst has a key that can be read; the others change nothing. */
  predicate AnyReadable(evs: seq<Event>) {
    exists i :: 0 <= i < |evs| && evs[i].Set? && EntryOf(evs[i].key).Some?
  }

  lemma {:induction false} SetsOnlyWait(b: Backend, evs: seq<Event>, accepts: Names)
    requires OnlySets(evs)
    ensures var c := Run(b, evs, accepts); c.disk == b.disk && c.writes == b.writes
    ensures AnyReadable(evs) ==> Run(b, evs, accepts).dirty && Run(b, evs, accepts).pending
  {
    hide EntryOf, Lookup, Store;
    if evs != [] {
      var before := evs[..|evs| - 1];
      assert OnlySets(before);
      SetsOnlyWait(b, before, accepts);
      ReadableBefore(evs);
      hide AnyReadable;
    }
  }

  lemma ReadableBefore(evs: seq<Event>)
    requires OnlySets(evs) && evs != []
    ensures AnyReadable(evs) <==> AnyReadable(evs[..|evs| - 1]) || EntryOf(evs[|evs| - 1].key).Some?
  {
    hide EntryOf;
    var before := evs[..|evs| - 1];
    assert forall i :: 0 <= i < |before| ==> before[i] == evs[i];
    assert AnyReadable(evs) ==> exists i :: 0 <= i < |evs| && EntryOf(evs[i].key).Some?;
  }

  /**
   However many values are set in a burst, the file is written once, when the
   timer runs, and has the last value of each entry.
   */
  lemma BurstIsOneWrite(b: Backend, evs: seq<Event>, accepts: Names)
    requires OnlySets(evs) && AnyReadable(evs)
    ensures var c := Run(b, evs + [Timer(true)], accepts);
            && c.writes == b.writes + 1 && !c.dirty && !c.pending
            && c.disk == Run(b, evs, accepts).entries
            && forall e :: Lookup(c.disk, e) ==
                 if accepts(e.0, e.1) && LastSet(evs, e).Some? then LastSet(evs, e) else Lookup(b.entries, e)
  {
    SetsOnlyWait(b, evs, accepts);
    assert (evs + [Timer(true)])[..|evs|] == evs;
    forall e: Entry
      ensures Lookup(Run(b, evs, accepts).entries, e) ==
              if accepts(e.0, e.1) && LastSet(evs, e).Some? then LastSet(evs, e) else Lookup(b.entries, e)
    {
      LastValueWins(b, evs, accepts, e);
    }
  }

  function Timers(evs: seq<Event>): nat {
    if evs == [] then 0 else Timers(evs[..|evs| - 1]) + if evs[|evs| - 1].Timer? then 1 else 0
  }

  /** Writing costs no more than the timers that ran. */
  lemma {:induction false} WritesWithinTimers(b: Backend, evs: seq<Event>, accepts: Names)
    ensures b.writes <= Run(b, evs, accepts).writes <= b.writes + Timers(evs)
  {
    if evs != [] {
      WritesWithinTimers(b, evs[..|evs| - 1], accepts);
    }
  }

  /** The layers: the first backend that has the key answers. */
  function GetLayered(bs: seq<Backend>, key: string): Option<string> {
    if bs == [] then None
    else if GetValue(bs[0], key).Some? then GetValue(bs[0], key)
    else GetLayered(bs[1..], key)
  }

  /** The first backend that takes the value keeps it. */
  function SetLayered(bs: seq<Backend>, key: string, value: string, accepts: Names): (seq<Backend>, bool) {
    if bs == [] then (bs, false)
    else
      var (b, ok) := SetValue(bs[0], key, value, accepts);
      if ok then ([b] + bs[1..], true)
      else
        var (cs, rest) := SetLayered(bs[1..], key, value, accepts);
        ([b] + cs, rest)
  }

  /** A key that cannot be read is taken by no layer and changes none. */
  lemma {:induction false} UnreadableKey(bs: seq<Backend>, key: string, value: string, accepts: Names)
    requires EntryOf(key) == None
    ensures SetLayered(bs, key, value, accepts) == (bs, false) && GetLayered(bs, key) == None
  {
    if bs != [] {
      UnreadableKey(bs[1..], key, value, accepts);
      assert [bs[0]] + bs[1..] == bs;
    }
  }

  /**
   Any readable key is taken by the first layer. What is read afterwards is
   what was set for the same entry, and what it was for every other one.
   */
  lemma SetThenGet(bs: seq<Backend>, key: string, value: string, accepts: Names, other: string)
    requires bs != [] && EntryOf(key).Some?
    ensures var (cs, ok) := SetLayered(bs, key, value, accepts);
            && ok && |cs| == |bs| && cs[1..] == bs[1..]
            && GetLayered(cs, other) ==
               if EntryOf(other) == EntryOf(key) && accepts(EntryOf(key).value.0, EntryOf(key).value.1)
               then Some(value) else GetLayered(bs, other)
  {
  }

  /**
   A setting reads back as it was written exactly when GKeyFile accepts its
   names, or it had that value before.
   */
  lemma ReadsItsWriteIff(bs: seq<Backend>, key: string, value: string, accepts: Names)
    requires bs != [] && EntryOf(key).Some?
    ensures GetLayered(SetLayered(bs, key, value, accepts).0, key) == Some(value)
            <==> accepts(EntryOf(key).value.0, EntryOf(key).value.1) || GetLayered(bs, key) == Some(value)
  {
    SetThenGet(bs, key, value, accepts, key);
  }

  /** Two keys that differ only in their locale are the same setting. */
  lemma LocaleIgnored(p: KeyString, q: KeyString)
    requires Separable(p) && Separable(q)
    ensures EntryOf(Format(p)) == EntryOf(Format(q)) <==> p.group == q.group && p.key == q.key
  {
    FormatParses(p);
    FormatParses(q);
  }

  /** A backend has a value exactly for the keys that name one of its entries. */
  lemma GetValueIff(b: Backend, key: string, v: string)
    ensures GetValue(b, key) == Some(v) <==>
            Parse(key).Some? &&
            var p := Parse(key).value;
            (p.group, p.key) in b.entries && b.entries[(p.group, p.key)] == v
    ensures GetValue(b, key) == None <==>
            Parse(key) == None || (Parse(key).value.group, Parse(key).value.key) !in b.entries
  {
  }

  /** The layer with the value while none before it has the key. */
  ghost predicate Answers(bs: seq<Backend>, key: string, v: string, i: int) {
    0 <= i < |bs| && GetValue(bs[i], key) == Some(v) && forall j :: 0 <= j < i ==> GetValue(bs[j], key) == None
  }

  /** A setting is what the first layer that has it says; it is missing only where every layer lacks it. */
  lemma {:induction false} FirstLayerAnswers(bs: seq<Backend>, key: string, v: string)
    ensures GetLayered(bs, key) == Some(v) <==> exists i :: Answers(bs, key, v, i)
    ensures GetLayered(bs, key) == None <==> forall i :: 0 <= i < |bs| ==> GetValue(bs[i], key) == None
    decreases |bs|
  {
    hide GetValue;
    if bs != [] {
      var rest := bs[1..];
      FirstLayerAnswers(rest, key, v);
      assert forall i :: 0 <= i < |rest| ==> rest[i] == bs[i + 1];
      if GetValue(bs[0], key).Some? {
        assert GetValue(bs[0], key) == Some(v) ==> Answers(bs, key, v, 0);
      } else {
        forall i: int | Answers(rest, key, v, i) ensures Answers(bs, key, v, i + 1) {
          assert forall j :: 1 <= j < i + 1 ==> bs[j] == rest[j - 1];
        }
        forall i: int | Answers(bs, key, v, i) ensures Answers(rest, key, v, i - 1) {
        }
        assert forall i :: 1 <= i < |bs| ==> bs[i] == rest[i - 1];
      }
    }
  }

  /** Setting a readable key tells the listeners what the setting was and what it is to be. */
  lemma ChangeAnnounced(b: Backend, key: string, value: string, accepts: Names)
    ensures SetValue(b, key, value, accepts).0.announced ==
            b.announced + (if Parse(key) == None then [] else [Change(key, GetValue(b, key), value)])
  {
  }

  /** A backend starts with what its file says, or with nothing when the file cannot be read. */
  lemma LoadedReads(disk: Entries, readable: bool, p: KeyString, v: string)
    requires Separable(p)
    ensures GetValue(Load(disk, readable), Format(p)) == Some(v) <==>
            readable && (p.group, p.key) in disk && disk[(p.group, p.key)] == v
  {
    FormatParses(p);
  }

  /** A save that fails leaves the file as it was and the backend dirty, with no timer to try again. */
  lemma FailedSaveKeepsFile(b: Backend, accepts: Names)
    requires b.pending && b.dirty
    ensures var c := Step(b, Timer(false), accepts);
            && c.disk == b.disk && c.writes == b.writes && c.entries == b.entries && c.dirty && !c.pending
            && QueueSave(c).pending
  {
  }
}
