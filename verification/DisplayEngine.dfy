/**
 The display life cycle as functions on one state: the local display factory,
 the status machine of a display, the part of the manager that answers a status
 change, the display store and its deferred purge.

 Everything the daemon asks of the outside (logind, files, the password
 database, the X server) is answered by a World, which may answer the same
 question differently every time: `tick` counts the questions.

 A status change is announced with GObject's "notify" signal. That signal is
 declared without recursion: a change made by a handler of the running emission
 does not start a second one, it restarts the first, and every handler reads
 the status anew. Emissions on other displays do nest, and that is where the
 recursion of this module comes from.
 */
module DisplayEngine {
  import opened Basics
  import opened DisplayNumbers

  const MAX_DISPLAY_FAILURES: nat := 5

  datatype Status = Unmanaged | Prepared | Managed | WaitingToFinish | Finished | Failed

  datatype SessionClass = Greeter | User

  /** LegacyX runs its own X server, LocalServer has none, Remote came over XDMCP. */
  datatype Kind = LegacyX | LocalServer | Remote

  datatype Display = Display(
    kind: Kind,
    seat: Option<string>,
    number: int,                  // -1 for none
    cls: SessionClass,
    sessionType: Option<string>,
    initial: bool,
    status: Status,
    registered: bool,
    sessionId: Option<string>,
    hasSession: bool,             // the manager made a session for it
    initialSetup: bool,
    finishQueued: bool,
    watched: bool,                // the factory listens for session-registered
    finishes: nat,                // how often FINISHED was entered; observed only
    releases: nat                 // how often its number was given back; observed only
  ) {
    predicate IsLocal() { kind != Remote }

    predicate Dead() { status == Finished || status == Failed }
  }

  /** What an observer of the store's signals and of the failure handling sees. */
  datatype LogEntry = Added(d: nat) | Removed(d: nat) | Replacement(seat: string) | Reset | Released(d: nat, taken: bool)

  datatype World = World(
    userServer: bool,                         // build option: user display server
    waylandBuild: bool,                       // build option: Wayland support
    initialVt: nat,                           // build option: the first VT
    multi: (nat, string) -> bool,             // can the seat hold several sessions?
    login: (nat, string) -> Option<string>,   // session of the seat's login window
    seats: nat -> Option<seq<string>>,        // logind's seats, or a failed call
    vt: nat -> nat,                           // VT of a session, 0 when unknown
    onTty: (nat, string) -> bool,             // is the session on the active tty?
    waylandOn: nat -> bool,                   // is Wayland enabled and installed?
    initialSetup: nat -> bool,                // does a display want initial setup?
    authority: nat -> bool,                   // was the X authority file written?
    serverStarts: nat -> bool,                // did the X server process start?
    greeterUser: nat -> bool                  // is the greeter's user known?
  )

  datatype State = State(
    displays: seq<Display>,       // every display object so far, by identity
    store: seq<nat>,
    used: set<nat>,
    numFailures: nat,
    purgePending: bool,
    activeVt: nat,
    waitArmed: bool,
    tick: nat,
    log: seq<LogEntry>
  )

  const INITIAL := State([], [], {}, 0, false, 0, false, 0, [])

  /** Store entries are display objects, reserved numbers fit 32 bits, and local displays have a seat. */
  predicate WF(s: State) {
    && (forall k :: 0 <= k < |s.store| ==> s.store[k] < |s.displays|)
    && (forall n :: n in s.used ==> n < U32)
    && (forall i :: 0 <= i < |s.displays| ==> s.displays[i].number >= -1 && (s.displays[i].IsLocal() ==> s.displays[i].seat.Some?))
  }

  lemma StoredOnes(s: State)
    requires WF(s)
    ensures forall k :: 0 <= k < |s.store| ==> s.store[k] < |s.displays|
  {
  }

  /** What no handler ever changes about a display that exists. */
  predicate Carries(a: Display, b: Display) {
    && a.kind == b.kind && a.seat == b.seat && a.number == b.number && a.cls == b.cls
    && a.finishes <= b.finishes && a.releases <= b.releases
  }

  /** A local display with a number that has not finished yet. */
  predicate Live(e: Display) {
    e.IsLocal() && e.number >= 0 && e.finishes == 0
  }

  /** Some other live display has the number of d. */
  predicate Taken(s: State, d: nat)
    requires d < |s.displays|
  {
    exists i :: 0 <= i < |s.displays| && i != d && Live(s.displays[i]) && s.displays[i].number == s.displays[d].number
  }

  predicate Grows(s: State, t: State) {
    && |s.displays| <= |t.displays|
    && (forall i :: 0 <= i < |s.displays| ==> Carries(s.displays[i], t.displays[i]))
    && s.log <= t.log
  }

  /** How many failures are still answered with a replacement. */
  function Room(failures: nat): nat {
    if failures <= MAX_DISPLAY_FAILURES then MAX_DISPLAY_FAILURES - failures else 0
  }

  /** Nothing left the store, and the new displays follow in it one by one. */
  predicate Stored(s: State, t: State) {
    && |t.store| - |s.store| == |t.displays| - |s.displays| >= 0
    && (forall k :: 0 <= k < |s.store| ==> t.store[k] == s.store[k])
    && (forall k :: |s.store| <= k < |t.store| ==> t.store[k] == |s.displays| + (k - |s.store|))
  }

  /**
   A cascade of failures uses up room for every display beyond `extra`, and
   all the displays it makes are stored.
   */
  predicate Cascades(s: State, t: State, extra: nat) {
    && Grows(s, t)
    && Stored(s, t)
    && s.numFailures <= t.numFailures
    && |t.displays| + Room(t.numFailures) <= |s.displays| + Room(s.numFailures) + extra
  }

  lemma RoomShrinks(s: State, t: State, extra: nat)
    requires Cascades(s, t, extra)
    ensures Room(t.numFailures) <= Room(s.numFailures)
  {
  }

  lemma CascadesItself(s: State)
    ensures Cascades(s, s, 0)
  {
  }

  lemma CascadesWithin(s: State, t: State, a: nat, b: nat)
    requires Cascades(s, t, a) && a <= b
    ensures Cascades(s, t, b)
  {
  }

  lemma CascadesThen(s: State, t: State, u: State, a: nat, b: nat)
    requires Cascades(s, t, a) && Cascades(t, u, b)
    ensures Cascades(s, u, a + b)
  {
  }

  /** The outside has answered one more question. */
  function Asked(s: State): (r: State)
    requires WF(s)
    ensures WF(r) && Cascades(s, r, 0)
  {
    s.(tick := s.tick + 1)
  }

  predicate UseWayland(w: World, t: nat) {
    w.waylandBuild && w.waylandOn(t)
  }

  /** Only the end of a user session resets the count of failures. */
  function Resets(c: SessionClass, st: Status): nat {
    if c == User && st == Finished then 1 else 0
  }

  // ---- the status machine of a display -------------------------------------

  function WithStatus(s: State, d: nat, st: Status): State
    requires d < |s.displays|
  {
    var e := s.displays[d];
    var n := if st == Finished && e.status != Finished then e.finishes + 1 else e.finishes;
    s.(displays := s.displays[d := e.(status := st, finishes := n)])
  }

  function SetStatus(w: World, s: State, d: nat, st: Status): (r: State)
    requires WF(s) && d < |s.displays|
    ensures WF(r) && Grows(s, r)
    ensures Resets(s.displays[d].cls, st) == 0 ==> Cascades(s, r, 0)
    decreases Resets(s.displays[d].cls, st), Room(s.numFailures), 3, 0
  {
    if s.displays[d].status == st then s else Notify(w, WithStatus(s, d, st), d)
  }

  /** Setting the status as an object property announces it even when it stays the same. */
  function SetStatusProperty(w: World, s: State, d: nat, st: Status): (r: State)
    requires WF(s) && d < |s.displays| && st != Finished
    ensures WF(r) && Cascades(s, r, 0)
    decreases 0, Room(s.numFailures), 3, 0
  {
    Notify(w, WithStatus(s, d, st), d)
  }

  /** Handlers are connected while the display is in the store: first the manager's, then the factory's. */
  function Notify(w: World, s: State, d: nat): (r: State)
    requires WF(s) && d < |s.displays|
    ensures WF(r) && Grows(s, r)
    ensures Resets(s.displays[d].cls, s.displays[d].status) == 0 ==> Cascades(s, r, 0)
    decreases Resets(s.displays[d].cls, s.displays[d].status), Room(s.numFailures), 2, 0
  {
    if d !in s.store then s
    else
      // When the manager's handler changes the status the emission restarts,
      // and its second pass finds the manager with nothing left to do.
      FactoryHandler(w, ManagerHandler(w, s, d), d)
  }

  /** The manager sets up a session on a display that just became usable. */
  function ManagerHandler(w: World, s: State, d: nat): (r: State)
    requires WF(s) && d < |s.displays|
    ensures WF(r) && Cascades(s, r, 0) && r.store == s.store && r.numFailures == s.numFailures
    ensures r.displays[d].status == s.displays[d].status || (r.displays[d].status == Finished && r.displays[d].cls == Greeter)
  {
    var e := s.displays[d];
    var usable := (e.status == Prepared && e.number == -1) || (e.status == Managed && e.number != -1);
    if usable && e.cls == Greeter then
      if w.greeterUser(s.tick) then WithSession(Asked(s), d) else QuietEnd(Asked(s), d)
    else s
  }

  function WithSession(s: State, d: nat): (r: State)
    requires WF(s) && d < |s.displays|
    ensures WF(r) && Cascades(s, r, 0)
  {
    s.(displays := s.displays[d := s.displays[d].(hasSession := true)])
  }

  /** Unmanaged and finished inside a running emission, which announces nothing by itself. */
  function QuietEnd(s: State, d: nat): (r: State)
    requires WF(s) && d < |s.displays|
    ensures WF(r) && Cascades(s, r, 0)
  {
    var e := s.displays[d];
    var n := if e.status == Finished then e.finishes else e.finishes + 1;
    s.(displays := s.displays[d := e.(status := Finished, finishes := n, finishQueued := false)])
  }

  /** The factory releases numbers, queues the purge and replaces what failed. */
  function FactoryHandler(w: World, s: State, d: nat): (r: State)
    requires WF(s) && d < |s.displays|
    ensures WF(r) && Grows(s, r)
    ensures Resets(s.displays[d].cls, s.displays[d].status) == 0 ==> Cascades(s, r, 0)
    decreases Resets(s.displays[d].cls, s.displays[d].status), Room(s.numFailures), 1, 0
  {
    hide WF, Grows;
    match s.displays[d].status
    case Finished => OnFinished(w, s, d)
    case Failed => OnFailed(w, s, d)
    case Managed =>
      CascadesItself(s);
      if w.userServer then Watched(s, d) else s
    case _ =>
      CascadesItself(s);
      s
  }

  function Watched(s: State, d: nat): (r: State)
    requires WF(s) && d < |s.displays|
    ensures WF(r) && Cascades(s, r, 0)
  {
    s.(displays := s.displays[d := s.displays[d].(watched := true)])
  }

  function GivenBack(s: State, d: nat): State
    requires d < |s.displays|
  {
    s.(displays := s.displays[d := s.displays[d].(releases := s.displays[d].releases + 1)])
  }

  /**
   What the end of a display releases, whether or not seats are synchronised
   next: the number, whoever holds it.
   */
  function Release(s: State, d: nat): (r: State)
    requires WF(s) && d < |s.displays|
    ensures WF(r) && Cascades(s, r, 0)
  {
    var e := s.displays[d];
    if e.number == -1 then s.(purgePending := true)
    else
      GivenBack(s, d).(used := s.used - {e.number}, purgePending := true, log := s.log + [Released(d, Taken(s, d))])
  }

  function OnFinished(w: World, s: State, d: nat): (r: State)
    requires WF(s) && d < |s.displays|
    ensures WF(r) && Grows(s, r)
    ensures s.displays[d].cls == Greeter ==> Cascades(s, r, 0)
    decreases if s.displays[d].cls == User then 1 else 0, Room(s.numFailures), 0, 0
  {
    var e := s.displays[d];
    var t := Release(s, d);
    if e.IsLocal() && e.cls != Greeter then
      SyncSeats(w, ResetAfter(t))
    else t
  }

  /** The failures counted so far are forgiven. */
  function ResetAfter(s: State): (r: State)
    requires WF(s)
    ensures WF(r) && Grows(s, r) && r.numFailures == 0
  {
    s.(numFailures := 0, log := s.log + [Reset])
  }

  function OnFailed(w: World, s: State, d: nat): (r: State)
    requires WF(s) && d < |s.displays|
    ensures WF(r) && Cascades(s, r, 0)
    decreases 0, Room(s.numFailures), 0, 0
  {
    var e := s.displays[d];
    if !e.IsLocal() then s.(purgePending := true)
    else
      var t := Counted(s, e.seat.value);
      if t.numFailures > MAX_DISPLAY_FAILURES then t
      else
        CreateDisplay(w, t, e.seat.value, ReplacementType(w, e), e.initial)
  }

  /** What replaces a failed display: a Wayland display is replaced by an X display. */
  function ReplacementType(w: World, e: Display): Option<string> {
    if w.waylandBuild && e.sessionType == Some("wayland") then None else e.sessionType
  }

  /** One more failure of a local display, which asks for a replacement unless there were too many. */
  function Counted(s: State, seat: string): (r: State)
    requires WF(s)
    ensures WF(r) && Grows(s, r) && r.displays == s.displays && r.numFailures == s.numFailures + 1
  {
    var t := s.(purgePending := true, numFailures := s.numFailures + 1);
    if t.numFailures > MAX_DISPLAY_FAILURES then t else t.(log := t.log + [Replacement(seat)])
  }

  /** No finish is queued any more. */
  function Unqueued(s: State, d: nat): (r: State)
    requires WF(s) && d < |s.displays|
    ensures WF(r) && Cascades(s, r, 0)
  {
    s.(displays := s.displays[d := s.displays[d].(finishQueued := false)])
  }

  function Unmanage(w: World, s: State, d: nat): (r: State)
    requires WF(s) && d < |s.displays|
    ensures WF(r) && Cascades(s, r, 0)
    decreases 0, Room(s.numFailures), 4, 0
  {
    SetStatus(w, s, d, if s.displays[d].registered then Unmanaged else Failed)
  }

  function Finish(w: World, s: State, d: nat): (r: State)
    requires WF(s) && d < |s.displays|
    ensures WF(r) && Grows(s, r)
    ensures s.displays[d].cls == Greeter ==> Cascades(s, r, 0)
  {
    SetStatus(w, Unqueued(s, d), d, Finished)
  }

  /** Ready a display to be managed; only X displays can fail at that. */
  function Prepare(w: World, s: State, d: nat): (r: (State, bool))
    requires WF(s) && d < |s.displays|
    ensures WF(r.0) && Cascades(s, r.0, 0)
    decreases 0, Room(s.numFailures), 4, 0
  {
    hide Cascades;
    var t0 := WithSetup(s, d, w.initialSetup(s.tick));
    var t := Asked(t0);
    CascadesThen(s, t0, t, 0, 0);
    if t.displays[d].kind == LocalServer then
      var r := SetStatus(w, t, d, Prepared);
      CascadesThen(s, t, r, 0, 0);
      (r, true)
    else
      var u := Asked(t);
      CascadesThen(s, t, u, 0, 0);
      if w.authority(t.tick) then
        var r := SetStatus(w, u, d, Prepared);
        CascadesThen(s, u, r, 0, 0);
        (r, true)
      else (u, false)
  }

  function WithSetup(s: State, d: nat, setup: bool): (r: State)
    requires WF(s) && d < |s.displays|
    ensures WF(r) && Cascades(s, r, 0)
  {
    s.(displays := s.displays[d := s.displays[d].(initialSetup := setup)])
  }

  /** Prepare if that was not done, then start what the display runs on. */
  function Manage(w: World, s: State, d: nat): (r: (State, bool))
    requires WF(s) && d < |s.displays|
    ensures WF(r.0) && Cascades(s, r.0, 0)
    decreases 0, Room(s.numFailures), 5, 0
  {
    if s.displays[d].status == Unmanaged then
      var (t, prepared) := Prepare(w, s, d);
      if prepared then (Launch(w, t, d), true) else (t, false)
    else (Launch(w, s, d), true)
  }

  /** Only the legacy display starts something on its own, an X server. */
  function Launch(w: World, s: State, d: nat): (r: State)
    requires WF(s) && d < |s.displays|
    ensures WF(r) && Cascades(s, r, 0)
    decreases 0, Room(s.numFailures), 4, 1
  {
    if s.displays[d].cls == Greeter && s.displays[d].kind == LegacyX then
      if w.serverStarts(s.tick) then Asked(s) else Unmanage(w, Asked(s), d)
    else s
  }

  // ---- the store -----------------------------------------------------------

  /** The first entry of the store with a property, in table order. */
  function FirstMatch(s: State, ids: seq<nat>, p: Display -> bool): (r: Option<nat>)
    requires forall k :: 0 <= k < |ids| ==> ids[k] < |s.displays|
    ensures r.Some? ==> r.value in ids && r.value < |s.displays| && p(s.displays[r.value])
    ensures r.None? ==> forall k :: 0 <= k < |ids| ==> !p(s.displays[ids[k]])
  {
    if ids == [] then None
    else if p(s.displays[ids[0]]) then Some(ids[0])
    else
      var r := FirstMatch(s, ids[1..], p);
      assert r.None? ==> forall k :: 1 <= k < |ids| ==> ids[k] == ids[1..][k - 1];
      r
  }

  /** scdm_display_store_find. */
  function Find(s: State, p: Display -> bool): (r: Option<nat>)
    requires WF(s)
    ensures r.Some? ==> r.value in s.store && r.value < |s.displays| && p(s.displays[r.value])
    ensures r.None? ==> forall k :: 0 <= k < |s.store| ==> !p(s.displays[s.store[k]])
  {
    FirstMatch(s, s.store, p)
  }

  function OnSeat(seat: string): Display -> bool {
    (e: Display) => e.seat == Some(seat)
  }

  function PreparedOnSeat(seat: string): Display -> bool {
    (e: Display) => e.status == Prepared && e.seat == Some(seat)
  }

  function OfSession(id: string): Display -> bool {
    (e: Display) => e.sessionId == Some(id)
  }

  function StoreAdd(s: State, e: Display): (r: State)
    requires WF(s) && e.number >= -1 && (e.IsLocal() ==> e.seat.Some?)
    ensures WF(r) && Grows(s, r) && r.numFailures == s.numFailures
  {
    s.(displays := s.displays + [e], store := s.store + [|s.displays|], log := s.log + [Added(|s.displays|)])
  }

  function Without(ids: seq<nat>, gone: set<nat>): (r: seq<nat>)
    ensures forall x :: x in r <==> x in ids && x !in gone
  {
    if ids == [] then []
    else if ids[0] in gone then Without(ids[1..], gone)
    else [ids[0]] + Without(ids[1..], gone)
  }

  function Removals(ids: seq<nat>, gone: set<nat>): seq<LogEntry> {
    if ids == [] then []
    else if ids[0] in gone then [Removed(ids[0])] + Removals(ids[1..], gone)
    else Removals(ids[1..], gone)
  }

  function StoreRemove(s: State, gone: set<nat>): (r: State)
    requires WF(s)
    ensures WF(r) && Grows(s, r)
  {
    var kept := Without(s.store, gone);
    assert forall k :: 0 <= k < |kept| ==> kept[k] in kept;
    s.(store := kept, log := s.log + Removals(s.store, gone))
  }

  // ---- the local display factory -------------------------------------------

  function NewDisplay(kind: Kind, seat: string, number: int, cls: SessionClass, sessionType: Option<string>,
                      initial: bool, sessionId: Option<string>): Display
  {
    Display(kind, Some(seat), number, cls, sessionType, initial, Unmanaged, false, sessionId, false, false, false, false, 0, 0)
  }

  /** A display that came over XDMCP, stored once it is prepared. */
  function NewRemote(number: nat): Display {
    Display(Remote, None, number, Greeter, None, false, Prepared, false, None, false, false, false, false, 0, 0)
  }

  function CreateDisplay(w: World, s: State, seat: string, sessionType: Option<string>, initial: bool): (r: State)
    requires WF(s)
    ensures WF(r) && Cascades(s, r, 1)
    decreases 0, Room(s.numFailures), 6, 0
  {
    hide WF, Cascades;
    var multi := w.multi(s.tick, seat);
    var s1 := Asked(s);
    if Find(s1, if multi then PreparedOnSeat(seat) else OnSeat(seat)).Some? then
      CascadesWithin(s, s1, 0, 1);
      s1
    else
      var window := LoginWindow(w, s1, seat);
      var s2 := Asked(s1);
      CascadesThen(s, s1, s2, 0, 0);
      if window.Some? then
        var r := SetStatusProperty(w, s2, window.value, Managed);
        CascadesThen(s, s2, r, 0, 0);
        CascadesWithin(s, r, 0, 1);
        r
      else
        var r := AddDisplay(w, s2, seat, sessionType, initial);
        CascadesThen(s, s2, r, 0, 1);
        r
  }

  /** The display of the seat's login window, if it is running. */
  function LoginWindow(w: World, s: State, seat: string): (r: Option<nat>)
    requires WF(s)
    ensures r.Some? ==> r.value < |s.displays|
  {
    var login := w.login(s.tick, seat);
    if login.None? then None
    else
      var d := Find(s, OfSession(login.value));
      if d.Some? && (s.displays[d.value].status == Managed || s.displays[d.value].status == WaitingToFinish) then d else None
  }

  /** A new display on the next free number. */
  function AddNumbered(s: State, seat: string, initial: bool): (r: State)
    requires WF(s)
    ensures WF(r) && Cascades(s, r, 1) && r.numFailures == s.numFailures
  {
    var num := LeastFree(s.used) % U32;
    StoreAdd(s.(used := s.used + {num}), NewDisplay(LegacyX, seat, num, Greeter, None, initial, None))
  }

  /** A display server of its own on seat0 where that is built in, a numbered X display otherwise. */
  function NewOnSeat(w: World, s: State, seat: string, sessionType: Option<string>, initial: bool): (r: State)
    requires WF(s)
    ensures WF(r) && Cascades(s, r, 1) && r.numFailures == s.numFailures && |r.displays| == |s.displays| + 1
  {
    if w.userServer && seat == "seat0" then
      StoreAdd(s, NewDisplay(LocalServer, seat, -1, Greeter, sessionType, initial, None))
    else
      AddNumbered(s, seat, initial)
  }

  /** The rest of create_display, once it is known that the seat needs a display. */
  function AddDisplay(w: World, s: State, seat: string, sessionType: Option<string>, initial: bool): (r: State)
    requires WF(s)
    ensures WF(r) && Cascades(s, r, 1)
    decreases 0, Room(s.numFailures), 5, 2
  {
    hide WF, Cascades;
    var s1 := NewOnSeat(w, s, seat, sessionType, initial);
    var t := ManageOrNot(w, s1, |s.displays|);
    CascadesThen(s, s1, t, 1, 0);
    t
  }

  /** A display that cannot be managed is unmanaged. */
  function ManageOrNot(w: World, s: State, d: nat): (r: State)
    requires WF(s) && d < |s.displays|
    ensures WF(r) && Cascades(s, r, 0)
    decreases 0, Room(s.numFailures), 5, 1
  {
    hide WF, Cascades;
    var (t, managed) := Manage(w, s, d);
    if managed then t
    else
      RoomShrinks(s, t, 0);
      var r := Unmanage(w, t, d);
      CascadesThen(s, t, r, 0, 0);
      r
  }

  function AddTransient(w: World, s: State): (r: State)
    requires WF(s)
    ensures WF(r) && Cascades(s, r, 1) && |r.displays| == |s.displays| + 1
  {
    if w.userServer then
      var sessionType := if UseWayland(w, s.tick) then Some("wayland") else None;
      StoreAdd(Asked(s), NewDisplay(LocalServer, "seat0", -1, Greeter, sessionType, true, None))
    else
      AddNumbered(s, "seat0", false)
  }

  function CreateTransientDisplay(w: World, s: State): (r: State)
    requires WF(s)
    ensures WF(r) && Cascades(s, r, 1)
  {
    var s1 := AddTransient(w, s);
    hide Cascades;
    var t := Manage(w, s1, |s.displays|).0;
    CascadesThen(s, s1, t, 1, 0);
    t
  }

  /** One display for every seat logind lists, unless the call fails. */
  function SyncSeats(w: World, s: State): (r: State)
    requires WF(s)
    ensures WF(r) && Grows(s, r)
    decreases 0, Room(s.numFailures), 8, 0
  {
    var seats := w.seats(s.tick);
    if seats.None? then Asked(s) else SyncEach(w, Asked(s), seats.value)
  }

  /** Only seat0 is asked about Wayland. */
  function SeatAsked(w: World, s: State, seat: string): (r: (State, Option<string>))
    requires WF(s)
    ensures WF(r.0) && Cascades(s, r.0, 0)
  {
    if seat == "seat0" then (Asked(s), if UseWayland(w, s.tick) then Some("wayland") else None) else (s, None)
  }

  function SyncEach(w: World, s: State, seats: seq<string>): (r: State)
    requires WF(s)
    ensures WF(r) && Cascades(s, r, |seats|)
    decreases 0, Room(s.numFailures), 7, 1 + |seats|
  {
    hide Cascades;
    if seats == [] then
      CascadesItself(s);
      s
    else
      var t := SyncOne(w, s, seats[0]);
      var u := SyncEach(w, t, seats[1..]);
      CascadesThen(s, t, u, 1, |seats| - 1);
      u
  }

  /** What is asked for one listed seat. */
  function SyncOne(w: World, s: State, seat: string): (r: State)
    requires WF(s)
    ensures WF(r) && Cascades(s, r, 1)
    decreases 0, Room(s.numFailures), 7, 0
  {
    hide Cascades;
    var (s1, sessionType) := SeatAsked(w, s, seat);
    var t := CreateDisplay(w, s1, seat, sessionType, seat == "seat0");
    CascadesThen(s, s1, t, 0, 1);
    t
  }

  lemma SyncDone(w: World, s: State, seats: seq<string>)
    requires WF(s)
    ensures SyncEach(w, s, seats[|seats|..]) == s
  {
  }

  lemma SyncNext(w: World, s: State, seats: seq<string>, n: nat)
    requires WF(s) && n < |seats|
    ensures SyncEach(w, s, seats[n..]) == SyncEach(w, SyncOne(w, s, seats[n]), seats[n + 1..])
  {
    assert seats[n..][1..] == seats[n + 1..];
    hide WF, SyncOne;
  }
}
