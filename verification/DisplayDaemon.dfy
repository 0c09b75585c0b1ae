/**
 The display life cycle as it runs: display objects whose fields are updated in
 place, and a factory that calls itself through the announcements of status
 changes. Every method is proved to do what the function of the same name in
 DisplayEngine or DisplayEvents says.
 */
module DisplayDaemon {
  import opened Basics
  import opened DisplayNumbers
  import opened DisplayEngine
  import opened DisplayEvents
  import opened DisplayInvariant
  import opened DisplayRuns

  class DisplayObject {
    const kind: Kind
    const seat: Option<string>
    const number: int
    var cls: SessionClass
    const sessionType: Option<string>
    const initial: bool
    var status: Status
    var registered: bool
    var sessionId: Option<string>
    var hasSession: bool
    var initialSetup: bool
    var finishQueued: bool
    var watched: bool
    var finishes: nat
    var releases: nat

    function Value(): Display
      reads this
    {
      Display(kind, seat, number, cls, sessionType, initial, status, registered, sessionId, hasSession,
              initialSetup, finishQueued, watched, finishes, releases)
    }

    constructor (e: Display)
      ensures Value() == e
    {
      kind, seat, number, cls := e.kind, e.seat, e.number, e.cls;
      sessionType, initial, status, registered := e.sessionType, e.initial, e.status, e.registered;
      sessionId, hasSession, initialSetup, finishQueued := e.sessionId, e.hasSession, e.initialSetup, e.finishQueued;
      watched, finishes, releases := e.watched, e.finishes, e.releases;
    }
  }

  class Daemon {
    var displays: seq<DisplayObject>
    var store: seq<nat>
    var used: set<nat>
    var numFailures: nat
    var purgePending: bool
    var activeVt: nat
    var waitArmed: bool
    var tick: nat
    ghost var log: seq<LogEntry>

    /** Display objects are never shared. */
    ghost predicate Valid()
      reads this
    {
      forall i, j :: 0 <= i < j < |displays| ==> displays[i] != displays[j]
    }

    static ghost function Values(objects: seq<DisplayObject>): (vs: seq<Display>)
      reads objects
      ensures |vs| == |objects| && forall i :: 0 <= i < |vs| ==> vs[i] == objects[i].Value()
    {
      seq(|objects|, i requires 0 <= i < |objects| reads objects => objects[i].Value())
    }

    ghost function Abs(): State
      reads this, displays
    {
      State(Values(displays), store, used, numFailures, purgePending, activeVt, waitArmed, tick, log)
    }

    /** Displays may have come, as new objects, and none has gone. */
    twostate predicate Extended()
      reads this
    {
      && old(|displays|) <= |displays|
      && forall i :: 0 <= i < |displays| ==>
           if i < old(|displays|) then displays[i] == old(displays)[i] else fresh(displays[i])
    }

    /** Ready for a call: no aliasing, and a well-formed abstract state. */
    ghost predicate Ready()
      reads this, displays
    {
      Valid() && WF(Abs())
    }

    constructor ()
      ensures Ready() && Abs() == INITIAL
    {
      displays, store, used, numFailures, purgePending := [], [], {}, 0, false;
      activeVt, waitArmed, tick, log := 0, false, 0, [];
    }

    // ---- single fields -----------------------------------------------------

    static lemma OneChanged(s: State, d: nat, e: Display)
      requires WF(s) && d < |s.displays|
      requires e.kind == s.displays[d].kind && e.seat == s.displays[d].seat && e.number == s.displays[d].number
      ensures WF(s.(displays := s.displays[d := e]))
    {
    }

    method PutStatus(d: nat, st: Status)
      requires Ready() && d < |displays|
      modifies displays[d]
      ensures Ready() && Abs() == WithStatus(old(Abs()), d, st)
    {
      hide WF, Values;
      ghost var s := Abs();
      ghost var e := WithStatus(s, d, st).displays[d];
      var o := displays[d];
      if st == Finished && o.status != Finished {
        o.finishes := o.finishes + 1;
      }
      o.status := st;
      OneChanged(s, d, e);
      assert Values(displays) == s.displays[d := e];
    }

    method PutQueued(d: nat, queued: bool)
      requires Ready() && d < |displays|
      modifies displays[d]
      ensures Ready() && Abs() == old(Abs()).(displays := old(Abs()).displays[d := old(Abs()).displays[d].(finishQueued := queued)])
    {
      hide WF, Values;
      ghost var s := Abs();
      ghost var e := s.displays[d].(finishQueued := queued);
      displays[d].finishQueued := queued;
      OneChanged(s, d, e);
      assert Values(displays) == s.displays[d := e];
    }

    method PutWatched(d: nat)
      requires Ready() && d < |displays|
      modifies displays[d]
      ensures Ready() && Abs() == old(Abs()).(displays := old(Abs()).displays[d := old(Abs()).displays[d].(watched := true)])
    {
      hide WF, Values;
      ghost var s := Abs();
      ghost var e := s.displays[d].(watched := true);
      displays[d].watched := true;
      OneChanged(s, d, e);
      assert Values(displays) == s.displays[d := e];
    }

    method PutSetup(d: nat, setup: bool)
      requires Ready() && d < |displays|
      modifies displays[d]
      ensures Ready() && Abs() == WithSetup(old(Abs()), d, setup)
    {
      hide WF, Values;
      ghost var s := Abs();
      ghost var e := s.displays[d].(initialSetup := setup);
      displays[d].initialSetup := setup;
      OneChanged(s, d, e);
      assert Values(displays) == s.displays[d := e];
    }

    /** Unmanaged and finished inside a running emission. */
    method EndQuietly(d: nat)
      requires Ready() && d < |displays|
      modifies displays[d]
      ensures Ready() && Abs() == QuietEnd(old(Abs()), d)
    {
      hide WF, Values;
      ghost var s := Abs();
      ghost var e := QuietEnd(s, d).displays[d];
      var o := displays[d];
      if o.status != Finished {
        o.finishes := o.finishes + 1;
      }
      o.status, o.finishQueued := Finished, false;
      OneChanged(s, d, e);
      assert Values(displays) == s.displays[d := e];
    }

    method PutHasSession(d: nat)
      requires Ready() && d < |displays|
      modifies displays[d]
      ensures Ready() && Abs() == WithSession(old(Abs()), d)
    {
      hide WF, Values;
      ghost var s := Abs();
      ghost var e := s.displays[d].(hasSession := true);
      displays[d].hasSession := true;
      OneChanged(s, d, e);
      assert Values(displays) == s.displays[d := e];
    }

    method PutRegistered(d: nat)
      requires Ready() && d < |displays|
      modifies displays[d]
      ensures Ready() && Abs() == old(Abs()).(displays := old(Abs()).displays[d := old(Abs()).displays[d].(registered := true)])
    {
      hide WF, Values;
      ghost var s := Abs();
      ghost var e := s.displays[d].(registered := true);
      displays[d].registered := true;
      OneChanged(s, d, e);
      assert Values(displays) == s.displays[d := e];
    }

    /** A question to the outside has been answered. */
    method Ask()
      requires Ready()
      modifies `tick
      ensures Ready() && Abs() == Asked(old(Abs()))
    {
      tick := tick + 1;
    }

    /** Find the least number nobody has and reserve it. */
    method TakeNextDisplayNumber() returns (num: nat)
      requires Ready()
      modifies `used
      ensures num == LeastFree(old(used)) % U32
      ensures Ready() && Abs() == old(Abs()).(used := old(Abs()).used + {num})
    {
      num := FirstHole(used);
      used := used + {num};
    }

    method QueuePurge()
      requires Ready()
      modifies `purgePending
      ensures Ready() && Abs() == old(Abs()).(purgePending := true)
    {
      purgePending := true;
    }

    method CountFailure(seat: string)
      requires Ready()
      modifies `purgePending, `numFailures, `log
      ensures Ready() && Abs() == Counted(old(Abs()), seat)
    {
      purgePending := true;
      numFailures := numFailures + 1;
      if numFailures <= MAX_DISPLAY_FAILURES {
        log := log + [Replacement(seat)];
      }
    }

    method PutReleased(d: nat)
      requires Valid() && d < |displays|
      modifies displays[d]
      ensures Valid() && Abs() == GivenBack(old(Abs()), d)
    {
      hide Values;
      ghost var s := Abs();
      ghost var e := s.displays[d].(releases := s.displays[d].releases + 1);
      displays[d].releases := displays[d].releases + 1;
      assert Values(displays) == s.displays[d := e];
    }

    method ReleaseNumber(d: nat)
      requires Ready() && d < |displays|
      modifies `used, `purgePending, `log, displays[d]
      ensures Ready() && Abs() == Release(old(Abs()), d)
    {
      hide WF, Values, Taken, Cascades;
      ghost var s := Abs();
      var number := displays[d].number;
      if number != -1 {
        PutReleased(d);
        hide GivenBack;
        used := used - {number};
        log := log + [Released(d, Taken(s, d))];
      }
      purgePending := true;
      assert Abs() == Release(s, d);
    }

    method StoreAdd(e: Display) returns (d: nat)
      requires Ready() && e.number >= -1 && (e.IsLocal() ==> e.seat.Some?)
      modifies this
      ensures Ready() && d == old(|displays|) && Abs() == DisplayEngine.StoreAdd(old(Abs()), e)
      ensures displays == old(displays) + [displays[d]] && fresh(displays[d])
    {
      d := |displays|;
      var o := new DisplayObject(e);
      displays := displays + [o];
      store := store + [d];
      log := log + [Added(d)];
      assert Values(displays) == old(Values(displays)) + [e];
    }

    // ---- the life cycle ----------------------------------------------------

    method SetStatus(w: World, d: nat, st: Status)
      requires Ready() && d < |displays|
      modifies this, displays
      ensures Ready() && Abs() == DisplayEngine.SetStatus(w, old(Abs()), d, st)
      ensures Extended()
      decreases Resets(displays[d].cls, st), Room(numFailures), 3, 0
    {
      if displays[d].status != st {
        PutStatus(d, st);
        Notify(w, d);
      }
    }

    method SetStatusProperty(w: World, d: nat, st: Status)
      requires Ready() && d < |displays| && st != Finished
      modifies this, displays
      ensures Ready() && Abs() == DisplayEngine.SetStatusProperty(w, old(Abs()), d, st)
      ensures Extended()
      decreases 0, Room(numFailures), 3, 0
    {
      PutStatus(d, st);
      Notify(w, d);
    }

    method Notify(w: World, d: nat)
      requires Ready() && d < |displays|
      modifies this, displays
      ensures Ready() && Abs() == DisplayEngine.Notify(w, old(Abs()), d)
      ensures Extended()
      decreases Resets(displays[d].cls, displays[d].status), Room(numFailures), 2, 0
    {
      if d in store {
        ManagerHandler(w, d);
        FactoryHandler(w, d);
      }
    }

    method ManagerHandler(w: World, d: nat)
      requires Ready() && d < |displays|
      modifies this, displays
      ensures Ready() && Abs() == DisplayEngine.ManagerHandler(w, old(Abs()), d) && displays == old(displays)
    {
      hide Values, WF, Grows, Cascades, Stored, QuietEnd, WithSession, Asked, Valid;
      var o := displays[d];
      if ((o.status == Prepared && o.number == -1) || (o.status == Managed && o.number != -1)) && o.cls == Greeter {
        var known := w.greeterUser(tick);
        Ask();
        if known {
          PutHasSession(d);
        } else {
          EndQuietly(d);
        }
      }
    }

    method FactoryHandler(w: World, d: nat)
      requires Ready() && d < |displays|
      modifies this, displays
      ensures Ready() && Abs() == DisplayEngine.FactoryHandler(w, old(Abs()), d)
      ensures Extended()
      decreases Resets(displays[d].cls, displays[d].status), Room(numFailures), 1, 0
    {
      match displays[d].status
      case Finished => OnFinished(w, d);
      case Failed => OnFailed(w, d);
      case Managed =>
        if w.userServer {
          PutWatched(d);
        }
      case _ =>
    }

    method OnFinished(w: World, d: nat)
      requires Ready() && d < |displays|
      modifies this, displays
      ensures Ready() && Abs() == DisplayEngine.OnFinished(w, old(Abs()), d)
      ensures Extended()
      decreases if displays[d].cls == User then 1 else 0, Room(numFailures), 0, 0
    {
      hide Values, Grows, Cascades, Stored, Release, ResetAfter, DisplayEngine.SyncSeats;
      var ofUser := displays[d].kind != Remote && displays[d].cls != Greeter;
      ReleaseNumber(d);
      if ofUser {
        ResetFailures();
        SyncSeats(w);
      }
    }

    method ResetFailures()
      requires Ready()
      modifies `numFailures, `log
      ensures Ready() && Abs() == ResetAfter(old(Abs()))
    {
      numFailures := 0;
      log := log + [Reset];
    }

    method OnFailed(w: World, d: nat)
      requires Ready() && d < |displays|
      modifies this, displays
      ensures Ready() && Abs() == DisplayEngine.OnFailed(w, old(Abs()), d)
      ensures Extended()
      decreases 0, Room(numFailures), 0, 0
    {
      var o := displays[d];
      assert Abs().displays[d] == o.Value();
      assert o.Value().IsLocal() ==> o.seat.Some?;
      hide Values, WF, Grows, Cascades, Stored, Counted, Valid, DisplayEngine.CreateDisplay, ReplacementType;
      if o.kind == Remote {
        QueuePurge();
      } else {
        CountFailure(o.seat.value);
        if numFailures <= MAX_DISPLAY_FAILURES {
          var sessionType := SessionTypeAfter(w, o);
          CreateDisplay(w, o.seat.value, sessionType, o.initial);
        }
      }
    }

    /** A failed Wayland display is replaced by an X display. */
    static method SessionTypeAfter(w: World, o: DisplayObject) returns (sessionType: Option<string>)
      ensures sessionType == ReplacementType(w, o.Value())
    {
      sessionType := o.sessionType;
      if w.waylandBuild && sessionType == Some("wayland") {
        sessionType := None;
      }
    }

    method Unmanage(w: World, d: nat)
      requires Ready() && d < |displays|
      modifies this, displays
      ensures Ready() && Abs() == DisplayEngine.Unmanage(w, old(Abs()), d)
      ensures Extended()
      decreases 0, Room(numFailures), 4, 0
    {
      if !displays[d].registered {
        SetStatus(w, d, Failed);
      } else {
        SetStatus(w, d, Unmanaged);
      }
    }

    method Finish(w: World, d: nat)
      requires Ready() && d < |displays|
      modifies this, displays
      ensures Ready() && Abs() == DisplayEngine.Finish(w, old(Abs()), d)
      ensures Extended()
    {
      PutQueued(d, false);
      SetStatus(w, d, Finished);
    }

    method Prepare(w: World, d: nat) returns (prepared: bool)
      requires Ready() && d < |displays|
      modifies this, displays
      ensures Ready() && (Abs(), prepared) == DisplayEngine.Prepare(w, old(Abs()), d)
      ensures Extended()
      decreases 0, Room(numFailures), 4, 0
    {
      hide Values, WF, Grows, Cascades, Stored, Valid, DisplayEngine.SetStatus;
      PutSetup(d, w.initialSetup(tick));
      Ask();
      if displays[d].kind != LocalServer {
        var written := w.authority(tick);
        Ask();
        if !written {
          return false;
        }
      }
      SetStatus(w, d, Prepared);
      return true;
    }

    method Manage(w: World, d: nat) returns (managed: bool)
      requires Ready() && d < |displays|
      modifies this, displays
      ensures Ready() && (Abs(), managed) == DisplayEngine.Manage(w, old(Abs()), d)
      ensures Extended()
      decreases 0, Room(numFailures), 5, 0
    {
      hide Values, WF, Grows, Cascades, Stored, Valid, DisplayEngine.Prepare, DisplayEngine.Launch;
      ghost var s := Abs();
      // managing begins with what preparing has left undone
      if displays[d].status == Unmanaged {
        var prepared := Prepare(w, d);
        RoomShrinks(s, Abs(), 0);
        if !prepared {
          return false;
        }
      }
      Launch(w, d);
      return true;
    }

    method Launch(w: World, d: nat)
      requires Ready() && d < |displays|
      modifies this, displays
      ensures Ready() && Abs() == DisplayEngine.Launch(w, old(Abs()), d)
      ensures Extended()
      decreases 0, Room(numFailures), 4, 1
    {
      if displays[d].cls == Greeter && displays[d].kind == LegacyX {
        var started := w.serverStarts(tick);
        Ask();
        if !started {
          Unmanage(w, d);
        }
      }
    }

    method FindIn(p: Display -> bool) returns (r: Option<nat>)
      requires Ready()
      ensures r == Find(Abs(), p)
    {
      ghost var s := Abs();
      for k := 0 to |store|
        invariant FirstMatch(s, store, p) == FirstMatch(s, store[k..], p)
      {
        assert store[k..][1..] == store[k + 1..];
        if p(displays[store[k]].Value()) {
          return Some(store[k]);
        }
      }
      return None;
    }

    method LoginWindow(w: World, seat: string) returns (r: Option<nat>)
      requires Ready()
      ensures r == DisplayEngine.LoginWindow(w, Abs(), seat)
    {
      hide Values, WF, Find, Valid;
      var login := w.login(tick, seat);
      if login.None? {
        return None;
      }
      r := FindIn(OfSession(login.value));
      if r.Some? && displays[r.value].status != Managed && displays[r.value].status != WaitingToFinish {
        r := None;
      }
    }

    method CreateDisplay(w: World, seat: string, sessionType: Option<string>, initial: bool)
      requires Ready()
      modifies this, displays
      ensures Ready() && Abs() == DisplayEngine.CreateDisplay(w, old(Abs()), seat, sessionType, initial)
      ensures Extended()
      decreases 0, Room(numFailures), 6, 0
    {
      hide Values, WF, Grows, Cascades, Stored, Valid, Find, DisplayEngine.LoginWindow, DisplayEngine.AddDisplay, DisplayEngine.SetStatusProperty;
      var multi := w.multi(tick, seat);
      Ask();
      var there := FindIn(if multi then PreparedOnSeat(seat) else OnSeat(seat));
      // the same display is not created more than once
      if there.Some? {
        return;
      }
      var window := LoginWindow(w, seat);
      Ask();
      // a login window that is already there is switched to
      if window.Some? {
        SetStatusProperty(w, window.value, Managed);
      } else {
        AddDisplay(w, seat, sessionType, initial);
      }
    }

    method AddNumbered(seat: string, initial: bool) returns (d: nat)
      requires Ready()
      modifies this
      ensures Ready() && d == old(|displays|) && Abs() == DisplayEngine.AddNumbered(old(Abs()), seat, initial)
      ensures displays == old(displays) + [displays[d]] && fresh(displays[d])
    {
      var num := TakeNextDisplayNumber();
      hide Values, WF, Grows, Cascades, Stored, Valid, DisplayEngine.StoreAdd;
      d := StoreAdd(NewDisplay(LegacyX, seat, num, Greeter, None, initial, None));
    }

    method NewOnSeat(w: World, seat: string, sessionType: Option<string>, initial: bool) returns (d: nat)
      requires Ready()
      modifies this
      ensures Ready() && d == old(|displays|) && Abs() == DisplayEngine.NewOnSeat(w, old(Abs()), seat, sessionType, initial)
      ensures displays == old(displays) + [displays[d]] && fresh(displays[d])
    {
      hide Values, WF, Grows, Cascades, Stored, Valid, DisplayEngine.StoreAdd, DisplayEngine.AddNumbered;
      if w.userServer && seat == "seat0" {
        d := StoreAdd(NewDisplay(LocalServer, seat, -1, Greeter, sessionType, initial, None));
      } else {
        d := AddNumbered(seat, initial);
      }
    }

    method ManageOrNot(w: World, d: nat)
      requires Ready() && d < |displays|
      modifies this, displays
      ensures Ready() && Abs() == DisplayEngine.ManageOrNot(w, old(Abs()), d)
      ensures Extended()
      decreases 0, Room(numFailures), 5, 1
    {
      hide Values, WF, Grows, Cascades, Stored, Valid, DisplayEngine.Manage, DisplayEngine.Unmanage;
      ghost var s := Abs();
      var managed := Manage(w, d);
      RoomShrinks(s, Abs(), 0);
      if !managed {
        Unmanage(w, d);
      }
    }

    method AddDisplay(w: World, seat: string, sessionType: Option<string>, initial: bool)
      requires Ready()
      modifies this, displays
      ensures Ready() && Abs() == DisplayEngine.AddDisplay(w, old(Abs()), seat, sessionType, initial)
      ensures Extended()
      decreases 0, Room(numFailures), 5, 2
    {
      hide Values, WF, Grows, Cascades, Stored, Valid, DisplayEngine.ManageOrNot, DisplayEngine.NewOnSeat;
      var d := NewOnSeat(w, seat, sessionType, initial);
      ManageOrNot(w, d);
    }

    method CreateTransientDisplay(w: World)
      requires Ready()
      modifies this, displays
      ensures Ready() && Abs() == DisplayEngine.CreateTransientDisplay(w, old(Abs()))
      ensures Extended()
    {
      hide Values, WF, Grows, Cascades, Stored, Valid, DisplayEngine.Manage, DisplayEngine.StoreAdd, DisplayEngine.AddNumbered;
      var d;
      if w.userServer {
        var sessionType := if UseWayland(w, tick) then Some("wayland") else None;
        Ask();
        d := StoreAdd(NewDisplay(LocalServer, "seat0", -1, Greeter, sessionType, true, None));
      } else {
        d := AddNumbered("seat0", false);
      }
      var managed := Manage(w, d);
    }

    method SyncSeats(w: World)
      requires Ready()
      modifies this, displays
      ensures Ready() && Abs() == DisplayEngine.SyncSeats(w, old(Abs()))
      ensures Extended()
      decreases 0, Room(numFailures), 8, 0
    {
      hide Values, WF, Grows, Cascades, Stored, Valid, DisplayEngine.SyncEach;
      var seats := w.seats(tick);
      Ask();
      if seats.Some? {
        SyncEach(w, seats.value);
      }
    }

    method SyncEach(w: World, seats: seq<string>)
      requires Ready()
      modifies this, displays
      ensures Ready() && Abs() == DisplayEngine.SyncEach(w, old(Abs()), seats)
      ensures Extended()
      decreases 0, Room(numFailures), 7, 1
    {
      hide Values, WF, Grows, Cascades, Stored, Valid, DisplayEngine.SyncOne, DisplayEngine.SyncEach;
      ghost var s := Abs();
      var n := 0;
      assert seats[0..] == seats;
      while n < |seats|
        invariant 0 <= n <= |seats| && Ready()
        invariant Extended()
        invariant DisplayEngine.SyncEach(w, s, seats) == DisplayEngine.SyncEach(w, Abs(), seats[n..])
        invariant Room(numFailures) <= Room(s.numFailures)
      {
        ghost var t := Abs();
        SyncNext(w, t, seats, n);
        SyncOne(w, seats[n]);
        RoomShrinks(t, Abs(), 1);
        n := n + 1;
      }
      SyncDone(w, Abs(), seats);
    }

    method SyncOne(w: World, seat: string)
      requires Ready()
      modifies this, displays
      ensures Ready() && Abs() == DisplayEngine.SyncOne(w, old(Abs()), seat)
      ensures Extended()
      decreases 0, Room(numFailures), 7, 0
    {
      hide Values, WF, Grows, Cascades, Stored, Valid, DisplayEngine.CreateDisplay;
      var sessionType := None;
      if seat == "seat0" {
        sessionType := if UseWayland(w, tick) then Some("wayland") else None;
        Ask();
      }
      CreateDisplay(w, seat, sessionType, seat == "seat0");
    }

    // ---- events ------------------------------------------------------------

    /** Walks the table, keeping some entries and announcing the removal of the others. */
    static method Sieve(ids: seq<nat>, gone: set<nat>) returns (kept: seq<nat>, ghost removed: seq<LogEntry>)
      ensures kept == Without(ids, gone) && removed == Removals(ids, gone)
    {
      kept, removed := [], [];
      for k := 0 to |ids|
        invariant kept + Without(ids[k..], gone) == Without(ids, gone)
        invariant removed + Removals(ids[k..], gone) == Removals(ids, gone)
      {
        assert ids[k..][1..] == ids[k + 1..];
        if ids[k] in gone {
          removed := removed + [Removed(ids[k])];
        } else {
          kept := kept + [ids[k]];
        }
      }
    }

    method TakeOut(gone: set<nat>)
      requires Ready()
      modifies `store, `log
      ensures Ready() && Abs() == DisplayEngine.StoreRemove(old(Abs()), gone)
    {
      hide WF;
      ghost var s := Abs();
      ghost var removed;
      store, removed := Sieve(store, gone);
      log := log + removed;
      assert Abs() == DisplayEngine.StoreRemove(s, gone);
    }

    method Choose(p: Display -> bool) returns (gone: set<nat>)
      requires Ready()
      ensures gone == Chosen(Abs(), p)
    {
      gone := {};
      for k := 0 to |store|
        invariant gone == set d | d in store[..k] && p(Abs().displays[d])
      {
        assert store[..k + 1] == store[..k] + [store[k]];
        if p(displays[store[k]].Value()) {
          gone := gone + {store[k]};
        }
      }
      assert store[..|store|] == store;
    }

    /** scdm_display_store_foreach_remove. */
    method ForeachRemove(p: Display -> bool)
      requires Ready()
      modifies `store, `log
      ensures Ready() && Abs() == DisplayEngine.StoreRemove(old(Abs()), Chosen(old(Abs()), p))
    {
      var gone := Choose(p);
      TakeOut(gone);
    }

    method DeleteDisplay(seat: string)
      requires Ready()
      modifies `store, `log
      ensures Ready() && Abs() == DisplayEvents.DeleteDisplay(old(Abs()), seat)
    {
      ForeachRemove(OnSeat(seat));
    }

    method PurgeDisplays()
      requires Ready()
      modifies `store, `log
      ensures Ready() && Abs() == DisplayEngine.StoreRemove(old(Abs()), DeadOnes(old(Abs())))
    {
      ForeachRemove((e: Display) => e.Dead());
    }

    method Purge()
      requires Ready()
      modifies `store, `log, `purgePending
      ensures Ready() && Abs() == DisplayEvents.Purge(old(Abs()))
    {
      purgePending := false;
      PurgeDisplays();
      assert DeadOnes(old(Abs())) == DeadOnes(old(Abs()).(purgePending := false));
    }

    method ArmWait()
      requires Ready()
      modifies `waitArmed
      ensures Ready() && Abs() == old(Abs()).(waitArmed := true)
    {
      waitArmed := true;
    }

    method DisarmWait()
      requires Ready()
      modifies `waitArmed
      ensures Ready() && Abs() == old(Abs()).(waitArmed := false)
    {
      waitArmed := false;
    }

    method Drop(w: World, d: nat)
      requires Ready() && d < |displays|
      modifies this, displays
      ensures Ready() && Abs() == DisplayEvents.Drop(w, old(Abs()), d)
      ensures Extended()
    {
      hide Values, WF, Grows, Cascades, Stored, Valid, DisplayEngine.Unmanage, DisplayEngine.Finish;
      Unmanage(w, d);
      Finish(w, d);
    }

    method FinishIfWaiting(w: World, d: nat)
      requires Ready() && d < |displays|
      modifies this, displays
      ensures Ready() && Abs() == DisplayEvents.FinishIfWaiting(w, old(Abs()), d)
      ensures Extended()
    {
      hide WF, Values, Grows, Cascades, Stored, Valid, DisplayEvents.Drop;
      if displays[d].status == WaitingToFinish {
        Drop(w, d);
      }
    }

    /** Walks the displays that were stored when the walk began. */
    method FinishEach(w: World, ids: seq<nat>)
      requires Ready() && forall k :: 0 <= k < |ids| ==> ids[k] < |displays|
      modifies this, displays
      ensures Ready() && Abs() == DisplayEvents.FinishWaiting(w, old(Abs()), ids)
      ensures Extended()
    {
      hide Values, WF, Grows, Cascades, Stored, Valid, DisplayEvents.FinishIfWaiting, DisplayEvents.FinishWaiting;
      ghost var s := Abs();
      assert ids[0..] == ids;
      for n := 0 to |ids|
        invariant Ready() && Extended()
        invariant DisplayEvents.FinishWaiting(w, s, ids) == DisplayEvents.FinishWaiting(w, Abs(), ids[n..])
      {
        WaitingNext(w, Abs(), ids, n);
        FinishIfWaiting(w, ids[n]);
      }
      WaitingDone(w, Abs(), ids);
    }

    method FinishWaiting(w: World)
      requires Ready()
      modifies this, displays
      ensures Ready() && Abs() == DisplayEvents.FinishWaiting(w, old(Abs()), old(store))
      ensures Extended()
    {
      StoredOnes(Abs());
      hide Values, WF, DisplayEvents.FinishWaiting;
      FinishEach(w, store);
    }

    method SelfDestruct(w: World, d: nat)
      requires Ready() && d < |displays|
      modifies this, displays
      ensures Ready() && Abs() == DisplayEvents.SelfDestruct(w, old(Abs()), d)
      ensures Extended()
    {
      hide Values, WF, Grows, Cascades, Stored, Valid, DisplayEngine.Unmanage;
      if displays[d].status == Managed {
        Unmanage(w, d);
      }
      if displays[d].status != Finished {
        PutQueued(d, true);
      }
    }

    method RegisterSession(w: World, d: nat)
      requires Ready() && d < |displays|
      modifies this, displays
      ensures Ready() && Abs() == RegisterSessionOn(w, old(Abs()), d)
      ensures Extended()
    {
      hide Values, Grows, Cascades, Stored, Valid, DisplayEvents.FinishWaiting;
      PutRegistered(d);
      if displays[d].watched {
        FinishWaiting(w);
      }
    }

    method PutInBackground(w: World, d: nat)
      requires Ready() && d < |displays|
      modifies this, displays
      ensures Ready() && Abs() == SetupInBackground(w, old(Abs()), d)
      ensures Extended()
    {
      hide Values, WF, Grows, Cascades, Stored, Valid, DisplayEngine.SetStatusProperty;
      if displays[d].initialSetup {
        SetStatusProperty(w, d, WaitingToFinish);
      }
    }

    method GiveDisplay(w: World, d: nat, session: string, autologin: bool)
      requires Ready() && d < |displays|
      modifies this, displays
      ensures Ready() && Abs() == DisplayEvents.GiveDisplay(w, old(Abs()), d, session, autologin)
      ensures Extended()
    {
      hide Values, Grows, Cascades, Stored, Valid, DisplayEngine.StoreRemove, WF, SetupInBackground;
      PutInBackground(w, d);
      var given := StoreAdd(UserDisplay(session));
      if autologin {
        TakeOut({d});
      }
    }

    method StopGreeterInBackground(w: World, d: nat)
      requires Ready() && d < |displays|
      modifies this, displays
      ensures Ready() && Abs() == DisplayEvents.StopGreeterInBackground(w, old(Abs()), d)
      ensures Extended()
    {
      if displays[d].status == Managed && !displays[d].initialSetup {
        SetStatusProperty(w, d, WaitingToFinish);
      }
    }

    method WindowLeft(w: World, previous: nat, loginVt: nat, login: Option<string>)
      requires Ready()
      modifies this, displays
      ensures Ready() && Abs() == DisplayEvents.WindowLeft(w, old(Abs()), previous, loginVt, login)
      ensures Extended()
    {
      hide Values, WF, Grows, Cascades, Stored, Valid, Find, DisplayEvents.StopGreeterInBackground;
      if login.Some? && loginVt != 0 && loginVt == previous {
        var left := FindIn(OfSession(login.value));
        if left.Some? {
          StopGreeterInBackground(w, left.value);
        }
      }
    }

    method SessionShown(w: World, loginVt: nat)
      requires Ready()
      modifies `tick, `waitArmed
      ensures Ready() && Abs() == DisplayEvents.SessionShown(w, old(Abs()), loginVt)
    {
      hide Values, WF, Find, Valid;
      var t := tick;
      Ask();
      if activeVt != loginVt {
        var shown := FindIn(OnActiveTty(w, t));
        if shown.Some? && displays[shown.value].registered {
          ArmWait();
        }
      }
    }

    method SwitchVt(vt: nat)
      requires Ready()
      modifies `activeVt
      ensures Ready() && Abs() == old(Abs()).(activeVt := vt)
    {
      activeVt := vt;
    }

    method VtSwitched(w: World, previous: nat)
      requires Ready()
      modifies this, displays
      ensures Ready() && Abs() == DisplayEvents.VtSwitched(w, old(Abs()), previous)
      ensures Extended()
    {
      hide Values, WF, Grows, Cascades, Stored, Valid, DisplayEvents.WindowLeft, DisplayEvents.SessionShown;
      var login := w.login(tick, "seat0");
      Ask();
      var loginVt := if login.Some? then w.vt(tick) else 0;
      Ask();
      WindowLeft(w, previous, loginVt, login);
      SessionShown(w, loginVt);
    }

    method LoginOnInitialVt(w: World)
      requires Ready()
      modifies this, displays
      ensures Ready() && Abs() == DisplayEvents.LoginOnInitialVt(w, old(Abs()))
      ensures Extended()
    {
      hide Values, WF, Grows, Cascades, Stored, Valid, DisplayEngine.CreateDisplay;
      var sessionType := if UseWayland(w, tick) then Some("wayland") else None;
      Ask();
      CreateDisplay(w, "seat0", sessionType, true);
    }

    method OnVtChanged(w: World, vt: nat)
      requires Ready()
      modifies this, displays
      ensures Ready() && Abs() == DisplayEvents.OnVtChanged(w, old(Abs()), vt)
      ensures Extended()
    {
      hide Values, WF, Grows, Cascades, Stored, Valid, DisplayEvents.VtSwitched, DisplayEvents.LoginOnInitialVt;
      // nothing if the VT stays the same
      if !w.userServer || vt == activeVt {
        return;
      }
      var previous := activeVt;
      SwitchVt(vt);
      // nothing at startup
      if previous == 0 {
        return;
      }
      VtSwitched(w, previous);
      if vt == w.initialVt {
        LoginOnInitialVt(w);
      }
    }

    method PutSession(d: nat, session: string)
      requires Ready() && d < |displays|
      modifies displays[d]
      ensures Ready() && Abs() == GreeterIn(old(Abs()), d, session)
    {
      hide WF, Values;
      ghost var s := Abs();
      ghost var e := s.displays[d].(sessionId := Some(session));
      displays[d].sessionId := Some(session);
      OneChanged(s, d, e);
      assert Values(displays) == s.displays[d := e];
    }

    method PutUserSession(d: nat, session: string)
      requires Ready() && d < |displays|
      modifies displays[d]
      ensures Ready() && Abs() == TakenOver(old(Abs()), d, session)
    {
      hide WF, Values;
      ghost var s := Abs();
      ghost var e := s.displays[d].(cls := User, sessionId := Some(session));
      displays[d].cls := User;
      displays[d].sessionId := Some(session);
      OneChanged(s, d, e);
      assert Values(displays) == s.displays[d := e];
    }

    static predicate FromServer(ev: Event) {
      ev.ServerReady? || ev.ServerGone? || ev.GreeterOpened? || ev.GreeterStopped? || ev.FinishIdle?
    }

    method HandleServer(w: World, d: nat, ev: Event)
      requires FromServer(ev)
      requires Ready() && d < |displays|
      modifies this, displays
      ensures Ready() && Abs() == StepDisplay(w, old(Abs()), d, ev)
      ensures Extended()
    {
      hide Values, WF, Grows, Cascades, Stored, Valid, DisplayEngine.Unmanage, DisplayEngine.SetStatusProperty,
        DisplayEngine.Finish, DisplayEvents.Drop, DisplayEvents.SelfDestruct, RegisterSessionOn, DisplayEvents.GiveDisplay;
      match ev
      case ServerReady(_, connected) =>
        if connected {
          SetStatusProperty(w, d, Managed);
        } else {
          Unmanage(w, d);
        }
      case ServerGone(_) => Unmanage(w, d);
      case GreeterOpened(_, session) => PutSession(d, session);
      case GreeterStopped(_) => SelfDestruct(w, d);
      case FinishIdle(_) =>
        if displays[d].finishQueued {
          Finish(w, d);
        }
    }

    method HandleSession(w: World, d: nat, ev: Event)
      requires !FromServer(ev)
      requires Ready() && d < |displays|
      modifies this, displays
      ensures Ready() && Abs() == StepDisplay(w, old(Abs()), d, ev)
      ensures Extended()
    {
      hide Values, WF, Grows, Cascades, Stored, Valid, DisplayEngine.Unmanage, DisplayEngine.SetStatusProperty,
        DisplayEngine.Finish, DisplayEvents.Drop, DisplayEvents.SelfDestruct, RegisterSessionOn, DisplayEvents.GiveDisplay;
      match ev
      case RegisterDisplay(_) => SetStatusProperty(w, d, Managed);
      case RegisterSession(_) => RegisterSession(w, d);
      case SessionEnded(_) => Drop(w, d);
      case SessionReusesDisplay(_, session) => PutUserSession(d, session);
      case SessionGetsDisplay(_, session, autologin) => GiveDisplay(w, d, session, autologin);
      case _ =>
    }

    method HandleDisplay(w: World, d: nat, ev: Event)
      requires Ready() && d < |displays|
      modifies this, displays
      ensures Ready() && Abs() == StepDisplay(w, old(Abs()), d, ev)
      ensures Extended()
    {
      hide Values, WF, Valid, StepDisplay;
      if FromServer(ev) {
        HandleServer(w, d, ev);
      } else {
        HandleSession(w, d, ev);
      }
    }

    method HandleDaemon(w: World, ev: Event)
      requires Ready()
      modifies this, displays
      ensures Ready() && Abs() == StepDaemon(w, old(Abs()), ev)
      ensures Extended()
    {
      hide Values, Grows, Cascades, Stored, Valid, DisplayEngine.SyncSeats, DisplayEngine.CreateDisplay, DisplayEvents.DeleteDisplay,
        DisplayEngine.CreateTransientDisplay, DisplayEngine.StoreRemove, DisplayEngine.StoreAdd, DisplayEvents.OnVtChanged,
        DisplayEvents.FinishWaiting, Chosen;
      match ev
      case Start => SyncSeats(w);
      case SeatNew(seat) => CreateDisplay(w, seat, None, false);
      case SeatRemoved(seat) => DeleteDisplay(seat);
      case Transient => CreateTransientDisplay(w);
      case PurgeIdle =>
        if purgePending {
          Purge();
        }
      case RemoteAdded(n) =>
        var d := StoreAdd(NewRemote(n));
      case RemotePurge => PurgeDisplays();
      case VtChanged(vt) => OnVtChanged(w, vt);
      case WaitTimeout =>
        if waitArmed {
          DisarmWait();
          FinishWaiting(w);
        }
      case _ =>
    }

    method Handle(w: World, ev: Event)
      requires Ready()
      modifies this, displays
      ensures Ready() && Abs() == Step(w, old(Abs()), ev)
      ensures Extended()
    {
      hide Values, WF, Grows, Cascades, Stored, Valid, StepDisplay, StepDaemon;
      match Subject(ev)
      case Some(d) =>
        if d < |displays| {
          HandleDisplay(w, d, ev);
        }
      case None => HandleDaemon(w, ev);
    }
  }

  /**
   A daemon that starts and meets some events ends in the state that Run
   describes. So the invariant of all reachable states holds of its fields: the
   dead wait for the purge, and numbers are safe while none was released that
   another live display had.
   */
  method Serve(w: World, evs: seq<Event>) returns (daemon: Daemon)
    ensures fresh(daemon) && daemon.Ready() && daemon.Abs() == Run(w, INITIAL, evs)
    ensures Inv(w, daemon.Abs(), -1)
    ensures daemon.purgePending || forall k :: 0 <= k < |daemon.store| ==>
              daemon.store[k] < |daemon.displays| && !daemon.displays[daemon.store[k]].Value().Dead()
    ensures |daemon.displays| < U32 && Clean(daemon.log) ==> Numbers(daemon.Abs())
  {
    daemon := new Daemon();
    for n := 0 to |evs|
      invariant fresh(daemon) && fresh(daemon.displays) && daemon.Ready()
      invariant daemon.Abs() == Run(w, INITIAL, evs[..n])
    {
      assert evs[..n + 1][..n] == evs[..n];
      daemon.Handle(w, evs[n]);
    }
    assert evs[..|evs|] == evs;
    hide Run, Daemon.Values;
    RunKeeps(w, evs);
  }
}
