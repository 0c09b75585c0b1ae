/**
 The invariant through the recursion of the life cycle: a display is created,
 managed and unmanaged, its failure is announced, and the answer to the
 announcement creates the next display.
 */
module DisplayCascade {
  import opened Basics
  import opened DisplayEngine
  import opened DisplayInvariant

  lemma {:induction false} SetStatusKeeps(w: World, s: State, d: nat, st: Status)
    requires WF(s) && Inv(w, s, -1) && d < |s.displays|
    ensures Inv(w, SetStatus(w, s, d, st), -1)
    decreases Resets(s.displays[d].cls, st), Room(s.numFailures), 3, 0
  {
    hide Inv, WF, Notify;
    if s.displays[d].status != st {
      StatusKeeps(w, s, d, st);
      NotifyKeeps(w, WithStatus(s, d, st), d);
    }
  }

  lemma {:induction false} SetStatusPropertyKeeps(w: World, s: State, d: nat, st: Status)
    requires WF(s) && Inv(w, s, -1) && d < |s.displays| && st != Finished && st != Failed
    ensures Inv(w, SetStatusProperty(w, s, d, st), -1)
    decreases 0, Room(s.numFailures), 3, 0
  {
    var t := WithStatus(s, d, st);
    TouchKeeps(w, s, t, d, -1);
    NotifyKeeps(w, t, d);
  }

  lemma {:induction false} NotifyKeeps(w: World, s: State, d: nat)
    requires Announced(w, s, d)
    ensures Inv(w, Notify(w, s, d), -1)
    decreases Resets(s.displays[d].cls, s.displays[d].status), Room(s.numFailures), 2, 0
  {
    if d in s.store {
      ManagerKeeps(w, s, d);
      FactoryKeeps(w, ManagerHandler(w, s, d), d);
    }
  }

  /** A display changed during its announcement stays announced while its status does. */
  lemma TouchAnnounced(w: World, s: State, t: State, d: nat)
    requires Announced(w, s, d) && Touched(s, t, d, d) && t.displays[d].status == s.displays[d].status
    ensures Announced(w, t, d)
  {
    hide Inv, WF;
    TouchKeeps(w, s, t, d, d);
  }

  lemma QuietEndKeeps(w: World, s: State, d: nat)
    requires Announced(w, s, d) && s.displays[d].status != Finished
    ensures Announced(w, QuietEnd(s, d), d)
  {
    var q := Unqueued(s, d);
    assert QuietEnd(s, d).displays == WithStatus(q, d, Finished).displays;
    hide Inv, WF;
    TouchKeeps(w, s, q, d, d);
    StatusKeeps(w, q, d, Finished);
  }

  lemma ManagerKeeps(w: World, s: State, d: nat)
    requires Announced(w, s, d)
    ensures Announced(w, ManagerHandler(w, s, d), d)
  {
    hide Inv, WF, Grows, Cascades, Stored, QuietEnd, Announced;
    AnnouncedWellFormed(w, s, d);
    var t := Asked(s);
    TouchAnnounced(w, s, t, d);
    if t.displays[d].status == Prepared || t.displays[d].status == Managed {
      QuietEndKeeps(w, t, d);
    }
    TouchAnnounced(w, t, WithSession(t, d), d);
  }

  lemma AnnouncedWellFormed(w: World, s: State, d: nat)
    requires Announced(w, s, d)
    ensures WF(s) && d < |s.displays|
  {
  }

  lemma {:induction false} FactoryKeeps(w: World, s: State, d: nat)
    requires Announced(w, s, d)
    ensures Inv(w, FactoryHandler(w, s, d), -1)
    decreases Resets(s.displays[d].cls, s.displays[d].status), Room(s.numFailures), 1, 0
  {
    hide Reserved;
    match s.displays[d].status
    case Finished => FinishedKeeps(w, s, d);
    case Failed => FailedKeeps(w, s, d);
    case Managed => TouchKeeps(w, s, FactoryHandler(w, s, d), d, -1);
    case _ =>
  }

  lemma {:induction false} FinishedKeeps(w: World, s: State, d: nat)
    requires Announced(w, s, d) && s.displays[d].status == Finished
    ensures Inv(w, OnFinished(w, s, d), -1)
    decreases if s.displays[d].cls == User then 1 else 0, Room(s.numFailures), 0, 0
  {
    var e := s.displays[d];
    var t := Release(s, d);
    ReleaseKeeps(w, s, d);
    if e.IsLocal() && e.cls != Greeter {
      ResetKeeps(w, t);
      SyncSeatsKeeps(w, ResetAfter(t));
    }
  }

  lemma ResetKeeps(w: World, s: State)
    requires Inv(w, s, -1)
    ensures WF(s) && Inv(w, ResetAfter(s), -1)
  {
    LogOne(s.log, Reset);
    hide Reserved, Clean;
    HoldersKeep(s, ResetAfter(s));
  }

  lemma {:induction false} FailedKeeps(w: World, s: State, d: nat)
    requires Announced(w, s, d) && s.displays[d].status == Failed
    ensures Inv(w, OnFailed(w, s, d), -1)
    decreases 0, Room(s.numFailures), 0, 0
  {
    var e := s.displays[d];
    hide Reserved;
    if !e.IsLocal() {
      HoldersKeep(s, s.(purgePending := true));
    } else {
      FailureKeeps(w, s, d, e.seat.value, Counted(s, e.seat.value));
      hide Inv, WF, Grows, Cascades, Stored, CreateDisplay;
      if s.numFailures + 1 <= MAX_DISPLAY_FAILURES {
        CreateDisplayKeeps(w, Counted(s, e.seat.value), e.seat.value, ReplacementType(w, e), e.initial);
      }
    }
  }

  lemma {:induction false} UnmanageKeeps(w: World, s: State, d: nat)
    requires WF(s) && Inv(w, s, -1) && d < |s.displays|
    ensures Inv(w, Unmanage(w, s, d), -1)
    decreases 0, Room(s.numFailures), 4, 0
  {
    hide Inv;
    SetStatusKeeps(w, s, d, if s.displays[d].registered then Unmanaged else Failed);
  }

  lemma FinishKeeps(w: World, s: State, d: nat)
    requires Inv(w, s, -1) && d < |s.displays|
    ensures Inv(w, Finish(w, s, d), -1)
  {
    var t := Unqueued(s, d);
    TouchKeeps(w, s, t, d, -1);
    SetStatusKeeps(w, t, d, Finished);
  }

  lemma {:induction false} PrepareKeeps(w: World, s: State, d: nat)
    requires WF(s) && Inv(w, s, -1) && d < |s.displays|
    ensures Inv(w, Prepare(w, s, d).0, -1)
    decreases 0, Room(s.numFailures), 4, 0
  {
    var t := WithSetup(s, d, w.initialSetup(s.tick));
    TouchKeeps(w, s, t, d, -1);
    TickKeeps(w, t, Asked(t));
    TickKeeps(w, Asked(t), Asked(Asked(t)));
    hide Inv, WF, Grows, Cascades, Stored, SetStatus;
    if t.displays[d].kind == LocalServer {
      SetStatusKeeps(w, Asked(t), d, Prepared);
    } else {
      SetStatusKeeps(w, Asked(Asked(t)), d, Prepared);
    }
  }

  lemma {:induction false} ManageKeeps(w: World, s: State, d: nat)
    requires WF(s) && Inv(w, s, -1) && d < |s.displays|
    ensures Inv(w, Manage(w, s, d).0, -1)
    decreases 0, Room(s.numFailures), 5, 0
  {
    hide Inv, WF, Prepare, Launch;
    if s.displays[d].status == Unmanaged {
      PrepareKeeps(w, s, d);
      var (t, prepared) := Prepare(w, s, d);
      LaunchKeeps(w, t, d);
    } else {
      LaunchKeeps(w, s, d);
    }
  }

  lemma {:induction false} LaunchKeeps(w: World, s: State, d: nat)
    requires WF(s) && Inv(w, s, -1) && d < |s.displays|
    ensures Inv(w, Launch(w, s, d), -1)
    decreases 0, Room(s.numFailures), 4, 1
  {
    hide Inv, WF, Unmanage;
    TickKeeps(w, s, Asked(s));
    if s.displays[d].cls == Greeter && s.displays[d].kind == LegacyX && !w.serverStarts(s.tick) {
      UnmanageKeeps(w, Asked(s), d);
    }
  }

  lemma TickKeeps(w: World, s: State, t: State)
    requires Inv(w, s, -1)
    requires t == s.(tick := t.tick, activeVt := t.activeVt, waitArmed := t.waitArmed)
    ensures WF(t) && Inv(w, t, -1)
    ensures forall p :: Find(t, p) == Find(s, p)
  {
    hide Reserved;
    HoldersKeep(s, t);
    forall p ensures Find(t, p) == Find(s, p) {
      SameMatch(s, t, s.store, p);
    }
  }

  lemma {:induction false} CreateDisplayKeeps(w: World, s: State, seat: string, sessionType: Option<string>, initial: bool)
    requires WF(s) && Inv(w, s, -1)
    ensures Inv(w, CreateDisplay(w, s, seat, sessionType, initial), -1)
    decreases 0, Room(s.numFailures), 6, 0
  {
    hide Inv, WF, Grows, Cascades, Stored, AddDisplay, SetStatusProperty, Find, LoginWindow;
    var multi := w.multi(s.tick, seat);
    var s1 := Asked(s);
    var s2 := Asked(s1);
    TickKeeps(w, s, s1);
    TickKeeps(w, s1, s2);
    if Find(s1, if multi then PreparedOnSeat(seat) else OnSeat(seat)).None? {
      var window := LoginWindow(w, s1, seat);
      if window.Some? {
        SetStatusPropertyKeeps(w, s2, window.value, Managed);
      } else {
        assert !Shareable(w, seat) ==> !multi;
        AddDisplayKeeps(w, s2, seat, sessionType, initial);
      }
    }
  }

  lemma {:induction false} SameMatch(s: State, t: State, ids: seq<nat>, p: Display -> bool)
    requires |t.displays| == |s.displays| && forall i :: 0 <= i < |s.displays| ==> p(t.displays[i]) == p(s.displays[i])
    requires forall k :: 0 <= k < |ids| ==> ids[k] < |s.displays|
    ensures FirstMatch(s, ids, p) == FirstMatch(t, ids, p)
    decreases |ids|
  {
    if ids != [] {
      SameMatch(s, t, ids[1..], p);
    }
  }

  lemma {:induction false} AddDisplayKeeps(w: World, s: State, seat: string, sessionType: Option<string>, initial: bool)
    requires WF(s) && Inv(w, s, -1)
    requires !Shareable(w, seat) ==> Find(s, OnSeat(seat)).None?
    ensures Inv(w, AddDisplay(w, s, seat, sessionType, initial), -1)
    decreases 0, Room(s.numFailures), 5, 2
  {
    hide Inv, WF, ManageOrNot, Find;
    var s1;
    if w.userServer && seat == "seat0" {
      var e := NewDisplay(LocalServer, seat, -1, Greeter, sessionType, initial, None);
      AddKeeps(w, s, e);
      s1 := StoreAdd(s, e);
    } else {
      AddNumberedKeeps(w, s, seat, initial);
      s1 := AddNumbered(s, seat, initial);
    }
    ManageOrNotKeeps(w, s1, |s.displays|);
  }

  lemma {:induction false} ManageOrNotKeeps(w: World, s: State, d: nat)
    requires WF(s) && Inv(w, s, -1) && d < |s.displays|
    ensures Inv(w, ManageOrNot(w, s, d), -1)
    decreases 0, Room(s.numFailures), 5, 1
  {
    hide Inv, WF, Manage, Unmanage;
    ManageKeeps(w, s, d);
    var (t, managed) := Manage(w, s, d);
    RoomShrinks(s, t, 0);
    UnmanageKeeps(w, t, d);
  }

  lemma TransientKeeps(w: World, s: State)
    requires WF(s) && Inv(w, s, -1)
    ensures Inv(w, CreateTransientDisplay(w, s), -1)
  {
    hide Inv, WF, Manage, Find;
    var d := |s.displays|;
    var s1;
    if w.userServer {
      TickKeeps(w, s, Asked(s));
      var sessionType := if UseWayland(w, s.tick) then Some("wayland") else None;
      var e := NewDisplay(LocalServer, "seat0", -1, Greeter, sessionType, true, None);
      AddKeeps(w, Asked(s), e);
      s1 := StoreAdd(Asked(s), e);
    } else {
      AddNumberedKeeps(w, s, "seat0", false);
      s1 := AddNumbered(s, "seat0", false);
    }
    ManageKeeps(w, s1, d);
  }

  lemma {:induction false} SyncSeatsKeeps(w: World, s: State)
    requires WF(s) && Inv(w, s, -1)
    ensures Inv(w, SyncSeats(w, s), -1)
    decreases 0, Room(s.numFailures), 8, 0
  {
    hide Inv, WF, SyncEach;
    TickKeeps(w, s, Asked(s));
    if w.seats(s.tick).Some? {
      SyncEachKeeps(w, Asked(s), w.seats(s.tick).value);
    }
  }

  lemma {:induction false} SyncEachKeeps(w: World, s: State, seats: seq<string>)
    requires WF(s) && Inv(w, s, -1)
    ensures Inv(w, SyncEach(w, s, seats), -1)
    decreases 0, Room(s.numFailures), 7, 1 + |seats|
  {
    hide Inv, WF, Grows, Cascades, Stored, SyncOne;
    if seats != [] {
      SyncOneKeeps(w, s, seats[0]);
      RoomShrinks(s, SyncOne(w, s, seats[0]), 1);
      SyncEachKeeps(w, SyncOne(w, s, seats[0]), seats[1..]);
    }
  }

  lemma {:induction false} SyncOneKeeps(w: World, s: State, seat: string)
    requires WF(s) && Inv(w, s, -1)
    ensures Inv(w, SyncOne(w, s, seat), -1)
    decreases 0, Room(s.numFailures), 7, 0
  {
    hide Inv, WF, Grows, Cascades, Stored, CreateDisplay;
    var (t, sessionType) := SeatAsked(w, s, seat);
    TickKeeps(w, s, t);
    CreateDisplayKeeps(w, t, seat, sessionType, seat == "seat0");
  }
}
