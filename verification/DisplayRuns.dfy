/**
 Every run of the daemon: each event keeps the invariant, so what the invariant
 says holds after any sequence of events, whatever the world answered.
 */
module DisplayRuns {
  import opened Basics
  import opened DisplayEngine
  import opened DisplayEvents
  import opened DisplayInvariant
  import opened DisplayCascade

  lemma DropKeeps(w: World, s: State, d: nat)
    requires WF(s) && Inv(w, s, -1) && d < |s.displays|
    ensures Inv(w, Drop(w, s, d), -1)
  {
    hide Inv, WF, Unmanage, Finish;
    UnmanageKeeps(w, s, d);
    FinishKeeps(w, Unmanage(w, s, d), d);
  }

  lemma {:induction false} FinishWaitingKeeps(w: World, s: State, ids: seq<nat>)
    requires WF(s) && Inv(w, s, -1) && forall k :: 0 <= k < |ids| ==> ids[k] < |s.displays|
    ensures Inv(w, FinishWaiting(w, s, ids), -1)
    decreases |ids|
  {
    hide Inv, WF, Drop;
    if ids != [] {
      if s.displays[ids[0]].status == WaitingToFinish {
        DropKeeps(w, s, ids[0]);
        FinishWaitingKeeps(w, Drop(w, s, ids[0]), ids[1..]);
      } else {
        FinishWaitingKeeps(w, s, ids[1..]);
      }
    }
  }

  lemma SelfDestructKeeps(w: World, s: State, d: nat)
    requires WF(s) && Inv(w, s, -1) && d < |s.displays|
    ensures Inv(w, SelfDestruct(w, s, d), -1)
  {
    hide Unmanage;
    if s.displays[d].status == Managed {
      UnmanageKeeps(w, s, d);
    }
    var t := if s.displays[d].status == Managed then Unmanage(w, s, d) else s;
    hide Inv, WF;
    if t.displays[d].status != Finished {
      TouchKeeps(w, t, t.(displays := t.displays[d := t.displays[d].(finishQueued := true)]), d, -1);
    }
  }

  lemma RegisterSessionKeeps(w: World, s: State, d: nat)
    requires WF(s) && Inv(w, s, -1) && d < |s.displays|
    ensures Inv(w, RegisterSessionOn(w, s, d), -1)
  {
    var t := s.(displays := s.displays[d := s.displays[d].(registered := true)]);
    TouchKeeps(w, s, t, d, -1);
    if t.displays[d].watched {
      FinishWaitingKeeps(w, t, t.store);
    }
  }

  lemma GiveDisplayKeeps(w: World, s: State, d: nat, session: string, autologin: bool)
    requires WF(s) && Inv(w, s, -1) && d < |s.displays|
    ensures Inv(w, GiveDisplay(w, s, d, session, autologin), -1)
  {
    hide Inv, WF, Grows, Cascades, Stored, SetStatusProperty, StoreRemove, StoreAdd;
    var t := s;
    if s.displays[d].initialSetup {
      SetStatusPropertyKeeps(w, s, d, WaitingToFinish);
      t := SetStatusProperty(w, s, d, WaitingToFinish);
    }
    var e := UserDisplay(session);
    AddKeeps(w, t, e);
    if autologin {
      RemoveKeeps(w, StoreAdd(t, e), {d});
    }
  }

  lemma StopGreeterKeeps(w: World, s: State, d: nat)
    requires WF(s) && Inv(w, s, -1) && d < |s.displays|
    ensures Inv(w, StopGreeterInBackground(w, s, d), -1)
  {
    if s.displays[d].status == Managed && !s.displays[d].initialSetup {
      SetStatusPropertyKeeps(w, s, d, WaitingToFinish);
    }
  }

  lemma VtSwitchedKeeps(w: World, s: State, previous: nat)
    requires WF(s) && Inv(w, s, -1)
    ensures Inv(w, VtSwitched(w, s, previous), -1)
  {
    hide Inv, WF, Grows, Cascades, Stored, StopGreeterInBackground, Find;
    var login := w.login(s.tick, "seat0");
    var loginVt := if login.Some? then w.vt(s.tick + 1) else 0;
    var t := Asked(Asked(s));
    TickKeeps(w, s, t);
    if login.Some? {
      var left := Find(t, OfSession(login.value));
      if left.Some? {
        StopGreeterKeeps(w, t, left.value);
      }
    }
    var s1 := WindowLeft(w, t, previous, loginVt, login);
    TickKeeps(w, s1, SessionShown(w, s1, loginVt));
  }

  lemma VtChangedKeeps(w: World, s: State, vt: nat)
    requires WF(s) && Inv(w, s, -1)
    ensures Inv(w, OnVtChanged(w, s, vt), -1)
  {
    hide Inv, WF, Grows, Cascades, Stored, CreateDisplay, VtSwitched;
    var s1 := s.(activeVt := vt);
    TickKeeps(w, s, s1);
    if w.userServer && vt != s.activeVt && s.activeVt != 0 {
      var s2 := VtSwitched(w, s1, s.activeVt);
      VtSwitchedKeeps(w, s1, s.activeVt);
      TickKeeps(w, s2, Asked(s2));
      CreateDisplayKeeps(w, Asked(s2), "seat0", if UseWayland(w, s2.tick) then Some("wayland") else None, true);
    }
  }

  lemma StepDisplayKeeps(w: World, s: State, d: nat, ev: Event)
    requires WF(s) && Inv(w, s, -1) && d < |s.displays|
    ensures Inv(w, StepDisplay(w, s, d, ev), -1)
  {
    hide WF, Unmanage, SetStatusProperty, Finish, Drop, SelfDestruct, RegisterSessionOn, GiveDisplay, Inv;
    match ev
    case ServerReady(_, connected) => SetStatusPropertyKeeps(w, s, d, Managed); UnmanageKeeps(w, s, d);
    case ServerGone(_) => UnmanageKeeps(w, s, d);
    case GreeterOpened(_, session) => TouchKeeps(w, s, StepDisplay(w, s, d, ev), d, -1);
    case GreeterStopped(_) => SelfDestructKeeps(w, s, d);
    case FinishIdle(_) => FinishKeeps(w, s, d);
    case RegisterDisplay(_) => SetStatusPropertyKeeps(w, s, d, Managed);
    case RegisterSession(_) => RegisterSessionKeeps(w, s, d);
    case SessionEnded(_) => DropKeeps(w, s, d);
    case SessionReusesDisplay(_, session) => TouchKeeps(w, s, StepDisplay(w, s, d, ev), d, -1);
    case SessionGetsDisplay(_, session, autologin) => GiveDisplayKeeps(w, s, d, session, autologin);
    case _ =>
  }

  lemma StepDaemonKeeps(w: World, s: State, ev: Event)
    requires WF(s) && Inv(w, s, -1)
    ensures Inv(w, StepDaemon(w, s, ev), -1)
  {
    hide Inv, WF, SyncSeats, CreateDisplay, CreateTransientDisplay, OnVtChanged, FinishWaiting, Purge, StoreRemove, StoreAdd;
    match ev
    case Start => SyncSeatsKeeps(w, s);
    case SeatNew(seat) => CreateDisplayKeeps(w, s, seat, None, false);
    case SeatRemoved(seat) => RemoveKeeps(w, s, Chosen(s, OnSeat(seat)));
    case Transient => TransientKeeps(w, s);
    case PurgeIdle => PurgeKeeps(w, s);
    case RemoteAdded(n) =>
      AddKeeps(w, s, NewRemote(n));
    case RemotePurge => RemoveKeeps(w, s, DeadOnes(s));
    case VtChanged(vt) => VtChangedKeeps(w, s, vt);
    case WaitTimeout =>
      if s.waitArmed {
        TickKeeps(w, s, s.(waitArmed := false));
        StoredOnes(s);
        FinishWaitingKeeps(w, s.(waitArmed := false), s.store);
      }
    case _ =>
  }

  lemma PurgeKeeps(w: World, s: State)
    requires WF(s) && Inv(w, s, -1)
    ensures Inv(w, Purge(s), -1)
  {
    RemoveKeeps(w, s, DeadOnes(s));
    var t := s.(purgePending := false);
    assert DeadOnes(t) == DeadOnes(s);
    assert Purge(s) == StoreRemove(s, DeadOnes(s)).(purgePending := false);
  }

  lemma {:induction false} RunKeeps(w: World, evs: seq<Event>)
    ensures Inv(w, Run(w, INITIAL, evs), -1)
    decreases |evs|
  {
    if evs != [] {
      RunKeeps(w, evs[..|evs| - 1]);
      var s := Run(w, INITIAL, evs[..|evs| - 1]);
      var ev := evs[|evs| - 1];
      hide Inv, WF, StepDisplay, StepDaemon;
      match Subject(ev)
      case Some(d) => if d < |s.displays| { StepDisplayKeeps(w, s, d, ev); }
      case None => StepDaemonKeeps(w, s, ev);
    }
  }
}
