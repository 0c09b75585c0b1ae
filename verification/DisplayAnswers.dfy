/**
 What the handling of a display comes to, whatever else it sets off: which other
 displays a cascade can touch, how a new display turns out, and how one is taken
 down.
 */
module DisplayAnswers {
  import opened Basics
  import opened DisplayNumbers
  import opened DisplayEngine
  import opened DisplayFailures

  // ---- what a cascade leaves alone ---------------------------------------------

  /** Some seat has a login window that may be switched to. */
  ghost predicate HasWindows(w: World) {
    exists t, q :: w.login(t, q).Some?
  }

  ghost predicate Shown(st: Status) {
    st == Managed || st == WaitingToFinish
  }

  /** Only the display of a login window changes: it is switched to, and may end at that. */
  ghost predicate Spared(w: World, a: Display, b: Display) {
    b == a || (HasWindows(w) && Shown(a.status) && (b.status == Managed || b.status == Finished))
  }

  /** Every display but x is spared, and a purge once queued stays so. */
  ghost predicate Spares(w: World, s: State, t: State, x: int) {
    && |s.displays| <= |t.displays|
    && (s.purgePending ==> t.purgePending)
    && t.activeVt == s.activeVt && t.waitArmed == s.waitArmed
    && forall i :: 0 <= i < |s.displays| && i != x ==> Spared(w, s.displays[i], t.displays[i])
  }

  lemma SparesThen(w: World, s: State, t: State, u: State, x: int)
    requires Spares(w, s, t, x) && Spares(w, t, u, x)
    ensures Spares(w, s, u, x)
  {
    forall i | 0 <= i < |s.displays| && i != x ensures Spared(w, s.displays[i], u.displays[i]) {
      assert Spared(w, s.displays[i], t.displays[i]) && Spared(w, t.displays[i], u.displays[i]);
    }
  }

  /** A change of one display alone. */
  ghost predicate OnlyOne(s: State, t: State, d: nat) {
    && d < |s.displays| == |t.displays|
    && t.store == s.store && t.numFailures == s.numFailures
    && (s.purgePending ==> t.purgePending)
    && t.activeVt == s.activeVt && t.waitArmed == s.waitArmed
    && forall i :: 0 <= i < |s.displays| && i != d ==> t.displays[i] == s.displays[i]
  }

  lemma OnlyOneSpares(w: World, s: State, t: State, d: nat)
    requires OnlyOne(s, t, d)
    ensures Spares(w, s, t, d)
  {
  }

  lemma ManagerSpares(w: World, s: State, d: nat)
    requires WF(s) && d < |s.displays|
    ensures OnlyOne(s, ManagerHandler(w, s, d), d)
  {
    hide WF, Grows, Cascades, Stored;
  }

  /** The factory answers an end or a usable display on the display itself, unless a user's session ended. */
  lemma FactorySpares(w: World, s: State, d: nat)
    requires WF(s) && d < |s.displays| && s.displays[d].status != Failed
    requires s.displays[d].status == Finished ==> s.displays[d].cls == Greeter
    ensures OnlyOne(s, FactoryHandler(w, s, d), d)
    ensures FactoryHandler(w, s, d).displays[d].status == s.displays[d].status
  {
    hide WF, Grows, Cascades, Stored, Taken;
    if s.displays[d].status == Finished {
      assert FactoryHandler(w, s, d) == OnFinished(w, s, d) == Release(s, d);
    }
  }

  /** A status that is neither a failure nor an end is dealt with on the display itself. */
  lemma QuietStatus(w: World, s: State, d: nat, st: Status)
    requires WF(s) && d < |s.displays| && st != Failed && st != Finished
    ensures var v := WithStatus(s, d, st);
            && WF(v) && OnlyOne(s, Notify(w, v, d), d)
            && (Notify(w, v, d).displays[d].status == st || Notify(w, v, d).displays[d].status == Finished)
  {
    var v := WithStatus(s, d, st);
    assert WF(v);
    var u := ManagerHandler(w, v, d);
    ManagerSpares(w, v, d);
    FactorySpares(w, u, d);
    hide WF, Grows, Cascades, Stored, ManagerHandler, FactoryHandler;
  }

  /** Unmanaging a display whose session had registered is noticed by nobody. */
  lemma RegisteredUnmanaged(w: World, s: State, d: nat)
    requires WF(s) && d < |s.displays| && s.displays[d].registered
    ensures Unmanage(w, s, d) == if s.displays[d].status == Unmanaged then s else WithStatus(s, d, Unmanaged)
  {
    var v := WithStatus(s, d, Unmanaged);
    assert WF(v);
    hide WF, Grows, Cascades, Stored;
    assert ManagerHandler(w, v, d) == v;
    assert FactoryHandler(w, v, d) == v;
    assert Notify(w, v, d) == v;
    if s.displays[d].status != Unmanaged {
      assert SetStatus(w, s, d, Unmanaged) == Notify(w, v, d);
    }
  }

  lemma {:induction false} UnmanageSpares(w: World, s: State, d: nat)
    requires WF(s) && d < |s.displays|
    ensures Spares(w, s, Unmanage(w, s, d), d)
    decreases 0, Room(s.numFailures), 4, 0
  {
    var e := s.displays[d];
    if e.registered {
      RegisteredUnmanaged(w, s, d);
    } else {
      UnregisteredFails(w, s, d);
      var f := WithStatus(s, d, Failed);
      if e.status != Failed && d in s.store && e.IsLocal() {
        var t := Counted(f, e.seat.value);
        assert Spares(w, s, t, d);
        hide WF, Grows, Cascades, Stored, CreateDisplay, Unmanage, WithStatus, Spared;
        if t.numFailures <= MAX_DISPLAY_FAILURES {
          CreateSpares(w, t, e.seat.value, ReplacementType(w, e), e.initial);
          SparesThen(w, s, t, Unmanage(w, s, d), d);
        }
      }
    }
  }

  lemma PreparedSpares(w: World, s: State, d: nat)
    requires WF(s) && d < |s.displays|
    ensures OnlyOne(s, SetStatus(w, s, d, Prepared), d)
  {
    QuietStatus(w, s, d, Prepared);
    hide WF, Notify;
  }

  lemma PrepareSpares(w: World, s: State, d: nat)
    requires WF(s) && d < |s.displays|
    ensures OnlyOne(s, Prepare(w, s, d).0, d)
  {
    hide WF, Grows, Cascades, Stored, SetStatus;
    var t := Asked(WithSetup(s, d, w.initialSetup(s.tick)));
    if t.displays[d].kind == LocalServer {
      PreparedSpares(w, t, d);
    } else {
      PreparedSpares(w, Asked(t), d);
    }
  }

  lemma {:induction false} LaunchSpares(w: World, s: State, d: nat)
    requires WF(s) && d < |s.displays|
    ensures Spares(w, s, Launch(w, s, d), d)
    decreases 0, Room(s.numFailures), 4, 1
  {
    hide WF, Unmanage;
    UnmanageSpares(w, Asked(s), d);
  }

  lemma {:induction false} ManageSpares(w: World, s: State, d: nat)
    requires WF(s) && d < |s.displays|
    ensures Spares(w, s, Manage(w, s, d).0, d)
    decreases 0, Room(s.numFailures), 5, 0
  {
    hide WF, Launch, Prepare, Spared;
    PrepareSpares(w, s, d);
    var t := if s.displays[d].status == Unmanaged then Prepare(w, s, d).0 else s;
    OnlyOneSpares(w, s, t, d);
    LaunchSpares(w, t, d);
    SparesThen(w, s, t, Launch(w, t, d), d);
  }

  lemma {:induction false} ManageOrNotSpares(w: World, s: State, d: nat)
    requires WF(s) && d < |s.displays|
    ensures Spares(w, s, ManageOrNot(w, s, d), d)
    decreases 0, Room(s.numFailures), 5, 1
  {
    hide WF, Manage, Unmanage, Spared;
    ManageSpares(w, s, d);
    var (t, managed) := Manage(w, s, d);
    RoomShrinks(s, t, 0);
    if !managed {
      UnmanageSpares(w, t, d);
      SparesThen(w, s, t, Unmanage(w, t, d), d);
    }
  }

  lemma {:induction false} AddSpares(w: World, s: State, seat: string, sessionType: Option<string>, initial: bool)
    requires WF(s)
    ensures Spares(w, s, AddDisplay(w, s, seat, sessionType, initial), -1)
    decreases 0, Room(s.numFailures), 5, 2
  {
    var s1 := NewOnSeat(w, s, seat, sessionType, initial);
    ManageOrNotSpares(w, s1, |s.displays|);
    assert forall i :: 0 <= i < |s.displays| ==> s1.displays[i] == s.displays[i];
    hide WF, ManageOrNot, Spared;
  }

  /** Switching to a login window touches that alone. */
  lemma SwitchSpares(w: World, s: State, d: nat)
    requires WF(s) && d < |s.displays| && Shown(s.displays[d].status) && HasWindows(w)
    ensures Spares(w, s, SetStatusProperty(w, s, d, Managed), -1)
  {
    QuietStatus(w, s, d, Managed);
    hide WF, Notify;
  }

  /** A request for a display spares every display there is, however many failures it answers. */
  lemma {:induction false} CreateSpares(w: World, s: State, seat: string, sessionType: Option<string>, initial: bool)
    requires WF(s)
    ensures Spares(w, s, CreateDisplay(w, s, seat, sessionType, initial), -1)
    decreases 0, Room(s.numFailures), 6, 0
  {
    CreateCases(w, s, seat, sessionType, initial);
    var u := Asked(Asked(s));
    assert Spares(w, s, Asked(s), -1) && Spares(w, s, u, -1);
    var window := LoginWindow(w, Asked(s), seat);
    if window.Some? {
      assert w.login(s.tick + 1, seat).Some?;
      SwitchSpares(w, u, window.value);
      hide WF, SetStatusProperty, Spared;
      SparesThen(w, s, u, SetStatusProperty(w, u, window.value, Managed), -1);
    } else {
      AddSpares(w, u, seat, sessionType, initial);
      hide WF, AddDisplay, Spared;
      SparesThen(w, s, u, AddDisplay(w, u, seat, sessionType, initial), -1);
    }
  }

  lemma CreateCases(w: World, s: State, seat: string, sessionType: Option<string>, initial: bool)
    requires WF(s)
    ensures
      var u := Asked(Asked(s));
      var window := LoginWindow(w, Asked(s), seat);
      CreateDisplay(w, s, seat, sessionType, initial) ==
      if Find(Asked(s), if w.multi(s.tick, seat) then PreparedOnSeat(seat) else OnSeat(seat)).Some? then Asked(s)
      else if window.Some? then SetStatusProperty(w, u, window.value, Managed)
      else AddDisplay(w, u, seat, sessionType, initial)
  {
    hide WF, Grows, Cascades, Stored, AddDisplay, SetStatusProperty, LoginWindow, Find;
  }

  lemma {:induction false} SyncEachSpares(w: World, s: State, seats: seq<string>)
    requires WF(s)
    ensures Spares(w, s, SyncEach(w, s, seats), -1)
    decreases |seats|
  {
    assert Spares(w, s, s, -1);
    hide WF, CreateDisplay, Spared;
    if seats != [] {
      var (s1, sessionType) := SeatAsked(w, s, seats[0]);
      CreateSpares(w, s1, seats[0], sessionType, seats[0] == "seat0");
      var t := SyncOne(w, s, seats[0]);
      assert Spares(w, s, t, -1);
      SyncEachSpares(w, t, seats[1..]);
      SparesThen(w, s, t, SyncEach(w, s, seats), -1);
    }
  }

  /** So does synchronising the seats. */
  lemma SyncSpares(w: World, s: State)
    requires WF(s)
    ensures Spares(w, s, SyncSeats(w, s), -1)
  {
    hide SyncEach;
    if w.seats(s.tick).Some? {
      SyncEachSpares(w, Asked(s), w.seats(s.tick).value);
    }
  }

  // ---- taking a display down ----------------------------------------------------

  /** A registered session leaves UNMANAGED, any other FAILED; a failure that is noticed is counted and purged. */
  lemma UnmanageMeans(w: World, s: State, d: nat)
    requires WF(s) && d < |s.displays|
    ensures
      var e, t := s.displays[d], Unmanage(w, s, d);
      var f := e.(status := if e.registered then Unmanaged else Failed);
      if e.registered || e.status == Failed || d !in s.store then Settled(s, t, d, f)
      else t.displays[d] == f && t.purgePending && (e.IsLocal() ==> t.numFailures > s.numFailures)
  {
    var e := s.displays[d];
    if e.registered {
      RegisteredUnmanaged(w, s, d);
      assert s.displays[d := e] == s.displays;
    } else {
      hide WF, Unmanage;
      if e.status == Failed || d !in s.store {
        FailureUnheard(w, s, d);
      } else {
        FailureHeard(w, s, d);
      }
    }
    hide WF, Grows, Cascades, Stored, Unmanage;
  }

  /** The display d is now e; nothing else happened. */
  ghost predicate Settled(s: State, t: State, d: nat, e: Display)
    requires d < |s.displays|
  {
    t == s.(displays := s.displays[d := e], tick := t.tick)
  }

  lemma FailureUnheard(w: World, s: State, d: nat)
    requires WF(s) && d < |s.displays| && !s.displays[d].registered && (s.displays[d].status == Failed || d !in s.store)
    ensures Settled(s, Unmanage(w, s, d), d, s.displays[d].(status := Failed))
  {
    UnregisteredFails(w, s, d);
    hide WF, Grows, Cascades, Stored, Unmanage, CreateDisplay, Counted;
    if s.displays[d].status == Failed {
      assert s.displays[d := s.displays[d]] == s.displays;
    }
  }

  lemma FailureHeard(w: World, s: State, d: nat)
    requires WF(s) && d < |s.displays| && !s.displays[d].registered && s.displays[d].status != Failed && d in s.store
    ensures
      var e, t := s.displays[d], Unmanage(w, s, d);
      t.displays[d] == e.(status := Failed) && t.purgePending && (e.IsLocal() ==> t.numFailures > s.numFailures)
  {
    var e, f := s.displays[d], WithStatus(s, d, Failed);
    UnregisteredFails(w, s, d);
    assert f.displays[d] == e.(status := Failed) && f.numFailures == s.numFailures;
    hide WF, Grows, Cascades, Stored, Unmanage, CreateDisplay, Counted, WithStatus;
    if e.IsLocal() {
      FailureAnswered(w, f, d, e.seat.value, ReplacementType(w, e), e.initial);
    }
  }

  /** A failed display stays as it is through the answer to its failure. */
  lemma FailureAnswered(w: World, f: State, d: nat, seat: string, sessionType: Option<string>, initial: bool)
    requires WF(f) && d < |f.displays| && f.displays[d].status == Failed
    ensures
      var t, r := Counted(f, seat), CreateDisplay(w, Counted(f, seat), seat, sessionType, initial);
      && t.displays[d] == r.displays[d] == f.displays[d] && t.purgePending && r.purgePending
      && t.numFailures > f.numFailures && r.numFailures > f.numFailures
  {
    var t := Counted(f, seat);
    CreateSpares(w, t, seat, sessionType, initial);
    hide WF, Grows, Stored, CreateDisplay;
    assert Spared(w, t.displays[d], CreateDisplay(w, t, seat, sessionType, initial).displays[d]);
  }

  // ---- how a new display turns out -----------------------------------------------

  /**
   A new X display is prepared when its authority was written and its server
   started. Without the authority it is left unmanaged; when only the server
   does not start it has failed, and the failure is counted and purged.
   */
  lemma XServerDecides(w: World, s: State, d: nat)
    requires WF(s) && d < |s.displays| && d in s.store && IsNewX(s.displays[d])
    ensures
      var (t, managed) := Manage(w, s, d);
      var e := s.displays[d].(initialSetup := w.initialSetup(s.tick));
      if !w.authority(s.tick + 1) then !managed && Settled(s, t, d, e)
      else if w.serverStarts(s.tick + 2) then managed && Settled(s, t, d, e.(status := Prepared))
      else managed && t.displays[d] == e.(status := Failed) && t.purgePending && t.numFailures > s.numFailures
  {
    ManageMeans(w, s, d);
    var v := Asked(WithStatus(Readied(w, s, d), d, Prepared));
    UnmanageMeans(w, v, d);
    hide WF, Grows, Cascades, Stored, Manage, Unmanage;
  }

  /** A display server of its own needs no authority: the greeter gets its session, or the display ends at once. */
  lemma LocalServerDecides(w: World, s: State, d: nat)
    requires WF(s) && d < |s.displays| && d in s.store
    requires s.displays[d].kind == LocalServer && s.displays[d].status == Unmanaged && Usable(s.displays[d], Prepared)
    ensures
      var (t, managed) := Manage(w, s, d);
      var e := s.displays[d].(initialSetup := w.initialSetup(s.tick));
      && managed
      && if w.greeterUser(s.tick + 1) then Settled(s, t, d, e.(status := Prepared, hasSession := true))
         else EndsQuietly(s, t, d, e)
  {
    hide WF, Grows, Cascades, Stored, Notify, Manage, Settled, EndsQuietly, Asked, WithSetup, WithStatus;
    var u := Asked(WithSetup(s, d, w.initialSetup(s.tick)));
    var e := s.displays[d].(initialSetup := w.initialSetup(s.tick));
    SetupAsked(w, s, d, u, e);
    LocalServerManaged(w, s, d, u);
    UsableTold(w, u, d, Prepared);
    var r := Notify(w, WithStatus(u, d, Prepared), d);
    if w.greeterUser(s.tick + 1) {
      SettledFrom(s, u, r, d, e, e.(status := Prepared, hasSession := true));
    } else {
      EndsFrom(s, u, r, d, e);
    }
  }

  lemma LocalServerManaged(w: World, s: State, d: nat, u: State)
    requires WF(s) && d < |s.displays| && s.displays[d].kind == LocalServer && s.displays[d].status == Unmanaged
    requires u == Asked(WithSetup(s, d, w.initialSetup(s.tick))) && WF(WithStatus(u, d, Prepared))
    ensures Manage(w, s, d) == (Notify(w, WithStatus(u, d, Prepared), d), true)
  {
    hide WF, Grows, Cascades, Stored, Notify;
    var r := Notify(w, WithStatus(u, d, Prepared), d);
    assert SetStatus(w, u, d, Prepared) == r;
    hide SetStatus;
    PreparedIs(w, s, d, u, r);
    hide Prepare, Launch;
    KindStays(WithStatus(u, d, Prepared), r, d);
    LaunchesNothing(w, r, d);
  }

  lemma SetupAsked(w: World, s: State, d: nat, u: State, e: Display)
    requires WF(s) && d < |s.displays| && e == s.displays[d].(initialSetup := w.initialSetup(s.tick))
    requires u == Asked(WithSetup(s, d, w.initialSetup(s.tick)))
    ensures Settled(s, u, d, e) && |u.displays| == |s.displays| && u.displays[d] == e
    ensures u.store == s.store && u.tick == s.tick + 1
    ensures WF(WithStatus(u, d, Prepared)) && |WithStatus(u, d, Prepared).displays| == |s.displays|
  {
  }

  lemma SettledFrom(s: State, u: State, t: State, d: nat, e: Display, f: Display)
    requires d < |s.displays| == |u.displays| && Settled(s, u, d, e) && Settled(u, t, d, f)
    ensures Settled(s, t, d, f)
  {
  }

  lemma EndsFrom(s: State, u: State, t: State, d: nat, e: Display)
    requires d < |s.displays| == |u.displays| && Settled(s, u, d, e) && EndsQuietly(u, t, d, e)
    ensures EndsQuietly(s, t, d, e)
  {
  }

  lemma KindStays(s: State, t: State, d: nat)
    requires Grows(s, t) && d < |s.displays|
    ensures d < |t.displays| && t.displays[d].kind == s.displays[d].kind
  {
  }

  lemma PreparedIs(w: World, s: State, d: nat, u: State, r: State)
    requires WF(s) && d < |s.displays| && s.displays[d].kind == LocalServer
    requires u == Asked(WithSetup(s, d, w.initialSetup(s.tick))) && r == SetStatus(w, u, d, Prepared)
    ensures Prepare(w, s, d) == (r, true)
  {
    hide WF, Grows, Cascades, Stored, SetStatus;
  }

  lemma LaunchesNothing(w: World, s: State, d: nat)
    requires WF(s) && d < |s.displays| && s.displays[d].kind != LegacyX
    ensures Launch(w, s, d) == s
  {
    hide WF, Unmanage;
  }

  // ---- telling of a new status -----------------------------------------------------

  /** A greeter's display with the status is ready for its session. */
  predicate Usable(e: Display, st: Status) {
    e.cls == Greeter && ((st == Prepared && e.number == -1) || (st == Managed && e.number != -1))
  }

  /** The display, which was to be e, has finished and given its number back; no other display changed. */
  ghost predicate EndsQuietly(s: State, t: State, d: nat, e: Display) {
    && OnlyOne(s, t, d)
    && t.displays[d] == e.(status := Finished, finishQueued := false, finishes := t.displays[d].finishes, releases := t.displays[d].releases)
    && t.purgePending
    && forall n: nat :: n in t.used <==> n in s.used && n != e.number
  }

  /** A stored display that becomes usable gets a session, unless the greeter's user is unknown. */
  lemma UsableTold(w: World, s: State, d: nat, st: Status)
    requires WF(s) && d < |s.displays| && d in s.store && Usable(s.displays[d], st)
    ensures WF(WithStatus(s, d, st))
    ensures
      var e, r := s.displays[d], Notify(w, WithStatus(s, d, st), d);
      if w.greeterUser(s.tick) then
        Settled(s, r, d, e.(status := st, hasSession := true, watched := e.watched || (st == Managed && w.userServer)))
      else EndsQuietly(s, r, d, e)
  {
    var v := WithStatus(s, d, st);
    assert WF(v);
    hide WF, Grows, Cascades, Stored, Taken;
    if w.greeterUser(s.tick) {
      var u := WithSession(Asked(v), d);
      assert ManagerHandler(w, v, d) == u;
      hide ManagerHandler, Usable, WithSession;
      assert Notify(w, v, d) == FactoryHandler(w, u, d);
      hide Notify;
      SessionTold(w, s, d, st, v, u);
    } else {
      NobodyToGreet(w, s, d, st);
    }
  }

  lemma SessionTold(w: World, s: State, d: nat, st: Status, v: State, u: State)
    requires WF(s) && d < |s.displays| && (st == Prepared || st == Managed) && v == WithStatus(s, d, st)
    requires WF(v) && u == WithSession(Asked(v), d)
    ensures Settled(s, FactoryHandler(w, u, d), d,
                    v.displays[d].(hasSession := true, watched := v.displays[d].watched || (st == Managed && w.userServer)))
  {
    hide WF, Grows, Cascades, Stored;
  }

  lemma NobodyToGreet(w: World, s: State, d: nat, st: Status)
    requires WF(s) && d < |s.displays| && d in s.store && Usable(s.displays[d], st) && !w.greeterUser(s.tick)
    requires WF(WithStatus(s, d, st))
    ensures EndsQuietly(s, Notify(w, WithStatus(s, d, st), d), d, s.displays[d])
  {
    hide WF, Grows, Cascades, Stored, Taken;
    var v := WithStatus(s, d, st);
    var u := QuietEnd(Asked(v), d);
    assert ManagerHandler(w, v, d) == u;
    assert Notify(w, v, d) == FactoryHandler(w, u, d);
    assert FactoryHandler(w, u, d) == OnFinished(w, u, d) == Release(u, d);
  }

  /** Any other status that is neither a failure nor an end is told without effect; the factory listens for sessions. */
  lemma OtherwiseTold(w: World, s: State, d: nat, st: Status)
    requires WF(s) && d < |s.displays| && st != Failed && st != Finished
    requires d !in s.store || !Usable(s.displays[d], st)
    ensures WF(WithStatus(s, d, st))
    ensures
      var e := s.displays[d];
      var heard := d in s.store && st == Managed && w.userServer;
      Settled(s, Notify(w, WithStatus(s, d, st), d), d, e.(status := st, watched := e.watched || heard))
    ensures Notify(w, WithStatus(s, d, st), d).tick == s.tick
  {
    var v := WithStatus(s, d, st);
    assert WF(v);
    hide WF, Grows, Cascades, Stored;
    assert d in s.store ==> ManagerHandler(w, v, d) == v;
    hide ManagerHandler;
    assert Notify(w, v, d) == if d in s.store then FactoryHandler(w, v, d) else v;
  }

  /**
   The display is managed, and the factory listens to it where sessions may move
   out. A stored greeter's display with a number has its session, or has ended
   when the greeter's user is not known.
   */
  ghost predicate TurnsManaged(w: World, s: State, t: State, d: nat, known: bool)
    requires d < |s.displays|
  {
    var e := s.displays[d];
    var greeted := d in s.store && e.cls == Greeter && e.number != -1;
    if greeted && !known then EndsQuietly(s, t, d, e)
    else Settled(s, t, d, e.(status := Managed, hasSession := e.hasSession || greeted,
                             watched := e.watched || (d in s.store && w.userServer)))
  }

  lemma ManagedTold(w: World, s: State, d: nat)
    requires WF(s) && d < |s.displays|
    ensures TurnsManaged(w, s, SetStatusProperty(w, s, d, Managed), d, w.greeterUser(s.tick))
  {
    hide WF, Grows, Cascades, Stored, Notify, WithStatus, EndsQuietly, Settled;
    if d in s.store && Usable(s.displays[d], Managed) {
      UsableTold(w, s, d, Managed);
    } else {
      OtherwiseTold(w, s, d, Managed);
    }
  }
}
