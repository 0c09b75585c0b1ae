/**
 How the login screen that a seat is given turns out, and what a switch of the
 virtual terminal does to the screens of seat0.
 */
module DisplayScreens {
  import opened Basics
  import opened DisplayNumbers
  import opened DisplayEngine
  import opened DisplayEvents
  import opened DisplayInvariant
  import opened DisplayCascade
  import opened DisplayTheorems
  import opened DisplayFailures
  import opened DisplayAnswers
  import opened DisplaySeats

  // ---- new displays ----------------------------------------------------------------

  /** A request for the seat makes a new display. */
  ghost predicate Lacks(w: World, s: State, seat: string)
    requires WF(s)
  {
    !(exists d :: Blocks(w, s, seat, d)) && LoginWindow(w, Asked(s), seat).None?
  }

  lemma LackingAdds(w: World, s: State, seat: string, sessionType: Option<string>, initial: bool)
    requires WF(s) && Lacks(w, s, seat)
    ensures
      var s1 := NewOnSeat(w, Asked(Asked(s)), seat, sessionType, initial);
      |s1.displays| == |s.displays| + 1 &&
      CreateDisplay(w, s, seat, sessionType, initial) == ManageOrNot(w, s1, |s.displays|)
  {
    CreateCases(w, s, seat, sessionType, initial);
    var p := if w.multi(s.tick, seat) then PreparedOnSeat(seat) else OnSeat(seat);
    var found := Find(Asked(s), p);
    assert found.Some? ==> Blocks(w, s, seat, found.value);
    hide WF, Grows, Cascades, Stored, ManageOrNot, NewOnSeat, CreateDisplay, Blocks, Find;
  }

  /** An X display for the seat, on the number given. */
  function XScreen(seat: string, num: nat, initial: bool, setup: bool): Display {
    Display(LegacyX, Some(seat), num, Greeter, None, initial, Unmanaged, false, None, false, setup, false, false, 0, 0)
  }

  /** A display of seat0 with a display server of its own. */
  function OwnScreen(sessionType: Option<string>, initial: bool, setup: bool): Display {
    Display(LocalServer, Some("seat0"), -1, Greeter, sessionType, initial, Unmanaged, false, None, false, setup, false,
            false, 0, 0)
  }

  /** All there was is there still, and e has come and is stored. */
  ghost predicate Joined(s: State, t: State, e: Display) {
    && t.displays == s.displays + [e] && t.store == s.store + [|s.displays|]
    && t.numFailures == s.numFailures && t.purgePending == s.purgePending
  }

  /**
   A seat that lacks a display gets an X display on the least free number. It is
   prepared when its authority was written and its server started. When either
   fails, so has the display: it is stored, counted, and the purge is queued.
   */
  lemma XScreenComesUp(w: World, s: State, seat: string, sessionType: Option<string>, initial: bool)
    requires WF(s) && Lacks(w, s, seat) && !(w.userServer && seat == "seat0")
    ensures
      var d, t := |s.displays|, CreateDisplay(w, s, seat, sessionType, initial);
      var num := LeastFree(s.used) % U32;
      var e := XScreen(seat, num, initial, w.initialSetup(s.tick + 2));
      if w.authority(s.tick + 3) && w.serverStarts(s.tick + 4) then
        Joined(s, t, e.(status := Prepared)) && t.used == s.used + {num}
      else
        && d < |t.displays| && d in t.store && t.displays[d] == e.(status := Failed)
        && t.purgePending && t.numFailures > s.numFailures
  {
    hide WF, Grows, Cascades, Stored, ManageOrNot, CreateDisplay, NewOnSeat, LeastFree, Lacks, Joined, Settled, Asked;
    var s1 := NewOnSeat(w, Asked(Asked(s)), seat, sessionType, initial);
    var num := LeastFree(s.used) % U32;
    var e := XScreen(seat, num, initial, false);
    LackingAdds(w, s, seat, sessionType, initial);
    NewX(w, s, seat, sessionType, initial);
    JoinedIn(s, s1, e);
    XScreenManaged(w, s1, |s.displays|);
    var f := e.(status := Prepared, initialSetup := w.initialSetup(s.tick + 2));
    if w.authority(s.tick + 3) && w.serverStarts(s.tick + 4) {
      JoinedSettled(s, s1, ManageOrNot(w, s1, |s.displays|), e, f);
    }
  }

  lemma NewX(w: World, s: State, seat: string, sessionType: Option<string>, initial: bool)
    requires WF(s) && !(w.userServer && seat == "seat0")
    ensures
      var s1, num := NewOnSeat(w, Asked(Asked(s)), seat, sessionType, initial), LeastFree(s.used) % U32;
      s1.tick == s.tick + 2 && s1.used == s.used + {num} && Joined(s, s1, XScreen(seat, num, initial, false))
  {
    hide LeastFree;
  }

  lemma JoinedIn(s: State, t: State, e: Display)
    requires Joined(s, t, e)
    ensures |t.displays| == |s.displays| + 1 && t.displays[|s.displays|] == e && |s.displays| in t.store
    ensures t.numFailures == s.numFailures && t.store == s.store + [|s.displays|]
  {
    assert t.store[|s.store|] == |s.displays|;
  }

  lemma JoinedSettled(s: State, t: State, u: State, e: Display, f: Display)
    requires Joined(s, t, e) && Settled(t, u, |s.displays|, f)
    ensures Joined(s, u, f) && u.used == t.used
  {
  }

  lemma XScreenManaged(w: World, s: State, d: nat)
    requires WF(s) && d < |s.displays| && d in s.store && IsNewX(s.displays[d])
    ensures
      var e, t := s.displays[d].(initialSetup := w.initialSetup(s.tick)), ManageOrNot(w, s, d);
      if w.authority(s.tick + 1) && w.serverStarts(s.tick + 2) then Settled(s, t, d, e.(status := Prepared))
      else
        && d < |t.displays| && d in t.store && t.displays[d] == e.(status := Failed)
        && t.purgePending && t.numFailures > s.numFailures
  {
    XServerDecides(w, s, d);
    var (u, managed) := Manage(w, s, d);
    UnmanageMeans(w, u, d);
    hide WF, Grows, Cascades, Manage, Unmanage;
    StaysIn(s, ManageOrNot(w, s, d), d);
  }

  lemma StaysIn(s: State, t: State, d: nat)
    requires Cascades(s, t, 0) && d in s.store
    ensures |s.displays| <= |t.displays| && d in t.store
  {
    var k :| 0 <= k < |s.store| && s.store[k] == d;
    assert t.store[k] == d;
  }

  /**
   Where displays on seat0 have a server of their own, a new one reserves no
   number. It is prepared and has its greeter's session, or has ended because
   the greeter's user is unknown.
   */
  lemma OwnScreenComesUp(w: World, s: State, sessionType: Option<string>, initial: bool)
    requires WF(s) && Lacks(w, s, "seat0") && w.userServer
    ensures
      var d, t := |s.displays|, CreateDisplay(w, s, "seat0", sessionType, initial);
      var e := OwnScreen(sessionType, initial, w.initialSetup(s.tick + 2));
      if w.greeterUser(s.tick + 3) then
        Joined(s, t, e.(status := Prepared, hasSession := true)) && t.used == s.used
      else
        && |t.displays| == d + 1 && t.store == s.store + [d] && t.purgePending && t.numFailures == s.numFailures
        && t.displays[d] == e.(status := Finished, finishes := t.displays[d].finishes, releases := t.displays[d].releases)
        && (forall n: nat :: n in t.used <==> n in s.used)
  {
    hide WF, Grows, Cascades, Stored, ManageOrNot, CreateDisplay, NewOnSeat, Lacks, Joined, Settled, Asked;
    var s1 := NewOnSeat(w, Asked(Asked(s)), "seat0", sessionType, initial);
    var e := OwnScreen(sessionType, initial, false);
    LackingAdds(w, s, "seat0", sessionType, initial);
    NewOwn(w, s, sessionType, initial);
    JoinedIn(s, s1, e);
    OwnScreenManaged(w, s1, |s.displays|);
    if w.greeterUser(s.tick + 3) {
      var f := e.(status := Prepared, hasSession := true, initialSetup := w.initialSetup(s.tick + 2));
      JoinedSettled(s, s1, ManageOrNot(w, s1, |s.displays|), e, f);
    }
  }

  lemma NewOwn(w: World, s: State, sessionType: Option<string>, initial: bool)
    requires WF(s) && w.userServer
    ensures
      var s1 := NewOnSeat(w, Asked(Asked(s)), "seat0", sessionType, initial);
      s1.tick == s.tick + 2 && s1.used == s.used && Joined(s, s1, OwnScreen(sessionType, initial, false))
  {
  }

  lemma OwnScreenManaged(w: World, s: State, d: nat)
    requires WF(s) && d < |s.displays| && d in s.store
    requires s.displays[d].kind == LocalServer && s.displays[d].status == Unmanaged && Usable(s.displays[d], Prepared)
    ensures
      var e, t := s.displays[d].(initialSetup := w.initialSetup(s.tick)), ManageOrNot(w, s, d);
      if w.greeterUser(s.tick + 1) then Settled(s, t, d, e.(status := Prepared, hasSession := true))
      else EndsQuietly(s, t, d, e)
  {
    LocalServerDecides(w, s, d);
    hide WF, Grows, Cascades, Manage, EndsQuietly;
  }

  /** A seat that comes gets its display by such a request, one that does not count as initial. */
  lemma SeatNewComesUp(w: World, s: State, seat: string)
    requires WF(s) && Lacks(w, s, seat) && !(w.userServer && seat == "seat0")
    ensures
      var d, t := |s.displays|, Step(w, s, SeatNew(seat));
      var e := XScreen(seat, LeastFree(s.used) % U32, false, w.initialSetup(s.tick + 2));
      && d < |t.displays| && d in t.store
      && t.displays[d] ==
         e.(status := if w.authority(s.tick + 3) && w.serverStarts(s.tick + 4) then Prepared else Failed)
  {
    XScreenComesUp(w, s, seat, None, false);
    hide WF, Grows, Cascades, Stored, CreateDisplay, LeastFree, Lacks;
    assert Step(w, s, SeatNew(seat)) == CreateDisplay(w, s, seat, None, false);
    if w.authority(s.tick + 3) && w.serverStarts(s.tick + 4) {
      var e := XScreen(seat, LeastFree(s.used) % U32, false, w.initialSetup(s.tick + 2));
      JoinedIn(s, Step(w, s, SeatNew(seat)), e.(status := Prepared));
    }
  }

  /**
   Synchronising gives seat0 an initial display, with Wayland where that is on
   and the display has a server of its own, and other seats plain X displays.
   */
  lemma SyncScreenFor(w: World, s: State, seat: string)
    requires WF(s) && Lacks(w, if seat == "seat0" then Asked(s) else s, seat)
    ensures
      var t, own := SyncOne(w, s, seat), w.userServer && seat == "seat0";
      && |t.displays| > |s.displays|
      && var e := t.displays[|s.displays|];
         && e.seat == Some(seat) && e.kind == (if own then LocalServer else LegacyX)
         && e.initial == (seat == "seat0")
         && e.sessionType == if own && w.waylandBuild && w.waylandOn(s.tick) then Some("wayland") else None
  {
    hide WF, Grows, Cascades, Stored, CreateDisplay, LeastFree, Lacks;
    var (s1, sessionType) := SeatAsked(w, s, seat);
    ScreenFor(w, s1, seat, sessionType, seat == "seat0");
  }

  /**
   The transient display is stored like any other. It is kept even when it cannot be
   prepared; only a server that does not start makes it fail.
   */
  lemma TransientX(w: World, s: State)
    requires WF(s) && !w.userServer
    ensures
      var d, t := |s.displays|, Step(w, s, Transient);
      var num := LeastFree(s.used) % U32;
      var e := XScreen("seat0", num, false, w.initialSetup(s.tick));
      if !w.authority(s.tick + 1) then Joined(s, t, e) && t.used == s.used + {num}
      else if w.serverStarts(s.tick + 2) then Joined(s, t, e.(status := Prepared)) && t.used == s.used + {num}
      else
        && d < |t.displays| && d in t.store && t.displays[d] == e.(status := Failed)
        && t.purgePending && t.numFailures > s.numFailures
  {
    hide WF, Grows, Cascades, Stored, Manage, LeastFree, Joined, Settled, AddNumbered;
    var s1, d := AddNumbered(s, "seat0", false), |s.displays|;
    var num := LeastFree(s.used) % U32;
    var e := XScreen("seat0", num, false, false);
    TransientAdds(s);
    JoinedIn(s, s1, e);
    XServerDecides(w, s1, d);
    var t := Manage(w, s1, d).0;
    StaysIn(s1, t, d);
    var f := e.(initialSetup := w.initialSetup(s.tick));
    if !w.authority(s.tick + 1) {
      JoinedSettled(s, s1, t, e, f);
    } else if w.serverStarts(s.tick + 2) {
      JoinedSettled(s, s1, t, e, f.(status := Prepared));
    }
    assert Step(w, s, Transient) == t;
  }

  lemma TransientAdds(s: State)
    requires WF(s)
    ensures
      var s1, num := AddNumbered(s, "seat0", false), LeastFree(s.used) % U32;
      s1.tick == s.tick && s1.used == s.used + {num} && Joined(s, s1, XScreen("seat0", num, false, false))
  {
    hide LeastFree;
  }

  /** With a display server of its own it counts as initial, and may use Wayland. */
  lemma TransientOwn(w: World, s: State)
    requires WF(s) && w.userServer && w.greeterUser(s.tick + 2)
    ensures
      var t := Step(w, s, Transient);
      var sessionType := if w.waylandBuild && w.waylandOn(s.tick) then Some("wayland") else None;
      var e := OwnScreen(sessionType, true, w.initialSetup(s.tick + 1));
      Joined(s, t, e.(status := Prepared, hasSession := true)) && t.used == s.used
  {
    var sessionType := if UseWayland(w, s.tick) then Some("wayland") else None;
    var e := OwnScreen(sessionType, true, false);
    var s1 := StoreAdd(Asked(s), NewDisplay(LocalServer, "seat0", -1, Greeter, sessionType, true, None));
    assert Joined(s, s1, e) && s1.tick == s.tick + 1 && s1.used == s.used;
    JoinedIn(s, s1, e);
    hide WF, Grows, Cascades, Stored, Manage, Joined, Settled, StoreAdd, Asked;
    LocalServerDecides(w, s1, |s.displays|);
    var t := Manage(w, s1, |s.displays|).0;
    JoinedSettled(s, s1, t, e, e.(status := Prepared, hasSession := true, initialSetup := w.initialSetup(s.tick + 1)));
    assert Step(w, s, Transient) == t;
  }

  /**
   The replacement of a failed display is for the same seat and as initial as it
   was. One with a server of its own keeps the session type, except that Wayland
   is given up.
   */
  lemma ReplacementResembles(w: World, s: State, d: nat)
    requires WF(s) && d < |s.displays| && d in s.store && s.displays[d].IsLocal()
    requires !s.displays[d].registered && s.displays[d].status != Failed && s.numFailures < MAX_DISPLAY_FAILURES
    requires var seat := s.displays[d].seat.value;
             WF(WithStatus(s, d, Failed)) && Lacks(w, Counted(WithStatus(s, d, Failed), seat), seat)
    ensures
      var e, t := s.displays[d], Unmanage(w, s, d);
      |t.displays| > |s.displays| &&
      var r := t.displays[|s.displays|];
      && r.seat == e.seat && r.initial == e.initial
      && (w.userServer && e.seat == Some("seat0") ==>
            r.sessionType == if w.waylandBuild && e.sessionType == Some("wayland") then None else e.sessionType)
  {
    var e := s.displays[d];
    var seat := e.seat.value;
    var t := Counted(WithStatus(s, d, Failed), seat);
    UnregisteredFails(w, s, d);
    assert |t.displays| == |s.displays| && t.numFailures == s.numFailures + 1;
    hide WF, Grows, Cascades, Stored, CreateDisplay, Counted, WithStatus, Unmanage, LeastFree, Lacks;
    ScreenFor(w, t, seat, ReplacementType(w, e), e.initial);
  }

  /** Whatever becomes of it, a new display is for the seat and of the kind that was asked for. */
  lemma ScreenFor(w: World, s: State, seat: string, sessionType: Option<string>, initial: bool)
    requires WF(s) && Lacks(w, s, seat)
    ensures
      var t, own := CreateDisplay(w, s, seat, sessionType, initial), w.userServer && seat == "seat0";
      && |t.displays| > |s.displays|
      && var e := t.displays[|s.displays|];
         && e.seat == Some(seat) && e.kind == (if own then LocalServer else LegacyX)
         && e.initial == initial && e.sessionType == if own then sessionType else None
  {
    hide WF, Grows, Cascades, Stored, CreateDisplay, LeastFree, Lacks;
    if w.userServer && seat == "seat0" {
      OwnScreenComesUp(w, s, sessionType, initial);
    } else {
      XScreenComesUp(w, s, seat, sessionType, initial);
    }
  }

  /** When the factory starts, every seat that logind lists is given a display, or its login window is shown. */
  lemma StartServes(w: World, s: State, seat: string)
    requires WF(s) && w.seats(s.tick).Some? && seat in w.seats(s.tick).value
    ensures (exists d :: Serves(Step(w, s, Start), seat, d)) || WindowShown(w, Asked(s), w.seats(s.tick).value, seat)
  {
    SyncServes(w, s, seat);
    hide WF, SyncSeats, Serves, WindowShown;
    assert Step(w, s, Start) == SyncSeats(w, s);
  }

  // ---- switches of the virtual terminal ----------------------------------------------

  /** Nothing is done without display servers of their own or a new terminal; the first terminal is only noted. */
  lemma VtNoted(w: World, s: State, vt: nat)
    requires WF(s) && (!w.userServer || vt == s.activeVt || s.activeVt == 0)
    ensures Step(w, s, VtChanged(vt)) == if w.userServer then s.(activeVt := vt) else s
  {
  }

  /** The terminal of seat0's login window, 0 when there is none or it is not known. */
  function WindowVt(w: World, s: State): nat {
    if w.login(s.tick, "seat0").Some? then w.vt(s.tick + 1) else 0
  }

  /**
   A login window whose terminal is left waits to finish, if it is managed and
   not doing the initial setup; no other display changes. The timer that ends the
   waiting ones is started when a registered session is on the terminal that is
   shown and that is not the login window's own.
   */
  lemma VtLeft(w: World, s: State, vt: nat)
    requires WF(s) && w.userServer && vt != s.activeVt && s.activeVt != 0 && vt != w.initialVt
    ensures
      var t := Step(w, s, VtChanged(vt));
      var login := w.login(s.tick, "seat0");
      var window := if login.Some? && WindowVt(w, s) == s.activeVt then Find(s, OfSession(login.value)) else None;
      var shown := Find(s, OnActiveTty(w, s.tick + 2));
      && t.displays ==
         (if window.Some? && s.displays[window.value].status == Managed && !s.displays[window.value].initialSetup
          then s.displays[window.value := s.displays[window.value].(status := WaitingToFinish)]
          else s.displays)
      && t == s.(displays := t.displays, tick := t.tick, activeVt := vt, waitArmed := t.waitArmed)
      && (t.waitArmed <==>
            s.waitArmed || (WindowVt(w, s) != vt && shown.Some? && s.displays[shown.value].registered))
  {
    var s1, login := OnVt(s, vt), w.login(s.tick, "seat0");
    VtSteps(w, s, vt);
    VtSwitchedMeans(w, s1, s.activeVt);
    hide WF, Grows, Cascades, Stored, Find, VtSwitched, Step, OfSession, OnActiveTty;
    if login.Some? {
      SameFound(s, s1, OfSession(login.value));
    }
    SameFound(s, s1, OnActiveTty(w, s.tick + 2));
  }

  lemma VtSteps(w: World, s: State, vt: nat)
    requires WF(s) && w.userServer && vt != s.activeVt && s.activeVt != 0 && vt != w.initialVt
    ensures Step(w, s, VtChanged(vt)) == VtSwitched(w, OnVt(s, vt), s.activeVt)
  {
    hide WF, Grows, Cascades, Stored, VtSwitched, OnVt;
    assert Step(w, s, VtChanged(vt)) == OnVtChanged(w, s, vt);
  }

  /** What the switch means once the new terminal s.activeVt is noted. */
  lemma VtSwitchedMeans(w: World, s: State, previous: nat)
    requires WF(s) && previous != 0
    ensures
      var t, login := VtSwitched(w, s, previous), w.login(s.tick, "seat0");
      var window := if login.Some? && WindowVt(w, s) == previous then Find(s, OfSession(login.value)) else None;
      var shown := Find(s, OnActiveTty(w, s.tick + 2));
      && t.displays ==
         (if window.Some? && s.displays[window.value].status == Managed && !s.displays[window.value].initialSetup
          then s.displays[window.value := s.displays[window.value].(status := WaitingToFinish)]
          else s.displays)
      && t == s.(displays := t.displays, tick := t.tick, waitArmed := t.waitArmed)
      && (t.waitArmed <==>
            s.waitArmed || (WindowVt(w, s) != s.activeVt && shown.Some? && s.displays[shown.value].registered))
  {
    WindowLeftFrom(w, s, previous);
    var v := WindowLeft(w, Asked(Asked(s)), previous, WindowVt(w, s), w.login(s.tick, "seat0"));
    hide WF, Grows, Cascades, Stored, Find, WindowLeft, SessionShown, VtSwitched, WindowVt, OfSession, Asked;
    VtSwitchedIs(w, s, previous);
    SessionShownMeans(w, v, WindowVt(w, s));
    SameFound(s, v, OnActiveTty(w, s.tick + 2));
    hide OnActiveTty;
  }

  lemma VtSwitchedIs(w: World, s: State, previous: nat)
    requires WF(s)
    ensures VtSwitched(w, s, previous) ==
            SessionShown(w, WindowLeft(w, Asked(Asked(s)), previous, WindowVt(w, s), w.login(s.tick, "seat0")), WindowVt(w, s))
  {
    hide WF, Grows, Cascades, Stored, WindowLeft, SessionShown;
  }

  lemma WindowLeftFrom(w: World, s: State, previous: nat)
    requires WF(s) && previous != 0
    ensures
      var login := w.login(s.tick, "seat0");
      var v := WindowLeft(w, Asked(Asked(s)), previous, WindowVt(w, s), login);
      var window := if login.Some? && WindowVt(w, s) == previous then Find(s, OfSession(login.value)) else None;
      && v.displays ==
         (if window.Some? && s.displays[window.value].status == Managed && !s.displays[window.value].initialSetup
          then s.displays[window.value := s.displays[window.value].(status := WaitingToFinish)]
          else s.displays)
      && v == s.(displays := v.displays, tick := s.tick + 2) && |v.displays| == |s.displays|
      && forall i :: 0 <= i < |s.displays| ==>
           v.displays[i].sessionId == s.displays[i].sessionId && v.displays[i].registered == s.displays[i].registered
  {
    var u, login := Asked(Asked(s)), w.login(s.tick, "seat0");
    if login.Some? {
      SameFound(s, u, OfSession(login.value));
    }
    WindowLeftMeans(w, u, previous, WindowVt(w, s), login);
    hide WF, Grows, Cascades, Stored, Find, WindowLeft, OfSession;
  }

  lemma SameFound(s: State, t: State, p: Display -> bool)
    requires WF(s) && WF(t) && t.store == s.store && |t.displays| == |s.displays|
    requires forall i :: 0 <= i < |s.displays| ==> p(t.displays[i]) == p(s.displays[i])
    ensures Find(t, p) == Find(s, p)
  {
    SameMatch(s, t, s.store, p);
  }

  lemma WindowLeftMeans(w: World, s: State, previous: nat, loginVt: nat, login: Option<string>)
    requires WF(s) && previous != 0
    ensures
      var t := WindowLeft(w, s, previous, loginVt, login);
      var window := if login.Some? && loginVt == previous then Find(s, OfSession(login.value)) else None;
      && t.tick == s.tick
      && if window.Some? && s.displays[window.value].status == Managed && !s.displays[window.value].initialSetup
         then Settled(s, t, window.value, s.displays[window.value].(status := WaitingToFinish))
         else t == s
  {
    hide WF, Grows, Cascades, Stored, Find;
    if login.Some? {
      var left := Find(s, OfSession(login.value));
      if left.Some? {
        StopGreeterMeans(w, s, left.value);
        hide StopGreeterInBackground, Settled;
      }
    }
  }

  lemma StopGreeterMeans(w: World, s: State, d: nat)
    requires WF(s) && d < |s.displays|
    ensures
      var e, t := s.displays[d], StopGreeterInBackground(w, s, d);
      && t.tick == s.tick
      && if e.status == Managed && !e.initialSetup then Settled(s, t, d, e.(status := WaitingToFinish)) else t == s
  {
    OtherwiseTold(w, s, d, WaitingToFinish);
    hide WF, Grows, Cascades, Stored, Notify;
  }

  lemma SessionShownMeans(w: World, s: State, loginVt: nat)
    requires WF(s)
    ensures
      var shown := Find(s, OnActiveTty(w, s.tick));
      SessionShown(w, s, loginVt) ==
      s.(tick := s.tick + 1,
         waitArmed := s.waitArmed || (loginVt != s.activeVt && shown.Some? && s.displays[shown.value].registered))
  {
    hide Find;
    SameFound(s, Asked(s), OnActiveTty(w, s.tick));
  }

  /** A switch to the first terminal asks for the login screen of seat0 as synchronising does. */
  lemma VtInitialShowsLogin(w: World, s: State)
    requires WF(s) && w.userServer && w.initialVt != s.activeVt && s.activeVt != 0
    requires forall t: nat :: w.login(t, "seat0") == None
    ensures exists d :: Serves(Step(w, s, VtChanged(w.initialVt)), "seat0", d)
  {
    hide WF, Grows, Cascades, Stored, VtSwitched, CreateDisplay;
    var u := VtSwitched(w, OnVt(s, w.initialVt), s.activeVt);
    var sessionType := if UseWayland(w, u.tick) then Some("wayland") else None;
    var t := CreateDisplay(w, Asked(u), "seat0", sessionType, true);
    assert Step(w, s, VtChanged(w.initialVt)) == t;
    SeatServed(w, Asked(u), "seat0", sessionType, true);
  }

  lemma SeatServed(w: World, s: State, seat: string, sessionType: Option<string>, initial: bool)
    requires WF(s) && LoginWindow(w, Asked(s), seat).None?
    ensures exists d :: Serves(CreateDisplay(w, s, seat, sessionType, initial), seat, d)
  {
    CreatesIff(w, s, seat, sessionType, initial);
    hide WF, CreateDisplay;
    if d :| Blocks(w, s, seat, d) {
      assert Serves(CreateDisplay(w, s, seat, sessionType, initial), seat, d);
    }
  }

  // ---- login windows -------------------------------------------------------------------

  /** The login window of a seat is the stored display of its session, while that is managed or waits to finish. */
  lemma LoginWindowIff(w: World, s: State, seat: string, d: nat)
    requires WF(s) && d < |s.displays| && d in s.store
    requires w.login(s.tick, seat).Some? && s.displays[d].sessionId == w.login(s.tick, seat)
    requires forall x :: x in s.store && x < |s.displays| && s.displays[x].sessionId == s.displays[d].sessionId ==> x == d
    ensures LoginWindow(w, s, seat) ==
            if s.displays[d].status == Managed || s.displays[d].status == WaitingToFinish then Some(d) else None
  {
    var k :| 0 <= k < |s.store| && s.store[k] == d;
    assert OfSession(w.login(s.tick, seat).value)(s.displays[s.store[k]]);
  }

  /** A seat without a session in its login window has none to switch to, nor has one whose display is not stored. */
  lemma NoLoginWindow(w: World, s: State, seat: string)
    requires WF(s)
    requires forall k :: 0 <= k < |s.store| && w.login(s.tick, seat).Some? ==>
               s.displays[s.store[k]].sessionId != w.login(s.tick, seat)
    ensures LoginWindow(w, s, seat) == None
  {
  }

  /** A request that finds the login window turns it managed again. */
  lemma WindowSwitchedTo(w: World, s: State, seat: string, sessionType: Option<string>, initial: bool, d: nat)
    requires WF(s) && d < |s.displays| && LoginWindow(w, Asked(s), seat) == Some(d)
    requires !exists x :: Blocks(w, s, seat, x)
    ensures TurnsManaged(w, s, CreateDisplay(w, s, seat, sessionType, initial), d, w.greeterUser(s.tick + 2))
  {
    CreateCases(w, s, seat, sessionType, initial);
    var p := if w.multi(s.tick, seat) then PreparedOnSeat(seat) else OnSeat(seat);
    assert Find(Asked(s), p).Some? ==> Blocks(w, s, seat, Find(Asked(s), p).value);
    var u := Asked(Asked(s));
    ManagedTold(w, u, d);
    hide WF, Grows, Cascades, Stored, SetStatusProperty, CreateDisplay, Find, LoginWindow, Blocks, TurnsManaged;
    TurnsLater(w, s, u, SetStatusProperty(w, u, d, Managed), d, w.greeterUser(s.tick + 2));
  }

  lemma TurnsLater(w: World, s: State, u: State, t: State, d: nat, known: bool)
    requires u == s.(tick := u.tick) && d < |s.displays| && TurnsManaged(w, u, t, d, known)
    ensures TurnsManaged(w, s, t, d, known)
  {
  }

  /** When a user's session ends, every seat that logind lists then has a display, or its login window is shown. */
  lemma UserEndServes(w: World, s: State, d: nat, seat: string)
    requires WF(s) && d < |s.displays| && d in s.store && EndsSession(s.displays[d])
    requires w.seats(s.tick).Some? && seat in w.seats(s.tick).value
    ensures
      var u := ResetAfter(AsEnded(s, d));
      && u.numFailures == 0
      && ((exists x :: Serves(Finish(w, s, d), seat, x)) || WindowShown(w, Asked(u), w.seats(s.tick).value, seat))
  {
    var u := ResetAfter(AsEnded(s, d));
    assert u.tick == s.tick;
    FinishMeans(w, s, d);
    hide WF, Finish, SyncSeats, AsEnded, ResetAfter, Serves, WindowShown;
    SyncServes(w, u, seat);
  }

  /** When logind does not list its seats nothing is asked for. */
  lemma StartWithoutSeats(w: World, s: State)
    requires WF(s) && w.seats(s.tick).None?
    ensures Step(w, s, Start) == s.(tick := s.tick + 1)
  {
  }
}
