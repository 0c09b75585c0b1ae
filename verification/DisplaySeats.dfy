/**
 Which seats get a display: when a request makes one, that synchronising leaves
 no listed seat without, and that the display of a user who logged out is in the
 way of the login screen that is to follow.
 */
module DisplaySeats {
  import opened Basics
  import opened DisplayEngine
  import opened DisplayEvents
  import opened DisplayInvariant
  import opened DisplayCascade
  import opened DisplayRuns
  import opened DisplayTheorems

  /** The stored display that makes another one unnecessary. */
  ghost predicate Blocks(w: World, s: State, seat: string, d: nat)
    requires WF(s)
  {
    d in s.store && d < |s.displays| && s.displays[d].seat == Some(seat) &&
    (w.multi(s.tick, seat) ==> s.displays[d].status == Prepared)
  }

  /**
   A request makes a new display exactly when no stored one is in the way and no
   login window of the seat is there to switch to. Otherwise it makes none and
   leaves the store as it was.
   */
  lemma CreatesIff(w: World, s: State, seat: string, sessionType: Option<string>, initial: bool)
    requires WF(s)
    ensures var r := CreateDisplay(w, s, seat, sessionType, initial);
            if (exists d :: Blocks(w, s, seat, d)) || LoginWindow(w, Asked(s), seat).Some?
            then |r.displays| == |s.displays| && r.store == s.store
            else Serves(r, seat, |s.displays|)
    ensures (exists d :: Blocks(w, s, seat, d)) ==>
              CreateDisplay(w, s, seat, sessionType, initial).displays == s.displays
  {
    var p := if w.multi(s.tick, seat) then PreparedOnSeat(seat) else OnSeat(seat);
    var found := Find(Asked(s), p);
    if found.Some? {
      assert Blocks(w, s, seat, found.value);
    } else {
      NothingBlocks(w, s, seat);
      var window := LoginWindow(w, Asked(s), seat);
      var u := Asked(Asked(s));
      if window.Some? {
        SwitchMakesNone(w, u, window.value);
      } else {
        NewDisplayServes(w, u, seat, sessionType, initial);
      }
      hide AddDisplay, SetStatusProperty, LoginWindow, Find, WF, Grows, Cascades, Stored;
      assert CreateDisplay(w, s, seat, sessionType, initial) ==
             if window.Some? then SetStatusProperty(w, u, window.value, Managed)
             else AddDisplay(w, u, seat, sessionType, initial);
    }
  }

  /** Switching to a login window makes no display, even when its greeter ends at once. */
  lemma SwitchMakesNone(w: World, s: State, d: nat)
    requires WF(s) && d < |s.displays|
    ensures var r := SetStatusProperty(w, s, d, Managed); |r.displays| == |s.displays| && r.store == s.store
  {
    var v := WithStatus(s, d, Managed);
    assert WF(v);
    if d in v.store {
      var u := ManagerHandler(w, v, d);
      assert |u.displays| == |v.displays| && u.store == s.store;
      hide WF, Grows, Cascades, Stored, ManagerHandler, Taken;
      assert SetStatusProperty(w, s, d, Managed) == FactoryHandler(w, u, d);
      if u.displays[d].status == Finished {
        assert FactoryHandler(w, u, d) == OnFinished(w, u, d) == Release(u, d);
      }
    }
  }

  lemma NothingBlocks(w: World, s: State, seat: string)
    requires WF(s)
    requires Find(Asked(s), if w.multi(s.tick, seat) then PreparedOnSeat(seat) else OnSeat(seat)).None?
    ensures !exists d :: Blocks(w, s, seat, d)
  {
    var p := if w.multi(s.tick, seat) then PreparedOnSeat(seat) else OnSeat(seat);
    forall d: nat ensures !Blocks(w, s, seat, d) {
      if d in s.store {
        var k :| 0 <= k < |s.store| && s.store[k] == d;
        assert !p(s.displays[s.store[k]]);
      }
    }
  }

  lemma NewDisplayServes(w: World, s: State, seat: string, sessionType: Option<string>, initial: bool)
    requires WF(s)
    ensures Serves(AddDisplay(w, s, seat, sessionType, initial), seat, |s.displays|)
  {
    var d := |s.displays|;
    var s1 := NewOnSeat(w, s, seat, sessionType, initial);
    assert Serves(s1, seat, d) && s1.store == s.store + [d];
    assert s1.store[|s.store|] == d;
    var s2 := Manage(w, s1, d).0;
    StillServes(s1, s2, 0, seat, d);
    StillServes(s2, Unmanage(w, s2, d), 0, seat, d);
  }

  lemma StillServes(s: State, t: State, extra: nat, seat: string, d: nat)
    requires Cascades(s, t, extra) && Serves(s, seat, d)
    ensures Serves(t, seat, d)
  {
    var k :| 0 <= k < |s.store| && s.store[k] == d;
    assert t.store[k] == d;
  }

  /** The request for the seat finds no stored display in the way but the running login window, which it shows. */
  ghost predicate SwitchedTo(w: World, s: State, seat: string)
    requires WF(s)
  {
    var t := SeatAsked(w, s, seat).0;
    LoginWindow(w, Asked(t), seat).Some? && !exists d :: Blocks(w, t, seat, d)
  }

  /** One of the requests was for this seat and switched to its login window. */
  ghost predicate WindowShown(w: World, s: State, seats: seq<string>, seat: string)
    requires WF(s)
    decreases |seats|
  {
    seats != [] &&
    ((seats[0] == seat && SwitchedTo(w, s, seat)) ||
     WindowShown(w, SyncOne(w, s, seats[0]), seats[1..], seat))
  }

  /** After the seats were synchronised every listed seat has a display, or its login window was switched to. */
  lemma SyncServes(w: World, s: State, seat: string)
    requires WF(s) && w.seats(s.tick).Some? && seat in w.seats(s.tick).value
    ensures (exists d :: Serves(SyncSeats(w, s), seat, d)) || WindowShown(w, Asked(s), w.seats(s.tick).value, seat)
  {
    assert SyncSeats(w, s) == SyncEach(w, Asked(s), w.seats(s.tick).value);
    hide WF, SyncSeats, SyncEach, Serves, WindowShown;
    EachServed(w, Asked(s), w.seats(s.tick).value, seat);
  }

  lemma {:induction false} EachServed(w: World, s: State, seats: seq<string>, seat: string)
    requires WF(s) && seat in seats
    ensures (exists d :: Serves(SyncEach(w, s, seats), seat, d)) || WindowShown(w, s, seats, seat)
    decreases |seats|
  {
    hide WF, Grows, Cascades, SyncOne, Serves;
    var t := SyncOne(w, s, seats[0]);
    assert SyncEach(w, s, seats) == SyncEach(w, t, seats[1..]);
    if seats[0] == seat {
      if !WindowShown(w, s, seats, seat) {
        hide WindowShown;
        var d := OneServed(w, s, seat);
        StillServes(t, SyncEach(w, t, seats[1..]), |seats| - 1, seat, d);
      }
    } else {
      EachServed(w, t, seats[1..], seat);
    }
  }

  lemma OneServed(w: World, s: State, seat: string) returns (d: nat)
    requires WF(s) && !SwitchedTo(w, s, seat)
    ensures Serves(SyncOne(w, s, seat), seat, d)
  {
    var (s1, sessionType) := SeatAsked(w, s, seat);
    CreatesIff(w, s1, seat, sessionType, seat == "seat0");
    hide WF, CreateDisplay;
    if e :| Blocks(w, s1, seat, e) {
      d := e;
    } else {
      d := |s.displays|;
    }
  }

  /** On a seat that never holds two sessions a stored display, finished or not, keeps synchronising from making another. */
  lemma OccupiedSeatBlocked(w: World, evs: seq<Event>, seat: string, d: nat)
    ensures
      var s := Run(w, INITIAL, evs);
      var t := SyncSeats(w, s);
      Serves(s, seat, d) && !Shareable(w, seat) ==>
        forall i :: |s.displays| <= i < |t.displays| ==> t.displays[i].seat != Some(seat)
  {
    var s := Run(w, INITIAL, evs);
    RunKeeps(w, evs);
    hide Run;
    if Serves(s, seat, d) && !Shareable(w, seat) {
      forall i | |s.displays| <= i < |SyncSeats(w, s).displays|
        ensures SyncSeats(w, s).displays[i].seat != Some(seat)
      {
        StandsInTheWay(w, s, seat, d, i);
      }
    }
  }

  /**
   So a logout makes no login screen there: the end of a user's display asks for
   one at once, while the display that ends is still stored and stands in the way.
   */
  lemma LogoutBlocked(w: World, evs: seq<Event>, seat: string, d: nat)
    ensures
      var s := Run(w, INITIAL, evs);
      Serves(s, seat, d) && !Shareable(w, seat) && EndsSession(s.displays[d]) ==>
        var t := Finish(w, s, d);
        forall i :: |s.displays| <= i < |t.displays| ==> t.displays[i].seat != Some(seat)
  {
    var s := Run(w, INITIAL, evs);
    RunKeeps(w, evs);
    hide Run;
    if Serves(s, seat, d) && !Shareable(w, seat) && EndsSession(s.displays[d]) {
      FinishMeans(w, s, d);
      EndKeeps(w, s, d);
      var u := ResetAfter(AsEnded(s, d));
      forall i | |s.displays| <= i < |Finish(w, s, d).displays|
        ensures Finish(w, s, d).displays[i].seat != Some(seat)
      {
        StandsInTheWay(w, u, seat, d, i);
      }
    }
  }

  lemma EndKeeps(w: World, s: State, d: nat)
    requires Inv(w, s, -1) && d < |s.displays| && s.displays[d].status != Finished
    ensures WF(s) && Inv(w, ResetAfter(AsEnded(s, d)), -1)
    ensures var u := ResetAfter(AsEnded(s, d));
            u.store == s.store && |u.displays| == |s.displays| && u.displays[d].seat == s.displays[d].seat
  {
    TouchKeeps(w, s, Unqueued(s, d), d, -1);
    StatusKeeps(w, Unqueued(s, d), d, Finished);
    ReleaseKeeps(w, WithStatus(Unqueued(s, d), d, Finished), d);
    ResetKeeps(w, AsEnded(s, d));
  }

  lemma StandsInTheWay(w: World, s: State, seat: string, d: nat, i: nat)
    requires Inv(w, s, -1) && Serves(s, seat, d) && !Shareable(w, seat)
    requires |s.displays| <= i < |SyncSeats(w, s).displays|
    ensures SyncSeats(w, s).displays[i].seat != Some(seat)
  {
    SyncSeatsKeeps(w, s);
    var seats := w.seats(s.tick);
    hide SyncEach, Inv;
    if seats.Some? {
      var t := SyncEach(w, Asked(s), seats.value);
      StillServes(Asked(s), t, |seats.value|, seat, d);
      var k := |s.store| + (i - |s.displays|);
      assert t.store[k] == i;
      TwoOnOneSeat(w, t, d, i);
    }
  }
}
