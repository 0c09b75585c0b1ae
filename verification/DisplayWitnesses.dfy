/**
 Runs that show where the code falls short of a promise: why display numbers
 need their conditions, and that a logout can leave a seat without a login
 screen. Every event of these runs can be received where it comes.
 */
module DisplayWitnesses {
  import opened Basics
  import opened DisplayNumbers
  import opened DisplayEngine
  import opened DisplayEvents
  import opened DisplayInvariant
  import opened DisplaySeats
  import opened DisplayScreens
  import opened DisplayTheorems

  /** A world in which nothing fails, seats hold one session and nobody is logged in. */
  ghost predicate IsCalm(w: World) {
    && !w.userServer
    && (forall t, q :: !w.multi(t, q) && w.login(t, q) == None)
    && (forall t :: !w.initialSetup(t) && w.authority(t) && w.serverStarts(t) && w.greeterUser(t))
  }

  /** Such a world, in which logind lists some seats. */
  function Calm(seats: seq<string>): World {
    World(false, false, 1, (t: nat, q: string) => false, (t: nat, q: string) => None, (t: nat) => Some(seats),
          (t: nat) => 0, (t: nat, q: string) => false, (t: nat) => false, (t: nat) => false,
          (t: nat) => true, (t: nat) => true, (t: nat) => true)
  }

  /** Any seat but the first, which alone may have a display server of its own. */
  predicate Secondary(seat: string) {
    seat != "seat0"
  }

  /** A new seat without a display gets one with the least free number. */
  lemma CalmSeat(w: World, s: State, seat: string)
    requires IsCalm(w) && WF(s) && Secondary(seat)
    requires forall k :: 0 <= k < |s.store| ==> s.displays[s.store[k]].seat != Some(seat)
    ensures
      var t := CreateDisplay(w, s, seat, None, false);
      var num := LeastFree(s.used) % U32;
      && t.displays == s.displays + [NewDisplay(LegacyX, seat, num, Greeter, None, false, None).(status := Prepared)]
      && t.store == s.store + [|s.displays|] && t.used == s.used + {num} && t.numFailures == s.numFailures
  {
    assert LoginWindow(w, Asked(s), seat).None?;
    forall d: nat ensures !Blocks(w, s, seat, d) {
      if d in s.store {
        var k :| 0 <= k < |s.store| && s.store[k] == d;
      }
    }
    hide WF, Grows, Cascades, Stored, CreateDisplay, LeastFree, LoginWindow, Blocks;
    XScreenComesUp(w, s, seat, None, false);
  }

  /** A greeter's display fails and is not replaced on its own seat. */
  lemma CalmFailure(w: World, s: State, d: nat)
    requires IsCalm(w) && WF(s) && d < |s.displays| && d in s.store && s.displays[d].status != Failed && !s.displays[d].registered
    ensures
      var t := Unmanage(w, s, d);
      && t.displays == WithStatus(s, d, Failed).displays && t.store == s.store && t.used == s.used
      && t.numFailures <= s.numFailures + 1
  {
    var s1 := WithStatus(s, d, Failed);
    assert WF(s1);
    if s.displays[d].IsLocal() {
      FailureBlocksItself(w, s1, d);
    } else {
      assert FactoryHandler(w, s1, d) == OnFailed(w, s1, d);
    }
    hide WF, Grows, Cascades, Stored, FactoryHandler;
    assert ManagerHandler(w, s1, d) == s1;
    assert Notify(w, s1, d) == FactoryHandler(w, s1, d);
    assert SetStatus(w, s, d, Failed) == Notify(w, s1, d);
  }

  // ---- steps of a calm run ---------------------------------------------------

  ghost predicate Reaches(w: World, evs: seq<Event>, s: State) {
    Received(w, evs) && s == Run(w, INITIAL, evs)
  }

  lemma Take(w: World, evs: seq<Event>, s: State, ev: Event)
    requires Reaches(w, evs, s) && CanCome(s, ev)
    ensures WF(s) && Reaches(w, evs + [ev], Step(w, s, ev))
  {
    assert (evs + [ev])[..|evs|] == evs;
    hide Step, WF, Outlives, CanCome;
  }

  /** A display just made for a seat, on number 0. */
  function OnZero(seat: string): Display {
    NewDisplay(LegacyX, seat, 0, Greeter, None, false, None).(status := Prepared)
  }

  /** A seat that comes while no number is reserved gets number 0. */
  lemma SeatComes(w: World, s: State, seat: string)
    requires IsCalm(w) && WF(s) && Secondary(seat) && s.used == {}
    requires forall k :: 0 <= k < |s.store| ==> s.displays[s.store[k]].seat != Some(seat)
    ensures var t := Step(w, s, SeatNew(seat));
            t.displays == s.displays + [OnZero(seat)] && t.store == s.store + [|s.displays|] && t.used == {0}
  {
    CalmSeat(w, s, seat);
    LeastFreeUnique(s.used, 0);
    hide WF, CreateDisplay, IsCalm, LeastFree;
  }

  /** The server of a prepared display answers: the display is managed and gets a session. */
  lemma ServerAnswers(w: World, s: State, d: nat)
    requires IsCalm(w) && WF(s) && d < |s.displays| && d in s.store
    requires s.displays[d].number >= 0 && s.displays[d].cls == Greeter
    ensures
      var t := Step(w, s, ServerReady(d, true));
      && t.displays == s.displays[d := s.displays[d].(status := Managed, hasSession := true)]
      && t.store == s.store && t.used == s.used
  {
    var v := WithStatus(s, d, Managed);
    assert WF(v);
    var u := WithSession(Asked(v), d);
    hide WF, Grows, Cascades, Stored;
    assert ManagerHandler(w, v, d) == u;
    assert FactoryHandler(w, u, d) == u;
    assert SetStatusProperty(w, s, d, Managed) == Notify(w, v, d);
    hide SetStatusProperty;
  }

  /** A numbered greeter's display with a session that can end. */
  ghost predicate CanEnd(e: Display) {
    e.hasSession && e.status != Failed && e.cls == Greeter && !e.registered && e.number >= 0
  }

  lemma SessionEnds(w: World, s: State, d: nat)
    requires IsCalm(w) && WF(s) && d < |s.displays| && d in s.store && CanEnd(s.displays[d])
    ensures
      var t := Step(w, s, SessionEnded(d));
      && |t.displays| == |s.displays| && CanEnd(t.displays[d])
      && t.displays[d].seat == s.displays[d].seat && t.displays[d].number == s.displays[d].number
      && (forall i :: 0 <= i < |s.displays| && i != d ==> t.displays[i] == s.displays[i])
      && t.store == s.store && t.used == s.used - {s.displays[d].number}
  {
    CalmFailure(w, s, d);
    FinishMeans(w, Unmanage(w, s, d), d);
    hide WF, Unmanage, Finish, Taken, Grows, Cascades;
  }

  lemma NothingYet(w: World)
    ensures Reaches(w, [], INITIAL)
  {
  }

  // ---- numbers that are shared -----------------------------------------------

  /** The first display is on number 0 and can end. */
  ghost predicate FirstCanEnd(s: State, a: string) {
    |s.displays| > 0 && CanEnd(s.displays[0]) && s.displays[0].seat == Some(a) && s.displays[0].number == 0
  }

  lemma FirstManaged(w: World, a: string) returns (s: State)
    requires IsCalm(w) && Secondary(a)
    ensures Reaches(w, [SeatNew(a), ServerReady(0, true)], s)
    ensures FirstCanEnd(s, a) && s.displays == [OnZero(a).(status := Managed, hasSession := true)]
    ensures s.store == [0] && s.used == {0}
  {
    NothingYet(w);
    hide Reaches, IsCalm, Secondary, Step, WF;
    Take(w, [], INITIAL, SeatNew(a));
    SeatComes(w, INITIAL, a);
    s := Step(w, INITIAL, SeatNew(a));
    assert [] + [SeatNew(a)] == [SeatNew(a)];
    Take(w, [SeatNew(a)], s, ServerReady(0, true));
    ServerAnswers(w, s, 0);
    s := Step(w, s, ServerReady(0, true));
    assert [SeatNew(a)] + [ServerReady(0, true)] == [SeatNew(a), ServerReady(0, true)];
  }

  /** The first session ends, and the next seat gets the number that this frees. */
  lemma NumberReused(w: World, a: string, b: string) returns (s: State)
    requires IsCalm(w) && Secondary(a) && Secondary(b) && a != b
    ensures Reaches(w, [SeatNew(a), ServerReady(0, true), SessionEnded(0), SeatNew(b)], s)
    ensures FirstCanEnd(s, a) && |s.displays| == 2 && s.displays[1] == OnZero(b) && s.store == [0, 1] && s.used == {0}
  {
    hide Reaches, IsCalm, Secondary, Step, WF;
    var evs := [SeatNew(a), ServerReady(0, true)];
    var s0 := FirstManaged(w, a);
    Take(w, evs, s0, SessionEnded(0));
    SessionEnds(w, s0, 0);
    var s1 := Step(w, s0, SessionEnded(0));
    Take(w, evs + [SessionEnded(0)], s1, SeatNew(b));
    SeatComes(w, s1, b);
    s := Step(w, s1, SeatNew(b));
    assert s.displays[0] == s1.displays[0];
    assert evs + [SessionEnded(0)] + [SeatNew(b)] == [SeatNew(a), ServerReady(0, true), SessionEnded(0), SeatNew(b)];
  }

  /**
   A display that ends twice gives its number away. Two conversations of one
   login each fail to open its session, and each answers with
   session-start-failed; the second answer comes before the idle purge has
   removed the display. By then its number belongs to another display, and the
   next seat is given it once more.
   */
  lemma EndingTwiceSharesNumber(w: World, a: string, b: string, c: string)
    requires IsCalm(w) && Secondary(a) && Secondary(b) && Secondary(c) && a != b && c != a && c != b
    ensures
      var evs := [SeatNew(a), ServerReady(0, true), SessionEnded(0), SeatNew(b), SessionEnded(0), SeatNew(c)];
      var s := Run(w, INITIAL, evs);
      && Received(w, evs)
      && |s.displays| == 3 && Live(s.displays[1]) && Live(s.displays[2])
      && s.displays[1].number == 0 && s.displays[2].number == 0 && !Numbers(s)
  {
    hide IsCalm, Secondary, Reaches, Run, Received, WF, CanEnd, Outlives, Step, CanCome;
    var evs := [SeatNew(a), ServerReady(0, true), SessionEnded(0), SeatNew(b)];
    var s := NumberReused(w, a, b);
    SessionCanEnd(s, 0);
    Take(w, evs, s, SessionEnded(0));
    SessionEnds(w, s, 0);
    var t := Step(w, s, SessionEnded(0));
    SeatCanCome(t, c);
    Take(w, evs + [SessionEnded(0)], t, SeatNew(c));
    SeatComes(w, t, c);
    var u := Step(w, t, SeatNew(c));
    LongRun(SeatNew(a), ServerReady(0, true), SessionEnded(0), SeatNew(b), SessionEnded(0), SeatNew(c));
    AtLast(w, evs + [SessionEnded(0)] + [SeatNew(c)], u);
    assert u.displays[1] == t.displays[1];
  }

  lemma LongRun(a: Event, b: Event, c: Event, d: Event, e: Event, f: Event)
    ensures [a, b, c, d] + [e] + [f] == [a, b, c, d, e, f]
    ensures [a, b] + [c] + [d] + [e] == [a, b, c, d, e]
  {
  }

  lemma AtLast(w: World, evs: seq<Event>, s: State)
    requires Reaches(w, evs, s)
    ensures Received(w, evs) && s == Run(w, INITIAL, evs)
  {
  }

  lemma SessionCanEnd(s: State, d: nat)
    requires d < |s.displays| && CanEnd(s.displays[d])
    ensures CanCome(s, SessionEnded(d))
  {
  }

  lemma SeatCanCome(s: State, seat: string)
    ensures CanCome(s, SeatNew(seat))
  {
  }

  /** The first display comes over XDMCP, on number 0, which nobody reserves. */
  lemma RemoteComes(w: World)
    ensures CanCome(INITIAL, RemoteAdded(0))
    ensures
      var t := Step(w, INITIAL, RemoteAdded(0));
      WF(t) && t.displays == [NewRemote(0)] && t.store == [0] && t.used == {}
  {
  }

  lemma RemoteManaged(w: World) returns (s: State)
    requires IsCalm(w)
    ensures Reaches(w, [RemoteAdded(0), ServerReady(0, true)], s)
    ensures |s.displays| == 1 && CanEnd(s.displays[0]) && s.displays[0].number == 0 && s.displays[0].seat == None
    ensures s.store == [0] && s.used == {}
  {
    NothingYet(w);
    RemoteComes(w);
    var s0 := Step(w, INITIAL, RemoteAdded(0));
    hide Reaches, IsCalm, Step, WF, Outlives;
    Take(w, [], INITIAL, RemoteAdded(0));
    assert [] + [RemoteAdded(0)] == [RemoteAdded(0)];
    Take(w, [RemoteAdded(0)], s0, ServerReady(0, true));
    ServerAnswers(w, s0, 0);
    s := Step(w, s0, ServerReady(0, true));
    assert [RemoteAdded(0)] + [ServerReady(0, true)] == [RemoteAdded(0), ServerReady(0, true)];
  }

  /** A managed remote display on number 0 with a session, and a local one on the same number. */
  lemma RemoteAndLocal(w: World, a: string) returns (s: State)
    requires IsCalm(w) && Secondary(a)
    ensures Reaches(w, [RemoteAdded(0), ServerReady(0, true), SeatNew(a)], s)
    ensures |s.displays| == 2 && CanEnd(s.displays[0]) && s.displays[0].number == 0
    ensures s.displays[1] == OnZero(a) && s.store == [0, 1] && s.used == {0}
  {
    hide Reaches, IsCalm, Secondary, Step, WF, Outlives, CanEnd, CanCome;
    var evs := [RemoteAdded(0), ServerReady(0, true)];
    var s1 := RemoteManaged(w);
    SeatCanCome(s1, a);
    Take(w, evs, s1, SeatNew(a));
    SeatComes(w, s1, a);
    s := Step(w, s1, SeatNew(a));
    assert s.displays[0] == s1.displays[0];
    assert evs + [SeatNew(a)] == [RemoteAdded(0), ServerReady(0, true), SeatNew(a)];
  }

  /** A remote display's number reaches the same release: its end frees the number of a live local display. */
  lemma RemoteEndFreesLocalNumber(w: World, a: string)
    requires IsCalm(w) && Secondary(a)
    ensures
      var evs := [RemoteAdded(0), ServerReady(0, true), SeatNew(a), SessionEnded(0)];
      var s := Run(w, INITIAL, evs);
      && Received(w, evs)
      && |s.displays| == 2 && Live(s.displays[1]) && s.displays[1].number == 0 && 0 !in s.used && !Numbers(s)
  {
    hide IsCalm, Secondary, Reaches, Run, Received, WF, Step;
    var evs := [RemoteAdded(0), ServerReady(0, true), SeatNew(a)];
    var s := RemoteAndLocal(w, a);
    Take(w, evs, s, SessionEnded(0));
    SessionEnds(w, s, 0);
    var t := Step(w, s, SessionEnded(0));
    assert evs + [SessionEnded(0)] == [RemoteAdded(0), ServerReady(0, true), SeatNew(a), SessionEnded(0)];
    AtLast(w, evs + [SessionEnded(0)], t);
    assert t.displays[1] == s.displays[1];
  }

  // ---- a seat without a login screen -------------------------------------------

  /** One display, the only stored one, used by a user on its own X server. */
  ghost predicate OneUser(s: State, seat: string) {
    && |s.displays| == 1 && s.store == [0]
    && s.displays[0].kind == LegacyX && s.displays[0].cls == User && s.displays[0].seat == Some(seat)
    && s.displays[0].status != Finished && !s.displays[0].registered
  }

  lemma SyncOccupied(w: World, s: State, seat: string)
    requires IsCalm(w) && WF(s) && Secondary(seat) && Serves(s, seat, 0)
    requires w.seats(s.tick) == Some([seat])
    ensures SyncSeats(w, s).displays == s.displays && SyncSeats(w, s).store == s.store
    ensures SyncSeats(w, s).purgePending == s.purgePending
  {
    var s1 := Asked(s);
    assert Blocks(w, s1, seat, 0);
    var k :| 0 <= k < |s.store| && s.store[k] == 0;
    assert OnSeat(seat)(s1.displays[s1.store[k]]);
    hide WF, Grows, Cascades, Stored;
    assert Find(Asked(s1), OnSeat(seat)).Some?;
    assert CreateDisplay(w, s1, seat, None, false) == Asked(s1);
    assert SeatAsked(w, s1, seat) == (s1, None);
    assert [seat][1..] == [];
    assert SyncEach(w, s1, [seat]) == SyncEach(w, Asked(s1), []);
  }

  lemma UserFinishes(w: World, s: State, seat: string)
    requires IsCalm(w) && WF(s) && Secondary(seat) && OneUser(s, seat)
    requires forall t :: w.seats(t) == Some([seat])
    ensures OneFinished(Finish(w, s, 0))
  {
    FinishMeans(w, s, 0);
    var t := ResetAfter(AsEnded(s, 0));
    assert Serves(t, seat, 0) && t.purgePending && t.displays[0].status == Finished && t.store == [0];
    SyncOccupied(w, t, seat);
    hide WF, Finish, SyncSeats, Taken, AsEnded;
  }

  /** The one display has finished and waits for the purge. */
  ghost predicate OneFinished(s: State) {
    |s.displays| == 1 && s.store == [0] && s.displays[0].status == Finished && s.purgePending
  }

  lemma UserLogsOut(w: World, s: State, seat: string)
    requires IsCalm(w) && WF(s) && Secondary(seat) && OneUser(s, seat) && s.displays[0].status != Failed
    requires forall t :: w.seats(t) == Some([seat])
    ensures OneFinished(Step(w, s, SessionEnded(0)))
  {
    CalmFailure(w, s, 0);
    hide WF, Grows, Cascades, Stored, Finish, Unmanage;
    UserFinishes(w, Unmanage(w, s, 0), seat);
  }

  lemma PurgedEmpty(w: World, s: State)
    requires WF(s) && OneFinished(s)
    ensures var t := Step(w, s, PurgeIdle); t.store == [] && |t.displays| == 1 && !t.purgePending
  {
    var t := s.(purgePending := false);
    assert 0 in DeadOnes(t);
    assert Without([0], DeadOnes(t)) == [];
  }

  lemma UserTakesOver(w: World, s: State, seat: string, session: string)
    requires WF(s) && s.displays == [OnZero(seat).(status := Managed, hasSession := true)] && s.store == [0]
    ensures var t := Step(w, s, SessionReusesDisplay(0, session));
            OneUser(t, seat) && t.displays[0].status == Managed && t.displays[0].hasSession
  {
    hide WF;
  }

  /**
   The only display of a seat is used by a user, who logs out: the seat is
   synchronised, the purge runs, and in the end the seat has no display and none
   is on its way.
   */
  lemma LogoutLeavesSeatEmpty(w: World, seat: string, session: string)
    requires IsCalm(w) && Secondary(seat) && forall t :: w.seats(t) == Some([seat])
    ensures
      var evs := [SeatNew(seat), ServerReady(0, true), SessionReusesDisplay(0, session), SessionEnded(0), PurgeIdle];
      var s := Run(w, INITIAL, evs);
      Received(w, evs) && s.store == [] && |s.displays| == 1 && !s.purgePending
  {
    hide IsCalm, Secondary, Reaches, Run, Received, WF, Step, Outlives;
    var evs1 := [SeatNew(seat), ServerReady(0, true)];
    var evs2 := evs1 + [SessionReusesDisplay(0, session)];
    var evs3 := evs2 + [SessionEnded(0)];
    var s1 := FirstManaged(w, seat);
    Take(w, evs1, s1, SessionReusesDisplay(0, session));
    UserTakesOver(w, s1, seat, session);
    var s2 := Step(w, s1, SessionReusesDisplay(0, session));
    Take(w, evs2, s2, SessionEnded(0));
    UserLogsOut(w, s2, seat);
    var s3 := Step(w, s2, SessionEnded(0));
    Take(w, evs3, s3, PurgeIdle);
    PurgedEmpty(w, s3);
    LongRun(SeatNew(seat), ServerReady(0, true), SessionReusesDisplay(0, session), SessionEnded(0), PurgeIdle, PurgeIdle);
    AtLast(w, evs3 + [PurgeIdle], Step(w, s3, PurgeIdle));
  }

  lemma CalmExists(seats: seq<string>)
    ensures IsCalm(Calm(seats)) && forall t :: Calm(seats).seats(t) == Some(seats)
  {
  }
}
