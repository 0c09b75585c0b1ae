/**
 What each event comes to, in every state, told by the displays, the store and
 the reserved numbers before and after it.
 */
module DisplaySignals {
  import opened Basics
  import opened DisplayNumbers
  import opened DisplayEngine
  import opened DisplayEvents
  import opened DisplayInvariant
  import opened DisplayCascade
  import opened DisplayTheorems
  import opened DisplayFailures
  import opened DisplayAnswers
  import opened DisplaySeats

  // ---- displays that leave and come ---------------------------------------------

  lemma RemovalMeans(s: State, gone: set<nat>, d: nat)
    requires WF(s)
    ensures
      var t := StoreRemove(s, gone);
      && t == s.(store := t.store, log := t.log) && s.log <= t.log
      && (d in t.store <==> d in s.store && d !in gone)
      && (Removed(d) in t.log[|s.log|..] <==> d in s.store && d in gone)
  {
    RemovalsNamed(s.store, gone, d);
    var t := StoreRemove(s, gone);
    assert t.log[|s.log|..] == Removals(s.store, gone);
  }

  /**
   When a seat goes away its displays leave the store, whatever their status,
   and no others do; each removal is announced. Displays, numbers and the count
   of failures stay, and nothing on the seat is in the way of a new display.
   */
  lemma SeatRemovedTakesItsOwn(w: World, s: State, seat: string, d: nat)
    requires WF(s)
    ensures
      var t := Step(w, s, SeatRemoved(seat));
      && t == s.(store := t.store, log := t.log) && s.log <= t.log
      && (d in t.store <==> d in s.store && s.displays[d].seat != Some(seat))
      && (Removed(d) in t.log[|s.log|..] <==> d in s.store && s.displays[d].seat == Some(seat))
      && !Blocks(w, t, seat, d)
  {
    RemovalMeans(s, Chosen(s, OnSeat(seat)), d);
  }

  /** The purge runs while it is pending, and clears the mark. */
  lemma PurgeIdleTakesTheDead(w: World, s: State, d: nat)
    requires WF(s)
    ensures
      var t := Step(w, s, PurgeIdle);
      if !s.purgePending then t == s
      else
        && t == s.(store := t.store, log := t.log, purgePending := false)
        && (d in t.store <==> d in s.store && !s.displays[d].Dead())
  {
    PurgeTakesTheDead(s, d);
  }

  /** The XDMCP factory's purge takes the dead at once, and leaves the other's pending. */
  lemma RemotePurgeTakesTheDead(w: World, s: State, d: nat)
    requires WF(s)
    ensures
      var t := Step(w, s, RemotePurge);
      && t == s.(store := t.store, log := t.log)
      && (d in t.store <==> d in s.store && !s.displays[d].Dead())
      && (Removed(d) in t.log[|s.log|..] <==> d in s.store && s.displays[d].Dead())
  {
    RemovalMeans(s, DeadOnes(s), d);
  }

  /** A remote display is stored, prepared, with its number but without reserving it. */
  lemma RemoteAddedStored(w: World, s: State, n: nat)
    requires WF(s)
    ensures
      Step(w, s, RemoteAdded(n)) ==
      s.(displays := s.displays + [Display(Remote, None, n, Greeter, None, false, Prepared, false, None, false, false,
                                           false, false, 0, 0)],
         store := s.store + [|s.displays|], log := s.log + [Added(|s.displays|)])
  {
  }

  // ---- the server of a display ----------------------------------------------------

  /** When its X server answers, or its greeter registers it, a display turns managed. */
  lemma ServerUp(w: World, s: State, d: nat, ev: Event)
    requires WF(s) && d < |s.displays| && (ev == ServerReady(d, true) || ev == RegisterDisplay(d))
    ensures TurnsManaged(w, s, Step(w, s, ev), d, w.greeterUser(s.tick))
  {
    ManagedTold(w, s, d);
    hide WF, Grows, Cascades, Stored, SetStatusProperty, TurnsManaged;
    assert Step(w, s, ev) == SetStatusProperty(w, s, d, Managed);
  }

  /** When the server is lost or does not answer, a registered session leaves UNMANAGED and any other FAILED. */
  lemma ServerLost(w: World, s: State, d: nat, ev: Event)
    requires WF(s) && d < |s.displays| && (ev == ServerReady(d, false) || ev == ServerGone(d))
    ensures
      var e, t := s.displays[d], Step(w, s, ev);
      var f := e.(status := if e.registered then Unmanaged else Failed);
      && Spares(w, s, t, d)
      && if e.registered || e.status == Failed || d !in s.store then Settled(s, t, d, f)
         else t.displays[d] == f && t.purgePending && (e.IsLocal() ==> t.numFailures > s.numFailures)
  {
    UnmanageMeans(w, s, d);
    UnmanageSpares(w, s, d);
    hide WF, Unmanage, Spares, Settled;
    assert Step(w, s, ev) == Unmanage(w, s, d);
  }

  // ---- the session of a display ---------------------------------------------------

  /**
   A greeter that stops takes its managed display down and always has the
   display finished later, unless it has finished already.
   */
  lemma GreeterStoppedMeans(w: World, s: State, d: nat)
    requires WF(s) && d < |s.displays|
    ensures
      var e, t := s.displays[d], Step(w, s, GreeterStopped(d));
      var f := e.(status := if e.registered then Unmanaged else Failed, finishQueued := true);
      if e.status == Finished then t == s
      else if e.status != Managed then Settled(s, t, d, e.(finishQueued := true))
      else if e.registered || d !in s.store then Settled(s, t, d, f)
      else t.displays[d] == f && t.purgePending && (e.IsLocal() ==> t.numFailures > s.numFailures)
  {
    hide WF, Grows, Cascades, Stored, Settled, SelfDestruct;
    if s.displays[d].status == Managed {
      ManagedStops(w, s, d);
    } else {
      OtherStops(w, s, d);
    }
    assert Step(w, s, GreeterStopped(d)) == SelfDestruct(w, s, d);
  }

  lemma ManagedStops(w: World, s: State, d: nat)
    requires WF(s) && d < |s.displays| && s.displays[d].status == Managed
    ensures
      var e, t := s.displays[d], SelfDestruct(w, s, d);
      var f := e.(status := if e.registered then Unmanaged else Failed, finishQueued := true);
      if e.registered || d !in s.store then Settled(s, t, d, f)
      else t.displays[d] == f && t.purgePending && (e.IsLocal() ==> t.numFailures > s.numFailures)
  {
    hide WF, Grows, Cascades, Stored, Unmanage, SelfDestruct, Spared;
    UnmanageMeans(w, s, d);
    UnmanageSpares(w, s, d);
    FinishQueued(w, s, d, Unmanage(w, s, d));
  }

  lemma OtherStops(w: World, s: State, d: nat)
    requires WF(s) && d < |s.displays| && s.displays[d].status != Managed
    ensures
      var e, t := s.displays[d], SelfDestruct(w, s, d);
      if e.status == Finished then t == s else Settled(s, t, d, e.(finishQueued := true))
  {
    hide WF, Grows, Cascades, Stored, Unmanage;
  }

  lemma FinishQueued(w: World, s: State, d: nat, u: State)
    requires WF(s) && d < |s.displays| <= |u.displays| && s.displays[d].status == Managed && u == Unmanage(w, s, d)
    requires u.displays[d].status != Finished
    ensures
      var t := SelfDestruct(w, s, d);
      && t == u.(displays := u.displays[d := u.displays[d].(finishQueued := true)])
      && forall e :: Settled(s, u, d, e) ==> Settled(s, t, d, e.(finishQueued := true))
  {
    hide WF, Grows, Cascades, Stored, Unmanage;
  }

  /** Its greeter's or a user's session comes to a display. */
  lemma SessionComes(w: World, s: State, d: nat, session: string)
    requires WF(s) && d < |s.displays|
    ensures var e := s.displays[d];
            && Settled(s, Step(w, s, GreeterOpened(d, session)), d, e.(sessionId := Some(session)))
            && Settled(s, Step(w, s, SessionReusesDisplay(d, session)), d, e.(cls := User, sessionId := Some(session)))
  {
  }

  /**
   The end of a display: it has finished, no finish is queued, and once it was
   stored the purge is. Nothing but a user's end touches other displays, and any
   other end gives the number back and does no more.
   */
  lemma EndMeans(w: World, s: State, d: nat)
    requires WF(s) && d < |s.displays|
    ensures
      var e, t := s.displays[d], Finish(w, s, d);
      && t.displays[d].status == Finished && !t.displays[d].finishQueued
      && Spares(w, s, t, d)
      && (d in s.store && e.status != Finished ==>
            t.purgePending && (!EndsSession(e) ==> EndsQuietly(s, t, d, e)))
      && (d !in s.store || e.status == Finished ==> t.used == s.used && OnlyOne(s, t, d))
  {
    FinishMeans(w, s, d);
    EndedOne(s, d);
    var u := ResetAfter(AsEnded(s, d));
    SyncSpares(w, u);
    hide WF, Grows, Cascades, Stored, Finish, SyncSeats, AsEnded;
  }

  lemma EndedOne(s: State, d: nat)
    requires WF(s) && d < |s.displays|
    ensures OnlyOne(s, AsEnded(s, d), d) && OnlyOne(s, Unqueued(s, d), d) && OnlyOne(s, WithStatus(Unqueued(s, d), d, Finished), d)
    ensures EndsQuietly(s, AsEnded(s, d), d, s.displays[d])
  {
    hide Taken, Grows, Cascades, Stored;
  }

  /** A queued finish ends the display; without one nothing happens. */
  lemma FinishIdleMeans(w: World, s: State, d: nat)
    requires WF(s) && d < |s.displays|
    ensures
      var t := Step(w, s, FinishIdle(d));
      if !s.displays[d].finishQueued then t == s
      else t.displays[d].status == Finished && !t.displays[d].finishQueued && Spares(w, s, t, d)
  {
    EndMeans(w, s, d);
    hide WF, Finish, Spares;
    assert Step(w, s, FinishIdle(d)) == if s.displays[d].finishQueued then Finish(w, s, d) else s;
  }

  /**
   The end of a session takes its display down, even one that has ended before:
   it has finished, and once it was stored the purge is queued. A stored greeter's
   display gives its number back, and the end counts as a failure exactly when its
   session had not registered nor failed.
   */
  lemma SessionEndedMeans(w: World, s: State, d: nat)
    requires WF(s) && d < |s.displays|
    ensures
      var t := Step(w, s, SessionEnded(d));
      && t.displays[d].status == Finished && !t.displays[d].finishQueued && Spares(w, s, t, d)
      && (d in s.store ==> t.purgePending)
      && (d in s.store && (s.displays[d].IsLocal() ==> s.displays[d].cls == Greeter) ==>
            GivenUp(s, t, d))
  {
    DropMeans(w, s, d);
    hide WF, Drop, Spares;
    assert Step(w, s, SessionEnded(d)) == Drop(w, s, d);
  }

  /** The display's number is free, and its end was a failure if its session had not registered nor failed. */
  ghost predicate GivenUp(s: State, t: State, d: nat)
    requires d < |s.displays|
  {
    var e := s.displays[d];
    && (forall n: nat :: n in t.used ==> n != e.number)
    && (if e.registered || e.status == Failed then t.numFailures == s.numFailures
        else e.IsLocal() ==> t.numFailures > s.numFailures)
  }

  lemma DropMeans(w: World, s: State, d: nat)
    requires WF(s) && d < |s.displays|
    ensures
      var t := Drop(w, s, d);
      && t.displays[d].status == Finished && !t.displays[d].finishQueued && Spares(w, s, t, d)
      && (d in s.store ==> t.purgePending)
      && (d in s.store && (s.displays[d].IsLocal() ==> s.displays[d].cls == Greeter) ==>
            GivenUp(s, t, d))
  {
    var t := Unmanage(w, s, d);
    UnmanageMeans(w, s, d);
    UnmanageSpares(w, s, d);
    if d in s.store {
      StaysStored(s, t, d);
    }
    EndMeans(w, t, d);
    hide WF, Grows, Cascades, Unmanage, Finish, Spared;
    assert Drop(w, s, d) == Finish(w, t, d);
    SparesThen(w, s, t, Drop(w, s, d), d);
    hide Spares;
  }

  lemma StaysStored(s: State, t: State, d: nat)
    requires Cascades(s, t, 0) && d in s.store
    ensures d in t.store
  {
    var k :| 0 <= k < |s.store| && s.store[k] == d;
    assert t.store[k] == d;
  }

  /** A display that was waiting, if it was asked to end, has ended or was switched to; any other is spared. */
  ghost predicate AfterWait(w: World, asked: bool, a: Display, b: Display) {
    if asked && a.status == WaitingToFinish then b.status == Finished || (HasWindows(w) && b.status == Managed)
    else Spared(w, a, b)
  }

  lemma {:induction false} WaitingEnd(w: World, s: State, ids: seq<nat>)
    requires WF(s) && forall k :: 0 <= k < |ids| ==> ids[k] < |s.displays|
    ensures
      var t := FinishWaiting(w, s, ids);
      && |s.displays| <= |t.displays| && t.waitArmed == s.waitArmed
      && forall i :: 0 <= i < |s.displays| ==> AfterWait(w, i in ids, s.displays[i], t.displays[i])
    decreases |ids|
  {
    if ids != [] {
      var d := ids[0];
      FirstWaits(w, s, d);
      var u := FinishIfWaiting(w, s, d);
      WaitingEnd(w, u, ids[1..]);
      hide WF, FinishIfWaiting, FirstEnds, AfterWait;
      var t := FinishWaiting(w, u, ids[1..]);
      forall i | 0 <= i < |s.displays| ensures AfterWait(w, i in ids, s.displays[i], t.displays[i]) {
        OneMoreWait(w, i == d, i in ids[1..], s.displays[i], u.displays[i], t.displays[i]);
      }
    }
  }

  /** What becomes of a display while the first waiting one is taken down. */
  ghost predicate FirstEnds(w: World, first: bool, a: Display, b: Display) {
    if !first then Spared(w, a, b) else if a.status == WaitingToFinish then b.status == Finished else b == a
  }

  lemma FirstWaits(w: World, s: State, d: nat)
    requires WF(s) && d < |s.displays|
    ensures
      var u := FinishIfWaiting(w, s, d);
      && |s.displays| <= |u.displays| && u.waitArmed == s.waitArmed
      && forall i :: 0 <= i < |s.displays| ==> FirstEnds(w, i == d, s.displays[i], u.displays[i])
  {
    DropMeans(w, s, d);
    hide WF, Drop;
  }

  lemma OneMoreWait(w: World, first: bool, later: bool, a: Display, b: Display, c: Display)
    requires FirstEnds(w, first, a, b) && AfterWait(w, later, b, c)
    ensures AfterWait(w, first || later, a, c)
  {
  }

  /** When the timer runs out every stored display that waits is finished, and the timer is spent. */
  lemma TimeoutFinishesWaiting(w: World, s: State, d: nat)
    requires WF(s) && d < |s.displays|
    ensures
      var t := Step(w, s, WaitTimeout);
      if !s.waitArmed then t == s
      else !t.waitArmed && AfterWait(w, d in s.store, s.displays[d], t.displays[d])
  {
    if s.waitArmed {
      var u := s.(waitArmed := false);
      StoredOnes(s);
      WaitingEnd(w, u, s.store);
      hide WF, FinishWaiting, AfterWait;
      assert Step(w, s, WaitTimeout) == FinishWaiting(w, u, s.store);
    }
  }

  /** A session that registers on a display the factory listens to finishes every stored display that waits. */
  lemma RegistrationFinishesWaiting(w: World, s: State, d: nat, i: nat)
    requires WF(s) && d < |s.displays| && i < |s.displays|
    ensures
      var t, e := Step(w, s, RegisterSession(d)), s.displays[d].(registered := true);
      if !s.displays[d].watched then Settled(s, t, d, e)
      else AfterWait(w, i in s.store, if i == d then e else s.displays[i], t.displays[i])
  {
    var u := s.(displays := s.displays[d := s.displays[d].(registered := true)]);
    StoredOnes(s);
    assert WF(u);
    if s.displays[d].watched {
      WaitingEnd(w, u, s.store);
    }
    hide WF, FinishWaiting, AfterWait;
    assert Step(w, s, RegisterSession(d)) == if u.displays[d].watched then FinishWaiting(w, u, u.store) else u;
  }

  /**
   A session with a display server of its own gets a new display on seat0,
   stored behind the others. The greeter's display waits to finish only while it
   does the initial setup, and leaves the store only after an automatic login.
   */
  lemma SessionMovesOut(w: World, s: State, d: nat, session: string, autologin: bool, x: nat)
    requires WF(s) && d < |s.displays|
    ensures
      var e, t := s.displays[d], Step(w, s, SessionGetsDisplay(d, session, autologin));
      && t.displays ==
         s.displays[d := e.(status := if e.initialSetup then WaitingToFinish else e.status)] +
         [Display(LocalServer, Some("seat0"), -1, User, None, false, Unmanaged, false, Some(session), true, false,
                  false, false, 0, 0)]
      && t == s.(displays := t.displays, store := t.store, log := t.log, tick := t.tick)
      && (x in t.store <==> x == |s.displays| || (x in s.store && !(autologin && x == d)))
      && s.log + [Added(|s.displays|)] <= t.log
  {
    SetupMeans(w, s, d);
    hide WF, Grows, Cascades, Stored, SetupInBackground, StoreAdd, StoreRemove, UserDisplay, Settled;
    var u := SetupInBackground(w, s, d);
    var v := StoreAdd(u, UserDisplay(session));
    assert Step(w, s, SessionGetsDisplay(d, session, autologin)) == if autologin then StoreRemove(v, {d}) else v;
    hide Step;
    GivenStored(s, u, d, session, x);
    RemovalMeans(v, {d}, x);
  }

  lemma SetupMeans(w: World, s: State, d: nat)
    requires WF(s) && d < |s.displays|
    ensures var e := s.displays[d];
            Settled(s, SetupInBackground(w, s, d), d, e.(status := if e.initialSetup then WaitingToFinish else e.status))
  {
    OtherwiseTold(w, s, d, WaitingToFinish);
    hide WF, Grows, Cascades, Stored, Notify;
    assert s.displays[d := s.displays[d]] == s.displays;
  }

  lemma GivenStored(s: State, u: State, d: nat, session: string, x: nat)
    requires WF(s) && WF(u) && d < |s.displays|
    requires Settled(s, u, d, s.displays[d].(status := if s.displays[d].initialSetup then WaitingToFinish else s.displays[d].status))
    ensures
      var e, v := s.displays[d], StoreAdd(u, UserDisplay(session));
      && v.displays ==
         s.displays[d := e.(status := if e.initialSetup then WaitingToFinish else e.status)] +
         [Display(LocalServer, Some("seat0"), -1, User, None, false, Unmanaged, false, Some(session), true, false,
                  false, false, 0, 0)]
      && v == s.(displays := v.displays, store := v.store, log := v.log, tick := v.tick)
      && (x in v.store <==> x == |s.displays| || x in s.store)
      && v.log == s.log + [Added(|s.displays|)]
  {
  }
}
