/**
 The main results about the display life cycle, each for every world and every
 run.
 */
module DisplayTheorems {
  import opened Basics
  import opened DisplayEngine
  import opened DisplayEvents
  import opened DisplayInvariant
  import opened DisplayRuns

  /** A dead display never stays in the store without a purge to come. */
  lemma DeadDisplaysWaitForPurge(w: World, evs: seq<Event>)
    ensures
      var s := Run(w, INITIAL, evs);
      s.purgePending || forall k :: 0 <= k < |s.store| ==> !s.displays[s.store[k]].Dead()
  {
    RunKeeps(w, evs);
  }

  /** The purge takes out the dead displays and nothing else, keeps the order, and announces each removal. */
  lemma {:induction false} PurgeTakesTheDead(s: State, d: nat)
    requires WF(s)
    ensures d in Purge(s).store <==> d in s.store && !s.displays[d].Dead()
    ensures Purge(s).displays == s.displays && Purge(s).used == s.used && !Purge(s).purgePending
    ensures Balance(Purge(s).log) == Balance(s.log) - |s.store| + |Purge(s).store|
    ensures Removed(d) in Purge(s).log[|s.log|..] <==> d in s.store && s.displays[d].Dead()
  {
    var t := s.(purgePending := false);
    assert DeadOnes(t) == DeadOnes(s);
    LogRemovals(s.log, s.store, DeadOnes(s));
    RemovalsNamed(s.store, DeadOnes(s), d);
    assert Purge(s).log[|s.log|..] == Removals(s.store, DeadOnes(s));
  }

  lemma {:induction false} RemovalsNamed(ids: seq<nat>, gone: set<nat>, d: nat)
    ensures Removed(d) in Removals(ids, gone) <==> d in ids && d in gone
    decreases |ids|
  {
    if ids != [] {
      RemovalsNamed(ids[1..], gone, d);
    }
  }

  /** The store holds as many displays as were announced as added and not as removed. */
  lemma SignalsBalance(w: World, evs: seq<Event>)
    ensures Balance(Run(w, INITIAL, evs).log) == |Run(w, INITIAL, evs).store|
  {
    RunKeeps(w, evs);
  }

  /** A seat other than seat0 that never may hold several sessions never has two displays. */
  lemma OneDisplayPerSeat(w: World, evs: seq<Event>, seat: string)
    requires seat != "seat0" && forall t :: !w.multi(t, seat)
    ensures
      var s := Run(w, INITIAL, evs);
      forall a, b :: Serves(s, seat, a) && Serves(s, seat, b) ==> a == b
  {
    RunKeeps(w, evs);
    hide Run;
    var s := Run(w, INITIAL, evs);
    forall a, b | Serves(s, seat, a) && Serves(s, seat, b) ensures a == b {
      if a != b {
        TwoOnOneSeat(w, s, a, b);
      }
    }
  }

  lemma TwoOnOneSeat(w: World, t: State, d: nat, i: nat)
    requires Inv(w, t, -1) && d != i && d in t.store && i in t.store
    ensures t.displays[d].seat == t.displays[i].seat && t.displays[d].seat.Some? ==>
              Shareable(w, t.displays[d].seat.value)
  {
    var j :| 0 <= j < |t.store| && t.store[j] == d;
    var k :| 0 <= k < |t.store| && t.store[k] == i;
    assert j < k ==> MayShare(w, t.displays[t.store[j]], t.displays[t.store[k]]);
    assert k < j ==> MayShare(w, t.displays[t.store[k]], t.displays[t.store[j]]);
  }

  /** On such a seat a failed display is in the way of its own replacement until it is purged. */
  lemma FailureBlocksItself(w: World, s: State, d: nat)
    requires WF(s) && d in s.store && d < |s.displays| && s.displays[d].status == Failed && s.displays[d].IsLocal()
    requires forall t :: !w.multi(t, s.displays[d].seat.value)
    ensures FactoryHandler(w, s, d).displays == s.displays && FactoryHandler(w, s, d).store == s.store
    ensures FactoryHandler(w, s, d).used == s.used && FactoryHandler(w, s, d).numFailures == s.numFailures + 1
  {
    var seat := s.displays[d].seat.value;
    var k :| 0 <= k < |s.store| && s.store[k] == d;
    assert OnSeat(seat)(s.displays[s.store[k]]);
    assert FactoryHandler(w, s, d) == OnFailed(w, s, d);
    var v := Counted(s, seat);
    if v.numFailures <= MAX_DISPLAY_FAILURES {
      assert Find(Asked(v), OnSeat(seat)).Some?;
      assert CreateDisplay(w, v, seat, ReplacementType(w, s.displays[d]), s.displays[d].initial) == Asked(v);
    }
  }

  /** The replacements requested in a stretch of the log. */
  ghost function Replacements(log: seq<LogEntry>): nat {
    if log == [] then 0
    else Replacements(log[..|log| - 1]) + if log[|log| - 1].Replacement? then 1 else 0
  }

  lemma {:induction false} StretchBounded(log: seq<LogEntry>, i: nat, j: nat)
    requires i <= j <= |log| && Reset !in log[i..j]
    ensures Replacements(log[i..j]) <= SinceReset(log[..j])
    decreases j
  {
    if i < j {
      StretchBounded(log, i, j - 1);
      assert log[i..j][..j - i - 1] == log[i..j - 1];
      assert log[..j][..j - 1] == log[..j - 1];
      assert log[i..j][j - i - 1] == log[j - 1];
    }
  }

  lemma {:induction false} BoundedBefore(log: seq<LogEntry>, j: nat)
    requires Bounded(log) && j <= |log|
    ensures SinceReset(log[..j]) <= MAX_DISPLAY_FAILURES
    decreases |log|
  {
    if j < |log| {
      BoundedBefore(log[..|log| - 1], j);
      assert log[..|log| - 1][..j] == log[..j];
    } else {
      assert log[..j] == log;
    }
  }

  /** Between two resets of the failure count at most five replacement displays are requested. */
  lemma ReplacementsBounded(w: World, evs: seq<Event>)
    ensures
      var log := Run(w, INITIAL, evs).log;
      forall i, j :: 0 <= i <= j <= |log| && Reset !in log[i..j] ==> Replacements(log[i..j]) <= MAX_DISPLAY_FAILURES
  {
    RunKeeps(w, evs);
    hide Run;
    var log := Run(w, INITIAL, evs).log;
    forall i, j | 0 <= i <= j <= |log| && Reset !in log[i..j]
      ensures Replacements(log[i..j]) <= MAX_DISPLAY_FAILURES
    {
      StretchBounded(log, i, j);
      BoundedBefore(log, j);
    }
  }

  // ---- display numbers --------------------------------------------------------

  /** The release of an ended display's number is safe exactly when no other live display has it. */
  lemma ReleaseSafeIff(s: State, d: nat)
    requires WF(s) && Numbers(s) && d < |s.displays| && s.displays[d].finishes > 0
    ensures Numbers(Release(s, d)) <==> !Taken(s, d)
  {
    var t := Release(s, d);
    assert forall i :: 0 <= i < |s.displays| && i != d ==> t.displays[i] == s.displays[i];
    if Taken(s, d) {
      var i :| 0 <= i < |s.displays| && i != d && Live(s.displays[i]) && s.displays[i].number == s.displays[d].number;
      assert Live(t.displays[i]) && t.displays[i].number !in t.used;
    }
  }

  /** The state in which d has entered FINISHED and its number was given back. */
  function AsEnded(s: State, d: nat): (r: State)
    requires WF(s) && d < |s.displays|
    ensures WF(r)
  {
    Release(WithStatus(Unqueued(s, d), d, Finished), d)
  }

  /** The display of a user on a seat, before its end. */
  predicate EndsSession(e: Display) {
    e.IsLocal() && e.cls == User && e.status != Finished
  }

  /** What the end of a display comes to. */
  lemma FinishMeans(w: World, s: State, d: nat)
    requires WF(s) && d < |s.displays|
    ensures Finish(w, s, d) ==
            if s.displays[d].status == Finished then Unqueued(s, d)
            else if d !in s.store then WithStatus(Unqueued(s, d), d, Finished)
            else if EndsSession(s.displays[d]) then SyncSeats(w, ResetAfter(AsEnded(s, d)))
            else AsEnded(s, d)
  {
    var s1 := Unqueued(s, d);
    var s2 := WithStatus(s1, d, Finished);
    assert WF(s2);
    hide WF, Grows, Cascades, Stored, SyncSeats, Release;
    assert ManagerHandler(w, s2, d) == s2;
    assert FactoryHandler(w, s2, d) == OnFinished(w, s2, d);
    assert Notify(w, s2, d) == if d in s.store then OnFinished(w, s2, d) else s2;
    if s1.displays[d].status != Finished {
      assert SetStatus(w, s1, d, Finished) == Notify(w, s2, d);
    }
  }

  /**
   How many displays an end can make: at most one for each listed seat, and one
   for each failure that is answered again once the count is reset.
   */
  lemma FinishBounded(w: World, s: State, d: nat)
    requires WF(s) && d < |s.displays|
    ensures
      var e, t := s.displays[d], Finish(w, s, d);
      if d in s.store && EndsSession(e) then
        && s.store <= t.store
        && |t.displays| + Room(t.numFailures) <= |s.displays| + |Listed(w, s)| + MAX_DISPLAY_FAILURES
      else |t.displays| == |s.displays| && t.store == s.store && t.numFailures == s.numFailures
  {
    FinishMeans(w, s, d);
    hide Finish, SyncEach;
    var u := ResetAfter(AsEnded(s, d));
    assert u.tick == s.tick && u.store == s.store && |u.displays| == |s.displays|;
    if w.seats(s.tick).Some? {
      var v := SyncEach(w, Asked(u), Listed(w, s));
      assert Cascades(Asked(u), v, |Listed(w, s)|);
    }
  }

  /** The seats that the next question to logind is answered with, if it is. */
  function Listed(w: World, s: State): seq<string> {
    if w.seats(s.tick).Some? then w.seats(s.tick).value else []
  }

  /** An end keeps numbers safe exactly when, before it, no other live display has the number. */
  lemma EndSafeIff(s: State, d: nat)
    requires WF(s) && Numbers(s) && d < |s.displays| && s.displays[d].status != Finished
    ensures Numbers(AsEnded(s, d)) <==> !Taken(s, d)
    ensures AsEnded(s, d).log == if s.displays[d].number == -1 then s.log else s.log + [Released(d, Taken(s, d))]
  {
    var s2 := WithStatus(Unqueued(s, d), d, Finished);
    assert forall i :: 0 <= i < |s.displays| && i != d ==> s2.displays[i] == s.displays[i];
    assert s2.displays[d].finishes > 0 && s2.displays[d].number == s.displays[d].number;
    assert WF(s2) && Numbers(s2);
    assert Taken(s2, d) == Taken(s, d);
    hide WF, Taken, Numbers;
    ReleaseSafeIff(s2, d);
  }

  /**
   Finishing a display keeps numbers safe exactly when it is not stored, has
   finished before, or no other live display has its number; for a user's
   display, up to the synchronisation of the seats that follows.
   */
  lemma FinishSafeIff(w: World, s: State, d: nat)
    requires WF(s) && Numbers(s) && d < |s.displays|
    ensures
      var e, t := s.displays[d], Finish(w, s, d);
      var safe := d !in s.store || e.status == Finished || !Taken(s, d);
      if d in s.store && EndsSession(e) then
        t == SyncSeats(w, ResetAfter(AsEnded(s, d))) && (Numbers(ResetAfter(AsEnded(s, d))) <==> safe)
      else Numbers(t) <==> safe
  {
    FinishMeans(w, s, d);
    QuietlyNumbered(s, d);
    hide WF, Taken, Finish, SyncSeats, WithStatus, Unqueued, AsEnded, Numbers;
    if s.displays[d].status != Finished {
      EndSafeIff(s, d);
    }
    NumbersAside(AsEnded(s, d));
  }

  lemma NumbersAside(s: State)
    requires WF(s)
    ensures Numbers(ResetAfter(s)) <==> Numbers(s)
  {
  }

  lemma QuietlyNumbered(s: State, d: nat)
    requires WF(s) && Numbers(s) && d < |s.displays|
    ensures Numbers(Unqueued(s, d)) && Numbers(WithStatus(Unqueued(s, d), d, Finished))
  {
  }

  /**
   Numbers are safe after every run, whatever displays took part and however
   often they ended, in which no number was released while another live display
   had it (and which made fewer than 2^32 displays).
   */
  lemma FreeReleasesSafe(w: World, evs: seq<Event>)
    ensures var s := Run(w, INITIAL, evs); Few(s) && Clean(s.log) ==> Numbers(s)
  {
    RunKeeps(w, evs);
  }

  /** One way to release only free numbers: local displays, none of which ends twice. */
  lemma TameReleasesFree(w: World, evs: seq<Event>)
    ensures var s := Run(w, INITIAL, evs); Tame(s) ==> Clean(s.log)
  {
    RunKeeps(w, evs);
  }

  /**
   So the allocation of display numbers is safe over every run with only local
   displays (fewer than 2^32) none of which entered FINISHED twice: whatever has
   a number and has not finished keeps it reserved, and shares it with nobody.
   */
  lemma DisplayNumbersSafe(w: World, evs: seq<Event>)
    ensures Tame(Run(w, INITIAL, evs)) ==> Numbers(Run(w, INITIAL, evs))
  {
    hide Run, Tame, Clean, Numbers;
    TameReleasesFree(w, evs);
    FreeReleasesSafe(w, evs);
    TameIsFew(Run(w, INITIAL, evs));
  }

  lemma TameIsFew(s: State)
    ensures Tame(s) ==> Few(s)
  {
  }

  /**
   In such a run the reserved numbers are exactly those of the displays that
   have not finished while stored: a seat that goes away and a failure that is
   purged leave theirs reserved for good.
   */
  lemma ReservedExactly(w: World, evs: seq<Event>, n: nat)
    ensures var s := Run(w, INITIAL, evs); n in s.used ==> exists i :: HeldBy(s, n, i)
    ensures var s := Run(w, INITIAL, evs); Tame(s) ==> (n in s.used <==> exists i :: HeldBy(s, n, i))
  {
    RunKeeps(w, evs);
    hide Run;
  }
}
