/**
 What every state of the display life cycle satisfies, and the proof that each
 single change of state keeps it.
 */
module DisplayInvariant {
  import opened Basics
  import opened DisplayNumbers
  import opened DisplayEngine

  // ---- the log -------------------------------------------------------------

  /** Display-added signals minus display-removed signals. */
  ghost function Balance(log: seq<LogEntry>): int {
    if log == [] then 0
    else
      Balance(log[..|log| - 1]) +
      match log[|log| - 1] { case Added(_) => 1 case Removed(_) => -1 case _ => 0 }
  }

  /** Replacements requested since the count of failures was last reset. */
  ghost function SinceReset(log: seq<LogEntry>): nat {
    if log == [] then 0
    else
      match log[|log| - 1] {
        case Reset => 0
        case Replacement(_) => SinceReset(log[..|log| - 1]) + 1
        case _ => SinceReset(log[..|log| - 1])
      }
  }

  /** The bound on replacements, at the end of the log and at every earlier point. */
  ghost predicate Bounded(log: seq<LogEntry>) {
    SinceReset(log) <= MAX_DISPLAY_FAILURES && (log == [] || Bounded(log[..|log| - 1]))
  }

  /** No number was released while another live display had it. */
  ghost predicate Clean(log: seq<LogEntry>) {
    forall k :: 0 <= k < |log| && log[k].Released? ==> !log[k].taken
  }

  lemma LogOne(log: seq<LogEntry>, x: LogEntry)
    ensures Balance(log + [x]) == Balance(log) + match x { case Added(_) => 1 case Removed(_) => -1 case _ => 0 }
    ensures SinceReset(log + [x]) ==
            match x { case Reset => 0 case Replacement(_) => SinceReset(log) + 1 case _ => SinceReset(log) }
    ensures Bounded(log) && SinceReset(log + [x]) <= MAX_DISPLAY_FAILURES ==> Bounded(log + [x])
    ensures Clean(log + [x]) <==> Clean(log) && (x.Released? ==> !x.taken)
  {
    var l := log + [x];
    assert l[..|l| - 1] == log;
    assert l[|log|] == x;
    assert forall k :: 0 <= k < |log| ==> l[k] == log[k];
  }

  lemma {:induction false} LogRemovals(log: seq<LogEntry>, ids: seq<nat>, gone: set<nat>)
    ensures Balance(log + Removals(ids, gone)) == Balance(log) - |ids| + |Without(ids, gone)|
    ensures SinceReset(log + Removals(ids, gone)) == SinceReset(log)
    ensures Bounded(log) ==> Bounded(log + Removals(ids, gone))
    ensures Clean(log + Removals(ids, gone)) <==> Clean(log)
    decreases |ids|
  {
    hide Clean;
    if ids == [] {
      assert log + Removals(ids, gone) == log;
    } else if ids[0] in gone {
      LogOne(log, Removed(ids[0]));
      var rest := Removals(ids[1..], gone);
      LogRemovals(log + [Removed(ids[0])], ids[1..], gone);
      assert log + ([Removed(ids[0])] + rest) == log + [Removed(ids[0])] + rest;
    } else {
      LogRemovals(log, ids[1..], gone);
    }
  }

  // ---- the invariant -------------------------------------------------------

  /** Live displays keep their numbers reserved, and no two share one. */
  ghost predicate Numbers(s: State) {
    && (forall i :: 0 <= i < |s.displays| && Live(s.displays[i]) ==> s.displays[i].number in s.used)
    && (forall i, j :: 0 <= i < j < |s.displays| && Live(s.displays[i]) && Live(s.displays[j]) ==>
          s.displays[i].number != s.displays[j].number)
  }

  /** A local display whose number was not given back: it has not finished while it was stored. */
  ghost predicate Holds(e: Display) {
    e.IsLocal() && e.number >= 0 && e.releases == 0
  }

  /** The same for all displays that hold their numbers, whether or not they are still stored. */
  ghost predicate Held(s: State) {
    && (forall i :: 0 <= i < |s.displays| && Holds(s.displays[i]) ==> s.displays[i].number in s.used)
    && (forall i, j :: 0 <= i < j < |s.displays| && Holds(s.displays[i]) && Holds(s.displays[j]) ==>
          s.displays[i].number != s.displays[j].number)
  }

  ghost predicate HeldBy(s: State, n: nat, i: nat) {
    i < |s.displays| && Holds(s.displays[i]) && s.displays[i].number == n
  }

  /** A reserved number is held by some display. */
  ghost predicate Backed(s: State) {
    forall n :: n in s.used ==> exists i :: HeldBy(s, n, i)
  }

  /** A number is given back only at an end. */
  ghost predicate Counts(s: State) {
    forall i :: 0 <= i < |s.displays| ==> s.displays[i].releases <= s.displays[i].finishes
  }

  ghost predicate Few(s: State) {
    |s.displays| < U32
  }

  /** Only local displays, none of which entered FINISHED twice, and fewer than 2^32 of them. */
  ghost predicate Tame(s: State) {
    && (forall i :: 0 <= i < |s.displays| ==> s.displays[i].IsLocal() && s.displays[i].finishes <= 1)
    && Few(s)
  }

  /** What is known of the numbers in every state, and in those of a run that met certain conditions. */
  ghost predicate Reserved(s: State) {
    && Counts(s)
    && Backed(s)
    && (Few(s) && Clean(s.log) ==> Numbers(s))
    && (Tame(s) ==> Clean(s.log) && Held(s))
  }

  /** A stored display of the seat, in whatever state. */
  ghost predicate Serves(s: State, seat: string, d: nat) {
    d in s.store && d < |s.displays| && s.displays[d].seat == Some(seat)
  }

  /** A seat that may hold more than one display. */
  ghost predicate Shareable(w: World, seat: string) {
    seat == "seat0" || exists t :: w.multi(t, seat)
  }

  ghost predicate MayShare(w: World, a: Display, b: Display) {
    a.seat.Some? && a.seat == b.seat ==> Shareable(w, a.seat.value)
  }

  ghost predicate OneEach(w: World, s: State)
    requires WF(s)
  {
    forall j, k :: 0 <= j < k < |s.store| ==> MayShare(w, s.displays[s.store[j]], s.displays[s.store[k]])
  }

  /** Every dead display in the store waits for the purge; x is the one being announced. */
  ghost predicate DeadWait(s: State, x: int)
    requires WF(s)
  {
    s.purgePending || forall k :: 0 <= k < |s.store| && s.store[k] != x ==> !s.displays[s.store[k]].Dead()
  }

  ghost predicate Accounts(s: State) {
    && Balance(s.log) == |s.store|
    && SinceReset(s.log) == (if s.numFailures <= MAX_DISPLAY_FAILURES then s.numFailures else MAX_DISPLAY_FAILURES)
    && Bounded(s.log)
    && |s.used| <= |s.displays|
  }

  ghost predicate Inv(w: World, s: State, x: int) {
    && WF(s)
    && Distinct(s.store)
    && OneEach(w, s)
    && DeadWait(s, x)
    && Accounts(s)
    && Reserved(s)
  }

  /** Between a change of status of d and the factory's answer to it. */
  ghost predicate Announced(w: World, s: State, d: nat) {
    && d < |s.displays|
    && Inv(w, s, d)
    && (s.displays[d].status == Finished ==> s.displays[d].releases < s.displays[d].finishes)
  }

  // ---- single changes ------------------------------------------------------

  /** Displays may have finished, but none gave its number back. */
  ghost predicate SameHolders(s: State, t: State) {
    && t.used == s.used && |t.displays| == |s.displays|
    && forall i :: 0 <= i < |s.displays| ==>
         && t.displays[i].kind == s.displays[i].kind && t.displays[i].number == s.displays[i].number
         && t.displays[i].releases == s.displays[i].releases && t.displays[i].finishes >= s.displays[i].finishes
  }

  lemma BackersKeep(s: State, t: State)
    requires Backed(s) && SameHolders(s, t)
    ensures Backed(t)
  {
    forall n | n in t.used ensures exists i :: HeldBy(t, n, i) {
      var i :| HeldBy(s, n, i);
      assert HeldBy(t, n, i);
    }
  }

  lemma TameBefore(s: State, t: State)
    requires Tame(t) && |s.displays| <= |t.displays|
    requires forall i :: 0 <= i < |s.displays| ==>
               s.displays[i].kind == t.displays[i].kind && s.displays[i].finishes <= t.displays[i].finishes
    ensures Tame(s)
  {
    forall i | 0 <= i < |s.displays| ensures s.displays[i].IsLocal() && s.displays[i].finishes <= 1 {
      assert t.displays[i].IsLocal() && t.displays[i].finishes <= 1;
    }
  }

  lemma NumbersKeep(s: State, t: State)
    requires SameHolders(s, t)
    ensures Numbers(s) ==> Numbers(t)
    ensures Held(s) ==> Held(t)
  {
    assert forall i :: 0 <= i < |t.displays| && Live(t.displays[i]) ==> Live(s.displays[i]);
    assert forall i :: 0 <= i < |t.displays| && Holds(t.displays[i]) ==> Holds(s.displays[i]);
  }

  lemma HoldersKeep(s: State, t: State)
    requires Reserved(s) && SameHolders(s, t) && (Clean(t.log) <==> Clean(s.log))
    ensures Reserved(t)
  {
    BackersKeep(s, t);
    NumbersKeep(s, t);
    hide Backed, Clean, Tame, Numbers, Held;
    if Tame(t) {
      TameBefore(s, t);
    }
  }

  /** A display changed without a new seat, number or end, and without dying unannounced. */
  ghost predicate Touched(s: State, t: State, d: nat, x: int) {
    && d < |s.displays|
    && t == s.(displays := t.displays, tick := t.tick, activeVt := t.activeVt, waitArmed := t.waitArmed)
    && |t.displays| == |s.displays|
    && t.displays == s.displays[d := t.displays[d]]
    && t.displays[d].kind == s.displays[d].kind && t.displays[d].seat == s.displays[d].seat
    && t.displays[d].number == s.displays[d].number && t.displays[d].finishes == s.displays[d].finishes
    && t.displays[d].releases == s.displays[d].releases
    && (t.displays[d].Dead() ==> s.displays[d].Dead() || d == x)
  }

  lemma TouchKeeps(w: World, s: State, t: State, d: nat, x: int)
    requires Inv(w, s, x) && Touched(s, t, d, x)
    ensures Inv(w, t, x)
  {
    hide Reserved;
    HoldersKeep(s, t);
  }

  lemma StatusKeeps(w: World, s: State, d: nat, st: Status)
    requires Inv(w, s, -1) || Inv(w, s, d)
    requires d < |s.displays| && s.displays[d].status != st
    ensures Announced(w, WithStatus(s, d, st), d)
  {
    CountsAt(s, d);
    hide Reserved;
    HoldersKeep(s, WithStatus(s, d, st));
  }

  lemma CountsAt(s: State, d: nat)
    requires Reserved(s) && d < |s.displays|
    ensures s.displays[d].releases <= s.displays[d].finishes
  {
  }

  /** A failure is counted, and a replacement recorded while there is room for one. */
  lemma FailureKeeps(w: World, s: State, d: nat, seat: string, t: State)
    requires Announced(w, s, d) && t == Counted(s, seat)
    ensures Inv(w, t, -1)
  {
    LogOne(s.log, Replacement(seat));
    hide Reserved, Clean;
    HoldersKeep(s, t);
  }

  lemma ReleaseKeeps(w: World, s: State, d: nat)
    requires Announced(w, s, d) && s.displays[d].status == Finished
    ensures Inv(w, Release(s, d), -1)
  {
    hide Reserved, Accounts, Taken;
    ReleaseReserves(s, d);
    ReleaseAccounts(s, d);
  }

  lemma ReleaseAccounts(s: State, d: nat)
    requires WF(s) && Accounts(s) && d < |s.displays|
    ensures Accounts(Release(s, d))
  {
    LogOne(s.log, Released(d, Taken(s, d)));
    hide WF, Balance, SinceReset, Bounded, Clean, Taken;
    var n := s.displays[d].number;
    if n != -1 {
      FewerWithout(s.used, n);
    }
  }

  lemma FewerWithout(used: set<nat>, n: nat)
    ensures |used - {n}| <= |used|
  {
    assert used - {n} <= used;
    if n in used {
      assert (used - {n}) + {n} == used;
    } else {
      assert used - {n} == used;
    }
  }

  /** The release gives back what d held, and nothing else unless the number was taken. */
  lemma ReleaseReserves(s: State, d: nat)
    requires WF(s) && Reserved(s) && d < |s.displays| && s.displays[d].releases < s.displays[d].finishes
    ensures Reserved(Release(s, d))
  {
    var t := Release(s, d);
    if s.displays[d].number == -1 {
      HoldersKeep(s, t);
    } else {
      LogOne(s.log, Released(d, Taken(s, d)));
      ReleaseBacks(s, d);
      hide Clean;
      assert forall i :: 0 <= i < |s.displays| && i != d ==> t.displays[i] == s.displays[i];
      if Few(t) && Clean(t.log) {
        assert Numbers(s);
      }
      if Tame(t) {
        TameReleases(s, d);
      }
    }
  }

  lemma ReleaseBacks(s: State, d: nat)
    requires WF(s) && Backed(s) && d < |s.displays|
    ensures Backed(Release(s, d))
  {
    var t := Release(s, d);
    forall n | n in t.used ensures exists i :: HeldBy(t, n, i) {
      var i :| HeldBy(s, n, i);
      assert HeldBy(t, n, i);
    }
  }

  /** In a tame run d itself held the number, so nobody else did. */
  lemma TameReleases(s: State, d: nat)
    requires WF(s) && Reserved(s) && d < |s.displays| && s.displays[d].releases < s.displays[d].finishes
    requires s.displays[d].number != -1 && Tame(Release(s, d))
    ensures Tame(s) && !Taken(s, d) && Held(Release(s, d))
  {
    var t := Release(s, d);
    TameBefore(s, t);
    assert Holds(s.displays[d]);
    forall i | 0 <= i < |s.displays| && i != d && Holds(s.displays[i])
      ensures s.displays[i].number != s.displays[d].number
    {
      assert i < d || d < i;
    }
    assert forall i :: 0 <= i < |s.displays| && Live(s.displays[i]) ==> Holds(s.displays[i]);
    assert forall i :: 0 <= i < |s.displays| && i != d ==> t.displays[i] == s.displays[i];
  }

  lemma AddKeeps(w: World, s: State, e: Display)
    requires Inv(w, s, -1)
    requires e.number >= -1 && (e.IsLocal() ==> e.seat.Some?) && !e.Dead()
    requires e.seat.Some? && !Shareable(w, e.seat.value) ==> Find(s, OnSeat(e.seat.value)).None?
    requires e.IsLocal() ==> e.number == -1
    requires e.finishes == 0 && e.releases == 0
    ensures Inv(w, StoreAdd(s, e), -1)
  {
    var t := StoreAdd(s, e);
    LogOne(s.log, Added(|s.displays|));
    AddOneEach(w, s, t, e);
    AddedReserves(s, t, e);
    hide Reserved, Clean;
  }

  /** A new display that is not live, or has a number that nobody reserved. */
  lemma AddedReserves(s: State, t: State, e: Display)
    requires WF(s) && Reserved(s) && e.finishes == 0 && e.releases == 0
    requires t.displays == s.displays + [e] && (Clean(t.log) <==> Clean(s.log))
    requires if Live(e) then t.used == s.used + {e.number} && (Few(t) ==> e.number !in s.used) else t.used == s.used
    ensures Reserved(t)
  {
    hide Clean;
    assert forall i :: 0 <= i < |s.displays| ==> t.displays[i] == s.displays[i];
    forall n | n in t.used ensures exists i :: HeldBy(t, n, i) {
      if n in s.used {
        var i :| HeldBy(s, n, i);
        assert HeldBy(t, n, i);
      } else {
        assert HeldBy(t, n, |s.displays|);
      }
    }
    if Tame(t) {
      TameBefore(s, t);
    }
  }

  lemma AddOneEach(w: World, s: State, t: State, e: Display)
    requires WF(s) && WF(t) && OneEach(w, s)
    requires t.displays == s.displays + [e] && t.store == s.store + [|s.displays|]
    requires e.seat.Some? && !Shareable(w, e.seat.value) ==> Find(s, OnSeat(e.seat.value)).None?
    ensures OneEach(w, t)
  {
    forall j, k | 0 <= j < k < |t.store|
      ensures MayShare(w, t.displays[t.store[j]], t.displays[t.store[k]])
    {
      assert t.displays[t.store[j]] == s.displays[s.store[j]];
      if k < |s.store| {
        assert MayShare(w, s.displays[s.store[j]], s.displays[s.store[k]]);
      } else if e.seat.Some? && !Shareable(w, e.seat.value) {
        assert !OnSeat(e.seat.value)(s.displays[s.store[j]]);
      }
    }
  }

  lemma AddNumberedKeeps(w: World, s: State, seat: string, initial: bool)
    requires Inv(w, s, -1)
    requires !Shareable(w, seat) ==> Find(s, OnSeat(seat)).None?
    ensures Inv(w, AddNumbered(s, seat, initial), -1)
  {
    var t := AddNumbered(s, seat, initial);
    AddOneEach(w, s, t, t.displays[|s.displays|]);
    AddNumberedAccounts(s, seat, initial);
    AddNumberedReserves(s, seat, initial);
    hide Reserved, Accounts, LeastFree;
  }

  lemma AddNumberedAccounts(s: State, seat: string, initial: bool)
    requires WF(s) && Accounts(s)
    ensures Accounts(AddNumbered(s, seat, initial))
  {
    var t := AddNumbered(s, seat, initial);
    LogOne(s.log, Added(|s.displays|));
    assert |t.used| <= |s.used| + 1;
    hide WF, Balance, SinceReset, Bounded, Clean;
  }

  lemma AddNumberedReserves(s: State, seat: string, initial: bool)
    requires WF(s) && Accounts(s) && Reserved(s)
    ensures Reserved(AddNumbered(s, seat, initial))
  {
    var t := AddNumbered(s, seat, initial);
    LogOne(s.log, Added(|s.displays|));
    NumberIsNew(s);
    hide Reserved, Clean, LeastFree, Balance, SinceReset, Bounded;
    AddedReserves(s, t, t.displays[|s.displays|]);
  }

  lemma NumberIsNew(s: State)
    requires |s.used| <= |s.displays|
    ensures |s.displays| < U32 ==> LeastFree(s.used) % U32 !in s.used
  {
  }

  lemma {:induction false} WithoutDistinct(ids: seq<nat>, gone: set<nat>)
    requires Distinct(ids)
    ensures Distinct(Without(ids, gone))
    decreases |ids|
  {
    if ids != [] {
      WithoutDistinct(ids[1..], gone);
      assert ids[0] !in ids[1..];
    }
  }

  lemma RemoveKeeps(w: World, s: State, gone: set<nat>)
    requires Inv(w, s, -1)
    ensures Inv(w, StoreRemove(s, gone), -1)
    ensures (forall d :: d in s.store && s.displays[d].Dead() ==> d in gone) ==>
              Inv(w, StoreRemove(s, gone).(purgePending := false), -1)
  {
    var t := StoreRemove(s, gone);
    WithoutDistinct(s.store, gone);
    RemoveAccounts(s, gone);
    RemoveOneEach(w, s, gone);
    RemoveReserves(s, gone);
    assert forall k :: 0 <= k < |t.store| ==> t.store[k] in t.store;
    hide Reserved, Accounts, Without, Removals;
  }

  lemma RemoveAccounts(s: State, gone: set<nat>)
    requires WF(s) && Accounts(s)
    ensures Accounts(StoreRemove(s, gone)) && Accounts(StoreRemove(s, gone).(purgePending := false))
  {
    LogRemovals(s.log, s.store, gone);
    hide WF, Balance, SinceReset, Bounded, Without, Removals;
  }

  lemma RemoveReserves(s: State, gone: set<nat>)
    requires WF(s) && Reserved(s)
    ensures Reserved(StoreRemove(s, gone)) && Reserved(StoreRemove(s, gone).(purgePending := false))
  {
    LogRemovals(s.log, s.store, gone);
    hide WF, Reserved, Clean, Without, Removals;
    HoldersKeep(s, StoreRemove(s, gone));
    HoldersKeep(s, StoreRemove(s, gone).(purgePending := false));
  }

  lemma RemoveOneEach(w: World, s: State, gone: set<nat>)
    requires Inv(w, s, -1)
    ensures OneEach(w, StoreRemove(s, gone))
  {
    var t := StoreRemove(s, gone);
    WithoutDistinct(s.store, gone);
    forall j, k | 0 <= j < k < |t.store|
      ensures MayShare(w, t.displays[t.store[j]], t.displays[t.store[k]])
    {
      assert t.store[j] in s.store && t.store[k] in s.store;
      var a :| 0 <= a < |s.store| && s.store[a] == t.store[j];
      var b :| 0 <= b < |s.store| && s.store[b] == t.store[k];
      assert a != b;
    }
  }
}
