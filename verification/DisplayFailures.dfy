/**
 How far a cascade of failures goes: the bound that lets the recursion end is
 reached when every X display fails, whether it cannot be prepared or its server
 does not start.
 */
module DisplayFailures {
  import opened Basics
  import opened DisplayNumbers
  import opened DisplayEngine

  /**
   A world in which no seat is ever full and no X display comes up: each time
   the authority is written, the server that is to start next does not.
   */
  ghost predicate IsBroken(w: World) {
    && !w.userServer
    && (forall t, q :: w.multi(t, q) && w.login(t, q) == None)
    && (forall t: nat :: w.authority(t) ==> !w.serverStarts(t + 1))
  }

  /** No stored display of the seat stands in the way of another. */
  ghost predicate NonePrepared(s: State, seat: string)
    requires WF(s)
  {
    forall k :: 0 <= k < |s.store| ==> !PreparedOnSeat(seat)(s.displays[s.store[k]])
  }

  /** Preparing a display with a number is noticed by nobody. */
  lemma PreparedUnnoticed(w: World, s: State, d: nat)
    requires WF(s) && d < |s.displays| && s.displays[d].number >= 0 && s.displays[d].status != Prepared
    ensures WF(WithStatus(s, d, Prepared)) && SetStatus(w, s, d, Prepared) == WithStatus(s, d, Prepared)
  {
    var v := WithStatus(s, d, Prepared);
    assert WF(v);
    hide WF, Grows, Cascades, Stored;
    assert ManagerHandler(w, v, d) == v;
    assert FactoryHandler(w, v, d) == v;
    assert Notify(w, v, d) == v;
  }

  /** An X display that is not managed yet. */
  ghost predicate IsNewX(e: Display) {
    e.kind == LegacyX && e.cls == Greeter && e.number >= 0 && e.status == Unmanaged && !e.registered
  }

  /** What preparing asked, about initial setup and the authority, was answered. */
  function Readied(w: World, s: State, d: nat): (r: State)
    requires WF(s) && d < |s.displays|
    ensures WF(r) && |r.displays| == |s.displays| && WF(WithStatus(r, d, Prepared))
  {
    Asked(Asked(WithSetup(s, d, w.initialSetup(s.tick))))
  }

  /** Preparing an X display succeeds exactly when its authority is written. */
  lemma PrepareMeans(w: World, s: State, d: nat)
    requires WF(s) && d < |s.displays| && IsNewX(s.displays[d])
    ensures Prepare(w, s, d) ==
            if w.authority(s.tick + 1) then (WithStatus(Readied(w, s, d), d, Prepared), true) else (Readied(w, s, d), false)
  {
    PreparedUnnoticed(w, Readied(w, s, d), d);
    hide WF, Grows, Cascades, Stored, SetStatus;
  }

  /** Managing an X display: it stays unmanaged, or it is prepared and its server is to start. */
  lemma ManageMeans(w: World, s: State, d: nat)
    requires WF(s) && d < |s.displays| && IsNewX(s.displays[d])
    ensures
      var v := WithStatus(Readied(w, s, d), d, Prepared);
      Manage(w, s, d) ==
      if !w.authority(s.tick + 1) then (Readied(w, s, d), false)
      else (if w.serverStarts(s.tick + 2) then Asked(v) else Unmanage(w, Asked(v), d), true)
  {
    PrepareMeans(w, s, d);
    LaunchMeans(w, WithStatus(Readied(w, s, d), d, Prepared), d);
    hide WF, Grows, Cascades, Stored, Prepare, Launch;
  }

  lemma LaunchMeans(w: World, s: State, d: nat)
    requires WF(s) && d < |s.displays| && s.displays[d].kind == LegacyX && s.displays[d].cls == Greeter
    ensures Launch(w, s, d) == if w.serverStarts(s.tick) then Asked(s) else Unmanage(w, Asked(s), d)
  {
    hide WF, Grows, Cascades, Stored, Unmanage;
  }

  /** In a broken world a new display is unmanaged, prepared or not. */
  lemma BrokenManage(w: World, s: State, d: nat) returns (u: State)
    requires IsBroken(w) && WF(s) && d < |s.displays| && IsNewX(s.displays[d])
    ensures WF(u) && u.store == s.store && u.numFailures == s.numFailures && |u.displays| == |s.displays|
    ensures u.displays == s.displays[d := u.displays[d]] && u.displays[d].status != Failed
    ensures !u.displays[d].registered && u.displays[d].seat == s.displays[d].seat && u.displays[d].kind == LegacyX
    ensures u.displays[d].sessionType == s.displays[d].sessionType && u.displays[d].initial == s.displays[d].initial
    ensures ManageOrNot(w, s, d) == Unmanage(w, u, d)
  {
    ManageMeans(w, s, d);
    u := Readied(w, s, d);
    if w.authority(s.tick + 1) {
      u := Asked(WithStatus(u, d, Prepared));
    }
    hide WF, Grows, Cascades, Stored, Manage, Unmanage;
  }

  /**
   Unmanaging a display whose session never registered: unless it has failed
   already the failure is announced to whoever watches it, and that of a stored
   local display is counted and answered.
   */
  lemma UnregisteredFails(w: World, s: State, d: nat)
    requires WF(s) && d < |s.displays| && !s.displays[d].registered
    ensures WF(WithStatus(s, d, Failed))
    ensures
      var e, f := s.displays[d], WithStatus(s, d, Failed);
      Unmanage(w, s, d) ==
      if e.status == Failed then s
      else if d !in s.store then f
      else if !e.IsLocal() then f.(purgePending := true)
      else
        var t := Counted(f, e.seat.value);
        if t.numFailures > MAX_DISPLAY_FAILURES then t
        else CreateDisplay(w, t, e.seat.value, ReplacementType(w, e), e.initial)
  {
    var s1 := WithStatus(s, d, Failed);
    assert WF(s1);
    hide WF, Grows, Cascades, CreateDisplay, Counted;
    assert ManagerHandler(w, s1, d) == s1;
    assert FactoryHandler(w, s1, d) == OnFailed(w, s1, d);
    assert Notify(w, s1, d) == if d in s.store then OnFailed(w, s1, d) else s1;
    if s.displays[d].status != Failed {
      assert SetStatus(w, s, d, Failed) == Notify(w, s1, d);
    }
  }

  lemma BrokenCreate(w: World, s: State, seat: string, initial: bool)
    requires IsBroken(w) && WF(s) && NonePrepared(s, seat)
    ensures
      var s3 := AddNumbered(Asked(Asked(s)), seat, initial);
      CreateDisplay(w, s, seat, None, initial) == ManageOrNot(w, s3, |s.displays|)
  {
    var s1 := Asked(s);
    assert Find(s1, PreparedOnSeat(seat)).None?;
    hide WF, Grows, Cascades, ManageOrNot, Find;
    assert LoginWindow(w, s1, seat).None?;
  }

  /** The bound on a cascade is reached: the first display and one for all the room there was. */
  lemma {:induction false} CascadeReachesBound(w: World, s: State, seat: string, initial: bool)
    requires IsBroken(w) && WF(s) && NonePrepared(s, seat)
    ensures |CreateDisplay(w, s, seat, None, initial).displays| == |s.displays| + 1 + Room(s.numFailures)
    decreases Room(s.numFailures)
  {
    hide CreateDisplay, ManageOrNot, Unmanage, WF, Grows, Cascades, NonePrepared, LeastFree;
    var d := |s.displays|;
    var s3 := AddNumbered(Asked(Asked(s)), seat, initial);
    BrokenCreate(w, s, seat, initial);
    var u := BrokenManage(w, s3, d);
    UnregisteredFails(w, u, d);
    var t := Counted(WithStatus(u, d, Failed), seat);
    StillNonePrepared(s, t, seat);
    if t.numFailures <= MAX_DISPLAY_FAILURES {
      CascadeReachesBound(w, t, seat, initial);
    }
  }

  lemma StillNonePrepared(s: State, t: State, seat: string)
    requires WF(s) && WF(t) && NonePrepared(s, seat)
    requires |t.displays| == |s.displays| + 1 && t.displays[|s.displays|].status == Failed
    requires forall i :: 0 <= i < |s.displays| ==> t.displays[i] == s.displays[i]
    requires t.store == s.store + [|s.displays|]
    ensures NonePrepared(t, seat)
  {
    forall k | 0 <= k < |t.store| ensures !PreparedOnSeat(seat)(t.displays[t.store[k]]) {
      if k < |s.store| {
        assert t.displays[t.store[k]] == s.displays[s.store[k]];
      }
    }
  }
}
