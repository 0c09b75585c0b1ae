/**
 What can happen to the daemon from outside, and runs of such events. Timers
 and idle callbacks are events that may come at any later point; signals of a
 display, its server or its session may come for any display object, stored or
 not, in any order.
 */
module DisplayEvents {
  import opened Basics
  import opened DisplayEngine

  datatype Event =
    | Start                                         // the factory starts, seats are synchronised
    | SeatNew(seat: string)
    | SeatRemoved(seat: string)
    | Transient                                     // a transient display is requested
    | PurgeIdle
    | RemoteAdded(number: nat)                      // the XDMCP factory stores a prepared display
    | RemotePurge                                   // the XDMCP factory's own purge
    | ServerReady(d: nat, connected: bool)          // its X server is up, or the remote one answered
    | ServerGone(d: nat)                            // the X server exited or died
    | GreeterOpened(d: nat, session: string)
    | GreeterStopped(d: nat)                        // the greeter stopped, exited or died
    | FinishIdle(d: nat)
    | RegisterDisplay(d: nat)
    | RegisterSession(d: nat)
    | SessionEnded(d: nat)                          // the session failed, exited or died
    | SessionReusesDisplay(d: nat, session: string)
    | SessionGetsDisplay(d: nat, session: string, autologin: bool)
    | VtChanged(vt: nat)
    | WaitTimeout

  /** The display an event is about. */
  function Subject(ev: Event): Option<nat> {
    match ev
    case ServerReady(d, _) => Some(d)
    case ServerGone(d) => Some(d)
    case GreeterOpened(d, _) => Some(d)
    case GreeterStopped(d) => Some(d)
    case FinishIdle(d) => Some(d)
    case RegisterDisplay(d) => Some(d)
    case RegisterSession(d) => Some(d)
    case SessionEnded(d) => Some(d)
    case SessionReusesDisplay(d, _) => Some(d)
    case SessionGetsDisplay(d, _, _) => Some(d)
    case _ => None
  }

  /** The stored displays with a property. */
  function Chosen(s: State, p: Display -> bool): set<nat>
    requires WF(s)
  {
    set d | d in s.store && p(s.displays[d])
  }

  /** A seat goes away and its displays leave the store; their numbers stay reserved. */
  function DeleteDisplay(s: State, seat: string): (r: State)
    requires WF(s)
    ensures WF(r) && Grows(s, r)
  {
    StoreRemove(s, Chosen(s, OnSeat(seat)))
  }

  function DeadOnes(s: State): set<nat>
    requires WF(s)
  {
    Chosen(s, (e: Display) => e.Dead())
  }

  function Purge(s: State): (r: State)
    requires WF(s)
    ensures WF(r) && Grows(s, r)
  {
    StoreRemove(s.(purgePending := false), DeadOnes(s))
  }

  /** Unmanage, then finish: how a session's end takes its display down. */
  function Drop(w: World, s: State, d: nat): (r: State)
    requires WF(s) && d < |s.displays|
    ensures WF(r) && Grows(s, r)
  {
    Finish(w, Unmanage(w, s, d), d)
  }

  /** The seat is not looked at: a waiting display finishes wherever it is. */
  function FinishIfWaiting(w: World, s: State, d: nat): (r: State)
    requires WF(s) && d < |s.displays|
    ensures WF(r) && Grows(s, r)
  {
    if s.displays[d].status == WaitingToFinish then Drop(w, s, d) else s
  }

  function FinishWaiting(w: World, s: State, ids: seq<nat>): (r: State)
    requires WF(s) && forall k :: 0 <= k < |ids| ==> ids[k] < |s.displays|
    ensures WF(r) && Grows(s, r)
    decreases |ids|
  {
    if ids == [] then s
    else
      FinishWaiting(w, FinishIfWaiting(w, s, ids[0]), ids[1..])
  }

  lemma WaitingNext(w: World, s: State, ids: seq<nat>, n: nat)
    requires WF(s) && n < |ids| && forall k :: 0 <= k < |ids| ==> ids[k] < |s.displays|
    ensures FinishWaiting(w, s, ids[n..]) == FinishWaiting(w, FinishIfWaiting(w, s, ids[n]), ids[n + 1..])
  {
    assert ids[n..][1..] == ids[n + 1..];
    hide WF, FinishIfWaiting;
  }

  lemma WaitingDone(w: World, s: State, ids: seq<nat>)
    requires WF(s)
    ensures FinishWaiting(w, s, ids[|ids|..]) == s
  {
  }

  function SelfDestruct(w: World, s: State, d: nat): (r: State)
    requires WF(s) && d < |s.displays|
    ensures WF(r) && Grows(s, r)
  {
    var t := if s.displays[d].status == Managed then Unmanage(w, s, d) else s;
    if t.displays[d].status != Finished then
      t.(displays := t.displays[d := t.displays[d].(finishQueued := true)])
    else t
  }

  function RegisterSessionOn(w: World, s: State, d: nat): (r: State)
    requires WF(s) && d < |s.displays|
    ensures WF(r) && Grows(s, r)
  {
    var t := s.(displays := s.displays[d := s.displays[d].(registered := true)]);
    if t.displays[d].watched then FinishWaiting(w, t, t.store) else t
  }

  function UserDisplay(session: string): Display {
    NewDisplay(LocalServer, "seat0", -1, User, None, false, Some(session)).(hasSession := true)
  }

  function SetupInBackground(w: World, s: State, d: nat): (r: State)
    requires WF(s) && d < |s.displays|
    ensures WF(r) && Grows(s, r)
  {
    if s.displays[d].initialSetup then SetStatusProperty(w, s, d, WaitingToFinish) else s
  }

  /** A session with a display server of its own moves to a new display object. */
  function GiveDisplay(w: World, s: State, d: nat, session: string, autologin: bool): (r: State)
    requires WF(s) && d < |s.displays|
    ensures WF(r) && Grows(s, r)
  {
    var t := SetupInBackground(w, s, d);
    var u := StoreAdd(t, UserDisplay(session));
    if autologin then StoreRemove(u, {d}) else u
  }

  function StopGreeterInBackground(w: World, s: State, d: nat): (r: State)
    requires WF(s) && d < |s.displays|
    ensures WF(r) && Grows(s, r)
  {
    if s.displays[d].status != Managed || s.displays[d].initialSetup then s
    else SetStatusProperty(w, s, d, WaitingToFinish)
  }

  function OnActiveTty(w: World, t: nat): Display -> bool {
    (e: Display) => e.sessionId.Some? && w.onTty(t, e.sessionId.value)
  }

  /** The login window on the VT that was left, unless no VT of it is known. */
  function WindowLeft(w: World, s: State, previous: nat, loginVt: nat, login: Option<string>): (r: State)
    requires WF(s)
    ensures WF(r) && Grows(s, r)
  {
    if login.None? || loginVt == 0 || loginVt != previous then s
    else
      var left := Find(s, OfSession(login.value));
      if left.Some? then StopGreeterInBackground(w, s, left.value) else s
  }

  /** A registered session on the new VT starts the timer that ends waiting login windows. */
  function SessionShown(w: World, s: State, loginVt: nat): (r: State)
    requires WF(s)
    ensures WF(r) && Grows(s, r)
  {
    var t := Asked(s);
    if s.activeVt == loginVt then t
    else
      var shown := Find(t, OnActiveTty(w, s.tick));
      if shown.Some? && t.displays[shown.value].registered then t.(waitArmed := true) else t
  }

  /** What a switch away from the previous VT means for login windows. */
  function VtSwitched(w: World, s: State, previous: nat): (r: State)
    requires WF(s)
    ensures WF(r) && Grows(s, r)
  {
    var login := w.login(s.tick, "seat0");
    var loginVt := if login.Some? then w.vt(s.tick + 1) else 0;
    SessionShown(w, WindowLeft(w, Asked(Asked(s)), previous, loginVt, login), loginVt)
  }

  function LoginOnInitialVt(w: World, s: State): (r: State)
    requires WF(s)
    ensures WF(r) && Grows(s, r)
  {
    CreateDisplay(w, Asked(s), "seat0", if UseWayland(w, s.tick) then Some("wayland") else None, true)
  }

  function OnVt(s: State, vt: nat): (r: State)
    requires WF(s)
    ensures WF(r) && Grows(s, r)
  {
    s.(activeVt := vt)
  }

  function OnVtChanged(w: World, s: State, vt: nat): (r: State)
    requires WF(s)
    ensures WF(r) && Grows(s, r)
  {
    if !w.userServer || vt == s.activeVt then s
    else
      var s1 := OnVt(s, vt);
      if s.activeVt == 0 then s1     // nothing at startup
      else
        var s2 := VtSwitched(w, s1, s.activeVt);
        if vt == w.initialVt then LoginOnInitialVt(w, s2) else s2
  }

  /** What no event ever changes or undoes. */
  ghost predicate Outlives(s: State, t: State) {
    && |s.displays| <= |t.displays|
    && (forall i :: 0 <= i < |s.displays| ==>
          s.displays[i].kind == t.displays[i].kind && s.displays[i].finishes <= t.displays[i].finishes)
    && s.log <= t.log
  }

  function GreeterIn(s: State, d: nat, session: string): (r: State)
    requires WF(s) && d < |s.displays|
    ensures WF(r) && Outlives(s, r)
  {
    s.(displays := s.displays[d := s.displays[d].(sessionId := Some(session))])
  }

  /** A user's session takes the greeter's display over. */
  function TakenOver(s: State, d: nat, session: string): (r: State)
    requires WF(s) && d < |s.displays|
    ensures WF(r) && Outlives(s, r)
  {
    s.(displays := s.displays[d := s.displays[d].(cls := User, sessionId := Some(session))])
  }

  function StepDisplay(w: World, s: State, d: nat, ev: Event): (r: State)
    requires WF(s) && d < |s.displays|
    ensures WF(r) && Outlives(s, r)
  {
    hide WF;
    match ev
    case ServerReady(_, connected) => if connected then SetStatusProperty(w, s, d, Managed) else Unmanage(w, s, d)
    case ServerGone(_) => Unmanage(w, s, d)
    case GreeterOpened(_, session) => GreeterIn(s, d, session)
    case GreeterStopped(_) => SelfDestruct(w, s, d)
    case FinishIdle(_) => if s.displays[d].finishQueued then Finish(w, s, d) else s
    case RegisterDisplay(_) => SetStatusProperty(w, s, d, Managed)
    case RegisterSession(_) => RegisterSessionOn(w, s, d)
    case SessionEnded(_) => Drop(w, s, d)
    case SessionReusesDisplay(_, session) =>
      TakenOver(s, d, session)
    case SessionGetsDisplay(_, session, autologin) => GiveDisplay(w, s, d, session, autologin)
    case _ => s
  }

  function StepDaemon(w: World, s: State, ev: Event): (r: State)
    requires WF(s)
    ensures WF(r) && Grows(s, r)
  {
    match ev
    case Start => SyncSeats(w, s)
    case SeatNew(seat) => CreateDisplay(w, s, seat, None, false)
    case SeatRemoved(seat) => DeleteDisplay(s, seat)
    case Transient => CreateTransientDisplay(w, s)
    case PurgeIdle => if s.purgePending then Purge(s) else s
    case RemoteAdded(n) =>
      StoreAdd(s, NewRemote(n))
    case RemotePurge => StoreRemove(s, DeadOnes(s))
    case VtChanged(vt) => OnVtChanged(w, s, vt)
    case WaitTimeout => if s.waitArmed then FinishWaiting(w, s.(waitArmed := false), s.store) else s
    case _ => s
  }

  function Step(w: World, s: State, ev: Event): (r: State)
    requires WF(s)
    ensures WF(r) && Outlives(s, r)
  {
    match Subject(ev)
    case Some(d) => if d < |s.displays| then StepDisplay(w, s, d, ev) else s
    case None => StepDaemon(w, s, ev)
  }

  /** The state after a run of events. */
  function Run(w: World, s: State, evs: seq<Event>): (r: State)
    requires WF(s)
    ensures WF(r) && Outlives(s, r)
    decreases |evs|
  {
    if evs == [] then s else Step(w, Run(w, s, evs[..|evs| - 1]), evs[|evs| - 1])
  }

  /**
   The results about every run let any signal come at any time. This says when
   one can be received: timers and idle calls while they are pending, the answer
   of an X server once the display is prepared, and what a session does once the
   manager made one for the display.
   */
  predicate CanCome(s: State, ev: Event) {
    && (Subject(ev).Some? ==> Subject(ev).value < |s.displays|)
    && match ev
       case PurgeIdle => s.purgePending
       case WaitTimeout => s.waitArmed
       case FinishIdle(d) => s.displays[d].finishQueued
       case ServerReady(d, _) => s.displays[d].kind != LocalServer && s.displays[d].status == Prepared
       case ServerGone(d) => s.displays[d].kind == LegacyX && s.displays[d].status != Unmanaged
       case GreeterOpened(d, _) => s.displays[d].hasSession
       case GreeterStopped(d) => s.displays[d].hasSession
       case SessionEnded(d) => s.displays[d].hasSession
       case SessionReusesDisplay(d, _) => s.displays[d].hasSession
       case SessionGetsDisplay(d, _, _) => s.displays[d].hasSession
       case _ => true
  }

  /** Every event of the run can be received where it comes. */
  ghost predicate Received(w: World, evs: seq<Event>) {
    evs == [] ||
    (Received(w, evs[..|evs| - 1]) && CanCome(Run(w, INITIAL, evs[..|evs| - 1]), evs[|evs| - 1]))
  }
}
