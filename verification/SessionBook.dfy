/**
 The manager's bookkeeping of sessions and displays (daemon/scdm-manager.c):
 the two links between them, kept up through destroy notifiers, and the
 handshake that decides when the start of a session is queued.
 */
module SessionBook {

  import opened Basics

  type SessionId = nat
  type DisplayId = nat

  /** A queued on_start_user_session. */
  datatype Operation = Operation(session: SessionId, autologin: bool)

  /** The object data "start-when-ready" and "waiting-to-start" of a session. */
  datatype Flags = Flags(startWhenReady: bool, waitingToStart: bool)

  const NO_FLAGS := Flags(false, false)

  datatype Book = Book(
    displayOf: map<SessionId, DisplayId>,  // "scdm-display" of each session
    sessionOf: map<DisplayId, SessionId>,  // "scdm-user-session" of each display
    live: set<DisplayId>,                  // displays not yet finalised
    nextSession: SessionId,
    nextDisplay: DisplayId,
    userSessions: seq<SessionId>,
    flags: map<SessionId, Flags>,
    queued: seq<Operation>,                // every operation queued so far
    ran: nat,                              // how many of them have run
    autologinDisplay: Option<DisplayId>,
    watched: set<DisplayId>)               // displays with a weak pointer to autologinDisplay

  const EMPTY := Book(map[], map[], {}, 0, 0, [], map[], [], 0, None, {})

  function FlagsOf(b: Book, s: SessionId): Flags {
    if s in b.flags then b.flags[s] else NO_FLAGS
  }

  function DisplayOf(b: Book, s: SessionId): Option<DisplayId> {
    if s in b.displayOf then Some(b.displayOf[s]) else None
  }

  function SessionOf(b: Book, d: DisplayId): Option<SessionId> {
    if d in b.sessionOf then Some(b.sessionOf[d]) else None
  }

  /** Neither the links nor the displays concern the handshake. */
  predicate SameQueue(b: Book, c: Book) {
    c.flags == b.flags && c.queued == b.queued && c.ran == b.ran
  }

  /** Storing a display in a session: a plain pointer, no notifier. */
  function SetDisplay(b: Book, s: SessionId, d: Option<DisplayId>): (r: Book)
    ensures SameQueue(b, r)
    ensures DisplayOf(r, s) == d
  {
    b.(displayOf := if d.Some? then b.displayOf[s := d.value] else b.displayOf - {s})
  }

  function CleanUserSession(b: Book, s: SessionId): (r: Book)
    ensures SameQueue(b, r)
  {
    SetDisplay(b, s, None)
  }

  /**
   Storing a session in a display: the new value is in place before the
   notifier of the old one runs.
   */
  function SetSession(b: Book, d: DisplayId, s: Option<SessionId>): (r: Book)
    ensures SameQueue(b, r)
  {
    var c := b.(sessionOf := if s.Some? then b.sessionOf[d := s.value] else b.sessionOf - {d});
    if d in b.sessionOf then CleanUserSession(c, b.sessionOf[d]) else c
  }

  /** A new session, tied to the display when there is one. */
  function CreateUserSession(b: Book, d: Option<DisplayId>): (r: Book)
    ensures SameQueue(b, r)
  {
    var s := b.nextSession;
    var c := SetDisplay(b.(nextSession := s + 1), s, d);
    if d.Some? then SetSession(c, d.value, Some(s)) else c
  }

  function NewDisplay(b: Book): Book {
    b.(live := b.live + {b.nextDisplay}, nextDisplay := b.nextDisplay + 1)
  }

  /** A new display, given to a session that exists. */
  function CreateDisplay(b: Book, s: SessionId): (r: Book)
    ensures SameQueue(b, r)
  {
    var d := b.nextDisplay;
    SetSession(SetDisplay(NewDisplay(b), s, Some(d)), d, Some(s))
  }

  /**
   The last reference goes: weak pointers are cleared and the data of the
   display is dropped, which runs the notifier.
   */
  function Finalise(b: Book, d: DisplayId): (r: Book)
    ensures SameQueue(b, r)
  {
    var c := SetSession(b, d, None);
    c.(live := c.live - {d},
       watched := c.watched - {d},
       autologinDisplay := if d in c.watched then None else c.autologinDisplay)
  }

  function StartIfReady(b: Book, s: SessionId, autologin: bool): Book {
    var f := FlagsOf(b, s);
    if f.startWhenReady
    then b.(flags := b.flags[s := f.(waitingToStart := false)], queued := b.queued + [Operation(s, autologin)])
    else b.(flags := b.flags[s := f.(waitingToStart := true)])
  }

  function Opened(b: Book, s: SessionId, autologin: bool, connected: bool): Book {
    var c := b.(userSessions := b.userSessions + [s]);
    var f := FlagsOf(c, s);
    var e := if autologin && !connected then c.(flags := c.flags[s := f.(startWhenReady := true)]) else c;
    StartIfReady(e, s, autologin)
  }

  function ClientReady(b: Book, s: SessionId, autologin: bool, ready: bool): Book {
    var f := FlagsOf(b, s);
    var c := b.(flags := b.flags[s := f.(startWhenReady := ready)]);
    if ready && f.waitingToStart then StartIfReady(c, s, autologin) else c
  }

  /** What a move does first: both sides of the old link are dropped. */
  function Untie(b: Book, s: SessionId, d: Option<DisplayId>): (r: Book)
    ensures SameQueue(b, r)
  {
    SetDisplay(if d.Some? then SetSession(b, d.value, None) else b, s, None)
  }

  /**
   The session follows its worker to a new display; the old display gets a
   new session for the next login.
   */
  function Move(b: Book, s: SessionId, d: Option<DisplayId>): (r: Book)
    ensures SameQueue(b, r)
  {
    CreateDisplay(CreateUserSession(Untie(b, s, d), d), s)
  }

  /** The display is the one just given to the session, so it is there. */
  function WatchAutologin(b: Book, d: Option<DisplayId>): (r: Book)
    ensures SameQueue(b, r)
  {
    if d.Some? then b.(autologinDisplay := d, watched := b.watched + {d.value}) else b
  }

  /**
   migrated: a compatible session was switched to. reuse: the session takes
   over the greeter's virtual terminal. last: taking the display out of the
   store dropped its last reference.
   */
  function Start(b: Book, migrated: bool, reuse: bool, connected: bool, last: bool): Book
    requires b.ran < |b.queued|
  {
    var op := b.queued[b.ran];
    var c := b.(ran := b.ran + 1);
    if migrated || reuse then c
    else
      var d := DisplayOf(c, op.session);
      var e := Move(c, op.session, d);
      if op.autologin && !connected then
        var g := if d.Some? && last then Finalise(e, d.value) else e;
        WatchAutologin(g, DisplayOf(g, op.session))
      else e
  }

  /** A display failed or ended while it was the one of the automatic login. */
  function Ended(b: Book, d: DisplayId): Book {
    if b.autologinDisplay == Some(d) then b.(autologinDisplay := None, watched := b.watched - {d}) else b
  }

  function RemoveFirst(list: seq<SessionId>, s: SessionId): seq<SessionId> {
    if list == [] then [] else if list[0] == s then list[1..] else [list[0]] + RemoveFirst(list[1..], s)
  }

  datatype Event =
    | DisplayMade
    | SetUp(display: DisplayId)
    | SessionOpened(session: SessionId, autologin: bool, connected: bool)
    | Ready(session: SessionId, autologin: bool, ready: bool)
    | IdleStart(migrated: bool, reuse: bool, connected: bool, last: bool)
    | SessionGone(session: SessionId)
    | DisplayEnded(display: DisplayId)
    | DisplayFinalised(display: DisplayId)

  /**
   An event needs its subject: signals come from existing sessions, handlers
   get live displays, an idle runs only while one is queued.
   */
  predicate Possible(b: Book, e: Event) {
    match e
    case DisplayMade => true
    case SetUp(d) => d in b.live
    case SessionOpened(s, _, _) => s < b.nextSession
    case Ready(s, _, _) => s < b.nextSession
    case IdleStart(_, _, _, _) => b.ran < |b.queued|
    case SessionGone(s) => s < b.nextSession
    case DisplayEnded(d) => d in b.live
    case DisplayFinalised(d) => d in b.live
  }

  function Step(b: Book, e: Event): Book {
    if !Possible(b, e) then b
    else match e
      case DisplayMade => NewDisplay(b)
      case SetUp(d) => CreateUserSession(b, Some(d))
      case SessionOpened(s, autologin, connected) => Opened(b, s, autologin, connected)
      case Ready(s, autologin, ready) => ClientReady(b, s, autologin, ready)
      case IdleStart(migrated, reuse, connected, last) => Start(b, migrated, reuse, connected, last)
      case SessionGone(s) => b.(userSessions := RemoveFirst(b.userSessions, s))
      case DisplayEnded(d) => Ended(b, d)
      case DisplayFinalised(d) => Finalise(b, d)
  }

  function Run(evs: seq<Event>): Book {
    if evs == [] then EMPTY else Step(Run(evs[..|evs| - 1]), evs[|evs| - 1])
  }

  /** The links agree, and they join only what exists. */
  ghost predicate Paired(b: Book) {
    && (forall s: SessionId, d: DisplayId :: DisplayOf(b, s) == Some(d) <==> SessionOf(b, d) == Some(s))
    && b.sessionOf.Keys <= b.live
  }

  ghost predicate Known(b: Book) {
    && (forall d :: d in b.live ==> d < b.nextDisplay)
    && (forall s :: s in b.displayOf ==> s < b.nextSession)
    && (forall s :: s in b.userSessions ==> s < b.nextSession)
    && (forall i :: 0 <= i < |b.queued| ==> b.queued[i].session < b.nextSession)
    && b.ran <= |b.queued|
    && b.watched <= b.live
    && (b.autologinDisplay.Some? ==> b.autologinDisplay.value in b.watched)
  }

  lemma CreateEffects(b: Book, d: DisplayId)
    requires Paired(b) && DisplayOf(b, b.nextSession) == None
    ensures var c, s := CreateUserSession(b, Some(d)), b.nextSession;
            && c == b.(nextSession := s + 1, displayOf := c.displayOf, sessionOf := b.sessionOf[d := s])
            && (forall t: SessionId :: t != s ==>
                  DisplayOf(c, t) == if DisplayOf(b, t) == Some(d) then None else DisplayOf(b, t))
            && DisplayOf(c, s) == Some(d)
  {
    if d in b.sessionOf {
      assert DisplayOf(b, b.sessionOf[d]) == Some(d);
    }
  }

  /**
   Giving a session a display ties the two, unties whoever held the display
   before, and touches nobody else.
   */
  lemma CreateUserSessionTies(b: Book, d: DisplayId)
    requires Paired(b) && Known(b) && d in b.live
    ensures var c, s := CreateUserSession(b, Some(d)), b.nextSession;
            && Paired(c) && Known(c) && c.live == b.live
            && DisplayOf(c, s) == Some(d)
            && forall t: SessionId :: t != s ==>
                 DisplayOf(c, t) == if DisplayOf(b, t) == Some(d) then None else DisplayOf(b, t)
  {
    hide CreateUserSession;
    CreateEffects(b, d);
    var c := CreateUserSession(b, Some(d));
    assert forall e: DisplayId :: SessionOf(c, e) == if e == d then Some(b.nextSession) else SessionOf(b, e);
    forall t: SessionId | t in c.displayOf ensures t < c.nextSession {
      assert DisplayOf(c, t).Some?;
      assert t != b.nextSession ==> DisplayOf(b, t).Some?;
    }
  }

  /** A new display is safe to give exactly to a session that has none. */
  lemma CreateDisplayPairedIff(b: Book, s: SessionId)
    requires Paired(b) && Known(b) && s < b.nextSession
    ensures Paired(CreateDisplay(b, s)) <==> DisplayOf(b, s) == None
  {
    if DisplayOf(b, s) == None {
      CreateDisplayTies(b, s);
    }
    var c := CreateDisplay(b, s);
    if s in b.displayOf {
      var d := b.displayOf[s];
      assert SessionOf(b, d) == Some(s);
      assert SessionOf(c, d) == Some(s) && DisplayOf(c, s) == Some(b.nextDisplay);
    }
  }

  lemma FinaliseUnties(b: Book, d: DisplayId)
    requires Paired(b) && Known(b) && d in b.live
    ensures var c := Finalise(b, d);
            && Paired(c) && Known(c) && d !in c.live
            && c.autologinDisplay != Some(d)
            && forall t: SessionId :: DisplayOf(c, t) == if DisplayOf(b, t) == Some(d) then None else DisplayOf(b, t)
  {
    var c := Finalise(b, d);
    assert SessionOf(c, d) == None;
    assert forall e: DisplayId :: e != d ==> SessionOf(c, e) == SessionOf(b, e);
    if d in b.sessionOf {
      assert DisplayOf(b, b.sessionOf[d]) == Some(d);
    }
  }

  lemma CreateDisplayTies(b: Book, s: SessionId)
    requires Paired(b) && Known(b) && s < b.nextSession && DisplayOf(b, s) == None
    ensures var c := CreateDisplay(b, s);
            && Paired(c) && Known(c) && c.live == b.live + {b.nextDisplay}
            && DisplayOf(c, s) == Some(b.nextDisplay)
            && (forall t: SessionId :: t != s ==> DisplayOf(c, t) == DisplayOf(b, t))
            && forall e: DisplayId :: e != b.nextDisplay ==> SessionOf(c, e) == SessionOf(b, e)
  {
  }

  lemma UntieUnties(b: Book, s: SessionId)
    requires Paired(b) && Known(b)
    ensures var c := Untie(b, s, DisplayOf(b, s));
            && Paired(c) && Known(c) && c.live == b.live
            && c.nextSession == b.nextSession && c.nextDisplay == b.nextDisplay
            && DisplayOf(c, s) == None
            && forall t: SessionId :: t != s ==> DisplayOf(c, t) == DisplayOf(b, t)
  {
    hide Untie;
    UntieEffects(b, s);
    var c := Untie(b, s, DisplayOf(b, s));
    assert forall t: SessionId :: t != s ==> DisplayOf(c, t) == DisplayOf(b, t);
    assert forall e: DisplayId :: SessionOf(c, e) == if Some(e) == DisplayOf(b, s) then None else SessionOf(b, e);
  }

  lemma UntieEffects(b: Book, s: SessionId)
    requires Paired(b)
    ensures Untie(b, s, DisplayOf(b, s)) ==
            b.(displayOf := b.displayOf - {s},
               sessionOf := if s in b.displayOf then b.sessionOf - {b.displayOf[s]} else b.sessionOf)
  {
    if s in b.displayOf {
      assert SessionOf(b, b.displayOf[s]) == Some(s);
    }
  }

  lemma CreateWithoutDisplay(b: Book)
    requires Paired(b) && Known(b)
    ensures var c := CreateUserSession(b, None);
            && Paired(c) && Known(c) && c.live == b.live
            && DisplayOf(c, b.nextSession) == None
            && forall t: SessionId :: DisplayOf(c, t) == DisplayOf(b, t)
  {
  }

  lemma DisplayIsLive(b: Book, s: SessionId)
    requires Paired(b) && DisplayOf(b, s).Some?
    ensures DisplayOf(b, s).value in b.live
    ensures forall t: SessionId :: t != s ==> DisplayOf(b, t) != DisplayOf(b, s)
  {
    assert SessionOf(b, b.displayOf[s]) == Some(s);
  }

  lemma CountersMove(b: Book, d: Option<DisplayId>)
    ensures var c := CreateUserSession(b, d);
            c.nextSession == b.nextSession + 1 && c.nextDisplay == b.nextDisplay
  {
  }

  /**
   A move: the session has a display of its own that nobody had before, its
   old display has a session that nobody had before, all others keep theirs.
   */
  lemma MoveTies(b: Book, s: SessionId)
    requires Paired(b) && Known(b) && s < b.nextSession
    ensures var d := DisplayOf(b, s); var c := Move(b, s, d);
            && Paired(c) && Known(c)
            && DisplayOf(c, s) == Some(b.nextDisplay)
            && DisplayOf(c, b.nextSession) == d
            && (forall t: SessionId :: t != s && t != b.nextSession ==> DisplayOf(c, t) == DisplayOf(b, t))
            && c.live == b.live + {b.nextDisplay}
  {
    hide Paired, Known, SetDisplay, SetSession, CreateUserSession, CreateDisplay, Untie;
    var d := DisplayOf(b, s);
    var c := Untie(b, s, d);
    UntieUnties(b, s);
    if d.Some? {
      DisplayIsLive(b, s);
      CreateUserSessionTies(c, d.value);
    } else {
      CreateWithoutDisplay(c);
    }
    CountersMove(c, d);
    CreateDisplayTies(CreateUserSession(c, d), s);
  }

  lemma WatchKeeps(b: Book, s: SessionId)
    requires Paired(b) && Known(b)
    ensures Paired(WatchAutologin(b, DisplayOf(b, s))) && Known(WatchAutologin(b, DisplayOf(b, s)))
  {
    var c := WatchAutologin(b, DisplayOf(b, s));
    if DisplayOf(b, s).Some? {
      DisplayIsLive(b, s);
    }
    assert forall t: SessionId :: DisplayOf(c, t) == DisplayOf(b, t);
    assert forall d: DisplayId :: SessionOf(c, d) == SessionOf(b, d);
  }

  lemma StartKeeps(b: Book, migrated: bool, reuse: bool, connected: bool, last: bool)
    requires Paired(b) && Known(b) && b.ran < |b.queued|
    ensures Paired(Start(b, migrated, reuse, connected, last)) && Known(Start(b, migrated, reuse, connected, last))
  {
    hide Paired, Known, Move, Finalise, WatchAutologin;
    var op := b.queued[b.ran];
    var c := b.(ran := b.ran + 1);
    OneMoreRan(b);
    MoveTies(c, op.session);
    var d := DisplayOf(c, op.session);
    var e := Move(c, op.session, d);
    if d.Some? {
      DisplayIsLive(c, op.session);
      FinaliseUnties(e, d.value);
      WatchKeeps(Finalise(e, d.value), op.session);
    }
    WatchKeeps(e, op.session);
  }

  /** Watching the automatic login's display changes no link. */
  lemma WatchMeans(b: Book, s: SessionId, d: DisplayId)
    requires DisplayOf(b, s) == Some(d)
    ensures WatchAutologin(b, DisplayOf(b, s)) == b.(autologinDisplay := Some(d), watched := b.watched + {d})
  {
  }

  lemma MoveCounts(b: Book, s: SessionId, d: Option<DisplayId>)
    ensures var c := Move(b, s, d);
            && c.nextSession == b.nextSession + 1 && c.nextDisplay == b.nextDisplay + 1
            && c.userSessions == b.userSessions && c.autologinDisplay == b.autologinDisplay
  {
  }

  lemma FinaliseCounts(b: Book, d: DisplayId)
    ensures var c := Finalise(b, d);
            && c.nextSession == b.nextSession && c.nextDisplay == b.nextDisplay
            && c.userSessions == b.userSessions && c.live == b.live - {d} && SessionOf(c, d) == None
  {
  }

  lemma BothWays(b: Book, s: SessionId, d: DisplayId)
    requires Paired(b)
    ensures DisplayOf(b, s) == Some(d) <==> SessionOf(b, d) == Some(s)
  {
  }

  lemma LiveIsOld(b: Book, d: DisplayId)
    requires Known(b) && d in b.live
    ensures d < b.nextDisplay
  {
  }

  /** The links, the displays and the counters are the same. */
  ghost predicate SameLinks(b: Book, c: Book) {
    && (forall s: SessionId :: DisplayOf(c, s) == DisplayOf(b, s))
    && (forall d: DisplayId :: SessionOf(c, d) == SessionOf(b, d))
    && c.live == b.live && c.nextSession == b.nextSession && c.nextDisplay == b.nextDisplay
    && c.autologinDisplay == b.autologinDisplay
  }

  /**
   The session s has a display that is new; the display it had has a session
   that is new, unless that display is gone with its last reference.
   */
  ghost predicate Moved(b: Book, c: Book, s: SessionId, gone: bool) {
    var d := DisplayOf(b, s);
    && DisplayOf(c, s) == Some(b.nextDisplay) && SessionOf(c, b.nextDisplay) == Some(s)
    && DisplayOf(c, b.nextSession) == (if gone then None else d)
    && (d.Some? ==> SessionOf(c, d.value) == if gone then None else Some(b.nextSession))
    && (forall t: SessionId :: t != s && t != b.nextSession ==> DisplayOf(c, t) == DisplayOf(b, t))
    && c.live == b.live + {b.nextDisplay} - (if gone && d.Some? then {d.value} else {})
    && c.nextSession == b.nextSession + 1 && c.nextDisplay == b.nextDisplay + 1
  }

  /**
   What a queued start does: nothing when another session was switched to or
   the session keeps the greeter's terminal; otherwise the session moves. An
   automatic login without a client has its new display remembered, and its old
   one may go.
   */
  ghost predicate Ran(b: Book, c: Book, migrated: bool, reuse: bool, connected: bool, last: bool)
    requires b.ran < |b.queued|
  {
    var op := b.queued[b.ran];
    && c.ran == b.ran + 1 && c.userSessions == b.userSessions
    && if migrated || reuse then SameLinks(b, c)
       else
         var alone := op.autologin && !connected;
         && Moved(b, c, op.session, alone && last)
         && c.autologinDisplay == if alone then Some(b.nextDisplay) else b.autologinDisplay
  }

  lemma StartMeans(b: Book, migrated: bool, reuse: bool, connected: bool, last: bool)
    requires Paired(b) && Known(b) && b.ran < |b.queued|
    ensures Ran(b, Start(b, migrated, reuse, connected, last), migrated, reuse, connected, last)
  {
    hide Paired, Known, Move, Finalise, WatchAutologin;
    var op, b1 := b.queued[b.ran], b.(ran := b.ran + 1);
    OneMoreRan(b);
    var d := DisplayOf(b1, op.session);
    var e := Move(b1, op.session, d);
    MoveTies(b1, op.session);
    MoveCounts(b1, op.session, d);
    BothWays(e, op.session, b.nextDisplay);
    if d.Some? {
      DisplayIsLive(b1, op.session);
      LiveIsOld(b, d.value);
      BothWays(e, b.nextSession, d.value);
      FinaliseUnties(e, d.value);
      FinaliseCounts(e, d.value);
      BothWays(Finalise(e, d.value), op.session, b.nextDisplay);
      WatchMeans(Finalise(e, d.value), op.session, b.nextDisplay);
    }
    WatchMeans(e, op.session, b.nextDisplay);
    var c := Start(b, migrated, reuse, connected, last);
    var g := if op.autologin && !connected && last && d.Some? then Finalise(e, d.value) else e;
    if !migrated && !reuse {
      assert forall t: SessionId :: DisplayOf(c, t) == DisplayOf(g, t);
      assert forall t: SessionId :: DisplayOf(b1, t) == DisplayOf(b, t);
    }
  }

  lemma OneMoreRan(b: Book)
    requires Paired(b) && Known(b) && b.ran < |b.queued|
    ensures Paired(b.(ran := b.ran + 1)) && Known(b.(ran := b.ran + 1))
    ensures b.queued[b.ran].session < b.nextSession
  {
    var c := b.(ran := b.ran + 1);
    assert forall t: SessionId :: DisplayOf(c, t) == DisplayOf(b, t);
    assert forall d: DisplayId :: SessionOf(c, d) == SessionOf(b, d);
  }

  lemma {:induction false} RemoveFirstWithin(list: seq<SessionId>, s: SessionId)
    ensures forall t: SessionId :: t in RemoveFirst(list, s) ==> t in list
  {
    if list != [] {
      RemoveFirstWithin(list[1..], s);
    }
  }

  /** The handshake leaves the links alone. */
  lemma HandshakeKeeps(b: Book, s: SessionId, autologin: bool)
    requires Paired(b) && Known(b) && s < b.nextSession
    ensures forall connected :: Paired(Opened(b, s, autologin, connected)) && Known(Opened(b, s, autologin, connected))
    ensures forall ready :: Paired(ClientReady(b, s, autologin, ready)) && Known(ClientReady(b, s, autologin, ready))
  {
    forall connected ensures Paired(Opened(b, s, autologin, connected)) && Known(Opened(b, s, autologin, connected)) {
      OnlyQueue(b, Opened(b, s, autologin, connected));
    }
    forall ready ensures Paired(ClientReady(b, s, autologin, ready)) && Known(ClientReady(b, s, autologin, ready)) {
      OnlyQueue(b, ClientReady(b, s, autologin, ready));
    }
  }

  lemma OnlyQueue(b: Book, c: Book)
    requires Paired(b) && Known(b)
    requires c == b.(flags := c.flags, queued := c.queued, userSessions := c.userSessions)
    requires |b.queued| <= |c.queued| && forall i :: 0 <= i < |c.queued| ==> c.queued[i].session < b.nextSession
    requires forall t :: t in c.userSessions ==> t < b.nextSession
    ensures Paired(c) && Known(c)
  {
    assert forall t: SessionId :: DisplayOf(c, t) == DisplayOf(b, t);
    assert forall d: DisplayId :: SessionOf(c, d) == SessionOf(b, d);
  }

  lemma SmallStepKeeps(b: Book, e: Event)
    requires Paired(b) && Known(b) && Possible(b, e)
    requires e.DisplayMade? || e.SessionGone? || e.DisplayEnded?
    ensures Paired(Step(b, e)) && Known(Step(b, e))
  {
    var c := Step(b, e);
    assert c.displayOf == b.displayOf && c.sessionOf == b.sessionOf;
    if e.SessionGone? {
      RemoveFirstWithin(b.userSessions, e.session);
    }
    assert forall t: SessionId :: DisplayOf(c, t) == DisplayOf(b, t);
    assert forall d: DisplayId :: SessionOf(c, d) == SessionOf(b, d);
  }

  lemma StepKeeps(b: Book, e: Event)
    requires Paired(b) && Known(b)
    ensures Paired(Step(b, e)) && Known(Step(b, e))
  {
    hide Paired, Known, NewDisplay, CreateUserSession, Opened, ClientReady, Start, RemoveFirst, Ended, Finalise;
    if Possible(b, e) {
      match e
      case DisplayMade => SmallStepKeeps(b, e);
      case SetUp(d) => CreateUserSessionTies(b, d);
      case SessionOpened(s, autologin, connected) => HandshakeKeeps(b, s, autologin);
      case Ready(s, autologin, ready) => HandshakeKeeps(b, s, autologin);
      case IdleStart(migrated, reuse, connected, last) => StartKeeps(b, migrated, reuse, connected, last);
      case SessionGone(_) => SmallStepKeeps(b, e);
      case DisplayEnded(_) => SmallStepKeeps(b, e);
      case DisplayFinalised(d) => FinaliseUnties(b, d);
    }
  }

  /**
   In every reachable state the links are a one-to-one match between
   sessions and displays that are still there.
   */
  lemma {:induction false} LinksPaired(evs: seq<Event>)
    ensures Paired(Run(evs)) && Known(Run(evs))
  {
    if evs != [] {
      LinksPaired(evs[..|evs| - 1]);
      StepKeeps(Run(evs[..|evs| - 1]), evs[|evs| - 1]);
    }
  }

  /**
   What a session says that matters to its start. alone: it was opened by an
   automatic login with no client to wait for.
   */
  datatype Signal = Open(alone: bool) | Told(ready: bool)

  function Says(e: Event, s: SessionId): Option<Signal> {
    match e
    case SessionOpened(t, autologin, connected) => if t == s then Some(Open(autologin && !connected)) else None
    case Ready(t, _, ready) => if t == s then Some(Told(ready)) else None
    case _ => None
  }

  function Heard(evs: seq<Event>, s: SessionId): seq<Signal> {
    if evs == [] then []
    else
      var before, e := evs[..|evs| - 1], evs[|evs| - 1];
      if Possible(Run(before), e) && Says(e, s).Some? then Heard(before, s) + [Says(e, s).value] else Heard(before, s)
  }

  function Starts(queued: seq<Operation>, s: SessionId): nat {
    if queued == [] then 0
    else Starts(queued[..|queued| - 1], s) + if queued[|queued| - 1].session == s then 1 else 0
  }

  function Opens(sigs: seq<Signal>): nat {
    if sigs == [] then 0 else Opens(sigs[..|sigs| - 1]) + if sigs[|sigs| - 1].Open? then 1 else 0
  }

  /** Whether the go-ahead stands: as last told, unless nobody has to give it. */
  function GoAhead(sigs: seq<Signal>): bool {
    if sigs == [] then false
    else match sigs[|sigs| - 1]
      case Told(ready) => ready
      case Open(alone) => alone || GoAhead(sigs[..|sigs| - 1])
  }

  /**
   Whether an open session is being held back: it was opened without the
   go-ahead, and none has come since.
   */
  function HeldBack(sigs: seq<Signal>): bool {
    if sigs == [] then false
    else match sigs[|sigs| - 1]
      case Told(ready) => !ready && HeldBack(sigs[..|sigs| - 1])
      case Open(_) => !GoAhead(sigs)
  }

  /**
   The starts a session is due: one for each opening with the go-ahead, and
   one for each go-ahead that ends holding it back.
   */
  function Due(sigs: seq<Signal>): nat {
    if sigs == [] then 0
    else
      var before := sigs[..|sigs| - 1];
      Due(before) +
      match sigs[|sigs| - 1]
      case Told(ready) => if ready && HeldBack(before) then 1 else 0
      case Open(_) => if GoAhead(sigs) then 1 else 0
  }

  lemma StartsOneMore(queued: seq<Operation>, op: Operation, s: SessionId)
    ensures Starts(queued + [op], s) == Starts(queued, s) + if op.session == s then 1 else 0
  {
    assert (queued + [op])[..|queued|] == queued;
  }

  lemma HeardOneMore(sigs: seq<Signal>, sig: Signal)
    ensures (sigs + [sig])[..|sigs|] == sigs
  {
  }

  ghost predicate Follows(b: Book, s: SessionId, sigs: seq<Signal>) {
    FlagsOf(b, s) == Flags(GoAhead(sigs), HeldBack(sigs)) && Starts(b.queued, s) == Due(sigs)
  }

  /**
   The flags and the queue say about each session what it said itself,
   whatever the others did in between.
   */
  lemma {:induction false} FlagsFollowSignals(evs: seq<Event>, s: SessionId)
    ensures Follows(Run(evs), s, Heard(evs, s))
  {
    if evs != [] {
      var before, e := evs[..|evs| - 1], evs[|evs| - 1];
      FlagsFollowSignals(before, s);
      StepFollows(Run(before), e, s, Heard(before, s));
    }
  }

  lemma OpenedFollows(b: Book, t: SessionId, autologin: bool, connected: bool, s: SessionId, sigs: seq<Signal>)
    requires Follows(b, s, sigs)
    ensures Follows(Opened(b, t, autologin, connected), s,
                    if t == s then sigs + [Open(autologin && !connected)] else sigs)
  {
    hide Starts, GoAhead, HeldBack, Due;
    StartsOneMore(b.queued, Operation(t, autologin), s);
    SignalMeans(sigs, Open(autologin && !connected));
  }

  lemma ReadyFollows(b: Book, t: SessionId, autologin: bool, ready: bool, s: SessionId, sigs: seq<Signal>)
    requires Follows(b, s, sigs)
    ensures Follows(ClientReady(b, t, autologin, ready), s, if t == s then sigs + [Told(ready)] else sigs)
  {
    hide Starts, GoAhead, HeldBack, Due;
    StartsOneMore(b.queued, Operation(t, autologin), s);
    SignalMeans(sigs, Told(ready));
  }

  lemma SignalMeans(sigs: seq<Signal>, sig: Signal)
    ensures var more := sigs + [sig];
            match sig
            case Told(ready) =>
              && GoAhead(more) == ready && HeldBack(more) == (!ready && HeldBack(sigs))
              && Due(more) == Due(sigs) + if ready && HeldBack(sigs) then 1 else 0
            case Open(alone) =>
              && GoAhead(more) == (alone || GoAhead(sigs)) && HeldBack(more) == !GoAhead(more)
              && Due(more) == Due(sigs) + if GoAhead(more) then 1 else 0
  {
    HeardOneMore(sigs, sig);
  }

  lemma StepFollows(b: Book, e: Event, s: SessionId, sigs: seq<Signal>)
    requires Follows(b, s, sigs)
    ensures Follows(Step(b, e), s, if Possible(b, e) && Says(e, s).Some? then sigs + [Says(e, s).value] else sigs)
  {
    hide GoAhead, HeldBack, Due, Starts, Opened, ClientReady, Start, NewDisplay, CreateUserSession, Ended, Finalise;
    if Possible(b, e) {
      match e
      case SessionOpened(t, autologin, connected) => OpenedFollows(b, t, autologin, connected, s, sigs);
      case Ready(t, autologin, ready) => ReadyFollows(b, t, autologin, ready, s, sigs);
      case IdleStart(migrated, reuse, connected, last) => StartSilent(b, migrated, reuse, connected, last);
      case _ => QuietStep(b, e);
    }
  }

  lemma QuietStep(b: Book, e: Event)
    requires Possible(b, e)
    requires e.DisplayMade? || e.SetUp? || e.SessionGone? || e.DisplayEnded? || e.DisplayFinalised?
    ensures Step(b, e).flags == b.flags && Step(b, e).queued == b.queued
  {
    hide CreateUserSession, Finalise;
  }

  /** Running a start changes no flag and queues nothing. */
  lemma StartSilent(b: Book, migrated: bool, reuse: bool, connected: bool, last: bool)
    requires b.ran < |b.queued|
    ensures var c := Start(b, migrated, reuse, connected, last);
            c.flags == b.flags && c.queued == b.queued
  {
    hide Move, Finalise, WatchAutologin;
  }

  /**
   A session is started at most once for each time it was opened, and never
   both started and held back for the same opening.
   */
  lemma {:induction false} StartsWithinOpens(sigs: seq<Signal>)
    ensures Due(sigs) + (if HeldBack(sigs) then 1 else 0) <= Opens(sigs)
    ensures Opens(sigs) == 1 ==> Due(sigs) + (if HeldBack(sigs) then 1 else 0) == 1
    ensures !(GoAhead(sigs) && HeldBack(sigs))
  {
    if sigs != [] {
      StartsWithinOpens(sigs[..|sigs| - 1]);
    }
  }

  lemma StartsNeverExceedOpens(evs: seq<Event>, s: SessionId)
    ensures var b := Run(evs);
            Starts(b.queued, s) + (if FlagsOf(b, s).waitingToStart then 1 else 0) <= Opens(Heard(evs, s))
  {
    FlagsFollowSignals(evs, s);
    StartsWithinOpens(Heard(evs, s));
  }

  /**
   However one opening and any number of go-aheads and their withdrawals are
   interleaved: if the last word is a go-ahead, the start is queued once.
   */
  lemma OneStartInAnyOrder(evs: seq<Event>, s: SessionId)
    requires var sigs := Heard(evs, s); Opens(sigs) == 1 && sigs[|sigs| - 1] == Told(true)
    ensures Starts(Run(evs).queued, s) == 1
  {
    FlagsFollowSignals(evs, s);
    StartsWithinOpens(Heard(evs, s));
  }

  lemma {:induction false} DueAfterOpen(before: seq<Signal>, alone: bool, after: seq<Signal>)
    requires Opens(before) == 0
    requires forall i :: 0 <= i < |after| ==> after[i].Told?
    ensures Opens(before + [Open(alone)] + after) == 1
    ensures Due(before + [Open(alone)] + after) == if alone || GoAhead(before) || Told(true) in after then 1 else 0
    decreases |after|
  {
    var sigs := before + [Open(alone)] + after;
    if after == [] {
      assert sigs == before + [Open(alone)];
      HeardOneMore(before, Open(alone));
      StartsWithinOpens(before);
    } else {
      var less := after[..|after| - 1];
      assert after == less + [after[|after| - 1]];
      assert sigs[..|sigs| - 1] == before + [Open(alone)] + less;
      DueAfterOpen(before, alone, less);
      StartsWithinOpens(before + [Open(alone)] + less);
    }
  }

  /**
   A session opened once is started exactly when the go-ahead stood at the
   opening or was given at some time after it.
   */
  lemma StartedIff(evs: seq<Event>, s: SessionId, before: seq<Signal>, alone: bool, after: seq<Signal>)
    requires Heard(evs, s) == before + [Open(alone)] + after
    requires Opens(before) == 0 && forall i :: 0 <= i < |after| ==> after[i].Told?
    ensures Starts(Run(evs).queued, s) == 1 <==> alone || GoAhead(before) || Told(true) in after
    ensures Starts(Run(evs).queued, s) <= 1
  {
    FlagsFollowSignals(evs, s);
    DueAfterOpen(before, alone, after);
  }

  /** In every reachable state a start moves the session it was queued for exactly when it should. */
  lemma StartMovesSession(evs: seq<Event>, migrated: bool, reuse: bool, connected: bool, last: bool)
    requires Run(evs).ran < |Run(evs).queued|
    ensures Ran(Run(evs), Run(evs + [IdleStart(migrated, reuse, connected, last)]), migrated, reuse, connected, last)
  {
    hide Run, Ran, Start, Paired, Known;
    LinksPaired(evs);
    RunOneMore(evs, IdleStart(migrated, reuse, connected, last));
    StartMeans(Run(evs), migrated, reuse, connected, last);
  }

  lemma RunOneMore(evs: seq<Event>, e: Event)
    ensures Run(evs + [e]) == Step(Run(evs), e)
  {
    assert (evs + [e])[..|evs|] == evs;
    hide Step;
  }

  /** What is queued says for which session it is, and whether that logged in automatically. */
  lemma QueuedForSubject(b: Book, e: Event)
    ensures
      var c := Step(b, e);
      c.queued == b.queued ||
      match e
      case SessionOpened(s, autologin, _) => c.queued == b.queued + [Operation(s, autologin)]
      case Ready(s, autologin, _) => c.queued == b.queued + [Operation(s, autologin)]
      case _ => false
  {
    hide CreateUserSession, Start, Finalise;
    if e.IdleStart? && Possible(b, e) {
      StartSilent(b, e.migrated, e.reuse, e.connected, e.last);
    }
  }

  lemma {:induction false} RemoveFirstNone(list: seq<SessionId>, s: SessionId)
    requires s !in list
    ensures RemoveFirst(list, s) == list
  {
    if list != [] {
      RemoveFirstNone(list[1..], s);
    }
  }

  lemma {:induction false} RemoveFirstAt(list: seq<SessionId>, s: SessionId, i: nat)
    requires i < |list| && list[i] == s && s !in list[..i]
    ensures RemoveFirst(list, s) == list[..i] + list[i + 1..]
    decreases i
  {
    if i > 0 {
      assert list[..i] == [list[0]] + list[1..][..i - 1];
      RemoveFirstAt(list[1..], s, i - 1);
    }
  }

  /** An opened session joins the end of the list, and one that is gone leaves it at its first place. */
  lemma ListFollows(b: Book, e: Event)
    requires Possible(b, e)
    ensures
      var was, list := b.userSessions, Step(b, e).userSessions;
      match e
      case SessionOpened(s, _, _) => list == was + [s]
      case SessionGone(s) =>
        if s in was then exists i :: 0 <= i < |was| && was[i] == s && s !in was[..i] && list == was[..i] + was[i + 1..]
        else list == was
      case _ => list == was
  {
    hide CreateUserSession, Start, Finalise, RemoveFirst;
    match e
    case SetUp(d) => ListAside(b, Some(d));
    case IdleStart(migrated, reuse, connected, last) => StartLists(b, migrated, reuse, connected, last);
    case SessionGone(s) =>
      if s in b.userSessions {
        var i := FirstOf(b.userSessions, s);
        RemoveFirstAt(b.userSessions, s, i);
      } else {
        RemoveFirstNone(b.userSessions, s);
      }
    case DisplayFinalised(d) => FinaliseCounts(b, d);
    case _ =>
  }

  lemma ListAside(b: Book, d: Option<DisplayId>)
    ensures CreateUserSession(b, d).userSessions == b.userSessions
  {
  }

  lemma StartLists(b: Book, migrated: bool, reuse: bool, connected: bool, last: bool)
    requires b.ran < |b.queued|
    ensures Start(b, migrated, reuse, connected, last).userSessions == b.userSessions
  {
    hide Move, Finalise;
    var op, c := b.queued[b.ran], b.(ran := b.ran + 1);
    var d := DisplayOf(c, op.session);
    MoveCounts(c, op.session, d);
    if d.Some? {
      FinaliseCounts(Move(c, op.session, d), d.value);
    }
  }

  lemma {:induction false} FirstOf(list: seq<SessionId>, s: SessionId) returns (i: nat)
    requires s in list
    ensures i < |list| && list[i] == s && s !in list[..i]
    decreases |list|
  {
    if list[0] == s {
      i := 0;
    } else {
      i := FirstOf(list[1..], s);
      i := i + 1;
      assert list[..i] == [list[0]] + list[1..][..i - 1];
    }
  }

  /** The end of a display forgets it as the one of the automatic login, and nothing else. */
  lemma EndForgetsAutologin(b: Book, d: DisplayId)
    requires d in b.live
    ensures
      var c := Step(b, DisplayEnded(d));
      && c.autologinDisplay == (if b.autologinDisplay == Some(d) then None else b.autologinDisplay)
      && SameLinks(b.(autologinDisplay := c.autologinDisplay), c)
  {
  }
}
