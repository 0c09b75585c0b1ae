/**
 The manager as it runs: object data and flags updated in place by event
 handlers. Every handler is proved to do to the whole book what the function
 of SessionBook says.
 */
module SessionManager {

  import opened Basics
  import opened SessionBook

  class Manager {
    var displayOf: map<SessionId, DisplayId>
    var sessionOf: map<DisplayId, SessionId>
    var live: set<DisplayId>
    var nextSession: SessionId
    var nextDisplay: DisplayId
    var userSessions: seq<SessionId>
    var flags: map<SessionId, Flags>
    var queued: seq<Operation>
    var ran: nat
    var autologinDisplay: Option<DisplayId>
    var watched: set<DisplayId>

    function Abs(): Book
      reads this
    {
      Book(displayOf, sessionOf, live, nextSession, nextDisplay, userSessions, flags, queued, ran,
           autologinDisplay, watched)
    }

    constructor ()
      ensures Abs() == EMPTY
    {
      displayOf, sessionOf, live, nextSession, nextDisplay := map[], map[], {}, 0, 0;
      userSessions, flags, queued, ran, autologinDisplay, watched := [], map[], [], 0, None, {};
    }

    method SetDisplay(s: SessionId, d: Option<DisplayId>)
      modifies this
      ensures Abs() == SessionBook.SetDisplay(old(Abs()), s, d)
    {
      if d.Some? {
        displayOf := displayOf[s := d.value];
      } else {
        displayOf := displayOf - {s};
      }
    }

    method CleanUserSession(s: SessionId)
      modifies this
      ensures Abs() == SessionBook.CleanUserSession(old(Abs()), s)
    {
      SetDisplay(s, None);
    }

    method SetSession(d: DisplayId, s: Option<SessionId>)
      modifies this
      ensures Abs() == SessionBook.SetSession(old(Abs()), d, s)
    {
      var before := if d in sessionOf then Some(sessionOf[d]) else None;
      if s.Some? {
        sessionOf := sessionOf[d := s.value];
      } else {
        sessionOf := sessionOf - {d};
      }
      if before.Some? {
        CleanUserSession(before.value);
      }
    }

    method CreateUserSessionForDisplay(d: Option<DisplayId>) returns (s: SessionId)
      modifies this
      ensures Abs() == CreateUserSession(old(Abs()), d)
      ensures s == old(nextSession)
    {
      s := nextSession;
      nextSession := s + 1;
      SetDisplay(s, d);
      if d.Some? {
        SetSession(d.value, Some(s));
      }
    }

    method CreateDisplayForUserSession(s: SessionId)
      modifies this
      ensures Abs() == CreateDisplay(old(Abs()), s)
    {
      var d := nextDisplay;
      live := live + {d};
      nextDisplay := d + 1;
      SetDisplay(s, Some(d));
      SetSession(d, Some(s));
    }

    method FinaliseDisplay(d: DisplayId)
      modifies this
      ensures Abs() == Finalise(old(Abs()), d)
    {
      SetSession(d, None);
      live := live - {d};
      if d in watched {
        autologinDisplay := None;
      }
      watched := watched - {d};
    }

    method StartUserSessionIfReady(s: SessionId, autologin: bool)
      modifies this
      ensures Abs() == StartIfReady(old(Abs()), s, autologin)
    {
      var f := FlagsOf(Abs(), s);
      if f.startWhenReady {
        flags := flags[s := f.(waitingToStart := false)];
        queued := queued + [Operation(s, autologin)];
      } else {
        flags := flags[s := f.(waitingToStart := true)];
      }
    }

    method OnUserSessionOpened(s: SessionId, autologin: bool, connected: bool)
      modifies this
      ensures Abs() == Opened(old(Abs()), s, autologin, connected)
    {
      userSessions := userSessions + [s];
      if autologin && !connected {
        flags := flags[s := FlagsOf(Abs(), s).(startWhenReady := true)];
      }
      StartUserSessionIfReady(s, autologin);
    }

    method OnClientReady(s: SessionId, autologin: bool, ready: bool)
      modifies this
      ensures Abs() == ClientReady(old(Abs()), s, autologin, ready)
    {
      var waiting := FlagsOf(Abs(), s).waitingToStart;
      flags := flags[s := FlagsOf(Abs(), s).(startWhenReady := ready)];
      if ready && waiting {
        StartUserSessionIfReady(s, autologin);
      }
    }

    /** The old link goes before the new ones come. */
    method MoveToNewDisplay(s: SessionId, d: Option<DisplayId>)
      modifies this
      ensures Abs() == Move(old(Abs()), s, d)
    {
      if d.Some? {
        SetSession(d.value, None);
      }
      SetDisplay(s, None);
      var _ := CreateUserSessionForDisplay(d);
      CreateDisplayForUserSession(s);
    }

    method OnStartUserSession(migrated: bool, reuse: bool, connected: bool, last: bool)
      requires ran < |queued|
      modifies this
      ensures Abs() == Start(old(Abs()), migrated, reuse, connected, last)
    {
      var op := queued[ran];
      ran := ran + 1;
      if migrated || reuse {
        return;
      }
      var d := DisplayOf(Abs(), op.session);
      MoveToNewDisplay(op.session, d);
      if op.autologin && !connected {
        if d.Some? && last {
          FinaliseDisplay(d.value);
        }
        var e := DisplayOf(Abs(), op.session);
        if e.Some? {
          autologinDisplay := e;
          watched := watched + {e.value};
        }
      }
    }

    method OnDisplayEnded(d: DisplayId)
      modifies this
      ensures Abs() == Ended(old(Abs()), d)
    {
      if autologinDisplay == Some(d) {
        autologinDisplay := None;
        watched := watched - {d};
      }
    }

    method RemoveUserSession(s: SessionId)
      modifies this
      ensures Abs() == old(Abs()).(userSessions := RemoveFirst(old(userSessions), s))
    {
      var i := 0;
      assert userSessions[0..] == userSessions;
      while i < |userSessions| && userSessions[i] != s
        invariant i <= |userSessions|
        invariant RemoveFirst(userSessions, s) == userSessions[..i] + RemoveFirst(userSessions[i..], s)
      {
        assert userSessions[i..][1..] == userSessions[i + 1..];
        i := i + 1;
      }
      if i < |userSessions| {
        assert userSessions[i..][1..] == userSessions[i + 1..];
        userSessions := userSessions[..i] + userSessions[i + 1..];
      }
    }

    /** The first opened session whose display this is. */
    method FindUserSessionForDisplay(d: DisplayId) returns (found: Option<SessionId>)
      requires Paired(Abs())
      ensures found == if d in sessionOf && sessionOf[d] in userSessions then Some(sessionOf[d]) else None
    {
      var i := 0;
      while i < |userSessions|
        invariant i <= |userSessions|
        invariant forall j :: 0 <= j < i ==> DisplayOf(Abs(), userSessions[j]) != Some(d)
      {
        var candidate := DisplayOf(Abs(), userSessions[i]);
        if candidate == Some(d) {
          assert SessionOf(Abs(), d) == Some(userSessions[i]);
          return Some(userSessions[i]);
        }
        i := i + 1;
      }
      if d in sessionOf {
        assert DisplayOf(Abs(), sessionOf[d]) == Some(d);
      }
      return None;
    }

    method Handle(e: Event)
      modifies this
      ensures Abs() == Step(old(Abs()), e)
    {
      if !Possible(Abs(), e) {
        return;
      }
      match e
      case DisplayMade =>
        live := live + {nextDisplay};
        nextDisplay := nextDisplay + 1;
      case SetUp(d) => var _ := CreateUserSessionForDisplay(Some(d));
      case SessionOpened(s, autologin, connected) => OnUserSessionOpened(s, autologin, connected);
      case Ready(s, autologin, ready) => OnClientReady(s, autologin, ready);
      case IdleStart(migrated, reuse, connected, last) => OnStartUserSession(migrated, reuse, connected, last);
      case SessionGone(s) => RemoveUserSession(s);
      case DisplayEnded(d) => OnDisplayEnded(d);
      case DisplayFinalised(d) => FinaliseDisplay(d);
    }

    /** Any run of events leaves the links paired. */
    method Serve(evs: seq<Event>)
      requires Abs() == EMPTY
      modifies this
      ensures Abs() == Run(evs) && Paired(Abs())
    {
      var i := 0;
      while i < |evs|
        invariant i <= |evs| && Abs() == Run(evs[..i])
      {
        Handle(evs[i]);
        assert evs[..i + 1][..i] == evs[..i];
        i := i + 1;
      }
      assert evs[..i] == evs;
      LinksPaired(evs);
    }
  }
}
