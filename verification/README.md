# A verified model of the SCDM display manager

SCDM watches over seats. For every seat it keeps a display with a login screen,
hands the display or a new one to the user's session, replaces what fails, and
purges what is dead. This project models the parts of it that are hard to get
right, in Dafny, and proves what they promise for every input, every answer of
the outside and every run of events.

* `DisplayEngine`, `DisplayEvents`: the local display factory, the status
  machine of a display, the manager's answer to a status change, the store and
  the deferred purge, as functions on one state. A `World` answers every
  question to logind, the file system, the X server and the password database,
  and may answer the same question differently each time.
* `DisplayDaemon`: the same as classes whose fields change in place and whose
  methods call each other through the announcements of status changes. Each
  method is proved to do exactly what the function of its name says, so the
  results about the functions are results about the running daemon.
* `DisplayInvariant`, `DisplayCascade`, `DisplayRuns`: an invariant of all
  reachable states and its proof, change by change, through the mutual recursion
  and over runs.
* `DisplayTheorems`, `DisplayFailures`, `DisplaySeats`: the main results.
* `DisplayAnswers`, `DisplayScreens`, `DisplaySignals`: what each request, each
  answer of the outside and each event comes to, told by the displays, the store
  and the numbers before and after it, through every cascade it sets off.
* `DisplayWitnesses`: runs, of events that can be received, in which the code
  falls short of a promise.
* `DisplayNumbers`: the allocator of X display numbers.
* `SessionBook`, `SessionManager`: the links between sessions and displays,
  kept up through destroy notifiers, and the handshake that queues the start of
  a session; as functions, then as a class.
* `ShellExpand`: the one-pass scanner for `$NAME`, `${NAME}`, escapes and
  comments, and the tokeniser it refines.
* `ClientSweep`: the sweep over the X clients of a display.
* `LogRotation`, `ServerCommandLine`: logs and command line of the X server.
* `KeyStrings`, `SettingsStore`, `Settings`, `IntegerCodec`: key strings, the
  delayed save and the layers of the settings, and integer values.
* `GtkModules`: the rebuilding of `GTK_MODULES`.
* `Strings`, `Basics`: splitting and joining, and the option type.

## How the display life cycle is read

GObject declares the "notify" signal without recursion. A status set by a
handler of a running emission therefore restarts that emission and does not nest
a second one; emissions on other displays do nest. Setting the status through
`g_object_set` announces it even when it stays the same, setting it through
`_scdm_display_set_status` does not. The manager connects its handler before the
factory. All this is in `DisplayEngine.Notify`.

`finish_display_on_seat_if_waiting` is given a seat and never looks at it, so
waiting displays finish on every seat; the model follows the code. A transient
display that cannot be prepared stays in the store, as in the code.

The results about every run let any signal come at any time. When a signal can
be received is said by `DisplayEvents.CanCome`, and the runs that show a failure
keep to it.

Three things the code does not do for every input are stated as such:

* A display number is released when a stored display enters FINISHED, whoever
  holds it. Finishing a display keeps numbers safe exactly when no other live
  display has its number (`FinishSafeIff`), and they are safe over every run
  whose releases each hit a free number (`FreeReleasesSafe`). Runs of local
  displays that each end at most once are of that kind (`TameReleasesFree`,
  `DisplayNumbersSafe`). Two runs show that neither of these conditions can go
  (`EndingTwiceSharesNumber`, `RemoteEndFreesLocalNumber`).
* The comment above the resynchronisation after a logout promises a new login
  screen. A request makes a display exactly when no stored one is in the way and
  no login window is there to switch to (`CreatesIff`). The purge is deferred, so
  on a seat that holds one session the
  user's own finished display is in the way (`LogoutBlocked`), and a run ends
  with no login screen at all (`LogoutLeavesSeatEmpty`). In the same way a failed
  display is in the way of its replacement (`FailureBlocksItself`).
* The client sweep takes the resource mask for a run of low bits. It reaches
  exactly the clients if and only if it is one, or leaves only one client
  (`SweepExactIff`).

## Model

| member | source | states |
|---|---|---|
| DisplayEngine.CreateDisplay | daemon/scdm-local-display-factory.c:462-537 | the recursion of create, manage, unmanage and status handler ends for every pattern of failures; one request makes at most one display and one for each failure still answered, never takes anything out of the store, and stores all it makes |
| DisplayEngine.SetStatus | daemon/scdm-display.c:488-500 | a change of status, unless it ends a user's session, starts a cascade within the bound; the measure is how many failures are still answered |
| DisplayEngine.FactoryHandler | daemon/scdm-local-display-factory.c:331-427 | the factory's answer to any status stays within the bound, the end of a user's session excepted, which starts afresh |
| DisplayEngine.OnFailed | daemon/scdm-local-display-factory.c:379-403 | a failure costs one unit of what is still answered and is answered with at most as many displays |
| DisplayEngine.SyncEach | daemon/scdm-local-display-factory.c:581-594 | synchronising makes at most one display for each listed seat and one for each failure still answered |
| DisplayEngine.Find | daemon/scdm-display-store.c:193-216 | what is found is stored and has the property; nothing is found only when no stored display has it |
| DisplayFailures.CascadeReachesBound | daemon/scdm-local-display-factory.c:379-403 | the bound is exact: where each X display fails, because its authority is not written or because its server does not start, a request makes one display and one for each failure still answered |
| DisplayFailures.UnregisteredFails | daemon/scdm-display.c:672-705 | unmanaging a display whose session never registered makes it FAILED; a stored local one is counted and a replacement asked for unless there were too many, a stored remote one only queues the purge |
| DisplayAnswers.CreateSpares | daemon/scdm-local-display-factory.c:462-537 | a request, with all the failures it answers, changes no display there was, except that the managed or waiting display of a login window may be switched to and end at that |
| DisplayAnswers.SyncSpares | daemon/scdm-local-display-factory.c:551-599 | synchronising the seats changes no other display either |
| DisplayAnswers.UnmanageMeans | daemon/scdm-display.c:672-705 | a display whose session registered becomes UNMANAGED and nothing else happens; any other becomes and stays FAILED, through all the answers to its failure; a failure that is heard queues the purge and, on a local display, is counted |
| DisplayAnswers.XServerDecides | daemon/scdm-legacy-display.c:234-245 | managing a new stored X display: without its authority it stays unmanaged, with a server that starts it is prepared and nothing is counted, and when the server does not start it is FAILED, the purge is queued and the failure counted |
| DisplayAnswers.LocalServerDecides | daemon/scdm-display.c:585-612 | a display with a server of its own is prepared and its greeter has a session at once, or it ends because the greeter's user is unknown |
| DisplayAnswers.UsableTold | daemon/scdm-manager.c:1495-1535 | a stored greeter's display that is prepared without a number or managed with one gets a session and nothing else changes, or it finishes and gives its number back when the greeter's user is unknown |
| DisplayAnswers.OtherwiseTold | daemon/scdm-local-display-factory.c:404-427 | any other status that is neither a failure nor an end is told without effect, but for the factory listening to a managed display |
| DisplayTheorems.ReplacementsBounded | daemon/scdm-local-display-factory.c:371-400 | in every run at most five replacements are asked for between two resets of the failure count |
| DisplayTheorems.DisplayNumbersSafe | daemon/scdm-local-display-factory.c:136-181 | in every run of local displays that end at most once, a numbered display that has not finished keeps its number reserved and shares it with none |
| DisplayTheorems.FinishSafeIff | daemon/scdm-local-display-factory.c:359-378 | finishing any display keeps numbers safe exactly when it is not stored, has finished before or no other live display has its number, a user's display up to the resynchronisation that follows |
| DisplayTheorems.EndSafeIff | daemon/scdm-local-display-factory.c:359-366 | an end breaks the safety of numbers exactly when it releases a number that another live display has, and records which it was |
| DisplayTheorems.FreeReleasesSafe | daemon/scdm-local-display-factory.c:136-181 | numbers are safe after every run, remote displays and repeated ends included, in which each release hit a number no other live display had |
| DisplayTheorems.TameReleasesFree | daemon/scdm-local-display-factory.c:359-364 | in a run of local displays that end at most once every release hits such a number |
| DisplayTheorems.ReservedExactly | daemon/scdm-local-display-factory.c:359-382 | in every run a reserved number belongs to a local display that has not finished while stored; in a run of local displays that end at most once the converse holds too, so seats that go away and purged failures keep theirs |
| DisplayWitnesses.EndingTwiceSharesNumber | daemon/scdm-manager.c:1959-1990 | a receivable run in which the session of a managed display fails to start twice before the purge leaves two live displays on number 0 |
| DisplayWitnesses.RemoteEndFreesLocalNumber | daemon/scdm-local-display-factory.c:359-364 | a receivable run in which the end of a managed remote display frees the number of a live local one, as the release does not look at where a display is |
| DisplayTheorems.DeadDisplaysWaitForPurge | daemon/scdm-display-factory.c:91-100 | in every run a finished or failed display in the store implies a pending purge |
| DisplayTheorems.PurgeTakesTheDead | daemon/scdm-display-factory.c:61-89 | a purge takes out exactly the dead displays and announces each of them, and changes no display and no number |
| DisplaySignals.SeatRemovedTakesItsOwn | daemon/scdm-local-display-factory.c:539-549 | when a seat goes away exactly its stored displays leave the store, whatever their status, and are announced; displays, numbers and the failure count stay, and nothing on the seat is in the way of a new display |
| DisplaySignals.PurgeIdleTakesTheDead | daemon/scdm-display-factory.c:79-89 | the idle purge takes exactly the dead while it is pending, and clears the mark |
| DisplaySignals.RemotePurgeTakesTheDead | daemon/scdm-display-factory.c:61-89 | the other factory's purge takes exactly the dead out at once, and leaves the pending mark |
| DisplaySignals.ServerUp | daemon/scdm-legacy-display.c:136-166 | a server that answers makes its display managed; a stored greeter's display with a number gets its session, or finishes and gives the number back when the greeter's user is unknown |
| DisplaySignals.ServerLost | daemon/scdm-legacy-display.c:168-188 | a lost server leaves a registered display UNMANAGED and any other FAILED, heard once, counted and purged when stored, and spares the other displays |
| DisplaySignals.GreeterStoppedMeans | daemon/scdm-display.c:1475-1488 | a greeter that stops unmanages its managed display and queues its finish whatever the status, unless it has finished |
| DisplaySignals.SessionComes | daemon/scdm-manager.c:1817-1825 | a session that reuses the terminal makes the display a user's with its id, and a greeter's session only gives it the id |
| DisplaySignals.EndMeans | daemon/scdm-display.c:614-632 | after its end a display is FINISHED with no finish queued; a stored one queues the purge, and unless it was a local user's nothing happens but the release of its number |
| DisplaySignals.FinishIdleMeans | daemon/scdm-display.c:1475-1488 | the queued finish ends the display and spares the others; without one nothing happens |
| DisplaySignals.SessionEndedMeans | daemon/scdm-manager.c:1959-1980 | the end of a session leaves its display FINISHED even if it had ended before, spares the others and queues the purge when it was stored; a stored greeter's display gives up its number, and the end counts as a failure when the session had neither registered nor failed |
| DisplaySignals.TimeoutFinishesWaiting | daemon/scdm-local-display-factory.c:276-310 | when the timer runs out every stored display that waits has finished, unless it was switched to meanwhile, no other is touched, and the timer is spent |
| DisplaySignals.RegistrationFinishesWaiting | daemon/scdm-local-display-factory.c:312-329 | a session that registers on a display the factory listens to finishes the stored displays that wait in the same way; on any other it only registers |
| DisplaySignals.SessionMovesOut | daemon/scdm-manager.c:1826-1872 | a session with its own server gets a new stored user's display on seat0; the greeter's display waits to finish only during initial setup and leaves the store only after an automatic login |
| DisplayTheorems.SignalsBalance | daemon/scdm-display-store.c:74-87 | in every run the additions announced minus the removals announced are the size of the store |
| DisplayTheorems.OneDisplayPerSeat | daemon/scdm-local-display-factory.c:475-485 | in every run a seat other than seat0 that cannot hold several sessions never has two displays |
| DisplayTheorems.FailureBlocksItself | daemon/scdm-local-display-factory.c:379-403 | on a seat of one session a failed display is counted but not replaced, since it is still stored |
| DisplaySeats.CreatesIff | daemon/scdm-local-display-factory.c:475-537 | a request makes and stores a new display exactly when no stored display of the seat is in the way and no login window of the seat is switched to; otherwise it makes none and leaves the store alone |
| DisplayScreens.XScreenComesUp | daemon/scdm-local-display-factory.c:505-537 | a seat that lacks a display gets an X display on the least free number, PREPARED when its authority is written and its server starts, and otherwise FAILED, stored, counted and to be purged |
| DisplayScreens.OwnScreenComesUp | daemon/scdm-local-display-factory.c:505-537 | a display of seat0 with a server of its own reserves no number; it is PREPARED with its greeter's session, or FINISHED when the greeter's user is unknown |
| DisplayScreens.LoginWindowIff | daemon/scdm-local-display-factory.c:487-498 | the login window of a seat is the one stored display of its session, exactly while that is managed or waits to finish |
| DisplayScreens.WindowSwitchedTo | daemon/scdm-local-display-factory.c:487-503 | a request that finds the login window makes it managed again, whatever its status was, with what that brings, and changes no other display |
| DisplayScreens.ReplacementResembles | daemon/scdm-local-display-factory.c:379-403 | a replacement is for the seat of the failed display and as initial as it; with a server of its own it keeps the session type, but Wayland is given up |
| DisplayScreens.SeatNewComesUp | daemon/scdm-local-display-factory.c:601-614 | a seat that comes gets a stored X display that is not initial, prepared or failed as its authority and server decide |
| DisplayScreens.SyncScreenFor | daemon/scdm-local-display-factory.c:581-594 | synchronising gives seat0 an initial display, with Wayland where that is on and the display has a server of its own, and other seats plain X displays |
| DisplayScreens.TransientX | daemon/scdm-local-display-factory.c:235-261 | a transient X display is stored on the least free number and kept unmanaged when it cannot be prepared; a server that does not start makes it fail |
| DisplayScreens.TransientOwn | daemon/scdm-local-display-factory.c:235-261 | a transient display with a server of its own is initial, may use Wayland, and is prepared with its greeter's session |
| DisplayScreens.UserEndServes | daemon/scdm-local-display-factory.c:367-378 | the end of a user's stored display resets the failure count, and every seat logind lists then has a stored display or its login window was switched to |
| DisplayScreens.VtNoted | daemon/scdm-local-display-factory.c:750-764 | a switch to the same terminal is ignored and the first terminal only noted |
| DisplayScreens.VtLeft | daemon/scdm-local-display-factory.c:766-831 | a login window on the terminal that is left waits to finish exactly when it is managed and not doing initial setup, no other display changes, and the timer starts exactly when a registered session is shown on a terminal that is not the window's |
| DisplayScreens.VtInitialShowsLogin | daemon/scdm-local-display-factory.c:824-840 | a switch to the first terminal leaves seat0 with a stored display where no login window is running |
| DisplayTheorems.FinishBounded | daemon/scdm-local-display-factory.c:367-400 | the end of a user's stored display keeps the store and makes at most one display for each listed seat and one for each of the five failures then answered again; any other end makes none |
| DisplaySeats.SyncServes | daemon/scdm-local-display-factory.c:551-599 | after synchronising, every listed seat has a stored display, or its request found no stored display in the way but the running login window, and switched to it |
| DisplaySeats.LogoutBlocked | daemon/scdm-local-display-factory.c:367-378 | in every reachable state, on a seat of one session, the end of a user's stored display makes no display there: the one that ends is in the way of the login screen that its end asks for |
| DisplaySeats.OccupiedSeatBlocked | daemon/scdm-local-display-factory.c:469-485 | in every reachable state, on a seat of one session a stored display, finished or not, keeps synchronising from making another |
| DisplayWitnesses.LogoutLeavesSeatEmpty | daemon/scdm-local-display-factory.c:367-378 | a receivable run in which a display is managed, the only user of such a seat logs out, the seat is synchronised and the purge runs, and no display is left on the seat nor on its way |
| DisplayInvariant.LogRemovals | daemon/scdm-display-store.c:218-236 | removals lower the announced balance by as many displays as leave the store and leave the failure accounts alone |
| DisplayInvariant.ReleaseKeeps | daemon/scdm-local-display-factory.c:359-366 | releasing the number of a display that just finished keeps the invariant of all reachable states |
| DisplayInvariant.AddNumberedKeeps | daemon/scdm-local-display-factory.c:512-527 | storing a display on the least free number keeps the invariant |
| DisplayInvariant.RemoveKeeps | daemon/scdm-display-store.c:218-236 | taking displays out of the store keeps the invariant, and clears the need for a purge when all the dead are among them |
| DisplayCascade.CreateDisplayKeeps | daemon/scdm-local-display-factory.c:462-537 | the invariant holds after a request and every failure that follows from it |
| DisplayCascade.NotifyKeeps | daemon/scdm-display.c:488-500 | announcing a status keeps the invariant, with all the handlers do in answer |
| DisplayCascade.SyncSeatsKeeps | daemon/scdm-local-display-factory.c:551-599 | synchronising the seats keeps the invariant whatever seats are listed |
| DisplayCascade.TransientKeeps | daemon/scdm-local-display-factory.c:220-274 | requesting a transient display keeps the invariant |
| DisplayRuns.RunKeeps | daemon/scdm-local-display-factory.c:331-427 | the invariant holds after every sequence of events in every world |
| DisplayRuns.VtChangedKeeps | daemon/scdm-local-display-factory.c:693-842 | a switch of the virtual terminal keeps the invariant |
| DisplayNumbers.LeastFree | daemon/scdm-local-display-factory.c:158-173 | the number is not reserved, every smaller one is, and with k reserved it is at most k |
| DisplayNumbers.FirstHole | daemon/scdm-local-display-factory.c:136-181 | the walk of the sorted list finds the least number not reserved, with the wrap-around of 32 bits |
| DisplayNumbers.ListifyHash | daemon/scdm-local-display-factory.c:109-115 | the list has each reserved number once |
| DisplayNumbers.SortNums | daemon/scdm-local-display-factory.c:117-134 | sorting gives the same numbers in ascending order |
| DisplayDaemon.Daemon.TakeNextDisplayNumber | daemon/scdm-local-display-factory.c:136-181 | the least free number is returned and that number alone is added to the reserved ones |
| DisplayDaemon.Daemon.SetStatus | daemon/scdm-display.c:488-500 | the field is updated and announced only when it changes; the state is that of the specification, cascade included |
| DisplayDaemon.Daemon.SetStatusProperty | daemon/scdm-display.c:918-978 | a status set as a property is announced even when it stays the same |
| DisplayDaemon.Daemon.Notify | daemon/scdm-local-display-factory.c:909-926 | handlers run while the display is stored, the manager's before the factory's |
| DisplayDaemon.Daemon.ManagerHandler | daemon/scdm-manager.c:1495-1535 | a greeter's display that became usable gets a session, or ends at once when the greeter's user is unknown |
| DisplayDaemon.Daemon.ReleaseNumber | daemon/scdm-local-display-factory.c:359-366 | the number of the ended display leaves the reserved ones, whoever holds it, and the purge is queued |
| DisplayDaemon.Daemon.FactoryHandler | daemon/scdm-local-display-factory.c:331-427 | the factory's handler in place: it re-reads the status and leaves the state of the specification |
| DisplayDaemon.Daemon.OnFinished | daemon/scdm-local-display-factory.c:359-378 | the number is released, the purge queued, and after a user's session the count reset and the seats synchronised |
| DisplayDaemon.Daemon.OnFailed | daemon/scdm-local-display-factory.c:379-403 | the number stays reserved, the purge is queued, and a local failure is counted and answered |
| DisplayDaemon.Daemon.Unmanage | daemon/scdm-display.c:672-705 | UNMANAGED when the session had registered, FAILED otherwise |
| DisplayDaemon.Daemon.Finish | daemon/scdm-display.c:614-632 | a queued finish is dropped and the display enters FINISHED |
| DisplayDaemon.Daemon.Prepare | daemon/scdm-display.c:557-583 | a display is prepared unless its X authority cannot be set up |
| DisplayDaemon.Daemon.Manage | daemon/scdm-display.c:585-612 | an unprepared display is prepared first, and one that cannot be is not managed |
| DisplayDaemon.Daemon.Launch | daemon/scdm-legacy-display.c:190-249 | an X server that does not start takes its display down |
| DisplayDaemon.Daemon.FindIn | daemon/scdm-display-store.c:193-216 | the walk of the table finds the first display with the property |
| DisplayDaemon.Daemon.LoginWindow | daemon/scdm-local-display-factory.c:487-498 | the display of the seat's login window, when it is managed or waiting to finish |
| DisplayDaemon.Daemon.CreateDisplay | daemon/scdm-local-display-factory.c:462-537 | the request in place, with every nested call, leaves the state of the specification and changes no object twice over |
| DisplayDaemon.Daemon.CreateTransientDisplay | daemon/scdm-local-display-factory.c:220-274 | a transient display is stored and managed, and stays stored when that fails |
| DisplayDaemon.Daemon.SyncSeats | daemon/scdm-local-display-factory.c:551-599 | logind is asked for its seats; a display is requested for each of them, and nothing when the call fails |
| DisplayDaemon.Daemon.SyncEach | daemon/scdm-local-display-factory.c:574-594 | the loop over the listed seats requests one display after the other |
| DisplayDaemon.Daemon.StoreAdd | daemon/scdm-display-store.c:238-261 | the display is a new object at the end of the table and announced as added |
| DisplayDaemon.Daemon.ForeachRemove | daemon/scdm-display-store.c:218-236 | exactly the displays with the property leave the table, each announced |
| DisplayDaemon.Daemon.DeleteDisplay | daemon/scdm-local-display-factory.c:539-549 | the displays of a removed seat leave the store, and their numbers stay reserved |
| DisplayDaemon.Daemon.Purge | daemon/scdm-display-factory.c:79-89 | the pending purge is spent and the dead leave the store |
| DisplayDaemon.Daemon.Drop | daemon/scdm-manager.c:1959-1980 | the display of a session that is gone is unmanaged, then finished |
| DisplayDaemon.Daemon.FinishWaiting | daemon/scdm-local-display-factory.c:276-302 | every display waiting to finish is taken down, on whatever seat |
| DisplayDaemon.Daemon.SelfDestruct | daemon/scdm-display.c:1475-1488 | a managed display is unmanaged and its finish queued unless it has finished |
| DisplayDaemon.Daemon.RegisterSession | daemon/scdm-local-display-factory.c:312-329 | a registered session takes the waiting displays down |
| DisplayDaemon.Daemon.GiveDisplay | daemon/scdm-manager.c:1822-1872 | a session with its own server gets a new display object, and an unused one leaves the store after automatic login |
| DisplayDaemon.Daemon.StopGreeterInBackground | daemon/scdm-local-display-factory.c:667-691 | a managed login window that is not doing initial setup is made to wait |
| DisplayDaemon.Daemon.OnVtChanged | daemon/scdm-local-display-factory.c:693-842 | the answer to a switch of terminals, from the one left to the initial one |
| DisplayDaemon.Daemon.HandleDisplay | daemon/scdm-legacy-display.c:136-188 | every signal of a display, its server or its session does what the specification says |
| DisplayDaemon.Daemon.Handle | daemon/scdm-local-display-factory.c:601-629 | every event, about a display or the daemon, does what the specification says |
| DisplayDaemon.Serve | daemon/scdm-local-display-factory.c:937-961 | a daemon that meets any events ends in the state the specification gives for that run: its stored dead wait for a purge, and its numbers are safe if each release hit a free one |
| SessionBook.LinksPaired | daemon/scdm-manager.c:2285-2290 | in every reachable state a session has a display exactly when that display has the session, only live displays are linked, and the automatic login's display is live |
| SessionBook.CreateUserSessionTies | daemon/scdm-manager.c:2399-2404 | a new session is tied to the display, its former session loses it, all others keep theirs |
| SessionBook.CreateDisplayPairedIff | daemon/scdm-manager.c:1633-1657 | giving a session a new display keeps the match exactly when the session had none |
| SessionBook.MoveTies | daemon/scdm-manager.c:1849-1860 | after a move the session has a display nobody had, its old display has a session nobody had, all others keep theirs |
| SessionBook.UntieUnties | daemon/scdm-manager.c:1852-1854 | dropping the old link frees both sides and leaves all others |
| SessionBook.FinaliseUnties | daemon/scdm-manager.c:2285-2290 | a display that is finalised leaves no session pointing at it |
| SessionBook.StartKeeps | daemon/scdm-manager.c:1776-1879 | every way a queued start can go keeps the match |
| SessionBook.StartMovesSession | daemon/scdm-manager.c:1788-1873 | in every reachable state a queued start leaves all links, displays and counters alone when it migrates or reuses the terminal; otherwise its session has the next new display, its old display has the next new session unless it is gone, all others keep theirs, and the automatic login's display is remembered exactly without a client |
| SessionBook.QueuedForSubject | daemon/scdm-manager.c:1897-1911 | what is queued is for the session that opened or was told of, with its own automatic-login mark |
| SessionBook.ListFollows | daemon/scdm-manager.c:1922-1980 | an opened session joins the end of the list, one that is gone leaves it at its first place, and no other event changes the list |
| SessionBook.EndForgetsAutologin | daemon/scdm-manager.c:1537-1560 | the end of a display forgets it as the automatic login's, exactly if it was, and changes no link |
| SessionBook.FlagsFollowSignals | daemon/scdm-manager.c:1897-1938 | the flags and queued starts of a session depend only on what that session said, in every interleaving with others |
| SessionBook.StartsNeverExceedOpens | daemon/scdm-manager.c:1897-1911 | in every run the starts queued for a session plus its waiting flag never exceed its openings |
| SessionBook.OneStartInAnyOrder | daemon/scdm-manager.c:2060-2084 | with one opening and any go-aheads and withdrawals, the last a go-ahead, exactly one start is queued, in whatever order they came |
| SessionBook.StartedIff | daemon/scdm-manager.c:1922-1938 | a session opened once is started exactly when the go-ahead stood at the opening or came later, and never twice |
| SessionManager.Manager.SetSession | daemon/scdm-manager.c:2400-2404 | the new value is in place before the notifier of the old one runs |
| SessionManager.Manager.CreateUserSessionForDisplay | daemon/scdm-manager.c:2292-2412 | the links change as the specification says, and the session returned is new |
| SessionManager.Manager.CreateDisplayForUserSession | daemon/scdm-manager.c:1633-1657 | the links change as the specification says |
| SessionManager.Manager.StartUserSessionIfReady | daemon/scdm-manager.c:1897-1911 | a ready session is queued and no longer waiting, another waits |
| SessionManager.Manager.OnUserSessionOpened | daemon/scdm-manager.c:1922-1938 | the session is listed, and ready at once when an automatic login has no client |
| SessionManager.Manager.OnClientReady | daemon/scdm-manager.c:2060-2084 | the go-ahead is noted and a waiting session queued |
| SessionManager.Manager.OnStartUserSession | daemon/scdm-manager.c:1776-1879 | a queued start migrates, reuses the terminal or moves the session |
| SessionManager.Manager.RemoveUserSession | daemon/scdm-manager.c:1973-1979 | the first entry of the session leaves the list |
| SessionManager.Manager.FindUserSessionForDisplay | daemon/scdm-manager.c:715-736 | the search finds the display's own session when it was opened, and nothing otherwise |
| SessionManager.Manager.Serve | daemon/scdm-manager.c:1776-1938 | any run of events ends in the state of the specification with the links matched |
| ShellExpand.ShellExpand | common/scdm-common.c:771-844 | the scanner ends, writes the expansion of the tokens, and asks the expander for the names of the variable tokens in order |
| ShellExpand.TokensAreTheReading | common/scdm-common.c:783-842 | the tokens are the only sequence whose texts make up the input and whose every token is legal where it stands: names are well-formed and maximal, invalid forms are those no variable can be read from |
| ShellExpand.SplitsAtBoundaries | common/scdm-common.c:783-842 | expansion splits at every token boundary when the new-word flag is carried across |
| ShellExpand.TokensSplit | common/scdm-common.c:783-842 | what is left after any number of tokens is tokenised on its own |
| ShellExpand.NamesAreNames | common/scdm-common.c:816-833 | every name given to the expander is a non-empty variable name |
| ShellExpand.InertTextUnchanged | common/scdm-common.c:823-828 | text of plain characters, invalid dollar forms and other escapes comes out as it is |
| ShellExpand.UnchangedIffInert | common/scdm-common.c:783-842 | expansion leaves a text alone for every expander exactly when it has no variable, comment, dropped backslash or shortened escape |
| ShellExpand.QuoteThenExpand | common/scdm-common.c:787-805 | a string with a backslash before each backslash, dollar and hash expands to itself, anywhere, and asks for no variable |
| ShellExpand.HashStartsCommentIff | common/scdm-common.c:806-807 | after plain text a hash sign starts a comment exactly behind a space or at the start of a word; anywhere else it is kept and the rest is expanded with no comment at its start |
| ShellExpand.CommentIff | common/scdm-common.c:806-840 | after any tokens the next hash sign opens a comment exactly when the last plain character was a space, or there was none and the text began a word |
| ShellExpand.EscapeBeforeComment | common/scdm-common.c:787-807 | an escape between a space and a hash sign leaves the comment a comment |
| ShellExpand.VariableBeforeComment | common/scdm-common.c:806-836 | so does a variable |
| ShellExpand.BracedExpands | common/scdm-common.c:808-836 | a variable in braces is replaced by its value, or by nothing when it is not set, and the rest expands as it would alone |
| ShellExpand.UnbracedExpands | common/scdm-common.c:808-836 | the same for a name without braces that ends where the rest begins |
| ShellExpand.NamesInOrder | common/scdm-common.c:829-833 | the expander is asked in the order of the text |
| ShellExpand.Dollar | common/scdm-common.c:808-836 | at a dollar sign the scanner reads one variable or invalid form and copies the expander's answer as it is |
| ShellExpand.ScanName | common/scdm-common.c:815-818 | the name loop stops after the longest run of name characters |
| ClientSweep.SweepExactIff | daemon/scdm-display.c:652-666 | the ids the loop reaches are exactly the clients if and only if the mask is a run of low bits or leaves a single client |
| ClientSweep.ReachedIsClient | daemon/scdm-display.c:652-666 | for a low-bits mask an id is reached exactly when its mask bits and its three top bits are zero |
| ClientSweep.Sweep | daemon/scdm-display.c:658-666 | for every mask but all ones the loop ends without wrap-around, and kills each multiple of the increment up to the highest client once, in order, and not the own base |
| ClientSweep.Connection.Disconnect | daemon/scdm-display.c:634-670 | without a connection nothing is killed; otherwise the sweep is made and the connection dropped |
| ClientSweep.AllOnesNeverAdvances | daemon/scdm-display.c:652-666 | a mask of all ones makes the increment zero and the loop stand still on client 0, the only id within its bound |
| LogRotation.HistoryKept | daemon/scdm-server.c:458-475 | after any number of starts slot i holds the log of i starts ago, or what was there at first that far back, and other files are untouched |
| LogRotation.SlotsDiffer | daemon/scdm-server.c:354-359 | the numbered names of a log are all different |
| LogRotation.Directory.RotateLogs | daemon/scdm-server.c:345-370 | one rotation moves every slot up by one, gaps included, empties the first and touches no other file |
| LogRotation.Directory.SetupLogfile | daemon/scdm-server.c:458-475 | a start rotates the logs and puts the new one, when it can be opened, in the first slot |
| ServerCommandLine.ResolveCommandLine | daemon/scdm-server.c:262-343 | for a non-empty command the vector is program, display, the other arguments in order, the selected options and a NULL, counted by argc and within the space allotted |
| ServerCommandLine.TcpAsConfigured | daemon/scdm-server.c:315-331 | unless the command asks for a remote session, a server that heeds the last word on TCP listens exactly when TCP is not disabled, whatever its default |
| ServerCommandLine.TcpLeftAlone | daemon/scdm-server.c:315-331 | with a remote session nothing on the line changes the default |
| ServerCommandLine.LineSpelt | daemon/scdm-server.c:294-335 | the whole line for every setting of the options |
| ServerCommandLine.NamesVtIff | daemon/scdm-server.c:283-287 | an argument names a terminal exactly when it is vt and one or two digits |
| ServerCommandLine.ScanArguments | daemon/scdm-server.c:278-291 | the scan finds whether any argument names a terminal or asks for a remote server |
| ServerCommandLine.CheckVt | daemon/scdm-server.c:283-287 | the test of characters accepts exactly vtN and vtNN |
| ServerCommandLine.ShiftDown | daemon/scdm-server.c:294-297 | every argument after the program moves down by one |
| KeyStrings.RoundTripIff | common/scdm-settings-desktop-backend.c:131-219 | a key string gives back group, key, locale and value exactly when no separator can be mistaken in them |
| KeyStrings.ParsedSeparable | common/scdm-settings-desktop-backend.c:171-195 | whatever is parsed has a non-empty group and parts free of their separators |
| KeyStrings.ReadIff | common/scdm-settings-desktop-backend.c:169-177 | a key string is read exactly when it has a group and something after its first slash, and the group is what stands before that slash |
| KeyStrings.AfterLocaleIgnored | common/scdm-settings-desktop-backend.c:189-195 | what stands between the locale and the value is dropped |
| SettingsStore.NothingIsLost | common/scdm-settings-desktop-backend.c:273-332 | in every run a clean backend that was read or saved agrees with its file, and it is dirty exactly when its timer is pending or its last save failed |
| SettingsStore.LastValueWins | common/scdm-settings-desktop-backend.c:334-379 | after any run an entry has the value last set for it, or the one it had |
| SettingsStore.BurstIsOneWrite | common/scdm-settings-desktop-backend.c:310-332 | any burst of sets, one of them at least with a key that can be read, is one write of the last value of each entry |
| SettingsStore.WritesWithinTimers | common/scdm-settings-desktop-backend.c:310-316 | there are no more writes than timers that ran |
| SettingsStore.SetThenGet | common/scdm-settings.c:75-150 | a set goes to the first layer; the same setting then reads as set and every other one as before |
| SettingsStore.FirstLayerAnswers | common/scdm-settings.c:89-107 | a setting has a value exactly when some layer has it and none before does, and is missing exactly when every layer lacks it |
| SettingsStore.GetValueIff | common/scdm-settings-desktop-backend.c:243-258 | a backend has a value exactly for the keys that name one of its entries |
| SettingsStore.ChangeAnnounced | common/scdm-settings-desktop-backend.c:334-379 | a set tells what the setting read before and what it is to be |
| SettingsStore.LoadedReads | common/scdm-settings-desktop-backend.c:243-258 | a new backend reads what its file has, or nothing when the file cannot be read |
| SettingsStore.FailedSaveKeepsFile | common/scdm-settings-desktop-backend.c:273-332 | a save that fails leaves file and entries as they were, the backend dirty and no timer pending |
| SettingsStore.ReadsItsWriteIff | common/scdm-settings.c:75-150 | a setting reads back as written exactly when its names are valid or it had that value already |
| SettingsStore.UnreadableKey | common/scdm-settings.c:128-147 | a key that cannot be parsed is refused by every layer and changes nothing |
| SettingsStore.LocaleIgnored | common/scdm-settings-desktop-backend.c:244-251 | keys are the same setting exactly when group and key agree, whatever the locale |
| Settings.DesktopBackend.SetValue | common/scdm-settings-desktop-backend.c:334-379 | the entry is stored, the backend dirty, the save queued and the old value announced |
| Settings.DesktopBackend.SaveSettingsTimer | common/scdm-settings-desktop-backend.c:273-316 | the timer saves a dirty backend, which stays dirty when that fails, and is spent |
| Settings.DesktopBackend.QueueSave | common/scdm-settings-desktop-backend.c:318-332 | a dirty backend has its timer pending, and never a second one |
| Settings.DesktopBackend.GetValue | common/scdm-settings-desktop-backend.c:221-271 | the value of the parsed key, if there is one |
| Settings.Layers.GetValue | common/scdm-settings.c:89-107 | the loop answers with the first layer that has the key |
| Settings.Layers.SetValue | common/scdm-settings.c:128-147 | the loop gives the value to the first layer that takes it and leaves the others |
| Settings.Layers.constructor | common/scdm-settings.c:186-209 | the run-time file is asked before the custom one |
| IntegerCodec.PrintThenParse | common/scdm-settings-utils.c:258-263 | every 32-bit int survives printing and parsing |
| IntegerCodec.ParsesIff | common/scdm-settings-utils.c:292-315 | a text is read as v exactly when it is blanks, a sign or none and digits that spell v, and v fits an int, for a long of any width |
| IntegerCodec.StrtolSpelt | common/scdm-settings-utils.c:300-301 | strtol reads all of such a text, with a range error exactly when the value does not fit a long |
| GtkModules.SetGtkModules | chooser/chooser-main.c:143-193 | the new value, split again, has the old modules in order and then those of the two that were missing |
| GtkModules.FillBackwards | chooser/chooser-main.c:182-187 | the backward index fills every slot of the vector, the NULL last, and turns the prepended list round |
| GtkModules.RebuiltModules | chooser/chooser-main.c:154-189 | no module is lost, moved or doubled through split and join |
| GtkModules.RebuildingTwice | chooser/chooser-main.c:143-193 | rebuilding twice is rebuilding once |
| GtkModules.LeftAloneIff | chooser/chooser-main.c:170-178 | a value is left as it is exactly when it names both modules already |
| GtkModules.MissingModulesFollow | chooser/chooser-main.c:170-178 | the modules stay in front, and behind them come exactly those of the two that were missing, each once, gail first |
| Strings.SplitOfJoinIff | chooser/chooser-main.c:155-189 | joining and splitting again gives the pieces back unless all there is is one empty piece |

## Left out

- DisplayDaemon.Daemon.CreateDisplay: does not model activating a login window's session through logind, which answers nothing the factory looks at.
- DisplayEngine.Find: takes the hash table in the order of insertion, where the library promises no order; the results about login windows and shown sessions are about the first that is found.
- DisplayDaemon.Daemon.FinishWaiting: walks the displays stored when it begins; the library leaves open what a table walk does when displays are added meanwhile.
- DisplayDaemon.Daemon.ManagerHandler: records only that the display has a session; what the session is to the manager is in `SessionBook`, and the lookup of an automatic login's user and the chooser of remote hosts only delay or replace that session.
- DisplayTheorems.DisplayNumbersSafe: is about local displays that end at most once, since `FreeReleasesSafe` covers all other displays by what their ends release; both are about fewer than 2^32 display objects.
- DisplayTheorems.FinishSafeIff: stops, for a user's display, before the resynchronisation, which may end other displays.
- DisplaySeats.LogoutBlocked: is about displays made by the end itself; later events may still make one.
- The failure count is unbounded in the model and wraps after 2^32 failures in the code; display numbers of 2^31 and more, which the code converts to negative ints, are left out.
- Remote displays take part only by being stored, by their status and by the purge of their own factory; the connection to them is left out.
- Stopping the factory and the manager, which only drops everything.
- Reference counts of displays and sessions; a finalised display is an event that may come whenever the display exists.
- SessionBook.LinksPaired: does not follow reference counts of sessions, so it does not say when a session is freed.
- Start operations run in the order they were queued, as idle sources of one priority do; whether a start migrates to another session is an input.
- ClientSweep.Sweep: needs a mask that is not all ones, for which the loop of the code does not end.
- LogRotation.Directory.RotateLogs: takes unlinking and renaming to fail only for files that are not there.
- ServerCommandLine.ResolveCommandLine: starts from the parsed command; choosing the command and running the server are left out, as is a command that cannot be parsed, for which the code reads unset variables.
- KeyStrings.RoundTripIff: works on values, where the code cuts a private copy of the string in place.
- SettingsStore.NothingIsLost: takes a key file for its entries; how the library writes them as text, which names it accepts and writes by others to the file are left out. A backend that is finalised saves once more but leaves its timer behind; the model ends before that.
- Settings.Layers.GetValue: needs one backend, without which the code returns a variable it never set.
- IntegerCodec.ParsesIff: is in the C locale.
- Boolean and floating point settings, the schema parser and the change notifications between processes.
- Authorisation files, utmp records, plymouth, accounts, the greeter and the session workers: their answers are inputs.
- XDMCP packets, the host chooser and address handling.
