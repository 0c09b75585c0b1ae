/**
 The argument vector of the X server (daemon/scdm-server.c): built in place
 from the parsed command.
 */
module ServerCommandLine {

  import opened Basics
  import IntegerCodec

  datatype Options = Options(
    displayName: string,
    authFile: Option<string>,
    seatId: Option<string>,
    disableTcp: bool,
    localByDefault: bool,  // built for X servers that only listen locally unless told
    vtArgument: Option<string>)

  /** The character at i of a C string, its NUL included. */
  function At(s: string, i: nat): char
    requires i <= |s|
  {
    if i < |s| then s[i] else '\0'
  }

  /** vtN or vtNN: the server is told which virtual terminal to use. */
  predicate NamesVt(arg: string) {
    3 <= |arg| <= 4 && arg[0] == 'v' && arg[1] == 't' && forall i :: 2 <= i < |arg| ==> IntegerCodec.IsDigit(arg[i])
  }

  /** The word vt and a number of one or two digits, and nothing else. */
  lemma NamesVtIff(arg: string)
    ensures NamesVt(arg) <==>
            exists digits :: arg == "vt" + digits && 1 <= |digits| <= 2 && IntegerCodec.AllDigits(digits)
  {
    if NamesVt(arg) {
      var digits := arg[2..];
      assert arg == "vt" + digits && IntegerCodec.AllDigits(digits);
    }
  }

  predicate AsksRemote(arg: string) {
    arg == "-query" || arg == "-indirect"
  }

  predicate AnyNamesVt(args: seq<string>) {
    exists i :: 0 <= i < |args| && NamesVt(args[i])
  }

  predicate AnyAsksRemote(args: seq<string>) {
    exists i :: 0 <= i < |args| && AsksRemote(args[i])
  }

  function Pair(name: string, value: Option<string>): (r: seq<string>)
    ensures |r| <= 2
  {
    if value.Some? then [name, value.value] else []
  }

  function TcpOptions(o: Options, remote: bool): (r: seq<string>)
    ensures |r| <= 2
  {
    if remote then []
    else if o.localByDefault then (if o.disableTcp then [] else ["-listen", "tcp"])
    else (if o.disableTcp then ["-nolisten", "tcp"] else [])
  }

  /** What follows the arguments of the command. */
  function Appended(args: seq<string>, o: Options): (r: seq<string>)
    ensures |r| <= 7
  {
    Pair("-auth", o.authFile) + Pair("-seat", o.seatId) + TcpOptions(o, AnyAsksRemote(args)) +
    (if o.vtArgument.Some? && !AnyNamesVt(args) then [o.vtArgument.value] else [])
  }

  /**
   The whole command line: the program, the display, the other arguments as
   they were, the options.
   */
  function Resolved(args: seq<string>, o: Options): seq<string>
    requires args != []
  {
    [args[0], o.displayName] + args[1..] + Appended(args, o)
  }

  /** The test of one argument, character by character. */
  method CheckVt(arg: string) returns (got: bool)
    requires '\0' !in arg
    ensures got <==> NamesVt(arg)
  {
    got := |arg| >= 2 && arg[0] == 'v' && arg[1] == 't' &&
           IntegerCodec.IsDigit(At(arg, 2)) &&
           (At(arg, 3) == '\0' || (IntegerCodec.IsDigit(At(arg, 3)) && At(arg, 4) == '\0'));
  }

  method ScanArguments(args: seq<string>) returns (gotVt: bool, remote: bool)
    requires forall i :: 0 <= i < |args| ==> '\0' !in args[i]
    ensures gotVt <==> AnyNamesVt(args)
    ensures remote <==> AnyAsksRemote(args)
  {
    gotVt, remote := false, false;
    var i := 0;
    while i < |args|
      invariant i <= |args|
      invariant gotVt <==> exists j :: 0 <= j < i && NamesVt(args[j])
      invariant remote <==> exists j :: 0 <= j < i && AsksRemote(args[j])
    {
      var vt := CheckVt(args[i]);
      if vt {
        gotVt := true;
      }
      if AsksRemote(args[i]) {
        remote := true;
      }
      i := i + 1;
    }
  }

  /** Makes room for the display name after the program. */
  method ShiftDown(argv: array<Option<string>>, len: nat)
    requires 1 <= len < argv.Length
    modifies argv
    ensures argv[0] == old(argv[0])
    ensures forall j :: 2 <= j <= len ==> argv[j] == old(argv[j - 1])
  {
    var i := len - 1;
    while i >= 1
      invariant 0 <= i <= len - 1
      invariant forall j :: 0 <= j <= i ==> argv[j] == old(argv[j])
      invariant forall j :: i + 2 <= j <= len ==> argv[j] == old(argv[j - 1])
    {
      argv[i + 1] := argv[i];
      i := i - 1;
    }
  }

  /** The vector holds these arguments and len counts them. */
  ghost predicate Holds(argv: array<Option<string>>, len: nat, line: seq<string>)
    reads argv
  {
    len == |line| <= argv.Length && forall i :: 0 <= i < len ==> argv[i] == Some(line[i])
  }

  method Append(argv: array<Option<string>>, len: nat, arg: string, ghost line: seq<string>) returns (next: nat)
    requires Holds(argv, len, line) && len < argv.Length
    modifies argv
    ensures Holds(argv, next, line + [arg])
  {
    argv[len] := Some(arg);
    next := len + 1;
  }

  method AppendPair(argv: array<Option<string>>, len: nat, name: string, value: string, ghost line: seq<string>)
    returns (next: nat)
    requires Holds(argv, len, line) && len + 1 < argv.Length
    modifies argv
    ensures Holds(argv, next, line + [name, value])
  {
    next := Append(argv, len, name, line);
    next := Append(argv, next, value, line + [name]);
    assert line + [name] + [value] == line + [name, value];
  }

  method AppendValue(argv: array<Option<string>>, len: nat, name: string, value: Option<string>,
                     ghost line: seq<string>)
    returns (next: nat)
    requires Holds(argv, len, line) && len + 1 < argv.Length
    modifies argv
    ensures Holds(argv, next, line + Pair(name, value))
  {
    next := len;
    if value.Some? {
      next := AppendPair(argv, len, name, value.value, line);
    } else {
      assert line + Pair(name, value) == line;
    }
  }

  method AppendTcp(argv: array<Option<string>>, len: nat, o: Options, remote: bool, ghost line: seq<string>)
    returns (next: nat)
    requires Holds(argv, len, line) && len + 1 < argv.Length
    modifies argv
    ensures Holds(argv, next, line + TcpOptions(o, remote))
  {
    next := len;
    assert line + [] == line;
    if o.localByDefault {
      if !o.disableTcp && !remote {
        next := AppendPair(argv, len, "-listen", "tcp", line);
      }
    } else {
      if o.disableTcp && !remote {
        next := AppendPair(argv, len, "-nolisten", "tcp", line);
      }
    }
  }

  /** The enlarged vector with the display name in its place. */
  method Enlarge(args: seq<string>, displayName: string) returns (argv: array<Option<string>>, len: nat)
    requires args != []
    ensures fresh(argv) && argv.Length == |args| + 12
    ensures Holds(argv, len, [args[0], displayName] + args[1..])
  {
    len := |args|;
    argv := new Option<string>[len + 12](i => if 0 <= i < |args| then Some(args[i]) else None);
    ShiftDown(argv, len);
    argv[1] := Some(displayName);
    len := len + 1;
  }

  method ResolveCommandLine(args: seq<string>, o: Options) returns (argc: nat, argv: array<Option<string>>)
    requires args != []
    requires forall i :: 0 <= i < |args| ==> '\0' !in args[i]
    ensures fresh(argv) && argv.Length == |args| + 12
    ensures argc == |Resolved(args, o)| + 1 <= |args| + 9
    ensures Holds(argv, argc - 1, Resolved(args, o)) && argv[argc - 1] == None
  {
    hide Holds, Pair, TcpOptions, NamesVt, AsksRemote, AnyNamesVt, AnyAsksRemote;
    var gotVt, remote := ScanArguments(args);
    var len;
    argv, len := Enlarge(args, o.displayName);
    ghost var line := [args[0], o.displayName] + args[1..];
    Fits(argv, len, line);
    len := AppendValue(argv, len, "-auth", o.authFile, line);
    line := line + Pair("-auth", o.authFile);
    Fits(argv, len, line);
    len := AppendValue(argv, len, "-seat", o.seatId, line);
    line := line + Pair("-seat", o.seatId);
    Fits(argv, len, line);
    len := AppendTcp(argv, len, o, remote, line);
    line := line + TcpOptions(o, remote);
    Fits(argv, len, line);
    ghost var vt := if o.vtArgument.Some? && !gotVt then [o.vtArgument.value] else [];
    if o.vtArgument.Some? && !gotVt {
      len := Append(argv, len, o.vtArgument.value, line);
    } else {
      assert line + vt == line;
    }
    line := line + vt;
    ResolvedInSteps(args, o, line);
    Fits(argv, len, line);
    Terminate(argv, len, line);
    argc := len + 1;
  }

  method Terminate(argv: array<Option<string>>, len: nat, ghost line: seq<string>)
    requires Holds(argv, len, line) && len < argv.Length
    modifies argv
    ensures Holds(argv, len, line) && argv[len] == None
  {
    argv[len] := None;
  }

  lemma Fits(argv: array<Option<string>>, len: nat, line: seq<string>)
    requires Holds(argv, len, line)
    ensures len == |line|
  {
  }

  lemma ResolvedInSteps(args: seq<string>, o: Options, line: seq<string>)
    requires args != []
    requires line == [args[0], o.displayName] + args[1..] + Pair("-auth", o.authFile) + Pair("-seat", o.seatId) +
                     TcpOptions(o, AnyAsksRemote(args)) +
                     (if o.vtArgument.Some? && !AnyNamesVt(args) then [o.vtArgument.value] else [])
    ensures line == Resolved(args, o)
  {
    hide Pair, TcpOptions, AnyAsksRemote, AnyNamesVt;
  }

  // ---- what the line says --------------------------------------------------------

  /**
   The program, the display, the arguments, then the authority file and the
   seat, each named, then the word on TCP; the terminal comes last, and only if
   no argument names one.
   */
  lemma LineSpelt(args: seq<string>, o: Options)
    requires args != []
    ensures
      var told := !AnyAsksRemote(args) && o.disableTcp != o.localByDefault;
      var named := o.vtArgument.Some? && forall i :: 0 <= i < |args| ==> !NamesVt(args[i]);
      Resolved(args, o) ==
      ([args[0], o.displayName] + args[1..]) +
      ((if o.authFile.Some? then ["-auth", o.authFile.value] else []) +
       (if o.seatId.Some? then ["-seat", o.seatId.value] else []) +
       (if told then [if o.disableTcp then "-nolisten" else "-listen", "tcp"] else []) +
       (if named then [o.vtArgument.value] else []))
  {
    hide NamesVt, AnyAsksRemote;
  }

  /** Whether an X server started with the line listens on TCP: the last word on it counts. */
  ghost function ListensTcp(line: seq<string>, byDefault: bool): bool {
    if |line| < 2 then byDefault
    else if line[|line| - 1] == "tcp" && line[|line| - 2] == "-listen" then true
    else if line[|line| - 1] == "tcp" && line[|line| - 2] == "-nolisten" then false
    else ListensTcp(line[..|line| - 1], byDefault)
  }

  lemma {:induction false} NoTcpNoWord(line: seq<string>, byDefault: bool)
    requires forall i :: 0 <= i < |line| ==> line[i] != "tcp"
    ensures ListensTcp(line, byDefault) == byDefault
  {
    if |line| >= 2 {
      NoTcpNoWord(line[..|line| - 1], byDefault);
    }
  }

  /**
   Unless the command asks for a remote session, the server listens on TCP
   exactly when that is not disabled, whatever it would do by default. It is
   told so even against the command's own arguments, or left to its default
   when nothing on the line speaks of TCP.
   */
  lemma TcpAsConfigured(args: seq<string>, o: Options)
    requires args != [] && !AnyAsksRemote(args)
    requires o.disableTcp != o.localByDefault || !SpeaksOfTcp(args, o)
    ensures ListensTcp(Resolved(args, o), !o.localByDefault) == !o.disableTcp
  {
    if o.disableTcp == o.localByDefault {
      WordsFrom(args, o);
      NoTcpNoWord(Resolved(args, o), !o.localByDefault);
    } else {
      var before, vt := WordOnTcp(args, o);
      hide Resolved, AnyAsksRemote;
      LastWordCounts(before, if o.disableTcp then "-nolisten" else "-listen", vt, !o.localByDefault);
    }
  }

  lemma WordOnTcp(args: seq<string>, o: Options) returns (before: seq<string>, vt: seq<string>)
    requires args != [] && !AnyAsksRemote(args) && o.disableTcp != o.localByDefault
    ensures Resolved(args, o) == before + [if o.disableTcp then "-nolisten" else "-listen", "tcp"] + vt && |vt| <= 1
  {
    var tcp := [if o.disableTcp then "-nolisten" else "-listen", "tcp"];
    assert TcpOptions(o, false) == tcp;
    hide AnyAsksRemote, AnyNamesVt, Pair, TcpOptions;
    before := [args[0], o.displayName] + args[1..] + Pair("-auth", o.authFile) + Pair("-seat", o.seatId);
    vt := if o.vtArgument.Some? && !AnyNamesVt(args) then [o.vtArgument.value] else [];
  }

  lemma LastWordCounts(before: seq<string>, word: string, vt: seq<string>, byDefault: bool)
    requires (word == "-listen" || word == "-nolisten") && |vt| <= 1
    ensures ListensTcp(before + [word, "tcp"] + vt, byDefault) <==> word == "-listen"
  {
    var line := before + [word, "tcp"];
    assert line[|line| - 2] == word;
    assert ListensTcp(line, byDefault) <==> word == "-listen";
    if vt == [] {
      assert line + vt == line;
    } else {
      assert (line + vt)[..|line|] == line;
    }
  }

  /** With a remote session the line says nothing about TCP on its own. */
  lemma TcpLeftAlone(args: seq<string>, o: Options, byDefault: bool)
    requires args != [] && AnyAsksRemote(args) && !SpeaksOfTcp(args, o)
    ensures ListensTcp(Resolved(args, o), byDefault) == byDefault
  {
    WordsFrom(args, o);
    NoTcpNoWord(Resolved(args, o), byDefault);
  }

  /** A word that is given to the server says "tcp" by itself. */
  predicate SpeaksOfTcp(args: seq<string>, o: Options) {
    "tcp" in args || o.displayName == "tcp" || o.authFile == Some("tcp") || o.seatId == Some("tcp") ||
    o.vtArgument == Some("tcp")
  }

  lemma WordsFrom(args: seq<string>, o: Options)
    requires args != [] && !SpeaksOfTcp(args, o) && (AnyAsksRemote(args) || o.disableTcp == o.localByDefault)
    ensures forall i :: 0 <= i < |Resolved(args, o)| ==> Resolved(args, o)[i] != "tcp"
  {
    hide AnyAsksRemote, AnyNamesVt;
    assert forall x :: x in args[1..] ==> x in args;
    assert forall x :: x in Pair("-auth", o.authFile) ==> x == "-auth" || o.authFile == Some(x);
    assert forall x :: x in Pair("-seat", o.seatId) ==> x == "-seat" || o.seatId == Some(x);
    assert forall x :: x in Appended(args, o) ==> x != "tcp";
    assert forall x :: x in Resolved(args, o) ==> x != "tcp";
  }
}
