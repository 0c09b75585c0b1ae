/**
 The shell-like expansion of a string (common/scdm-common.c): the one-pass
 scanner, a tokeniser it refines, and what the tokens are.
 */
module ShellExpand {

  import opened Basics

  /** A C string: the characters before its terminating NUL. */
  type CString = s: string | forall i :: 0 <= i < |s| ==> s[i] != '\0'

  datatype Token =
    | Plain(c: char)
    | Escape(c: char)
    | LoneBackslash
    | Comment(text: string)
    | Variable(name: string, braces: bool)
    | Invalid(run: string, braces: bool)

  /** g_ascii_isspace: the vertical tab is not among them. */
  predicate IsSpace(c: char) {
    c == ' ' || c == '\t' || c == '\n' || c == '\r' || c == '\U{0C}'
  }

  predicate IsVarChar(c: char, first: bool) {
    || (!first && '0' <= c <= '9')
    || c == '_'
    || 'a' <= c <= 'z'
    || 'A' <= c <= 'Z'
  }

  predicate IsName(s: string) {
    s != "" && forall i :: 0 <= i < |s| ==> IsVarChar(s[i], i == 0)
  }

  /** What a dollar form opens with, and the text it has after that. */
  function Open(braces: bool): string {
    if braces then ['$', '{'] else ['$']
  }

  function Body(t: Token): string
    requires t.Variable? || t.Invalid?
  {
    if t.Invalid? then t.run else if t.braces then t.name + ['}'] else t.name
  }

  /** The text a token was read from. */
  function Source(t: Token): string {
    match t
    case Plain(c) => [c]
    case Escape(c) => ['\\', c]
    case LoneBackslash => ['\\']
    case Comment(text) => text
    case Variable(_, _) => Open(t.braces) + Body(t)
    case Invalid(_, _) => Open(t.braces) + Body(t)
  }

  /** The text a token puts in the result. */
  function Emit(t: Token, expander: string -> Option<string>): string {
    match t
    case Plain(c) => [c]
    case Escape(c) => if c == '\\' || c == '$' || c == '#' then [c] else ['\\', c]
    case LoneBackslash => ""
    case Comment(_) => ""
    case Variable(name, _) => if expander(name).Some? then expander(name).value else ""
    case Invalid(_, _) => Source(t)
  }

  /**
   Whether a comment may start after the token. Only plain characters decide
   it afresh: an escape or a variable leaves it as it was.
   */
  function After(t: Token, atNewWord: bool): bool {
    if t.Plain? then IsSpace(t.c) else atNewWord
  }

  /** How many characters of s belong to the variable name it starts with. */
  function Run(s: string, first: bool): (n: nat)
    ensures n <= |s|
    ensures forall i :: 0 <= i < n ==> IsVarChar(s[i], first && i == 0)
    ensures n == |s| || !IsVarChar(s[n], first && n == 0)
  {
    if s == "" || !IsVarChar(s[0], first) then 0 else 1 + Run(s[1..], false)
  }

  function Head(s: string, atNewWord: bool): (t: Token)
    requires s != ""
    ensures 1 <= |Source(t)| <= |s|
  {
    if s[0] == '\\' then
      if |s| == 1 then LoneBackslash else Escape(s[1])
    else if s[0] == '#' && atNewWord then Comment(s)
    else if s[0] == '$' then DollarHead(s)
    else Plain(s[0])
  }

  function DollarHead(s: string): (t: Token)
    requires s != "" && s[0] == '$'
    ensures 1 <= |Source(t)| <= |s|
    ensures t.Variable? || t.Invalid?
  {
    if |s| > 1 && s[1] == '{' then Named(s[2..], true) else Named(s[1..], false)
  }

  /** The token that body makes after the opening. */
  function Named(body: string, braces: bool): (t: Token)
    ensures t.Variable? || t.Invalid?
    ensures t.braces == braces && |Body(t)| <= |body|
  {
    var n := Run(body, true);
    if n == 0 || (braces && (n == |body| || body[n] != '}'))
    then Invalid(body[..n], braces)
    else Variable(body[..n], braces)
  }

  function Tokens(s: string, atNewWord: bool): seq<Token>
    decreases |s|
  {
    if s == "" then []
    else
      var t := Head(s, atNewWord);
      [t] + Tokens(s[|Source(t)|..], After(t, atNewWord))
  }

  function Sources(ts: seq<Token>): string {
    if ts == [] then "" else Source(ts[0]) + Sources(ts[1..])
  }

  function Emits(ts: seq<Token>, expander: string -> Option<string>): string {
    if ts == [] then "" else Emit(ts[0], expander) + Emits(ts[1..], expander)
  }

  /** The names handed to the expander, in order. */
  function Names(ts: seq<Token>): seq<string> {
    if ts == [] then []
    else if ts[0].Variable? then [ts[0].name] + Names(ts[1..])
    else Names(ts[1..])
  }

  function AfterAll(ts: seq<Token>, atNewWord: bool): bool {
    if ts == [] then atNewWord else AfterAll(ts[1..], After(ts[0], atNewWord))
  }

  function Expand(s: string, expander: string -> Option<string>, atNewWord: bool): string {
    Emits(Tokens(s, atNewWord), expander)
  }

  /** The character under the scanner's pointer. */
  function At(s: CString, p: nat): char
    requires p <= |s|
  {
    if p < |s| then s[p] else '\0'
  }

  /**
   The scanner as written: one pointer, one flag, one growing string. asked
   records the names given to the expander.
   */
  method ShellExpand(str: CString, expander: string -> Option<string>) returns (s: string, asked: seq<string>)
    ensures s == Expand(str, expander, true)
    ensures asked == Names(Tokens(str, true))
  {
    hide Tokens, Head, Expand, Source, Emit, Names, Emits, Progress;
    Beginning(str, expander);
    s, asked := "", [];
    var p := 0;
    var atNewWord := true;
    while At(str, p) != '\0'
      invariant p <= |str| && Progress(str, p, s, asked, atNewWord, expander)
      decreases |str| - p
    {
      ProgressStep(str, p, s, asked, atNewWord, expander);
      ForEachCase(str[p..], atNewWord, expander);
      assert asked + [] == asked;
      var c := At(str, p);
      if c == '\\' {
        p, s := Backslash(str, p, expander, s, atNewWord);
      } else if c == '#' && atNewWord {
        Ending(str, p, s, asked, atNewWord, expander);
        return;
      } else if c == '$' {
        p, s, asked := Dollar(str, p, expander, s, asked);
      } else {
        p := p + 1;
        s := s + [c];
        atNewWord := IsSpace(c);
      }
    }
    Ending(str, p, s, asked, atNewWord, expander);
  }

  /** What has been written and what is still to be read make up the whole. */
  ghost predicate Progress(str: string, p: nat, s: string, asked: seq<string>, w: bool,
                           expander: string -> Option<string>)
    requires p <= |str|
  {
    && s + Expand(str[p..], expander, w) == Expand(str, expander, true)
    && asked + Names(Tokens(str[p..], w)) == Names(Tokens(str, true))
  }

  lemma Beginning(str: string, expander: string -> Option<string>)
    ensures Progress(str, 0, "", [], true, expander)
  {
    assert str[0..] == str;
  }

  lemma ProgressStep(str: string, p: nat, s: string, asked: seq<string>, w: bool,
                     expander: string -> Option<string>)
    requires p < |str| && Progress(str, p, s, asked, w, expander)
    ensures var t := Head(str[p..], w);
            && p + |Source(t)| <= |str|
            && Progress(str, p + |Source(t)|, s + Emit(t, expander),
                        asked + (if t.Variable? then [t.name] else []), After(t, w), expander)
  {
    hide Tokens, Head, Expand, Source, Emit, Names, Emits;
    var t := Head(str[p..], w);
    HeadExpands(str[p..], expander, w);
    var n := |Source(t)|;
    assert str[p..][n..] == str[p + n..];
  }

  /** The scan may stop at the end of the text or where nothing more comes of it. */
  lemma Ending(str: string, p: nat, s: string, asked: seq<string>, w: bool, expander: string -> Option<string>)
    requires p <= |str| && Progress(str, p, s, asked, w, expander)
    requires p == |str| || (w && str[p] == '#')
    ensures s == Expand(str, expander, true) && asked == Names(Tokens(str, true))
  {
    if p < |str| {
      CommentEndsIt(str[p..], expander);
    }
  }

  lemma ForEachCase(s: string, w: bool, expander: string -> Option<string>)
    requires s != ""
    ensures var t := Head(s, w);
            && 1 <= |Source(t)| <= |s|
            && (s[0] == '$' ==> t == DollarHead(s))
            && (s[0] != '\\' && s[0] != '$' && !(s[0] == '#' && w) ==>
                  t == Plain(s[0]) && |Source(t)| == 1 && Emit(t, expander) == [s[0]])
  {
  }

  /** The branch taken at a backslash. */
  method Backslash(str: CString, at: nat, ghost expander: string -> Option<string>, text: string,
                   ghost atNewWord: bool)
    returns (p: nat, s: string)
    requires at < |str| && str[at] == '\\'
    ensures var t := Head(str[at..], atNewWord);
            && p == at + |Source(t)| <= |str|
            && s == text + Emit(t, expander)
            && !t.Plain? && !t.Variable?
  {
    p, s := at + 1, text;
    var c := At(str, p);
    if c != '\0' {
      p := p + 1;
      if c == '\\' {
        s := s + ['\\'];
      } else if c == '$' {
        s := s + ['$'];
      } else if c == '#' {
        s := s + ['#'];
      } else {
        s := s + ['\\'];
        s := s + [c];
      }
    }
  }

  /** The end of the longest run of name characters at start. */
  method ScanName(str: CString, start: nat) returns (p: nat)
    requires start <= |str|
    ensures p == start + Run(str[start..], true) <= |str|
  {
    p := start;
    while At(str, p) != '\0' && IsVarChar(At(str, p), p == start)
      invariant start <= p <= |str|
      invariant p - start <= Run(str[start..], true)
      decreases |str| - p
    {
      assert At(str, p) == str[start..][p - start];
      p := p + 1;
    }
    assert p < |str| ==> str[p] == str[start..][p - start];
  }

  /** The branch taken at a dollar sign. */
  method Dollar(str: CString, at: nat, expander: string -> Option<string>, text: string, names: seq<string>)
    returns (p: nat, s: string, asked: seq<string>)
    requires at < |str| && str[at] == '$'
    ensures var t := DollarHead(str[at..]);
            && p == at + |Source(t)| <= |str|
            && s == text + Emit(t, expander)
            && asked == names + (if t.Variable? then [t.name] else [])
  {
    hide Run, DollarHead, Named, Source, Emit;
    p, s, asked := at, text, names;
    var brackets := false;
    p := p + 1;
    if At(str, p) == '{' {
      brackets := true;
      p := p + 1;
    }
    var start := p;
    DollarAt(str, at, brackets);
    p := ScanName(str, start);
    NamedAt(str, start, p, brackets, expander);
    if p == start || (brackets && At(str, p) != '}') {
      s := s + ['$'];
      if brackets {
        s := s + ['{'];
      }
      s := s + str[start..p];
    } else {
      var variable := str[start..p];
      if brackets && At(str, p) == '}' {
        p := p + 1;
      }
      asked := asked + [variable];
      var expanded := expander(variable);
      if expanded.Some? {
        s := s + expanded.value;
      }
    }
  }

  lemma DollarAt(str: CString, at: nat, braces: bool)
    requires at < |str| && str[at] == '$'
    requires braces <==> at + 1 < |str| && str[at + 1] == '{'
    ensures var start := if braces then at + 2 else at + 1;
            && start <= |str| && DollarHead(str[at..]) == Named(str[start..], braces)
  {
    var start := if braces then at + 2 else at + 1;
    assert str[at..][start - at..] == str[start..];
  }

  lemma NamedAt(str: CString, start: nat, p: nat, braces: bool, expander: string -> Option<string>)
    requires start <= |str| && p == start + Run(str[start..], true)
    ensures var t, name := Named(str[start..], braces), str[start..p];
            if p == start || (braces && At(str, p) != '}') then
              && t == Invalid(name, braces)
              && Source(t) == Open(braces) + name == Emit(t, expander)
            else
              && t == Variable(name, braces)
              && |Source(t)| == |Open(braces)| + |name| + (if braces then 1 else 0)
              && Emit(t, expander) == if expander(name).Some? then expander(name).value else ""
  {
    assert str[start..][..p - start] == str[start..p];
    assert p < |str| ==> str[start..][p - start] == str[p];
  }

  lemma HeadExpands(s: string, expander: string -> Option<string>, w: bool)
    requires s != ""
    ensures var t := Head(s, w);
            && Expand(s, expander, w) == Emit(t, expander) + Expand(s[|Source(t)|..], expander, After(t, w))
            && Names(Tokens(s, w)) ==
               (if t.Variable? then [t.name] else []) + Names(Tokens(s[|Source(t)|..], After(t, w)))
  {
    var t := Head(s, w);
    var rest := Tokens(s[|Source(t)|..], After(t, w));
    assert ([t] + rest)[1..] == rest;
  }

  lemma CommentEndsIt(s: string, expander: string -> Option<string>)
    requires s != "" && s[0] == '#'
    ensures Tokens(s, true) == [Comment(s)]
    ensures Names(Tokens(s, true)) == []
    ensures Expand(s, expander, true) == ""
  {
    assert s[|s|..] == "";
    assert Tokens(s, true) == [Comment(s)];
    assert Emits([Comment(s)], expander) == "" + Emits([], expander);
  }

  /** What a token may be, given the text that follows it. */
  predicate Legal(t: Token, atNewWord: bool, rest: string) {
    match t
    case Plain(c) => c != '\\' && c != '$' && !(c == '#' && atNewWord)
    case Escape(_) => true
    case LoneBackslash => rest == ""
    case Comment(text) => atNewWord && text != "" && text[0] == '#' && rest == ""
    case Variable(name, braces) =>
      IsName(name) && (braces || rest == "" || !IsVarChar(rest[0], false))
    case Invalid(run, braces) =>
      if braces then
        && (run == "" || IsName(run))
        && (rest == "" || (!IsVarChar(rest[0], run == "") && (rest[0] == '}' ==> run == "")))
      else run == "" && (rest == "" || (rest[0] != '{' && !IsVarChar(rest[0], true)))
  }

  /**
   A reading: every token is legal where it stands. A name ends only where no
   further character could belong to it, and an invalid form is one that no
   variable could have been read from.
   */
  predicate Reading(ts: seq<Token>, atNewWord: bool) {
    ts == [] ||
    (Legal(ts[0], atNewWord, Sources(ts[1..])) && Reading(ts[1..], After(ts[0], atNewWord)))
  }

  lemma NamedLegal(body: string, braces: bool, w: bool)
    requires !braces && body != "" ==> body[0] != '{'
    ensures var t := Named(body, braces); var rest := body[|Body(t)|..];
            body == Body(t) + rest && Legal(t, w, rest)
  {
    var t := Named(body, braces);
    var n := Run(body, true);
    assert forall i :: 0 <= i < n ==> body[i] == body[..n][i];
    assert n < |body| ==> body[n..][0] == body[n];
  }

  lemma SourceOfDollar(t: Token)
    requires t.Variable? || t.Invalid?
    ensures Source(t) == Open(t.braces) + Body(t)
  {
  }

  lemma DollarLegal(s: string, w: bool)
    requires s != "" && s[0] == '$'
    ensures var t := DollarHead(s); s == Source(t) + s[|Source(t)|..] && Legal(t, w, s[|Source(t)|..])
  {
    hide Named, Legal, Body, Source, Run;
    var braces := |s| > 1 && s[1] == '{';
    var start := if braces then 2 else 1;
    var t := Named(s[start..], braces);
    NamedLegal(s[start..], braces, w);
    assert s[..start] == Open(braces);
    var rest := s[start..][|Body(t)|..];
    SourceOfDollar(t);
    assert rest == s[|Source(t)|..];
    assert s[start..] == Body(t) + rest;
    assert s == Open(braces) + s[start..];
  }

  lemma HeadLegal(s: string, w: bool)
    requires s != ""
    ensures var t := Head(s, w); s == Source(t) + s[|Source(t)|..] && Legal(t, w, s[|Source(t)|..])
  {
    if s[0] == '$' {
      DollarLegal(s, w);
    }
  }

  /** A name that ends where no character could extend it is what Run measures. */
  lemma {:induction false} RunIsMaximal(name: string, rest: string, first: bool)
    requires forall i :: 0 <= i < |name| ==> IsVarChar(name[i], first && i == 0)
    requires rest == "" || !IsVarChar(rest[0], first && name == "")
    ensures Run(name + rest, first) == |name|
  {
    if name == "" {
      assert name + rest == rest;
    } else {
      assert (name + rest)[1..] == name[1..] + rest;
      RunIsMaximal(name[1..], rest, false);
    }
  }

  lemma NameIsNamed(t: Token, w: bool, rest: string)
    requires Legal(t, w, rest) && (t.Variable? || t.Invalid?)
    ensures Named(Body(t) + rest, t.braces) == t
    ensures !t.braces && Body(t) + rest != "" ==> (Body(t) + rest)[0] != '{'
  {
    var name := if t.Variable? then t.name else t.run;
    var more := if t.Variable? && t.braces then ['}'] + rest else rest;
    assert Body(t) + rest == name + more;
    RunIsMaximal(name, more, true);
    assert (name + more)[..|name|] == name;
  }

  lemma DollarIsHead(t: Token, w: bool, rest: string)
    requires Legal(t, w, rest) && (t.Variable? || t.Invalid?)
    ensures Source(t) != "" && Source(t)[0] == '$' && DollarHead(Source(t) + rest) == t
  {
    hide Named, Legal, Body;
    var s := Source(t) + rest;
    NameIsNamed(t, w, rest);
    var body := Body(t) + rest;
    assert s == Open(t.braces) + body;
    assert s[|Open(t.braces)|..] == body;
  }

  /** Only one token can be legal at the start of a text. */
  lemma LegalIsHead(t: Token, w: bool, rest: string)
    requires Legal(t, w, rest)
    ensures Source(t) != "" && Head(Source(t) + rest, w) == t
  {
    if t.Variable? || t.Invalid? {
      DollarIsHead(t, w, rest);
    } else if t.Comment? {
      assert t.text + rest == t.text;
    }
  }

  /** The tokens are a reading of the text, and the only one. */
  lemma {:induction false} TokensRead(s: string, w: bool)
    ensures Sources(Tokens(s, w)) == s && Reading(Tokens(s, w), w)
    decreases |s|
  {
    if s != "" {
      var t := Head(s, w);
      var rest := s[|Source(t)|..];
      HeadLegal(s, w);
      TokensRead(rest, After(t, w));
      assert Tokens(s, w)[1..] == Tokens(rest, After(t, w));
    }
  }

  lemma {:induction false} OnlyReading(ts: seq<Token>, w: bool)
    requires Reading(ts, w)
    ensures Tokens(Sources(ts), w) == ts
  {
    hide Head, Legal, After, Source;
    if ts != [] {
      var t, s := ts[0], Sources(ts);
      LegalIsHead(t, w, Sources(ts[1..]));
      assert s[|Source(t)|..] == Sources(ts[1..]);
      OnlyReading(ts[1..], After(t, w));
      assert ts == [t] + ts[1..];
    }
  }

  lemma {:induction false} TokensAreTheReading(s: string, w: bool, ts: seq<Token>)
    ensures ts == Tokens(s, w) <==> Reading(ts, w) && Sources(ts) == s
  {
    TokensRead(s, w);
    if Reading(ts, w) && Sources(ts) == s {
      OnlyReading(ts, w);
    }
  }

  lemma {:induction false} EmitsSplit(ts: seq<Token>, expander: string -> Option<string>, k: nat)
    requires k <= |ts|
    ensures Emits(ts, expander) == Emits(ts[..k], expander) + Emits(ts[k..], expander)
  {
    if k != 0 {
      EmitsSplit(ts[1..], expander, k - 1);
      assert ts[..k][1..] == ts[1..][..k - 1] && ts[k..] == ts[1..][k - 1..];
    } else {
      assert ts[0..] == ts;
    }
  }

  /**
   After any number of tokens, what is left is tokenised on its own, from
   where the tokens ended and with the flag they left.
   */
  lemma {:induction false} TokensSplit(s: string, w: bool, k: nat)
    requires k <= |Tokens(s, w)|
    ensures var read := Tokens(s, w)[..k]; var a := |Sources(read)|;
            && a <= |s| && s[..a] == Sources(read)
            && Tokens(s, w)[k..] == Tokens(s[a..], AfterAll(read, w))
    decreases k
  {
    hide Head, Source, After;
    var ts := Tokens(s, w);
    if k == 0 {
      assert ts[..0] == [] && ts[0..] == ts && s[0..] == s;
    } else {
      var t := Head(s, w);
      var n := |Source(t)|;
      var us := Tokens(s[n..], After(t, w));
      HeadLegal(s, w);
      TokensSplit(s[n..], After(t, w), k - 1);
      OneMoreToken(s, t, us, w, k);
    }
  }

  lemma OneMoreToken(s: string, t: Token, us: seq<Token>, w: bool, k: nat)
    requires 1 <= k <= |us| + 1
    requires |Source(t)| <= |s| && s == Source(t) + s[|Source(t)|..]
    requires var b := |Sources(us[..k - 1])|;
             && b <= |s[|Source(t)|..]| && s[|Source(t)|..][..b] == Sources(us[..k - 1])
             && us[k - 1..] == Tokens(s[|Source(t)|..][b..], AfterAll(us[..k - 1], After(t, w)))
    ensures var read := ([t] + us)[..k]; var a := |Sources(read)|;
            && a <= |s| && s[..a] == Sources(read)
            && ([t] + us)[k..] == Tokens(s[a..], AfterAll(read, w))
  {
    hide Tokens, Head, Source;
    var n, b := |Source(t)|, |Sources(us[..k - 1])|;
    var read := ([t] + us)[..k];
    assert read[1..] == us[..k - 1] && read[0] == t;
    assert Sources(read) == Source(t) + Sources(us[..k - 1]);
    assert s[n..][b..] == s[n + b..];
    assert s[..n + b] == Source(t) + s[n..][..b];
    assert ([t] + us)[k..] == us[k - 1..];
  }

  /** Expansion splits at every token boundary, with the flag carried across. */
  lemma SplitsAtBoundaries(s: string, expander: string -> Option<string>, w: bool, k: nat)
    requires k <= |Tokens(s, w)|
    ensures var read := Tokens(s, w)[..k]; var a := |Sources(read)|;
            && a <= |s| && s[..a] == Sources(read)
            && Expand(s, expander, w) == Emits(read, expander) + Expand(s[a..], expander, AfterAll(read, w))
  {
    hide Tokens;
    TokensSplit(s, w, k);
    EmitsSplit(Tokens(s, w), expander, k);
  }

  /** Every name given to the expander is a variable name. */
  lemma {:induction false} NamesAreNames(s: string, w: bool)
    ensures forall name :: name in Names(Tokens(s, w)) ==> IsName(name)
    decreases |s|
  {
    if s != "" {
      var t := Head(s, w);
      HeadLegal(s, w);
      var rest := Tokens(s[|Source(t)|..], After(t, w));
      assert Tokens(s, w)[1..] == rest;
      NamesAreNames(s[|Source(t)|..], After(t, w));
    }
  }

  /**
   Text with no variable, comment or escape that stands for itself is kept as
   it is, invalid dollar forms included.
   */
  predicate Inert(t: Token) {
    t.Plain? || t.Invalid? || (t.Escape? && t.c != '\\' && t.c != '$' && t.c != '#')
  }

  predicate AllInert(ts: seq<Token>) {
    forall t :: t in ts ==> Inert(t)
  }

  lemma {:induction false} InertTextUnchanged(s: string, expander: string -> Option<string>, w: bool)
    requires AllInert(Tokens(s, w))
    ensures Expand(s, expander, w) == s
    decreases |s|
  {
    if s != "" {
      var t := Head(s, w);
      var rest := s[|Source(t)|..];
      HeadLegal(s, w);
      var us := Tokens(rest, After(t, w));
      assert Tokens(s, w) == [t] + us;
      assert forall u :: u in us ==> u in Tokens(s, w);
      InertTextUnchanged(rest, expander, After(t, w));
      HeadExpands(s, expander, w);
      assert t in Tokens(s, w);
    }
  }

  /** With no variable set, anything but inert text comes out shorter. */
  lemma {:induction false} ShorterUnlessInert(s: string, expander: string -> Option<string>, w: bool)
    requires forall name :: expander(name) == None
    ensures |Expand(s, expander, w)| <= |s|
    ensures !AllInert(Tokens(s, w)) ==> |Expand(s, expander, w)| < |s|
    decreases |s|
  {
    if s != "" {
      var t := Head(s, w);
      var rest := s[|Source(t)|..];
      HeadLegal(s, w);
      HeadExpands(s, expander, w);
      ShorterUnlessInert(rest, expander, After(t, w));
      assert Tokens(s, w) == [t] + Tokens(rest, After(t, w));
      assert |Emit(t, expander)| <= |Source(t)|;
      assert !Inert(t) ==> |Emit(t, expander)| < |Source(t)|;
    }
  }

  /**
   The texts that expansion leaves alone, whatever the variables are, are
   exactly the inert ones.
   */
  lemma UnchangedIffInert(s: string, w: bool)
    ensures (forall expander: string -> Option<string> :: Expand(s, expander, w) == s)
            <==> AllInert(Tokens(s, w))
  {
    if AllInert(Tokens(s, w)) {
      forall expander: string -> Option<string> ensures Expand(s, expander, w) == s {
        InertTextUnchanged(s, expander, w);
      }
    } else {
      ShorterUnlessInert(s, (name: string) => None, w);
    }
  }

  function Quote(s: string): string {
    if s == "" then ""
    else (if s[0] == '\\' || s[0] == '$' || s[0] == '#' then ['\\', s[0]] else [s[0]]) + Quote(s[1..])
  }

  /**
   Quoting a string and expanding it gives it back, whatever the expander
   knows and wherever the string stands.
   */
  lemma {:induction false} QuoteThenExpand(s: string, expander: string -> Option<string>, w: bool)
    ensures Expand(Quote(s), expander, w) == s
    ensures Names(Tokens(Quote(s), w)) == []
  {
    if s != "" {
      var q := Quote(s);
      var t := Head(q, w);
      assert q[|Source(t)|..] == Quote(s[1..]);
      QuoteThenExpand(s[1..], expander, After(t, w));
      HeadExpands(q, expander, w);
    }
  }

  // ---- where comments start ----------------------------------------------------

  /** Text in which no character asks for anything. */
  predicate IsPlain(p: string) {
    forall i :: 0 <= i < |p| ==> p[i] != '\\' && p[i] != '$' && p[i] != '#'
  }

  /** A comment may start after the text: it ends in a space, or nothing came before. */
  predicate EndsWord(p: string, w: bool) {
    if p == "" then w else p[|p| - 1] in " \t\n\r\U{0C}"
  }

  lemma {:induction false} PlainFirst(p: string, r: string, expander: string -> Option<string>, w: bool)
    requires IsPlain(p)
    ensures Expand(p + r, expander, w) == p + Expand(r, expander, EndsWord(p, w))
  {
    hide Tokens;
    if p == "" {
      assert p + r == r;
    } else {
      HeadExpands(p + r, expander, w);
      assert (p + r)[1..] == p[1..] + r;
      PlainFirst(p[1..], r, expander, IsSpace(p[0]));
      hide IsSpace;
    }
  }

  /**
   A hash sign starts a comment exactly after a space and at the start;
   anywhere else it is kept, and what follows is not at the start of a word.
   */
  lemma HashStartsCommentIff(p: string, r: string, expander: string -> Option<string>, w: bool)
    requires IsPlain(p)
    ensures Expand(p + "#" + r, expander, w) ==
            if EndsWord(p, w) then p else p + "#" + Expand(r, expander, false)
  {
    var s := "#" + r;
    assert p + "#" + r == p + s;
    PlainFirst(p, s, expander, w);
    assert s[1..] == r;
    hide Tokens;
    if EndsWord(p, w) {
      CommentEndsIt(s, expander);
    } else {
      HeadExpands(s, expander, false);
    }
  }

  /** An escape between a space and the hash sign leaves the comment a comment. */
  lemma EscapeBeforeComment(p: string, c: char, r: string, expander: string -> Option<string>, w: bool)
    requires IsPlain(p) && EndsWord(p, w)
    ensures Expand(p + ['\\', c] + "#" + r, expander, w) ==
            p + (if c == '\\' || c == '$' || c == '#' then [c] else ['\\', c])
  {
    hide Tokens, Expand;
    var s := ['\\', c] + ("#" + r);
    assert p + ['\\', c] + "#" + r == p + s;
    PlainFirst(p, s, expander, w);
    HeadExpands(s, expander, true);
    assert s[2..] == "#" + r;
    CommentEndsIt("#" + r, expander);
  }

  /** So does a variable, whatever its value. */
  lemma VariableBeforeComment(p: string, name: string, r: string, expander: string -> Option<string>, w: bool)
    requires IsPlain(p) && EndsWord(p, w) && IsName(name)
    ensures Expand(p + "${" + name + "}" + "#" + r, expander, w) == p + Value(name, expander)
  {
    hide Tokens, Expand;
    var s := "${" + name + "}" + ("#" + r);
    assert p + "${" + name + "}" + "#" + r == p + s;
    PlainFirst(p, s, expander, w);
    BracedExpands(name, "#" + r, expander, true);
    CommentEndsIt("#" + r, expander);
  }

  /** What takes the place of a variable: nothing when it is not set. */
  function Value(name: string, expander: string -> Option<string>): string {
    if expander(name).Some? then expander(name).value else ""
  }

  lemma BracedExpands(name: string, r: string, expander: string -> Option<string>, w: bool)
    requires IsName(name)
    ensures Expand("${" + name + "}" + r, expander, w) == Value(name, expander) + Expand(r, expander, w)
  {
    hide Tokens, Expand;
    var t := Variable(name, true);
    assert Source(t) == "${" + name + "}";
    LegalIsHead(t, w, r);
    HeadExpands(Source(t) + r, expander, w);
    assert (Source(t) + r)[|Source(t)|..] == r;
  }

  /** Without braces the name must end where the rest begins. */
  lemma UnbracedExpands(name: string, r: string, expander: string -> Option<string>, w: bool)
    requires IsName(name) && (r == "" || !IsVarChar(r[0], false))
    ensures Expand("$" + name + r, expander, w) == Value(name, expander) + Expand(r, expander, w)
  {
    hide Tokens, Expand;
    var t := Variable(name, false);
    assert Source(t) == "$" + name;
    LegalIsHead(t, w, r);
    HeadExpands(Source(t) + r, expander, w);
    assert (Source(t) + r)[|Source(t)|..] == r;
  }

  /** The last plain character was a space, or there was none at the start of a word. */
  ghost predicate SpaceLast(ts: seq<Token>, w: bool) {
    || (w && forall i :: 0 <= i < |ts| ==> !ts[i].Plain?)
    || exists j :: 0 <= j < |ts| && IsLastPlain(ts, j) && EndsWord([ts[j].c], false)
  }

  ghost predicate IsLastPlain(ts: seq<Token>, j: nat) {
    j < |ts| && ts[j].Plain? && forall i :: j < i < |ts| ==> !ts[i].Plain?
  }

  lemma {:induction false} AfterLast(ts: seq<Token>, w: bool)
    requires ts != []
    ensures AfterAll(ts, w) == After(ts[|ts| - 1], AfterAll(ts[..|ts| - 1], w))
  {
    hide After;
    if |ts| > 1 {
      AfterLast(ts[1..], After(ts[0], w));
      assert ts[1..][..|ts| - 2] == ts[..|ts| - 1][1..];
    }
  }

  lemma SpaceLastOneMore(ts: seq<Token>, t: Token, w: bool)
    ensures SpaceLast(ts + [t], w) <==> if t.Plain? then EndsWord([t.c], false) else SpaceLast(ts, w)
  {
    var us := ts + [t];
    if t.Plain? {
      assert IsLastPlain(us, |ts|);
      assert forall j :: 0 <= j < |us| && IsLastPlain(us, j) ==> j == |ts|;
    } else {
      assert forall j :: 0 <= j < |ts| && IsLastPlain(ts, j) ==> IsLastPlain(us, j);
      forall j | 0 <= j < |us| && IsLastPlain(us, j) ensures j < |ts| && IsLastPlain(ts, j) {
        assert forall i :: j < i < |ts| ==> ts[i] == us[i];
      }
      assert forall i :: 0 <= i < |ts| ==> us[i] == ts[i];
    }
  }

  lemma {:induction false} SpaceLastCarries(ts: seq<Token>, w: bool)
    ensures AfterAll(ts, w) <==> SpaceLast(ts, w)
    decreases |ts|
  {
    if ts != [] {
      var before, t := ts[..|ts| - 1], ts[|ts| - 1];
      SpaceLastCarries(before, w);
      AfterLast(ts, w);
      assert ts == before + [t];
      SpaceLastOneMore(before, t, w);
      hide SpaceLast;
    }
  }

  /**
   The next token after any others is a comment exactly when it begins with a
   hash sign and the last plain character was a space, or there was none and
   the text began a word.
   */
  lemma CommentIff(s: string, w: bool, k: nat)
    requires k < |Tokens(s, w)|
    ensures var read := Tokens(s, w)[..k]; var a := |Sources(read)|;
            && a < |s| && s[..a] == Sources(read)
            && (Tokens(s, w)[k].Comment? <==> s[a] == '#' && SpaceLast(read, w))
  {
    hide SpaceLast;
    var read := Tokens(s, w)[..k];
    TokensSplit(s, w, k);
    SpaceLastCarries(read, w);
    var rest := s[|Sources(read)|..];
    assert Tokens(s, w)[k] == Tokens(s, w)[k..][0] == Tokens(rest, AfterAll(read, w))[0];
  }

  /** The expander is asked in the order of the text. */
  lemma {:induction false} NamesInOrder(ts: seq<Token>, us: seq<Token>)
    ensures Names(ts + us) == Names(ts) + Names(us)
  {
    if ts == [] {
      assert ts + us == us;
    } else {
      assert (ts + us)[1..] == ts[1..] + us;
      NamesInOrder(ts[1..], us);
    }
  }
}
