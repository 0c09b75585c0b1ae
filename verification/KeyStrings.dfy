/**
 The key strings of the settings, group/key[locale]=value
 (common/scdm-settings-desktop-backend.c).
 */
module KeyStrings {

  import opened Basics
  import opened Strings

  datatype KeyString = KeyString(group: string, key: string, locale: Option<string>, value: Option<string>)

  /** g_strsplit (s, c, 2) of a string that is not empty. */
  function Cut(s: string, c: char): (string, Option<string>) {
    var i := IndexOf(s, c);
    if i == |s| then (s, None) else (s[..i], Some(s[i + 1..]))
  }

  /** The first [ stands before the first ]. */
  predicate HasLocale(k: string) {
    IndexOf(k, '[') < IndexOf(k, ']') < |k|
  }

  function Parse(s: string): Option<KeyString> {
    var (g, rest) := Cut(s, '/');
    if rest.None? || g == "" || rest.value == "" then None
    else
      var (k, v) := Cut(rest.value, '=');
      if HasLocale(k)
      then Some(KeyString(g, k[..IndexOf(k, '[')], Some(k[IndexOf(k, '[') + 1..IndexOf(k, ']')]), v))
      else Some(KeyString(g, k, None, v))
  }

  function Trimmed(p: KeyString): string {
    if p.locale.Some? then p.key + ['['] + p.locale.value + [']'] else p.key
  }

  function AfterGroup(p: KeyString): string {
    if p.value.Some? then Trimmed(p) + ['='] + p.value.value else Trimmed(p)
  }

  function Format(p: KeyString): string {
    p.group + ['/'] + AfterGroup(p)
  }

  /** The parts a separator could not be mistaken in. */
  predicate Separable(p: KeyString) {
    && p.group != "" && '/' !in p.group
    && '=' !in p.key
    && match p.locale
       case None => (p.key != "" || p.value.Some?) && !HasLocale(p.key)
       case Some(l) => '[' !in p.key && ']' !in p.key && '=' !in l && ']' !in l
  }

  lemma CutJoined(head: string, c: char, tail: string)
    requires c !in head
    ensures Cut(head + [c] + tail, c) == (head, Some(tail)) && Cut(head, c) == (head, None)
  {
    hide IndexOf;
    IndexOfFirst(head, c, tail);
    IndexOfNone(head, c);
    var s := head + [c] + tail;
    assert s[..|head|] == head && s[|head| + 1..] == tail;
  }

  lemma LocaleFound(k: string, l: string)
    requires '[' !in k && ']' !in k && ']' !in l
    ensures var s := k + ['['] + l + [']']; IndexOf(s, '[') == |k| && IndexOf(s, ']') == |k| + 1 + |l|
  {
    hide IndexOf;
    var s := k + ['['] + l + [']'];
    IndexOfFirst(k, '[', l + [']']);
    assert s == k + ['['] + (l + [']']);
    IndexOfFirst(k + ['['] + l, ']', "");
    assert s == (k + ['['] + l) + [']'] + "";
  }

  lemma TrimmedParses(p: KeyString)
    requires Separable(p)
    ensures var k := Trimmed(p);
            && '=' !in k
            && (HasLocale(k) <==> p.locale.Some?)
            && (HasLocale(k) ==> p.key == k[..IndexOf(k, '[')] &&
                                 p.locale.value == k[IndexOf(k, '[') + 1..IndexOf(k, ']')])
  {
    hide IndexOf;
    if p.locale.Some? {
      LocaleFound(p.key, p.locale.value);
    }
  }

  lemma FormatParses(p: KeyString)
    requires Separable(p)
    ensures Parse(Format(p)) == Some(p)
  {
    hide IndexOf, HasLocale, Cut;
    CutJoined(p.group, '/', AfterGroup(p));
    TrimmedParses(p);
    CutJoined(Trimmed(p), '=', if p.value.Some? then p.value.value else "");
    NotEmpty(p);
  }

  lemma NotEmpty(p: KeyString)
    requires Separable(p)
    ensures AfterGroup(p) != ""
  {
  }

  /** Whatever is parsed has separable parts. */
  lemma ParsedSeparable(s: string)
    requires Parse(s).Some?
    ensures Separable(Parse(s).value)
  {
    hide IndexOf;
    var p := Parse(s).value;
    var (g, rest) := Cut(s, '/');
    var (k, v) := Cut(rest.value, '=');
    IndexOfNone(rest.value, '=');
    assert '=' !in k;
    if HasLocale(k) {
      var a, b := IndexOf(k, '['), IndexOf(k, ']');
      assert forall i :: 0 <= i < a ==> p.key[i] == k[..b][i];
      assert forall i :: 0 <= i < b - a - 1 ==> p.locale.value[i] == k[..b][a + 1 + i];
    }
  }

  /**
   A key string gives back the parts it was made of exactly when they are
   separable.
   */
  lemma RoundTripIff(p: KeyString)
    ensures Parse(Format(p)) == Some(p) <==> Separable(p)
  {
    if Separable(p) {
      FormatParses(p);
    } else if Parse(Format(p)) == Some(p) {
      ParsedSeparable(Format(p));
    }
  }

  /** A key string is read exactly when it has a group and something after the slash that ends it. */
  lemma ReadIff(s: string)
    ensures Parse(s).Some? <==> exists g, rest :: Grouped(s, g, rest)
    ensures forall g, rest :: Grouped(s, g, rest) ==> Parse(s).value.group == g
  {
    hide HasLocale;
    var (g, rest) := Cut(s, '/');
    if Parse(s).Some? {
      assert s == g + ['/'] + rest.value;
      assert Grouped(s, g, rest.value);
    }
    forall g, rest | Grouped(s, g, rest) ensures Parse(s).Some? && Parse(s).value.group == g {
      CutJoined(g, '/', rest);
    }
  }

  ghost predicate Grouped(s: string, g: string, rest: string) {
    s == g + ['/'] + rest && g != "" && '/' !in g && rest != ""
  }

  /** What stands between a locale and the value is ignored. */
  lemma AfterLocaleIgnored(p: KeyString, junk: string)
    requires Separable(p) && p.locale.Some? && '=' !in junk
    ensures Parse(p.group + "/" + p.key + "[" + p.locale.value + "]" + junk +
                  (if p.value.Some? then "=" + p.value.value else "")) == Some(p)
  {
    hide IndexOf, HasLocale, Cut;
    var l := p.locale.value;
    var k := p.key + "[" + l + "]" + junk;
    var tail := if p.value.Some? then "=" + p.value.value else "";
    CutJoined(p.group, '/', k + tail);
    assert p.group + "/" + p.key + "[" + l + "]" + junk + tail == p.group + ['/'] + (k + tail);
    CutJoined(k, '=', if p.value.Some? then p.value.value else "");
    assert p.value.Some? ==> k + tail == k + ['='] + p.value.value;
    assert p.value.None? ==> k + tail == k;
    LocaleFoundBefore(p.key, l, junk);
  }

  lemma LocaleFoundBefore(k: string, l: string, junk: string)
    requires '[' !in k && ']' !in k && ']' !in l
    ensures var s := k + "[" + l + "]" + junk;
            && HasLocale(s) && s[..IndexOf(s, '[')] == k && s[IndexOf(s, '[') + 1..IndexOf(s, ']')] == l
  {
    hide IndexOf;
    var s := k + "[" + l + "]" + junk;
    assert s == k + ['['] + (l + "]" + junk);
    IndexOfFirst(k, '[', l + "]" + junk);
    assert s == (k + "[" + l) + [']'] + junk;
    IndexOfFirst(k + "[" + l, ']', junk);
  }
}
