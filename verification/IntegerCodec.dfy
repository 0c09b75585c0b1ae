/**
 Printing and parsing integers (common/scdm-settings-utils.c), with strtol as
 section 7.22.1.4 of ISO/IEC 9899:2011 describes it.
 */
module IntegerCodec {

  import opened Basics

  const INT_MAX := 0x7FFF_FFFF
  const INT_MIN := -0x8000_0000

  predicate IsDigit(c: char) {
    '0' <= c <= '9'
  }

  predicate AllDigits(s: string) {
    forall i :: 0 <= i < |s| ==> IsDigit(s[i])
  }

  /** isspace in the C locale. */
  predicate IsBlank(c: char) {
    c == ' ' || c == '\t' || c == '\n' || c == '\U{0B}' || c == '\U{0C}' || c == '\r'
  }

  predicate AllBlank(s: string) {
    forall i :: 0 <= i < |s| ==> IsBlank(s[i])
  }

  function Digits(n: nat): (s: string)
    ensures s != "" && AllDigits(s)
  {
    var d := [('0' as int + n % 10) as char];
    if n < 10 then d else Digits(n / 10) + d
  }

  function DigitsValue(s: string): (v: int)
    requires AllDigits(s)
    ensures v >= 0
  {
    if s == "" then 0 else 10 * DigitsValue(s[..|s| - 1]) + (s[|s| - 1] as int - '0' as int)
  }

  lemma {:induction false} DigitsValueOf(n: nat)
    ensures DigitsValue(Digits(n)) == n
  {
    var s := Digits(n);
    if n >= 10 {
      DigitsValueOf(n / 10);
      assert s[..|s| - 1] == Digits(n / 10);
    }
  }

  /** printf ("%d"). */
  function Print(v: int): string {
    if v < 0 then ['-'] + Digits(-v) else Digits(v)
  }

  function BlanksAt(s: string): (n: nat)
    ensures n <= |s| && AllBlank(s[..n])
    ensures n < |s| ==> !IsBlank(s[n])
  {
    if s == "" || !IsBlank(s[0]) then 0
    else
      var n := BlanksAt(s[1..]);
      assert s[..n + 1] == [s[0]] + s[1..][..n];
      n + 1
  }

  function DigitsAt(s: string): (n: nat)
    ensures n <= |s| && AllDigits(s[..n])
    ensures n < |s| ==> !IsDigit(s[n])
  {
    if s == "" || !IsDigit(s[0]) then 0
    else
      var n := DigitsAt(s[1..]);
      assert s[..n + 1] == [s[0]] + s[1..][..n];
      n + 1
  }

  function LongMin(longMax: nat): int {
    0 - (longMax as int) - 1
  }

  /** value, the number of characters read, and whether errno becomes ERANGE. */
  datatype Conversion = Conversion(value: int, end: nat, rangeError: bool)

  /** strtol (s, &end, 10). longMax is the largest long. */
  function Strtol(s: string, longMax: nat): Conversion {
    var blanks := BlanksAt(s);
    var signed := blanks < |s| && (s[blanks] == '-' || s[blanks] == '+');
    var start := if signed then blanks + 1 else blanks;
    var digits := DigitsAt(s[start..]);
    if digits == 0 then Conversion(0, 0, false)
    else
      var magnitude := DigitsValue(s[start..][..digits]);
      var value := if signed && s[blanks] == '-' then -magnitude else magnitude;
      if value > longMax then Conversion(longMax, start + digits, true)
      else if value < LongMin(longMax) then Conversion(LongMin(longMax), start + digits, true)
      else Conversion(value, start + digits, false)
  }

  /** Assigning a long to an int keeps the low 32 bits. */
  function ToInt(long: int): int {
    (long - INT_MIN) % U32 + INT_MIN
  }

  function Parse(s: string, longMax: nat): Option<int> {
    var long := Strtol(s, longMax);
    if s == "" || long.end != |s| then None
    else
      var value := ToInt(long.value);
      if value != long.value || long.rangeError then None else Some(value)
  }

  /** What is accepted: blanks, a sign or none, and digits. */
  predicate Spells(s: string, blanks: string, sign: string, digits: string) {
    && s == blanks + sign + digits
    && AllBlank(blanks)
    && (sign == "" || sign == "+" || sign == "-")
    && digits != "" && AllDigits(digits)
  }

  function SpeltValue(sign: string, digits: string): int
    requires AllDigits(digits)
  {
    if sign == "-" then -DigitsValue(digits) else DigitsValue(digits)
  }

  lemma {:induction false} BlanksThen(blanks: string, rest: string)
    requires AllBlank(blanks) && (rest == "" || !IsBlank(rest[0]))
    ensures BlanksAt(blanks + rest) == |blanks|
  {
    if blanks == "" {
      assert blanks + rest == rest;
    } else {
      assert (blanks + rest)[1..] == blanks[1..] + rest;
      BlanksThen(blanks[1..], rest);
    }
  }

  lemma {:induction false} DigitsAll(s: string)
    requires AllDigits(s)
    ensures DigitsAt(s) == |s|
  {
    if s != "" {
      DigitsAll(s[1..]);
    }
  }

  lemma Cut(blanks: string, sign: string, digits: string)
    ensures var s := blanks + sign + digits;
            && s == blanks + (sign + digits)
            && s[|blanks|..] == sign + digits && s[|blanks| + |sign|..] == digits
  {
  }

  lemma FirstAfterBlanks(sign: string, digits: string)
    requires sign == "" || sign == "+" || sign == "-"
    requires digits != "" && AllDigits(digits)
    ensures var c := (sign + digits)[0];
            && !IsBlank(c)
            && (c == '-' <==> sign == "-")
            && (c == '-' || c == '+' <==> sign != "")
  {
    assert IsDigit(digits[0]);
    if sign == "" {
      assert sign + digits == digits;
    }
  }

  /** strtol finds the three parts of what a text spells. */
  lemma PartsFound(s: string, blanks: string, sign: string, digits: string)
    requires Spells(s, blanks, sign, digits)
    ensures var start := |blanks| + |sign|;
            && BlanksAt(s) == |blanks| < |s|
            && (s[|blanks|] == '-' <==> sign == "-")
            && (s[|blanks|] == '-' || s[|blanks|] == '+' <==> sign != "")
            && s[start..] == digits && DigitsAt(digits) == |digits| && digits[..|digits|] == digits
  {
    hide BlanksAt, DigitsAt, AllBlank, AllDigits, IsBlank;
    Cut(blanks, sign, digits);
    FirstAfterBlanks(sign, digits);
    BlanksThen(blanks, sign + digits);
    assert s[|blanks|] == s[|blanks|..][0];
    DigitsAll(digits);
  }

  lemma StrtolSpelt(s: string, blanks: string, sign: string, digits: string, longMax: nat)
    requires Spells(s, blanks, sign, digits)
    ensures var c, v := Strtol(s, longMax), SpeltValue(sign, digits);
            c.end == |s| && (c.rangeError <==> v > longMax || v < LongMin(longMax)) && (!c.rangeError ==> c.value == v)
  {
    hide BlanksAt, DigitsAt, DigitsValue;
    PartsFound(s, blanks, sign, digits);
  }

  lemma StrtolReads(s: string, longMax: nat) returns (blanks: string, sign: string, digits: string)
    requires s != "" && Strtol(s, longMax).end == |s|
    ensures Spells(s, blanks, sign, digits)
  {
    hide BlanksAt, DigitsAt, DigitsValue;
    var n := BlanksAt(s);
    var signed := n < |s| && (s[n] == '-' || s[n] == '+');
    var start := if signed then n + 1 else n;
    blanks, sign, digits := s[..n], s[n..start], s[start..];
    assert s[start..][..DigitsAt(s[start..])] == s[start..];
    assert s == blanks + sign + digits;
  }

  /** Text is read as v exactly when it spells v and v fits an int. */
  lemma ParsesIff(s: string, longMax: nat, v: int)
    requires longMax >= INT_MAX
    ensures Parse(s, longMax) == Some(v) <==>
            INT_MIN <= v <= INT_MAX &&
            exists blanks, sign, digits :: Spells(s, blanks, sign, digits) && v == SpeltValue(sign, digits)
  {
    if s != "" && Strtol(s, longMax).end == |s| {
      var blanks, sign, digits := StrtolReads(s, longMax);
      StrtolSpelt(s, blanks, sign, digits, longMax);
      forall b, g, d | Spells(s, b, g, d) ensures SpeltValue(g, d) == SpeltValue(sign, digits) {
        SpeltOnce(s, b, g, d, blanks, sign, digits);
      }
      TruncationShows(Strtol(s, longMax).value);
    } else {
      forall blanks, sign, digits ensures !Spells(s, blanks, sign, digits) {
        if Spells(s, blanks, sign, digits) {
          StrtolSpelt(s, blanks, sign, digits, longMax);
        }
      }
    }
  }

  lemma TruncationShows(long: int)
    ensures ToInt(long) == long <==> INT_MIN <= long <= INT_MAX
  {
  }

  /** There is one way to spell what a text spells. */
  lemma SpeltOnce(s: string, b0: string, g0: string, d0: string, b1: string, g1: string, d1: string)
    requires Spells(s, b0, g0, d0) && Spells(s, b1, g1, d1)
    ensures b0 == b1 && g0 == g1 && d0 == d1
  {
    assert s == b0 + (g0 + d0) == b1 + (g1 + d1);
    BlanksThen(b0, g0 + d0);
    BlanksThen(b1, g1 + d1);
    assert b0 == s[..|b0|] == b1;
    assert g0 + d0 == s[|b0|..] == g1 + d1;
    assert |g0| == (if IsDigit(s[|b0|]) then 0 else 1) == |g1|;
    assert g0 == (g0 + d0)[..|g0|] && d0 == (g0 + d0)[|g0|..];
    assert g1 == (g1 + d1)[..|g1|] && d1 == (g1 + d1)[|g1|..];
  }

  /** Every int survives printing and parsing. */
  lemma PrintThenParse(v: int, longMax: nat)
    requires INT_MIN <= v <= INT_MAX && longMax >= INT_MAX
    ensures Parse(Print(v), longMax) == Some(v)
  {
    var sign := if v < 0 then "-" else "";
    var digits := if v < 0 then Digits(-v) else Digits(v);
    hide Digits, DigitsValue, Parse;
    DigitsValueOf(if v < 0 then -v else v);
    assert Spells(Print(v), "", sign, digits);
    ParsesIff(Print(v), longMax, v);
  }
}
