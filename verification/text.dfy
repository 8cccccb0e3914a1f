/** Python string operations the services rely on, over sequences of Unicode scalar values. */
module Text {
  import opened Wrappers

  // ---------------------------------------------------------------- stripping

  /** The characters `str.strip()` removes. */
  predicate IsSpace(c: char) {
    || '\t' <= c <= '\r'
    || '\U{1c}' <= c <= ' '
    || c == '\U{85}' || c == '\U{a0}' || c == '\U{1680}'
    || '\U{2000}' <= c <= '\U{200a}'
    || c == '\U{2028}' || c == '\U{2029}' || c == '\U{202f}' || c == '\U{205f}' || c == '\U{3000}'
  }

  function LeftStrip(s: string): (r: string)
    ensures r == [] || !IsSpace(r[0])
    ensures |r| <= |s| && r == s[|s| - |r|..]
  {
    if s != [] && IsSpace(s[0]) then LeftStrip(s[1..]) else s
  }

  function RightStrip(s: string): (r: string)
    ensures r <= s
    ensures r == [] || !IsSpace(r[|r| - 1])
  {
    if s != [] && IsSpace(s[|s| - 1]) then RightStrip(s[..|s| - 1]) else s
  }

  function Strip(s: string): string {
    RightStrip(LeftStrip(s))
  }

  /** The 29 characters of Unicode white space that `strip()` removes. */
  const SPACES: set<char> := {
    '\t', '\n', '\U{b}', '\U{c}', '\r', '\U{1c}', '\U{1d}', '\U{1e}', '\U{1f}', ' ', '\U{85}', '\U{a0}', '\U{1680}',
    '\U{2000}', '\U{2001}', '\U{2002}', '\U{2003}', '\U{2004}', '\U{2005}', '\U{2006}', '\U{2007}', '\U{2008}',
    '\U{2009}', '\U{200a}', '\U{2028}', '\U{2029}', '\U{202f}', '\U{205f}', '\U{3000}'}

  lemma SpacesAre(c: char)
    ensures IsSpace(c) <==> c in SPACES
  {
  }

  /** `strip()` takes white space off both ends and stops at anything else. */
  lemma StripRemoves(front: string, core: string, back: string)
    requires forall c | c in front || c in back :: c in SPACES
    requires core != [] && core[0] !in SPACES && core[|core| - 1] !in SPACES
    ensures Strip(front + core + back) == core
  {
    forall c: char
      ensures IsSpace(c) <==> c in SPACES
    {
      SpacesAre(c);
    }
    hide IsSpace, LeftStrip, RightStrip;
    LeftStripRemoves(front, core + back);
    assert front + core + back == front + (core + back);
    RightStripRemoves(core, back);
  }

  predicate Blank(s: string) {
    forall i | 0 <= i < |s| :: IsSpace(s[i])
  }

  lemma LeftStripOne(c: char, s: string)
    ensures LeftStrip([c] + s) == if IsSpace(c) then LeftStrip(s) else [c] + s
  {
    hide IsSpace;
    assert ([c] + s)[1..] == s;
  }

  lemma ConsApart(front: string, rest: string)
    requires front != []
    ensures front + rest == [front[0]] + (front[1..] + rest)
  {
  }

  lemma LeftStripStops(s: string)
    requires s != [] && !IsSpace(s[0])
    ensures LeftStrip(s) == s
  {
  }

  lemma {:induction false} LeftStripRemoves(front: string, rest: string)
    requires Blank(front) && rest != [] && !IsSpace(rest[0])
    ensures LeftStrip(front + rest) == rest
  {
    if front == [] {
      assert front + rest == rest;
      LeftStripStops(rest);
    } else {
      hide IsSpace, LeftStrip;
      LeftStripRemoves(front[1..], rest);
      ConsApart(front, rest);
      LeftStripOne(front[0], front[1..] + rest);
    }
  }

  lemma RightStripOne(s: string, c: char)
    ensures RightStrip(s + [c]) == if IsSpace(c) then RightStrip(s) else s + [c]
  {
    hide IsSpace;
    assert (s + [c])[..|s|] == s;
  }

  lemma {:induction false} RightStripRemoves(rest: string, back: string)
    requires Blank(back) && rest != [] && !IsSpace(rest[|rest| - 1])
    ensures RightStrip(rest + back) == rest
  {
    hide IsSpace, RightStrip;
    if back == [] {
      RightStripOne(rest[..|rest| - 1], rest[|rest| - 1]);
      assert rest + back == rest[..|rest| - 1] + [rest[|rest| - 1]] == rest;
    } else {
      var n := |back| - 1;
      RightStripRemoves(rest, back[..n]);
      RightStripOne(rest + back[..n], back[n]);
      assert rest + back == (rest + back[..n]) + [back[n]];
    }
  }

  /** `s.rstrip("/")` */
  function TrimSlashes(s: string): (r: string)
    ensures r <= s
    ensures r == [] || r[|r| - 1] != '/'
    ensures s == [] || s[|s| - 1] != '/' ==> r == s
    ensures forall i | |r| <= i < |s| :: s[i] == '/'
  {
    if s != [] && s[|s| - 1] == '/' then TrimSlashes(s[..|s| - 1]) else s
  }

  // ---------------------------------------------------------------- ordering

  /** Python's `<=` on strings: lexicographic by code point. */
  predicate LexLe(a: string, b: string) {
    a == [] || (b != [] && (a[0] < b[0] || (a[0] == b[0] && LexLe(a[1..], b[1..]))))
  }

  predicate LexLt(a: string, b: string) {
    a != b && LexLe(a, b)
  }

  lemma LexTotal(a: string, b: string)
    ensures LexLe(a, a)
    ensures LexLe(a, b) || LexLe(b, a)
  {
    if a != [] && b != [] {
      LexTotal(a[1..], b[1..]);
    }
    if a != [] {
      LexTotal(a[1..], a[1..]);
    }
  }

  lemma LexAntisymmetric(a: string, b: string)
    requires LexLe(a, b) && LexLe(b, a)
    ensures a == b
  {
    if a != [] {
      LexAntisymmetric(a[1..], b[1..]);
      assert a == [a[0]] + a[1..] && b == [b[0]] + b[1..];
    }
  }

  lemma LexTransitive(a: string, b: string, c: string)
    requires LexLe(a, b) && LexLe(b, c)
    ensures LexLe(a, c)
  {
    if a != [] && a[0] == b[0] == c[0] {
      LexTransitive(a[1..], b[1..], c[1..]);
    }
  }

  /** A shared prefix does not influence the order. */
  lemma LexAfterPrefix(p: string, a: string, b: string)
    ensures LexLe(p + a, p + b) == LexLe(a, b)
  {
    if p == [] {
      assert p + a == a && p + b == b;
    } else {
      assert (p + a)[1..] == p[1..] + a && (p + b)[1..] == p[1..] + b;
      LexAfterPrefix(p[1..], a, b);
    }
  }

  // ---------------------------------------------------------------- integers

  predicate IsDigit(c: char) {
    '0' <= c <= '9'
  }

  predicate AllDigits(s: string) {
    forall i | 0 <= i < |s| :: IsDigit(s[i])
  }

  function DigitChar(d: nat): (c: char)
    requires d < 10
    ensures IsDigit(c)
  {
    '0' + d as char
  }

  /** `str(n)` for a natural number. */
  function Decimal(n: nat): (s: string)
    ensures s != [] && AllDigits(s)
  {
    if n < 10 then [DigitChar(n)] else Decimal(n / 10) + [DigitChar(n % 10)]
  }

  /** The number a run of digits denotes. */
  function DigitsValue(s: string): nat
    requires AllDigits(s)
  {
    if s == [] then 0
    else 10 * DigitsValue(s[..|s| - 1]) + (s[|s| - 1] as int - '0' as int)
  }

  /** The digits of a number, last one last. */
  lemma DecimalSpelt(n: nat)
    ensures Decimal(n) == (if n < 10 then "" else Decimal(n / 10)) + ["0123456789"[n % 10]]
  {
    DigitSpelt(n % 10);
    hide DigitChar;
  }

  lemma DigitSpelt(d: nat)
    requires d < 10
    ensures DigitChar(d) == "0123456789"[d]
  {
  }

  lemma {:induction false} DecimalRoundTrip(n: nat)
    ensures DigitsValue(Decimal(n)) == n
  {
    var s := Decimal(n);
    if n < 10 {
      assert s[..|s| - 1] == [];
    } else {
      assert s[..|s| - 1] == Decimal(n / 10);
      DecimalRoundTrip(n / 10);
    }
  }

  /** `str(n)` for any integer. */
  function IntText(n: int): (s: string)
    ensures s != [] && (IsDigit(s[0]) || s[0] == '-')
  {
    if n < 0 then "-" + Decimal(-n) else Decimal(n)
  }

  /**
   * `int(s)` on text: surrounding white space and one sign are accepted, anything else that is
   * not a digit is refused.
   */
  function ParseInt(s: string): Option<int> {
    ParseSigned(Strip(s))
  }

  function ParseSigned(t: string): Option<int> {
    if t == [] then None
    else
      var digits := if t[0] == '-' || t[0] == '+' then t[1..] else t;
      if digits == [] || !AllDigits(digits) then None
      else Some(if t[0] == '-' then 0 - DigitsValue(digits) else DigitsValue(digits))
  }

  lemma NothingToStrip(s: string)
    requires s != [] && !IsSpace(s[0]) && !IsSpace(s[|s| - 1])
    ensures Strip(s) == s
  {
  }

  /** `int(str(n)) == n` */
  lemma ParseIntRoundTrip(n: int)
    ensures ParseInt(IntText(n)) == Some(n)
  {
    var s := IntText(n);
    var digits := Decimal(if n < 0 then -n else n);
    assert s[|s| - 1] == digits[|digits| - 1];
    NothingToStrip(s);
    DecimalRoundTrip(if n < 0 then -n else n);
    if n < 0 {
      assert s[1..] == digits;
    } else {
      assert IsDigit(s[0]);
    }
  }

  /** Digits with an optional sign and white space around them are accepted. */
  lemma ParseIntAccepts(front: string, sign: string, digits: string, back: string)
    requires forall c | c in front || c in back :: c in SPACES
    requires sign == "" || sign == "+" || sign == "-"
    requires digits != [] && AllDigits(digits)
    ensures ParseInt(front + (sign + digits) + back) ==
              Some(if sign == "-" then 0 - DigitsValue(digits) else DigitsValue(digits))
  {
    hide Strip, DigitsValue;
    var core := sign + digits;
    assert core[|core| - 1] == digits[|digits| - 1];
    SpacesAre(core[0]);
    SpacesAre(core[|core| - 1]);
    StripRemoves(front, core, back);
    if sign != "" {
      assert core[1..] == digits;
    } else {
      assert core == digits;
    }
  }

  /** Stripping keeps a last character that is no white space. */
  lemma LastCharSurvives(s: string)
    requires s != [] && !IsSpace(s[|s| - 1])
    ensures Strip(s) != [] && Strip(s)[|Strip(s)| - 1] == s[|s| - 1]
  {
    if IsSpace(s[0]) {
      LastCharSurvives(s[1..]);
    }
  }

  lemma SlashIsNoDigit(t: string)
    requires t != [] && t[|t| - 1] == '/'
    ensures ParseSigned(t).None?
  {
    var digits := if t[0] == '-' || t[0] == '+' then t[1..] else t;
    assert digits == [] || digits[|digits| - 1] == '/';
  }

  /** A text `int()` accepts never ends in a slash. */
  lemma NumericHasNoTrailingSlash(s: string)
    requires ParseInt(s).Some?
    ensures TrimSlashes(s) == s
  {
    if s != [] && s[|s| - 1] == '/' {
      LastCharSurvives(s);
      SlashIsNoDigit(Strip(s));
    }
  }
}
