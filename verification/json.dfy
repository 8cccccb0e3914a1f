/**
 * JSON values and the canonical text the fingerprints use: `json.dumps` with sorted keys, compact
 * separators and ASCII escapes (sections 4 and 7 of RFC 8259). An object is a map, so two values
 * are equal exactly when they are equal as unordered objects. Numbers are integers.
 */
module Json {
  import opened Wrappers
  import opened Text

  datatype Json =
    | Null
    | Bool(b: bool)
    | Num(n: int)
    | Str(s: string)
    | Arr(items: seq<Json>)
    | Obj(members: map<string, Json>)

  /** Python's truth value of a decoded JSON value. */
  predicate Truthy(j: Json) {
    match j
    case Null => false
    case Bool(b) => b
    case Num(n) => n != 0
    case Str(s) => s != ""
    case Arr(items) => items != []
    case Obj(members) => members != map[]
  }

  lemma FalsyValues(j: Json)
    ensures Truthy(j) <==> j !in {Null, Bool(false), Num(0), Str(""), Arr([]), Obj(map[])}
  {
  }

  /** `d.get(k)`: a missing key reads as null. */
  function Get(members: map<string, Json>, k: string): Json {
    if k in members then members[k] else Null
  }

  /** `str(x)` for a decoded value; containers are written as canonical JSON. */
  function PyStr(j: Json): string {
    match j
    case Null => "None"
    case Bool(b) => if b then "True" else "False"
    case Num(n) => IntText(n)
    case Str(s) => s
    case _ => Dumps(j)
  }

  // ---------------------------------------------------------------- strings

  function HexChar(d: nat): char
    requires d < 16
  {
    if d < 10 then '0' + d as char else 'a' + (d - 10) as char
  }

  function Hex2(n: nat): string
    requires n < 0x100
  {
    [HexChar(n / 16), HexChar(n % 16)]
  }

  /** `{0:04x}` */
  function Hex4(n: nat): string
    requires n < 0x10000
  {
    Hex2(n / 0x100) + Hex2(n % 0x100)
  }

  /** The first UTF-16 code unit of a character. */
  function LeadUnit(c: char): (n: nat)
    ensures n < 0x10000
  {
    if c as int < 0x10000 then c as int else 0xd800 + (c as int - 0x10000) / 0x400
  }

  /** The second UTF-16 code unit of a character outside the basic plane. */
  function TrailUnit(c: char): (n: nat)
    requires c as int >= 0x10000
    ensures n < 0x10000
  {
    0xdc00 + (c as int - 0x10000) % 0x400
  }

  /** How one character is written inside a JSON string; always ASCII. */
  function EscapeChar(c: char): (s: string)
    ensures s != [] && s[0] != '"'
  {
    if c == '"' then ['\\', '"']
    else if c == '\\' then ['\\', '\\']
    else if c == '\U{8}' then ['\\', 'b']
    else if c == '\U{c}' then ['\\', 'f']
    else if c == '\n' then ['\\', 'n']
    else if c == '\r' then ['\\', 'r']
    else if c == '\t' then ['\\', 't']
    else if ' ' <= c <= '~' then [c]
    else if c as int < 0x10000 then "\\u" + Hex4(LeadUnit(c))
    else "\\u" + Hex4(LeadUnit(c)) + ("\\u" + Hex4(TrailUnit(c)))
  }

  /** The characters of a string up to and including its closing quote. */
  function StringTail(s: string): string {
    if s == [] then "\"" else EscapeChar(s[0]) + StringTail(s[1..])
  }

  // ---------------------------------------------------------------- object keys in order

  ghost predicate IsLeastKey(k: string, keys: set<string>) {
    k in keys && forall other | other in keys :: LexLe(k, other)
  }

  lemma LeastKeyExists(keys: set<string>)
    requires keys != {}
    ensures exists k :: IsLeastKey(k, keys)
  {
    var some :| some in keys;
    var rest := keys - {some};
    LexTotal(some, some);
    if rest == {} {
      assert keys == {some};
      assert IsLeastKey(some, keys);
    } else {
      LeastKeyExists(rest);
      var least :| IsLeastKey(least, rest);
      LexTotal(some, least);
      if LexLe(least, some) {
        assert IsLeastKey(least, keys);
      } else {
        forall other | other in keys
          ensures LexLe(some, other)
        {
          if other in rest {
            LexTransitive(some, least, other);
          }
        }
        assert IsLeastKey(some, keys);
      }
    }
  }

  function LeastKey(keys: set<string>): (k: string)
    requires keys != {}
    ensures IsLeastKey(k, keys)
  {
    LeastKeyExists(keys);
    assert forall a, b ::
        && a in keys && (forall other | other in keys :: LexLe(a, other))
        && b in keys && (forall other | other in keys :: LexLe(b, other))
        ==> a == b
    by {
      forall a, b |
        && a in keys && (forall other | other in keys :: LexLe(a, other))
        && b in keys && (forall other | other in keys :: LexLe(b, other))
        ensures a == b
      {
        LexAntisymmetric(a, b);
      }
    }
    var k :| k in keys && forall other | other in keys :: LexLe(k, other);
    k
  }

  /** `sorted(keys)` */
  function SortedKeys(keys: set<string>): (ks: seq<string>)
    ensures forall k :: k in ks <==> k in keys
    ensures |ks| == |keys|
    decreases |keys|
  {
    if keys == {} then []
    else
      var least := LeastKey(keys);
      [least] + SortedKeys(keys - {least})
  }

  /** `sort_keys=True` really sorts: the listing is strictly ascending. */
  lemma SortedKeysAscend(keys: set<string>)
    ensures forall i, j | 0 <= i < j < |SortedKeys(keys)| :: LexLt(SortedKeys(keys)[i], SortedKeys(keys)[j])
    decreases |keys|
  {
    if keys != {} {
      var least := LeastKey(keys);
      var rest := SortedKeys(keys - {least});
      SortedKeysAscend(keys - {least});
      forall i, j | 0 <= i < j < |SortedKeys(keys)|
        ensures LexLt(SortedKeys(keys)[i], SortedKeys(keys)[j])
      {
        assert SortedKeys(keys)[j] == rest[j - 1];
        assert rest[j - 1] in rest;
        if i > 0 {
          assert SortedKeys(keys)[i] == rest[i - 1];
        }
      }
    }
  }

  // ---------------------------------------------------------------- printing

  /** `json.dumps(j, sort_keys=True, separators=(",", ":"))` */
  function Dumps(j: Json): string
    decreases j, 2
  {
    match j
    case Null => "null"
    case Bool(b) => if b then "true" else "false"
    case Num(n) => IntText(n)
    case Str(s) => "\"" + StringTail(s)
    case Arr(items) => if items == [] then "[]" else "[" + (Dumps(items[0]) + ItemsTail(items[1..]))
    case Obj(members) =>
      var keys := SortedKeys(members.Keys);
      if keys == [] then "{}"
      else "{" + (Member(j, keys[0]) + MembersTail(j, keys[1..]))
  }

  function ItemsTail(items: seq<Json>): string
    decreases items
  {
    if items == [] then "]" else "," + (Dumps(items[0]) + ItemsTail(items[1..]))
  }

  function Member(j: Json, key: string): string
    requires j.Obj? && key in j.members
    decreases j, 0
  {
    "\"" + (StringTail(key) + (":" + Dumps(j.members[key])))
  }

  function MembersTail(j: Json, keys: seq<string>): string
    requires j.Obj? && forall k | k in keys :: k in j.members
    decreases j, 1, |keys|
  {
    if keys == [] then "}" else "," + (Member(j, keys[0]) + MembersTail(j, keys[1..]))
  }

  // ---------------------------------------------------------------- the text, spelt out

  function Hex(d: nat): char
    requires d < 16
  {
    "0123456789abcdef"[d]
  }

  function HexFour(n: nat): string
    requires n < 0x10000
  {
    [Hex(n / 0x1000), Hex(n / 0x100 % 16), Hex(n / 0x10 % 16), Hex(n % 16)]
  }

  lemma HexSpelt(d: nat)
    requires d < 16
    ensures HexChar(d) == Hex(d)
  {
  }

  lemma HexFourSpelt(n: nat)
    requires n < 0x10000
    ensures Hex4(n) == HexFour(n)
  {
    hide HexChar, Hex;
    HexSpelt(n / 0x1000);
    HexSpelt(n / 0x100 % 16);
    HexSpelt(n / 0x10 % 16);
    HexSpelt(n % 16);
    assert n / 0x100 / 16 == n / 0x1000;
    assert n % 0x100 / 16 == n / 0x10 % 16 && n % 0x100 % 16 == n % 16;
  }

  /** Seven characters have short escapes, other printable ASCII stands for itself, the rest is hexadecimal UTF-16. */
  lemma EscapeSpelt(c: char)
    ensures c == '"' ==> EscapeChar(c) == "\\\""
    ensures c == '\\' ==> EscapeChar(c) == "\\\\"
    ensures c == '\U{8}' ==> EscapeChar(c) == "\\b"
    ensures c == '\U{c}' ==> EscapeChar(c) == "\\f"
    ensures c == '\n' ==> EscapeChar(c) == "\\n"
    ensures c == '\r' ==> EscapeChar(c) == "\\r"
    ensures c == '\t' ==> EscapeChar(c) == "\\t"
    ensures ' ' <= c <= '~' && c != '"' && c != '\\' ==> EscapeChar(c) == [c]
    ensures (c < ' ' && c !in {'\U{8}', '\U{c}', '\n', '\r', '\t'}) || '~' < c < '\U{10000}' ==>
              EscapeChar(c) == "\\u" + HexFour(c as int)
    ensures c >= '\U{10000}' ==>
              EscapeChar(c) == "\\u" + HexFour(0xd800 + (c as int - 0x10000) / 0x400) +
                               ("\\u" + HexFour(0xdc00 + (c as int - 0x10000) % 0x400))
  {
    hide Hex4, HexFour;
    HexFourSpelt(LeadUnit(c));
    if c as int >= 0x10000 {
      HexFourSpelt(TrailUnit(c));
    }
  }

  /** Printable ASCII without quote and backslash is printed as it is. */
  lemma {:induction false} PlainText(s: string)
    requires forall i | 0 <= i < |s| :: ' ' <= s[i] <= '~' && s[i] != '"' && s[i] != '\\'
    ensures StringTail(s) == s + "\""
  {
    if s != [] {
      PlainText(s[1..]);
    }
  }

  /** `",".join(parts)` */
  function Commas(parts: seq<string>): string {
    if parts == [] then ""
    else if |parts| == 1 then parts[0]
    else Commas(parts[..|parts| - 1]) + "," + parts[|parts| - 1]
  }

  lemma {:induction false} CommasFromFront(first: string, rest: seq<string>)
    ensures Commas([first] + rest) == if rest == [] then first else first + "," + Commas(rest)
  {
    if rest != [] {
      var n := |rest| - 1;
      assert ([first] + rest)[..n + 1] == [first] + rest[..n];
      CommasFromFront(first, rest[..n]);
    }
  }

  function ItemTexts(items: seq<Json>): seq<string> {
    seq(|items|, i requires 0 <= i < |items| => Dumps(items[i]))
  }

  function MemberTexts(members: map<string, Json>, keys: seq<string>): (texts: seq<string>)
    ensures |texts| == |keys|
    requires forall k | k in keys :: k in members
  {
    seq(|keys|, i requires 0 <= i < |keys| => "\"" + StringTail(keys[i]) + ":" + Dumps(members[keys[i]]))
  }

  /** A comma more in front of what is closed already. */
  lemma CommaInFront(first: string, tail: string, rest: string, close: string)
    requires tail == rest + close
    ensures first + ("," + tail) == first + "," + rest + close
  {
  }

  lemma {:induction false} ItemsSpelt(first: Json, items: seq<Json>)
    ensures Dumps(first) + ItemsTail(items) == Commas(ItemTexts([first] + items)) + "]"
    decreases |items|
  {
    hide Dumps, Commas;
    var texts := ItemTexts([first] + items);
    assert texts == [Dumps(first)] + ItemTexts(items);
    CommasFromFront(Dumps(first), ItemTexts(items));
    if items != [] {
      ItemsSpelt(items[0], items[1..]);
      assert [items[0]] + items[1..] == items;
      CommaInFront(Dumps(first), Dumps(items[0]) + ItemsTail(items[1..]), Commas(ItemTexts(items)), "]");
    }
  }

  lemma MemberTextsFromFront(members: map<string, Json>, first: string, keys: seq<string>)
    requires first in members && forall k | k in keys :: k in members
    ensures MemberTexts(members, [first] + keys) == [Member(Obj(members), first)] + MemberTexts(members, keys)
  {
    hide Dumps, StringTail;
    assert Member(Obj(members), first) == "\"" + StringTail(first) + ":" + Dumps(members[first]);
  }

  lemma {:induction false} MembersSpelt(members: map<string, Json>, first: string, keys: seq<string>)
    requires first in members && forall k | k in keys :: k in members
    ensures Member(Obj(members), first) + MembersTail(Obj(members), keys) ==
              Commas(MemberTexts(members, [first] + keys)) + "}"
    decreases |keys|
  {
    hide Dumps, StringTail, Member, MemberTexts, Commas;
    MemberTextsFromFront(members, first, keys);
    CommasFromFront(Member(Obj(members), first), MemberTexts(members, keys));
    if keys != [] {
      MembersSpelt(members, keys[0], keys[1..]);
      assert [keys[0]] + keys[1..] == keys;
      CommaInFront(Member(Obj(members), first), Member(Obj(members), keys[0]) + MembersTail(Obj(members), keys[1..]),
                   Commas(MemberTexts(members, keys)), "}");
    }
  }

  /** The printed form of every kind of value; members stand in the order of their sorted names. */
  lemma DumpsSpelt(j: Json)
    ensures match j
            case Null => Dumps(j) == "null"
            case Bool(b) => Dumps(j) == if b then "true" else "false"
            case Num(n) => Dumps(j) == IntText(n)
            case Str(s) => Dumps(j) == "\"" + StringTail(s)
            case Arr(items) => Dumps(j) == "[" + Commas(ItemTexts(items)) + "]"
            case Obj(members) => Dumps(j) == "{" + Commas(MemberTexts(members, SortedKeys(members.Keys))) + "}"
  {
    if j.Arr? && j.items != [] {
      ItemsSpelt(j.items[0], j.items[1..]);
      assert [j.items[0]] + j.items[1..] == j.items;
    } else if j.Obj? && SortedKeys(j.members.Keys) != [] {
      var keys := SortedKeys(j.members.Keys);
      MembersSpelt(j.members, keys[0], keys[1..]);
      assert [keys[0]] + keys[1..] == keys;
    }
  }

  /** Names that differ in their first characters are sorted by them. */
  lemma FourSorted(a: string, b: string, c: string, d: string)
    requires a != [] && b != [] && c != [] && d != []
    requires a[0] < b[0] < c[0] < d[0]
    ensures SortedKeys({a, b, c, d}) == [a, b, c, d]
  {
    var keys := {a, b, c, d};
    var ks := SortedKeys(keys);
    SortedKeysAscend(keys);
    hide SortedKeys;
    assert |keys| == 4;
    assert forall i | 0 <= i < 4 :: ks[i] in ks;
    assert ks[0] in keys && ks[1] in keys && ks[2] in keys && ks[3] in keys;
    assert LexLt(ks[0], ks[1]) && LexLt(ks[1], ks[2]) && LexLt(ks[2], ks[3]);
  }

  // ---------------------------------------------------------------- the text determines the value

  lemma CancelPrefix(p: string, s: string, t: string)
    requires p + s == p + t
    ensures s == t
  {
    assert s == (p + s)[|p|..] && t == (p + t)[|p|..];
  }

  lemma CancelEqualLengths(p: string, s: string, q: string, t: string)
    requires p + s == q + t && |p| == |q|
    ensures p == q && s == t
  {
    assert p == (p + s)[..|p|] && q == (q + t)[..|q|];
    CancelPrefix(p, s, t);
  }

  lemma Hex2Injective(m: nat, n: nat)
    requires m < 0x100 && n < 0x100 && Hex2(m) == Hex2(n)
    ensures m == n
  {
    assert Hex2(m)[0] == Hex2(n)[0] && Hex2(m)[1] == Hex2(n)[1];
  }

  lemma Hex4Injective(m: nat, n: nat)
    requires m < 0x10000 && n < 0x10000 && Hex4(m) == Hex4(n)
    ensures m == n
  {
    hide HexChar;
    CancelEqualLengths(Hex2(m / 0x100), Hex2(m % 0x100), Hex2(n / 0x100), Hex2(n % 0x100));
    Hex2Injective(m / 0x100, n / 0x100);
    Hex2Injective(m % 0x100, n % 0x100);
  }

  /** The code units of a character identify it; no character is itself a surrogate. */
  lemma UnitsIdentify(c: char, d: char)
    requires LeadUnit(c) == LeadUnit(d)
    ensures (c as int < 0x10000) == (d as int < 0x10000)
    ensures c as int < 0x10000 ==> c == d
    ensures c as int >= 0x10000 && TrailUnit(c) == TrailUnit(d) ==> c == d
  {
  }

  predicate UsesHex(c: char) {
    EscapeChar(c)[0] == '\\' && EscapeChar(c)[1] == 'u'
  }

  lemma EscapeShape(c: char)
    ensures UsesHex(c) ==> c > '~' || c < ' '
    ensures UsesHex(c) && c as int < 0x10000 ==> |EscapeChar(c)| == 6
    ensures c as int >= 0x10000 ==> UsesHex(c) && |EscapeChar(c)| == 12
    ensures !UsesHex(c) ==> |EscapeChar(c)| == if EscapeChar(c)[0] == '\\' then 2 else 1
  {
  }

  /** Escapes are a prefix code; a surrogate pair cannot be mistaken for a single escape. */
  lemma EscapePrefix(c: char, d: char, s: string, t: string)
    requires EscapeChar(c) + s == EscapeChar(d) + t
    ensures c == d && s == t
  {
    EscapeShape(c);
    EscapeShape(d);
    var u, v := EscapeChar(c), EscapeChar(d);
    assert (u + s)[0] == u[0] && (v + t)[0] == v[0];
    if u[0] != '\\' {
      CancelEqualLengths(u, s, v, t);
    } else {
      assert (u + s)[1] == u[1] && (v + t)[1] == v[1];
      if u[1] != 'u' {
        CancelEqualLengths(u, s, v, t);
      } else {
        HexEscapePrefix(c, d, s, t);
      }
    }
  }

  /** Where the code units stand in a hexadecimal escape. */
  lemma EscapeUnits(c: char)
    requires UsesHex(c)
    ensures |EscapeChar(c)| == if c as int < 0x10000 then 6 else 12
    ensures EscapeChar(c)[2..6] == Hex4(LeadUnit(c))
    ensures c as int >= 0x10000 ==> EscapeChar(c)[8..12] == Hex4(TrailUnit(c))
  {
    EscapeShape(c);
    hide HexChar, LeadUnit, TrailUnit;
  }

  lemma SliceOfPrefix(p: string, s: string, i: nat, j: nat)
    requires i <= j <= |p|
    ensures (p + s)[i..j] == p[i..j]
  {
  }

  lemma HexEscapePrefix(c: char, d: char, s: string, t: string)
    requires UsesHex(c) && UsesHex(d)
    requires EscapeChar(c) + s == EscapeChar(d) + t
    ensures c == d && s == t
  {
    EscapeUnits(c);
    EscapeUnits(d);
    hide EscapeChar, Hex4, LeadUnit, TrailUnit, UsesHex;
    var u, v := EscapeChar(c), EscapeChar(d);
    SliceOfPrefix(u, s, 2, 6);
    SliceOfPrefix(v, t, 2, 6);
    Hex4Injective(LeadUnit(c), LeadUnit(d));
    UnitsIdentify(c, d);
    CancelEqualLengths(u, s, v, t);
    if c as int >= 0x10000 {
      Hex4Injective(TrailUnit(c), TrailUnit(d));
    }
  }

  lemma {:induction false} StringPrefix(a: string, b: string, s: string, t: string)
    requires StringTail(a) + s == StringTail(b) + t
    ensures a == b && s == t
  {
    hide EscapeChar;
    assert (StringTail(a) + s)[0] == StringTail(a)[0];
    assert (StringTail(b) + t)[0] == StringTail(b)[0];
    if a == [] || b == [] {
      CancelEqualLengths(StringTail(a), s, StringTail(b), t);
    } else {
      var x, y := StringTail(a[1..]), StringTail(b[1..]);
      assert StringTail(a) + s == EscapeChar(a[0]) + (x + s);
      assert StringTail(b) + t == EscapeChar(b[0]) + (y + t);
      EscapePrefix(a[0], b[0], x + s, y + t);
      StringPrefix(a[1..], b[1..], s, t);
      assert a == [a[0]] + a[1..] && b == [b[0]] + b[1..];
    }
  }

  /** What may follow a value inside a larger text. */
  predicate Delimited(s: string) {
    s == [] || s[0] in {',', ']', '}'}
  }

  /** The length of the run of digits a text starts with. */
  function DigitRun(s: string): nat {
    if s != [] && IsDigit(s[0]) then 1 + DigitRun(s[1..]) else 0
  }

  lemma DigitRunStops(a: string, s: string)
    requires AllDigits(a) && Delimited(s)
    ensures DigitRun(a + s) == |a|
  {
    if a == [] {
      assert a + s == s;
    } else {
      assert (a + s)[1..] == a[1..] + s;
      DigitRunStops(a[1..], s);
    }
  }

  lemma NaturalPrefix(m: nat, n: nat, s: string, t: string)
    requires Delimited(s) && Delimited(t) && Decimal(m) + s == Decimal(n) + t
    ensures m == n && s == t
  {
    DigitRunStops(Decimal(m), s);
    DigitRunStops(Decimal(n), t);
    CancelEqualLengths(Decimal(m), s, Decimal(n), t);
    DecimalRoundTrip(m);
    DecimalRoundTrip(n);
  }

  lemma SignChar(n: int)
    ensures IntText(n)[0] == '-' <==> n < 0
  {
    assert IsDigit(Decimal(if n < 0 then -n else n)[0]);
  }

  lemma NumberPrefix(m: int, n: int, s: string, t: string)
    requires Delimited(s) && Delimited(t) && IntText(m) + s == IntText(n) + t
    ensures m == n && s == t
  {
    hide Decimal;
    SignChar(m);
    SignChar(n);
    assert (IntText(m) + s)[0] == IntText(m)[0] && (IntText(n) + t)[0] == IntText(n)[0];
    if m < 0 {
      NegativePrefix(-m, -n, s, t);
    } else {
      NaturalPrefix(m, n, s, t);
    }
  }

  lemma NegativePrefix(m: nat, n: nat, s: string, t: string)
    requires Delimited(s) && Delimited(t) && ("-" + Decimal(m)) + s == ("-" + Decimal(n)) + t
    ensures m == n && s == t
  {
    hide Decimal;
    assert ("-" + Decimal(m)) + s == "-" + (Decimal(m) + s);
    assert ("-" + Decimal(n)) + t == "-" + (Decimal(n) + t);
    CancelPrefix("-", Decimal(m) + s, Decimal(n) + t);
    NaturalPrefix(m, n, s, t);
  }

  /** The constructor of a value can be read off the first character of its text. */
  function Kind(j: Json): nat {
    match j
    case Null => 0
    case Bool(_) => 1
    case Num(_) => 2
    case Str(_) => 3
    case Arr(_) => 4
    case Obj(_) => 5
  }

  function KindOfFirst(c: char): nat {
    if c == 'n' then 0
    else if c == 't' || c == 'f' then 1
    else if c == '-' || IsDigit(c) then 2
    else if c == '"' then 3
    else if c == '[' then 4
    else if c == '{' then 5
    else 6
  }

  lemma FirstChar(j: Json)
    ensures Dumps(j) != [] && KindOfFirst(Dumps(j)[0]) == Kind(j)
  {
  }

  /** Empty containers are told apart by the second character. */
  lemma SecondChar(j: Json)
    ensures j.Arr? ==> |Dumps(j)| >= 2 && (Dumps(j)[1] == ']' <==> j.items == [])
    ensures j.Obj? ==> |Dumps(j)| >= 2 && (Dumps(j)[1] == '}' <==> SortedKeys(j.members.Keys) == [])
  {
    hide SortedKeys, StringTail;
    if j.Arr? && j.items != [] {
      FirstChar(j.items[0]);
      assert Dumps(j)[1] == Dumps(j.items[0])[0];
    }
  }

  lemma TailsDelimit(items: seq<Json>, j: Json, keys: seq<string>)
    ensures ItemsTail(items) != [] && Delimited(ItemsTail(items))
    ensures j.Obj? && (forall k | k in keys :: k in j.members) ==>
              MembersTail(j, keys) != [] && Delimited(MembersTail(j, keys))
  {
  }

  /** Inside any context a text determines the value at its front and what follows it. */
  lemma {:induction false} ValuePrefix(a: Json, b: Json, s: string, t: string)
    requires Delimited(s) && Delimited(t) && Dumps(a) + s == Dumps(b) + t
    ensures a == b && s == t
    decreases a, 1
  {
    hide IntText, StringTail, SortedKeys, ItemsTail, Member, MembersTail;
    FirstChar(a);
    FirstChar(b);
    assert (Dumps(a) + s)[0] == Dumps(a)[0] && (Dumps(b) + t)[0] == Dumps(b)[0];
    assert Kind(a) == Kind(b);
    match a
    case Null =>
      CancelPrefix("null", s, t);
    case Bool(x) =>
      CancelEqualLengths(Dumps(a), s, Dumps(b), t);
    case Num(m) =>
      NumberPrefix(m, b.n, s, t);
    case Str(x) =>
      assert Dumps(a) + s == "\"" + (StringTail(x) + s);
      assert Dumps(b) + t == "\"" + (StringTail(b.s) + t);
      CancelPrefix("\"", StringTail(x) + s, StringTail(b.s) + t);
      StringPrefix(x, b.s, s, t);
    case Arr(_) =>
      ArrayPrefix(a, b, s, t);
    case Obj(_) =>
      ObjectPrefix(a, b, s, t);
  }

  lemma {:induction false} ArrayPrefix(a: Json, b: Json, s: string, t: string)
    requires a.Arr? && b.Arr?
    requires Delimited(s) && Delimited(t) && Dumps(a) + s == Dumps(b) + t
    ensures a == b && s == t
    decreases a, 0
  {
    hide IntText, StringTail, SortedKeys, ItemsTail, Member, MembersTail;
    var x, y := a.items, b.items;
    SecondChar(a);
    SecondChar(b);
    assert (Dumps(a) + s)[1] == Dumps(a)[1] && (Dumps(b) + t)[1] == Dumps(b)[1];
    if x == [] {
      CancelPrefix("[]", s, t);
    } else {
      var u, v := ItemsTail(x[1..]), ItemsTail(y[1..]);
      assert Dumps(a) + s == "[" + (Dumps(x[0]) + (u + s));
      assert Dumps(b) + t == "[" + (Dumps(y[0]) + (v + t));
      CancelPrefix("[", Dumps(x[0]) + (u + s), Dumps(y[0]) + (v + t));
      TailsDelimit(x[1..], Null, []);
      TailsDelimit(y[1..], Null, []);
      ValuePrefix(x[0], y[0], u + s, v + t);
      ItemsPrefix(a, x[1..], y[1..], s, t);
      assert x == [x[0]] + x[1..] && y == [y[0]] + y[1..];
    }
  }

  lemma {:induction false} ItemsPrefix(a: Json, x: seq<Json>, y: seq<Json>, s: string, t: string)
    requires a.Arr? && forall e | e in x :: e in a.items
    requires Delimited(s) && Delimited(t) && ItemsTail(x) + s == ItemsTail(y) + t
    ensures x == y && s == t
    decreases a, 0, |x|
  {
    hide Dumps;
    assert (ItemsTail(x) + s)[0] == ItemsTail(x)[0] && (ItemsTail(y) + t)[0] == ItemsTail(y)[0];
    if x == [] || y == [] {
      CancelPrefix("]", s, t);
    } else {
      var u, v := ItemsTail(x[1..]), ItemsTail(y[1..]);
      assert ItemsTail(x) + s == "," + (Dumps(x[0]) + (u + s));
      assert ItemsTail(y) + t == "," + (Dumps(y[0]) + (v + t));
      CancelPrefix(",", Dumps(x[0]) + (u + s), Dumps(y[0]) + (v + t));
      TailsDelimit(x[1..], Null, []);
      TailsDelimit(y[1..], Null, []);
      assert x[0] in a.items;
      ValuePrefix(x[0], y[0], u + s, v + t);
      ItemsPrefix(a, x[1..], y[1..], s, t);
      assert x == [x[0]] + x[1..] && y == [y[0]] + y[1..];
    }
  }

  lemma {:induction false} ObjectPrefix(a: Json, b: Json, s: string, t: string)
    requires a.Obj? && b.Obj?
    requires Delimited(s) && Delimited(t) && Dumps(a) + s == Dumps(b) + t
    ensures a == b && s == t
    decreases a, 0, 1, 0
  {
    hide Member, MembersTail, SortedKeys;
    var x, y := SortedKeys(a.members.Keys), SortedKeys(b.members.Keys);
    SecondChar(a);
    SecondChar(b);
    assert (Dumps(a) + s)[1] == Dumps(a)[1] && (Dumps(b) + t)[1] == Dumps(b)[1];
    if x == [] {
      CancelPrefix("{}", s, t);
    } else {
      var u, v := MembersTail(a, x[1..]), MembersTail(b, y[1..]);
      assert Dumps(a) + s == "{" + (Member(a, x[0]) + (u + s));
      assert Dumps(b) + t == "{" + (Member(b, y[0]) + (v + t));
      CancelPrefix("{", Member(a, x[0]) + (u + s), Member(b, y[0]) + (v + t));
      TailsDelimit([], a, x[1..]);
      TailsDelimit([], b, y[1..]);
      MemberPrefix(a, b, x[0], y[0], u + s, v + t);
      MembersPrefix(a, b, x[1..], y[1..], s, t);
      assert x == [x[0]] + x[1..] && y == [y[0]] + y[1..];
    }
    assert a.members.Keys == b.members.Keys;
    assert a.members == b.members;
  }

  lemma {:induction false} MemberPrefix(a: Json, b: Json, k: string, l: string, s: string, t: string)
    requires a.Obj? && b.Obj? && k in a.members && l in b.members
    requires Delimited(s) && Delimited(t) && Member(a, k) + s == Member(b, l) + t
    ensures k == l && a.members[k] == b.members[l] && s == t
    decreases a, 0, 0, 0
  {
    hide Dumps, StringTail;
    var u, v := Dumps(a.members[k]), Dumps(b.members[l]);
    assert Member(a, k) + s == "\"" + (StringTail(k) + (":" + (u + s)));
    assert Member(b, l) + t == "\"" + (StringTail(l) + (":" + (v + t)));
    CancelPrefix("\"", StringTail(k) + (":" + (u + s)), StringTail(l) + (":" + (v + t)));
    StringPrefix(k, l, ":" + (u + s), ":" + (v + t));
    CancelPrefix(":", u + s, v + t);
    ValuePrefix(a.members[k], b.members[l], s, t);
  }

  lemma {:induction false} MembersPrefix(a: Json, b: Json, x: seq<string>, y: seq<string>, s: string, t: string)
    requires a.Obj? && b.Obj?
    requires (forall k | k in x :: k in a.members) && (forall k | k in y :: k in b.members)
    requires Delimited(s) && Delimited(t) && MembersTail(a, x) + s == MembersTail(b, y) + t
    ensures x == y && s == t
    ensures forall k | k in x :: a.members[k] == b.members[k]
    decreases a, 0, 0, 1, |x|
  {
    hide Dumps, StringTail, Member;
    var p, q := MembersTail(a, x), MembersTail(b, y);
    assert (p + s)[0] == p[0] && (q + t)[0] == q[0];
    if x == [] || y == [] {
      CancelPrefix("}", s, t);
    } else {
      var u, v := MembersTail(a, x[1..]), MembersTail(b, y[1..]);
      assert p + s == "," + (Member(a, x[0]) + (u + s));
      assert q + t == "," + (Member(b, y[0]) + (v + t));
      CancelPrefix(",", Member(a, x[0]) + (u + s), Member(b, y[0]) + (v + t));
      TailsDelimit([], a, x[1..]);
      TailsDelimit([], b, y[1..]);
      MemberPrefix(a, b, x[0], y[0], u + s, v + t);
      MembersPrefix(a, b, x[1..], y[1..], s, t);
      assert x == [x[0]] + x[1..] && y == [y[0]] + y[1..];
    }
  }

  /** Two values have the same canonical text exactly when they are equal. */
  lemma DumpsInjective(a: Json, b: Json)
    ensures Dumps(a) == Dumps(b) <==> a == b
  {
    if Dumps(a) == Dumps(b) {
      assert Dumps(a) + "" == Dumps(b) + "";
      ValuePrefix(a, b, "", "");
    }
  }
}
