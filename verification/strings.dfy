/** The parts of Python's `str` that the pipeline relies on: whitespace
    stripping, stripping a given set of characters, lower-casing, splitting on
    one character, `str(n)` for natural numbers, `endswith`, and the ordering
    `<` on strings. */
module Strings {

  /** `str.isspace()` for one character: the characters `str.strip()` removes. */
  predicate IsSpace(c: char) {
    || ('\U{9}' <= c <= '\U{D}')
    || ('\U{1C}' <= c <= '\U{20}')
    || c == '\U{85}' || c == '\U{A0}' || c == '\U{1680}'
    || ('\U{2000}' <= c <= '\U{200A}')
    || c == '\U{2028}' || c == '\U{2029}' || c == '\U{202F}'
    || c == '\U{205F}' || c == '\U{3000}'
  }

  predicate IsDigit(c: char) {
    '0' <= c <= '9'
  }

  predicate IsAsciiUpper(c: char) {
    'A' <= c <= 'Z'
  }

  predicate IsAsciiLower(c: char) {
    'a' <= c <= 'z'
  }

  /** `str.isalnum()` restricted to ASCII letters and digits. */
  predicate IsAlnum(c: char) {
    IsDigit(c) || IsAsciiUpper(c) || IsAsciiLower(c)
  }

  /** `str.lstrip()`: drops leading whitespace. */
  function LStrip(s: string): string {
    if s != [] && IsSpace(s[0]) then LStrip(s[1..]) else s
  }

  /** `str.rstrip()`: drops trailing whitespace. */
  function RStrip(s: string): string {
    if s != [] && IsSpace(s[|s| - 1]) then RStrip(s[..|s| - 1]) else s
  }

  /** `str.strip()` */
  function Strip(s: string): string {
    RStrip(LStrip(s))
  }

  /** `str.lstrip(chars)` */
  function LStripChars(s: string, chars: set<char>): string {
    if s != [] && s[0] in chars then LStripChars(s[1..], chars) else s
  }

  /** `str.rstrip(chars)` */
  function RStripChars(s: string, chars: set<char>): string {
    if s != [] && s[|s| - 1] in chars then RStripChars(s[..|s| - 1], chars) else s
  }

  /** `str.strip(chars)` */
  function StripChars(s: string, chars: set<char>): string {
    RStripChars(LStripChars(s, chars), chars)
  }

  lemma {:induction false} LStripEnds(s: string)
    ensures var r := LStrip(s); r != [] ==> !IsSpace(r[0])
  {
    if s != [] && IsSpace(s[0]) {
      LStripEnds(s[1..]);
    }
  }

  lemma {:induction false} RStripEnds(s: string)
    ensures var r := RStrip(s); |r| <= |s| && (r != [] ==> r[0] == s[0] && !IsSpace(r[|r| - 1]))
  {
    if s != [] && IsSpace(s[|s| - 1]) {
      RStripEnds(s[..|s| - 1]);
    }
  }

  /** What `str.strip()` leaves neither starts nor ends with whitespace. */
  lemma StripEnds(s: string)
    ensures var r := Strip(s); r != [] ==> !IsSpace(r[0]) && !IsSpace(r[|r| - 1])
  {
    LStripEnds(s);
    RStripEnds(LStrip(s));
  }

  lemma {:induction false} LStripCharsEnds(s: string, chars: set<char>)
    ensures var r := LStripChars(s, chars); r != [] ==> r[0] !in chars
  {
    if s != [] && s[0] in chars {
      LStripCharsEnds(s[1..], chars);
    }
  }

  lemma {:induction false} RStripCharsEnds(s: string, chars: set<char>)
    ensures var r := RStripChars(s, chars); |r| <= |s| && (r != [] ==> r[0] == s[0] && r[|r| - 1] !in chars)
  {
    if s != [] && s[|s| - 1] in chars {
      RStripCharsEnds(s[..|s| - 1], chars);
    }
  }

  /** What `str.strip(chars)` leaves neither starts nor ends with one of `chars`. */
  lemma StripCharsEnds(s: string, chars: set<char>)
    ensures var r := StripChars(s, chars); r != [] ==> r[0] !in chars && r[|r| - 1] !in chars
  {
    LStripCharsEnds(s, chars);
    RStripCharsEnds(LStripChars(s, chars), chars);
  }

  /** A string without surrounding whitespace is its own strip. */
  lemma StripKeeps(s: string)
    requires s == [] || (!IsSpace(s[0]) && !IsSpace(s[|s| - 1]))
    ensures Strip(s) == s
  {
  }

  lemma StripCharsKeeps(s: string, chars: set<char>)
    requires s == [] || (s[0] !in chars && s[|s| - 1] !in chars)
    ensures StripChars(s, chars) == s
  {
  }

  /** Stripping is idempotent. */
  lemma StripIdempotent(s: string)
    ensures Strip(Strip(s)) == Strip(s)
  {
    StripEnds(s);
    StripKeeps(Strip(s));
  }

  lemma StripCharsIdempotent(s: string, chars: set<char>)
    ensures StripChars(StripChars(s, chars), chars) == StripChars(s, chars)
  {
    StripCharsEnds(s, chars);
    StripCharsKeeps(StripChars(s, chars), chars);
  }

  /** A prefix made only of `chars` is removed whole by `lstrip(chars)`. */
  lemma {:induction false} LStripCharsDropsPrefix(p: string, rest: string, chars: set<char>)
    requires forall i | 0 <= i < |p| :: p[i] in chars
    ensures LStripChars(p + rest, chars) == LStripChars(rest, chars)
  {
    if p != [] {
      assert (p + rest)[0] == p[0];
      assert (p + rest)[1..] == p[1..] + rest;
      LStripCharsDropsPrefix(p[1..], rest, chars);
    } else {
      assert p + rest == rest;
    }
  }

  /** Stripping only removes characters. */
  lemma {:induction false} LStripCharsSub(s: string, chars: set<char>, c: char)
    requires c in LStripChars(s, chars)
    ensures c in s
  {
    if s != [] && s[0] in chars {
      LStripCharsSub(s[1..], chars, c);
    }
  }

  lemma {:induction false} RStripCharsSub(s: string, chars: set<char>, c: char)
    requires c in RStripChars(s, chars)
    ensures c in s
  {
    if s != [] && s[|s| - 1] in chars {
      RStripCharsSub(s[..|s| - 1], chars, c);
    }
  }

  lemma StripCharsSub(s: string, chars: set<char>, c: char)
    requires c in StripChars(s, chars)
    ensures c in s
  {
    RStripCharsSub(LStripChars(s, chars), chars, c);
    LStripCharsSub(s, chars, c);
  }

  lemma {:induction false} LStripSub(s: string, c: char)
    requires c in LStrip(s)
    ensures c in s
  {
    if s != [] && IsSpace(s[0]) {
      LStripSub(s[1..], c);
    }
  }

  lemma {:induction false} RStripSub(s: string, c: char)
    requires c in RStrip(s)
    ensures c in s
  {
    if s != [] && IsSpace(s[|s| - 1]) {
      RStripSub(s[..|s| - 1], c);
    }
  }

  lemma StripSub(s: string, c: char)
    requires c in Strip(s)
    ensures c in s
  {
    RStripSub(LStrip(s), c);
    LStripSub(s, c);
  }

  function LowerChar(c: char): (d: char)
    ensures !IsAsciiUpper(d)
    ensures IsAlnum(c) <==> IsAlnum(d)
  {
    if IsAsciiUpper(c) then (c as int + 32) as char else c
  }

  /** `str.lower()` on ASCII letters; every other character is kept. */
  function Lower(s: string): (r: string)
    ensures |r| == |s|
    ensures forall i | 0 <= i < |s| :: r[i] == LowerChar(s[i])
  {
    seq(|s|, i requires 0 <= i < |s| => LowerChar(s[i]))
  }

  /** `str.replace(a, b)` for single characters. */
  function ReplaceChar(s: string, a: char, b: char): (r: string)
    ensures |r| == |s|
    ensures forall i | 0 <= i < |s| :: r[i] == if s[i] == a then b else s[i]
  {
    seq(|s|, i requires 0 <= i < |s| => if s[i] == a then b else s[i])
  }

  /** `str.endswith(suffix)` */
  predicate EndsWith(s: string, suffix: string) {
    |suffix| <= |s| && s[|s| - |suffix|..] == suffix
  }

  predicate StartsWith(s: string, prefix: string) {
    |prefix| <= |s| && s[..|prefix|] == prefix
  }

  // ---------------------------------------------------------------------
  // Splitting on one character

  /** `s.split(sep)` for a one-character separator: always at least one part,
      and no part contains the separator. */
  function Split(s: string, sep: char): (parts: seq<string>)
    ensures |parts| >= 1
    ensures forall i | 0 <= i < |parts| :: sep !in parts[i]
  {
    if s == [] then [""]
    else if s[0] == sep then [""] + Split(s[1..], sep)
    else
      var rest := Split(s[1..], sep);
      [[s[0]] + rest[0]] + rest[1..]
  }

  /** `sep.join(parts)` */
  function Join(parts: seq<string>, sep: char): string
    requires |parts| >= 1
  {
    if |parts| == 1 then parts[0] else parts[0] + [sep] + Join(parts[1..], sep)
  }

  /** Splitting undoes joining when no part contains the separator. */
  lemma {:induction false} SplitJoin(parts: seq<string>, sep: char)
    requires |parts| >= 1
    requires forall i | 0 <= i < |parts| :: sep !in parts[i]
    ensures Split(Join(parts, sep), sep) == parts
  {
    if |parts| == 1 {
      SplitNoSep(parts[0], sep);
    } else {
      SplitJoin(parts[1..], sep);
      SplitPrefix(parts[0], Join(parts[1..], sep), sep);
    }
  }

  lemma {:induction false} SplitNoSep(s: string, sep: char)
    requires sep !in s
    ensures Split(s, sep) == [s]
  {
    if s != [] {
      assert s[0] != sep;
      SplitNoSep(s[1..], sep);
      assert [s[0]] + s[1..] == s;
    }
  }

  lemma {:induction false} SplitPrefix(p: string, t: string, sep: char)
    requires sep !in p
    ensures Split(p + [sep] + t, sep) == [p] + Split(t, sep)
  {
    if p == [] {
      assert p + [sep] + t == [sep] + t;
      assert ([sep] + t)[1..] == t;
    } else {
      assert (p + [sep] + t)[1..] == p[1..] + [sep] + t;
      SplitPrefix(p[1..], t, sep);
      assert [p[0]] + p[1..] == p;
    }
  }

  /** Joining undoes splitting. */
  lemma {:induction false} JoinSplit(s: string, sep: char)
    ensures Join(Split(s, sep), sep) == s
  {
    if s == [] {
    } else if s[0] == sep {
      JoinSplit(s[1..], sep);
      assert s == [sep] + s[1..];
    } else {
      JoinSplit(s[1..], sep);
      var rest := Split(s[1..], sep);
      if |rest| == 1 {
        assert Join(rest, sep) == rest[0];
      } else {
        assert Join(rest, sep) == rest[0] + [sep] + Join(rest[1..], sep);
        assert ([[s[0]] + rest[0]] + rest[1..])[1..] == rest[1..];
      }
      assert s == [s[0]] + s[1..];
    }
  }

  // ---------------------------------------------------------------------
  // Decimal rendering of natural numbers

  function DigitChar(d: nat): (c: char)
    requires d < 10
    ensures IsDigit(c)
  {
    ('0' as int + d) as char
  }

  predicate AllDigits(s: string) {
    forall i | 0 <= i < |s| :: IsDigit(s[i])
  }

  /** `str(n)` for `n >= 0`: decimal digits without leading zeros. */
  function NatToString(n: nat): (s: string)
    ensures |s| >= 1 && AllDigits(s)
    ensures |s| > 1 ==> s[0] != '0'
  {
    if n < 10 then [DigitChar(n)] else NatToString(n / 10) + [DigitChar(n % 10)]
  }

  function DigitsValue(s: string): nat
    requires AllDigits(s)
  {
    if s == [] then 0 else DigitsValue(s[..|s| - 1]) * 10 + (s[|s| - 1] as int - '0' as int)
  }

  /** Reading the digits of `str(n)` back gives `n`. */
  lemma {:induction false} NatToStringValue(n: nat)
    ensures DigitsValue(NatToString(n)) == n
  {
    var s := NatToString(n);
    if n >= 10 {
      NatToStringValue(n / 10);
      assert s[..|s| - 1] == NatToString(n / 10);
    } else {
      assert s[..|s| - 1] == [];
    }
  }

  /** Distinct numbers render to distinct strings. */
  lemma NatToStringInjective(a: nat, b: nat)
    requires NatToString(a) == NatToString(b)
    ensures a == b
  {
    NatToStringValue(a);
    NatToStringValue(b);
  }

  // ---------------------------------------------------------------------
  // Python's ordering of strings: code point by code point, a proper prefix first

  predicate LexLess(a: string, b: string) {
    if a == [] then b != []
    else b != [] && (a[0] < b[0] || (a[0] == b[0] && LexLess(a[1..], b[1..])))
  }

  lemma {:induction false} LexLessIrreflexive(a: string)
    ensures !LexLess(a, a)
  {
    if a != [] {
      LexLessIrreflexive(a[1..]);
    }
  }

  lemma {:induction false} LexLessTransitive(a: string, b: string, c: string)
    requires LexLess(a, b) && LexLess(b, c)
    ensures LexLess(a, c)
  {
    if a != [] && a[0] == b[0] && b[0] == c[0] {
      LexLessTransitive(a[1..], b[1..], c[1..]);
    }
  }

  lemma {:induction false} LexLessTotal(a: string, b: string)
    requires a != b
    ensures LexLess(a, b) || LexLess(b, a)
  {
    if a != [] && b != [] && a[0] == b[0] {
      assert a == [a[0]] + a[1..] && b == [b[0]] + b[1..];
      LexLessTotal(a[1..], b[1..]);
    }
  }

  lemma {:induction false} LexLessAsymmetric(a: string, b: string)
    requires LexLess(a, b)
    ensures !LexLess(b, a)
  {
    if a != [] && a[0] == b[0] {
      LexLessAsymmetric(a[1..], b[1..]);
    }
  }

  /** A common prefix does not change the order of two strings. */
  lemma {:induction false} LexLessCommonPrefix(p: string, a: string, b: string)
    ensures LexLess(p + a, p + b) == LexLess(a, b)
  {
    if p == [] {
      assert p + a == a && p + b == b;
    } else {
      assert (p + a)[0] == p[0] && (p + a)[1..] == p[1..] + a;
      assert (p + b)[0] == p[0] && (p + b)[1..] == p[1..] + b;
      LexLessCommonPrefix(p[1..], a, b);
    }
  }
}
