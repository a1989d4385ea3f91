/** The string operations of the JavaScript runtime that the curation code relies on:
    `trim`, `toLowerCase` (on the characters that matter here), `startsWith`, substring
    search, `split`/`join`, string comparison with `<`, and the decimal rendering and
    parsing of integers. */
module Strings {
  import opened Wrappers

  /** The characters `String.prototype.trim` and the regular-expression class `\s`
      remove: white space (including the space separators) and line terminators. */
  predicate IsSpace(c: char) {
    c == ' ' || c == '\t' || c == '\n' || c == '\r' || c == '\U{000B}' || c == '\U{000C}'
    || c == '\U{00A0}' || c == '\U{1680}' || ('\U{2000}' <= c <= '\U{200A}')
    || c == '\U{2028}' || c == '\U{2029}' || c == '\U{202F}' || c == '\U{205F}'
    || c == '\U{3000}' || c == '\U{FEFF}'
  }

  predicate AllSpace(s: string) {
    forall k :: 0 <= k < |s| ==> IsSpace(s[k])
  }

  /** Neither the first nor the last character is white space. */
  predicate NoEdgeSpace(s: string) {
    s == [] || (!IsSpace(s[0]) && !IsSpace(s[|s| - 1]))
  }

  /** `s` without its leading white space. */
  function TrimStart(s: string): string {
    if s != [] && IsSpace(s[0]) then TrimStart(s[1..]) else s
  }

  /** What `TrimStart` removes is white space, and what it keeps is a suffix that
      does not start with white space. */
  lemma {:induction false} TrimStartFacts(s: string)
    ensures |TrimStart(s)| <= |s| && TrimStart(s) == s[|s| - |TrimStart(s)|..]
    ensures AllSpace(s[..|s| - |TrimStart(s)|])
    ensures TrimStart(s) == [] || !IsSpace(TrimStart(s)[0])
  {
    if s != [] && IsSpace(s[0]) {
      TrimStartFacts(s[1..]);
      var r := TrimStart(s);
      assert s[..|s| - |r|] == [s[0]] + s[1..][..|s| - 1 - |r|];
    }
  }

  /** `s` without its trailing white space. */
  function TrimEnd(s: string): string {
    if s != [] && IsSpace(s[|s| - 1]) then TrimEnd(s[..|s| - 1]) else s
  }

  /** What `TrimEnd` removes is white space, and what it keeps is a prefix that
      does not end with white space. */
  lemma {:induction false} TrimEndFacts(s: string)
    ensures |TrimEnd(s)| <= |s| && TrimEnd(s) == s[..|TrimEnd(s)|]
    ensures AllSpace(s[|TrimEnd(s)|..])
    ensures TrimEnd(s) == [] || !IsSpace(TrimEnd(s)[|TrimEnd(s)| - 1])
  {
    if s != [] && IsSpace(s[|s| - 1]) {
      var p := s[..|s| - 1];
      TrimEndFacts(p);
      var r := TrimEnd(s);
      assert s[|r|..] == p[|r|..] + [s[|s| - 1]];
    }
  }

  /** `s.trim()`: the result has no white space at either end, is empty exactly when
      `s` is all white space, and leaves a string without edge white space alone. */
  function Trim(s: string): (r: string)
    ensures NoEdgeSpace(r)
    ensures r == [] <==> AllSpace(s)
    ensures NoEdgeSpace(s) ==> r == s
  {
    var t := TrimStart(s);
    TrimStartFacts(s);
    TrimEndFacts(t);
    assert AllSpace(s) ==> t == [];
    assert t == [] ==> AllSpace(s) by {
      if t == [] {
        assert s[..|s| - |t|] == s;
      }
    }
    assert TrimEnd(t) == [] ==> AllSpace(t);
    assert AllSpace(t) ==> t == [];
    TrimEnd(t)
  }

  /** Trimming removes characters only: whatever `s` does not contain, its trim
      does not contain either. */
  lemma TrimNoNewChar(s: string, c: char)
    requires c !in s
    ensures c !in Trim(s)
  {
    var t := TrimStart(s);
    TrimStartFacts(s);
    TrimEndFacts(t);
    assert forall k :: 0 <= k < |t| ==> t[k] == s[|s| - |t| + k];
    assert forall k :: 0 <= k < |TrimEnd(t)| ==> TrimEnd(t)[k] == t[k];
  }

  /** White space before a string that does not start with white space is all that
      `TrimStart` removes. */
  lemma {:induction false} TrimStartSpaces(p: string, x: string)
    requires AllSpace(p) && (x == [] || !IsSpace(x[0]))
    ensures TrimStart(p + x) == x
    decreases |p|
  {
    if p == [] {
      assert p + x == x;
    } else {
      assert (p + x)[1..] == p[1..] + x;
      TrimStartSpaces(p[1..], x);
    }
  }

  /** White space after a string that does not end with white space is all that
      `TrimEnd` removes. */
  lemma {:induction false} TrimEndSpaces(x: string, q: string)
    requires AllSpace(q) && (x == [] || !IsSpace(x[|x| - 1]))
    ensures TrimEnd(x + q) == x
    decreases |q|
  {
    if q == [] {
      assert x + q == x;
    } else {
      var n := |q| - 1;
      assert (x + q)[..|x + q| - 1] == x + q[..n];
      TrimEndSpaces(x, q[..n]);
    }
  }

  /** Trimming a non-empty string without edge white space, padded with white space
      on both sides, gives the string back. */
  lemma TrimPadded(p: string, x: string, q: string)
    requires AllSpace(p) && AllSpace(q) && x != [] && NoEdgeSpace(x)
    ensures Trim(p + x + q) == x
  {
    assert p + x + q == p + (x + q);
    TrimStartSpaces(p, x + q);
    TrimEndSpaces(x, q);
  }

  /** Lower-cases the letters A-Z and leaves every other character alone.
      `toLowerCase` also maps the non-ASCII capitals; the two agree on ASCII text,
      which covers every identifier that passes validation, but not on names with
      other capitals, which the sort compares lower-cased. */
  function LowerChar(c: char): char {
    if 'A' <= c <= 'Z' then (c as int + 32) as char else c
  }

  function Lower(s: string): (r: string)
    ensures |r| == |s|
    ensures forall i :: 0 <= i < |s| ==> r[i] == LowerChar(s[i])
  {
    if s == [] then [] else [LowerChar(s[0])] + Lower(s[1..])
  }

  lemma LowerIdempotent(s: string)
    ensures Lower(Lower(s)) == Lower(s)
  {
  }

  lemma LowerAppend(a: string, b: string)
    ensures Lower(a + b) == Lower(a) + Lower(b)
  {
  }

  /** The length JavaScript reports: characters outside the Basic Multilingual
      Plane take two UTF-16 code units. */
  function Utf16Length(s: string): (n: nat)
    ensures |s| <= n <= 2 * |s|
  {
    if s == [] then 0 else (if s[0] as int > 0xFFFF then 2 else 1) + Utf16Length(s[1..])
  }

  predicate StartsWith(s: string, prefix: string) {
    |prefix| <= |s| && s[..|prefix|] == prefix
  }

  /** `s` contains `pat` as a contiguous substring (a regular expression without
      anchors or quantifiers, searched for anywhere in `s`): it starts here or somewhere
      further on. */
  predicate Contains(s: string, pat: string)
    decreases |s|
  {
    StartsWith(s, pat) || (s != [] && Contains(s[1..], pat))
  }

  predicate OccursAt(s: string, pat: string, i: int) {
    0 <= i <= |s| - |pat| && s[i..i + |pat|] == pat
  }

  /** `Contains` holds exactly when `pat` occurs at some position. */
  lemma {:induction false} ContainsAt(s: string, pat: string)
    ensures Contains(s, pat) <==> exists i :: OccursAt(s, pat, i)
    decreases |s|
  {
    if s != [] {
      ContainsAt(s[1..], pat);
      if exists i :: OccursAt(s, pat, i) {
        var i :| OccursAt(s, pat, i);
        if i > 0 {
          assert s[1..][i - 1..i - 1 + |pat|] == pat;
          assert OccursAt(s[1..], pat, i - 1);
        }
      }
      if Contains(s[1..], pat) {
        var i :| OccursAt(s[1..], pat, i);
        assert s[i + 1..i + 1 + |pat|] == pat;
        assert OccursAt(s, pat, i + 1);
      }
    }
    if StartsWith(s, pat) {
      assert OccursAt(s, pat, 0);
    }
  }

  /** A substring of the middle part is a substring of the whole. */
  lemma ContainsInfix(a: string, m: string, b: string, pat: string)
    requires Contains(m, pat)
    ensures Contains(a + m + b, pat)
  {
    ContainsAt(m, pat);
    ContainsAt(a + m + b, pat);
    var i :| OccursAt(m, pat, i);
    var s := a + m + b;
    assert s[|a| + i..|a| + i + |pat|] == m[i..i + |pat|];
    assert OccursAt(s, pat, |a| + i);
  }

  /** A substring of a prefix is a substring of the whole. */
  lemma ContainsPrefix(a: string, b: string, pat: string)
    requires Contains(a, pat)
    ensures Contains(a + b, pat)
  {
    ContainsInfix([], a, b, pat);
    assert [] + a + b == a + b;
  }

  /** `parts.join(sep)`. */
  function Join(parts: seq<string>, sep: string): string {
    if |parts| == 0 then ""
    else if |parts| == 1 then parts[0]
    else parts[0] + sep + Join(parts[1..], sep)
  }

  /** The parts with `lead` before the first, `b` before every later one and `a`
      after every one but the last. */
  function Wrap(parts: seq<string>, lead: string, a: string, b: string): (r: seq<string>)
    ensures |r| == |parts|
    ensures forall i :: 0 <= i < |r| ==>
              r[i] == (if i == 0 then lead else b) + parts[i] + (if i < |parts| - 1 then a else "")
  {
    if |parts| == 0 then []
    else if |parts| == 1 then [lead + parts[0] + ""]
    else [lead + parts[0] + a] + Wrap(parts[1..], b, a, b)
  }

  /** A separator of several characters around a one-character core joins the
      same text as the core alone between the parts widened by the rest. */
  lemma {:induction false} JoinWrap(parts: seq<string>, lead: string, a: string, c: char, b: string)
    requires |parts| >= 1
    ensures lead + Join(parts, a + [c] + b) == Join(Wrap(parts, lead, a, b), [c])
    decreases |parts|
  {
    var w := Wrap(parts, lead, a, b);
    if |parts| == 1 {
      assert lead + parts[0] + "" == lead + parts[0];
    } else {
      var rest := parts[1..];
      JoinWrap(rest, b, a, c, b);
      assert w[1..] == Wrap(rest, b, a, b);
      assert lead + Join(parts, a + [c] + b)
          == (lead + parts[0] + a) + [c] + (b + Join(rest, a + [c] + b));
    }
  }

  /** `s.split(sep)` for a one-character separator: always at least one piece, no
      piece contains the separator, and joining the pieces gives back `s`. */
  function Split(s: string, sep: char): (r: seq<string>)
    ensures |r| >= 1
    ensures forall i :: 0 <= i < |r| ==> sep !in r[i]
    ensures Join(r, [sep]) == s
    decreases |s|
  {
    if s == [] then [""]
    else
      var rest := Split(s[1..], sep);
      if s[0] == sep then
        assert s == [sep] + s[1..];
        [""] + rest
      else
        var r := [[s[0]] + rest[0]] + rest[1..];
        assert r[1..] == rest[1..];
        assert s == [s[0]] + s[1..];
        r
  }

  /** The empty string splits into one empty piece. */
  lemma SplitEmpty(sep: char)
    ensures Split("", sep) == [""]
  {
  }

  /** The first character either is a separator, giving an empty first piece, or
      starts the first piece. */
  lemma SplitCons(s: string, sep: char)
    requires s != []
    ensures s[0] == sep ==> Split(s, sep) == [""] + Split(s[1..], sep)
    ensures s[0] != sep ==> Split(s, sep) == [[s[0]] + Split(s[1..], sep)[0]] + Split(s[1..], sep)[1..]
  {
  }

  lemma {:induction false} SplitPiece(p: string, sep: char, rest: string)
    requires sep !in p
    ensures Split(p + [sep] + rest, sep) == [p] + Split(rest, sep)
    ensures Split(p, sep) == [p]
    decreases |p|
  {
    if p == [] {
      assert p + [sep] + rest == [sep] + rest;
      assert ([sep] + rest)[1..] == rest;
    } else {
      SplitPiece(p[1..], sep, rest);
      assert (p + [sep] + rest)[1..] == p[1..] + [sep] + rest;
      assert [p[0]] + p[1..] == p;
    }
  }

  /** Splitting a join gives back the parts, when no part holds the separator. */
  lemma {:induction false} SplitJoin(parts: seq<string>, sep: char)
    requires |parts| >= 1
    requires forall i :: 0 <= i < |parts| ==> sep !in parts[i]
    ensures Split(Join(parts, [sep]), sep) == parts
    decreases |parts|
  {
    if |parts| == 1 {
      SplitPiece(parts[0], sep, "");
    } else {
      SplitJoin(parts[1..], sep);
      SplitPiece(parts[0], sep, Join(parts[1..], [sep]));
      assert [parts[0]] + parts[1..] == parts;
    }
  }

  /** Where a character falls in UTF-16 code-unit order. Characters below the
      surrogate range come first, then the characters outside the Basic
      Multilingual Plane (whose high surrogates are 0xD800-0xDBFF), then the rest
      of the Basic Multilingual Plane. */
  function UnitOrder(c: char): int {
    if c as int < 0xD800 then c as int
    else if c as int > 0xFFFF then c as int - 0x10000 + 0xD800
    else c as int + 0x100000
  }

  /** The relational `<`/`>` comparison of two strings, as -1, 0 or 1. JavaScript
      compares UTF-16 code units, so the characters are ordered by `UnitOrder`
      (`StrCmpIsUtf16Order`). */
  function StrCmp(a: string, b: string): (r: int)
    ensures -1 <= r <= 1
    ensures r == 0 <==> a == b
  {
    if a == [] && b == [] then 0
    else if a == [] then -1
    else if b == [] then 1
    else if UnitOrder(a[0]) < UnitOrder(b[0]) then -1
    else if UnitOrder(a[0]) > UnitOrder(b[0]) then 1
    else
      assert a == [a[0]] + a[1..] && b == [b[0]] + b[1..];
      StrCmp(a[1..], b[1..])
  }

  lemma {:induction false} StrCmpAntisymmetric(a: string, b: string)
    ensures StrCmp(b, a) == -StrCmp(a, b)
  {
    if a != [] && b != [] && a[0] == b[0] {
      StrCmpAntisymmetric(a[1..], b[1..]);
    }
  }

  lemma {:induction false} StrCmpTransitive(a: string, b: string, c: string)
    requires StrCmp(a, b) <= 0 && StrCmp(b, c) <= 0
    ensures StrCmp(a, c) <= 0
  {
    if a != [] && b != [] && c != [] && a[0] == b[0] == c[0] {
      StrCmpTransitive(a[1..], b[1..], c[1..]);
    }
  }

  /** The UTF-16 encoding of a character: itself inside the Basic Multilingual
      Plane, a high and a low surrogate outside it. */
  function CharUnits(c: char): (u: seq<int>)
    ensures |u| == (if c as int > 0xFFFF then 2 else 1)
  {
    if c as int > 0xFFFF then [0xD800 + (c as int - 0x10000) / 0x400, 0xDC00 + (c as int - 0x10000) % 0x400]
    else [c as int]
  }

  /** The UTF-16 encoding of a string. */
  function Utf16(s: string): (u: seq<int>)
    ensures |u| == Utf16Length(s)
  {
    if s == [] then [] else CharUnits(s[0]) + Utf16(s[1..])
  }

  /** Lexicographic comparison of code-unit sequences, as -1, 0 or 1. */
  function UnitsCmp(a: seq<int>, b: seq<int>): int {
    if a == [] && b == [] then 0
    else if a == [] then -1
    else if b == [] then 1
    else if a[0] < b[0] then -1
    else if a[0] > b[0] then 1
    else UnitsCmp(a[1..], b[1..])
  }

  lemma {:induction false} UnitsCmpPrefix(p: seq<int>, a: seq<int>, b: seq<int>)
    ensures UnitsCmp(p + a, p + b) == UnitsCmp(a, b)
    decreases |p|
  {
    if p != [] {
      assert (p + a)[1..] == p[1..] + a && (p + b)[1..] == p[1..] + b;
      UnitsCmpPrefix(p[1..], a, b);
    } else {
      assert p + a == a && p + b == b;
    }
  }

  /** Surrogate pairs keep the order of the characters they encode. */
  lemma SurrogateOrder(x: int, y: int)
    requires 0x10000 <= x < y
    ensures (x - 0x10000) / 0x400 <= (y - 0x10000) / 0x400
    ensures (x - 0x10000) / 0x400 == (y - 0x10000) / 0x400 ==> (x - 0x10000) % 0x400 < (y - 0x10000) % 0x400
  {
  }

  /** Two different characters' encodings are ordered by their first differing
      code unit, which agrees with `UnitOrder`. */
  lemma FirstCharDecides(x: char, y: char, ra: seq<int>, rb: seq<int>)
    requires UnitOrder(x) < UnitOrder(y)
    ensures UnitsCmp(CharUnits(x) + ra, CharUnits(y) + rb) == -1
  {
    var u, v := CharUnits(x) + ra, CharUnits(y) + rb;
    if x as int > 0xFFFF && y as int > 0xFFFF {
      SurrogateOrder(x as int, y as int);
      if u[0] == v[0] {
        assert u[1..] == CharUnits(x)[1..] + ra && v[1..] == CharUnits(y)[1..] + rb;
      }
    }
  }

  /** The string comparison is the lexicographic order of the UTF-16 code units,
      which is what JavaScript's `<` on strings compares. */
  lemma {:induction false} StrCmpIsUtf16Order(a: string, b: string)
    ensures StrCmp(a, b) == UnitsCmp(Utf16(a), Utf16(b))
  {
    if a != [] && b != [] {
      if a[0] == b[0] {
        UnitsCmpPrefix(CharUnits(a[0]), Utf16(a[1..]), Utf16(b[1..]));
        StrCmpIsUtf16Order(a[1..], b[1..]);
      } else if UnitOrder(a[0]) < UnitOrder(b[0]) {
        FirstCharDecides(a[0], b[0], Utf16(a[1..]), Utf16(b[1..]));
      } else {
        FirstCharDecides(b[0], a[0], Utf16(b[1..]), Utf16(a[1..]));
        UnitsCmpAntisymmetric(Utf16(b), Utf16(a));
      }
    }
  }

  lemma {:induction false} UnitsCmpAntisymmetric(a: seq<int>, b: seq<int>)
    ensures UnitsCmp(b, a) == -UnitsCmp(a, b)
    decreases |a|
  {
    if a != [] && b != [] && a[0] == b[0] {
      UnitsCmpAntisymmetric(a[1..], b[1..]);
    }
  }

  /** A character outside the Basic Multilingual Plane sorts before one at or
      above U+E000: its high surrogate is the smaller code unit. */
  lemma AstralBeforeHighBmp()
    ensures StrCmp("\U{1F680}", "\U{FFE5}") == -1
    ensures UnitsCmp(Utf16("\U{1F680}"), Utf16("\U{FFE5}")) == -1
  {
    StrCmpIsUtf16Order("\U{1F680}", "\U{FFE5}");
  }

  predicate IsDigit(c: char) {
    '0' <= c <= '9'
  }

  predicate AllDigits(s: string) {
    forall i :: 0 <= i < |s| ==> IsDigit(s[i])
  }

  function DigitChar(d: nat): (c: char)
    requires d < 10
    ensures IsDigit(c) && c as int - '0' as int == d
  {
    ('0' as int + d) as char
  }

  /** The value of a string of decimal digits. */
  function DigitsValue(s: string): nat
    requires AllDigits(s)
  {
    if s == [] then 0 else DigitsValue(s[..|s| - 1]) * 10 + (s[|s| - 1] as int - '0' as int)
  }

  /** `String(n)` for a natural number: a non-empty run of digits whose value is `n`. */
  function NatToString(n: nat): (r: string)
    ensures |r| >= 1 && AllDigits(r)
    ensures DigitsValue(r) == n
  {
    if n < 10 then [DigitChar(n)]
    else
      var r := NatToString(n / 10) + [DigitChar(n % 10)];
      assert r[..|r| - 1] == NatToString(n / 10);
      r
  }

  /** `String(n)` for an integer. */
  function IntToString(n: int): string {
    if n < 0 then "-" + NatToString(-n) else NatToString(n)
  }

  /** Plain decimal integer syntax: an optional sign and at least one digit. */
  function ParseInt(s: string): Option<int> {
    if |s| >= 2 && s[0] == '-' && AllDigits(s[1..]) then Some(-(DigitsValue(s[1..]) as int))
    else if |s| >= 2 && s[0] == '+' && AllDigits(s[1..]) then Some(DigitsValue(s[1..]))
    else if |s| >= 1 && AllDigits(s) then Some(DigitsValue(s))
    else None
  }

  /** Parsing what `IntToString` writes gives the integer back. */
  lemma ParseIntToString(n: int)
    ensures ParseInt(IntToString(n)) == Some(n)
    ensures IntToString(n) != [] && NoEdgeSpace(IntToString(n))
  {
    if n < 0 {
      assert ("-" + NatToString(-n))[1..] == NatToString(-n);
    }
  }
}
