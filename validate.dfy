/** Structural validation of a token record: two string shape tests and the ordered
    list of error messages. */
module Validate {
  import opened Wrappers
  import opened Strings
  import opened Types

  predicate IsLowerHexDigit(c: char) {
    ('0' <= c <= '9') || ('a' <= c <= 'f')
  }

  /** The `[a-f0-9]+` part of the pattern, scanned character by character. */
  function HexRun(s: string): bool {
    if |s| == 1 then IsLowerHexDigit(s[0])
    else |s| > 1 && IsLowerHexDigit(s[0]) && HexRun(s[1..])
  }

  /** The scan accepts one or more lower-case hex digits and nothing else. */
  lemma {:induction false} HexRunShape(s: string)
    ensures HexRun(s) <==> |s| >= 1 && forall i :: 0 <= i < |s| ==> IsLowerHexDigit(s[i])
  {
    if |s| > 1 {
      HexRunShape(s[1..]);
      assert forall i :: 1 <= i < |s| ==> s[i] == s[1..][i - 1];
    }
  }

  /** The anchored pattern `^0x[a-f0-9]+$`: it accepts "0x" and then one or more
      lower-case hex digits, up to the end of the string, and nothing else. */
  function IsHexLower(s: string): (b: bool)
    ensures b <==> |s| >= 3 && s[0] == '0' && s[1] == 'x'
                   && forall i :: 2 <= i < |s| ==> IsLowerHexDigit(s[i])
  {
    if |s| < 2 then false
    else
      HexRunShape(s[2..]);
      assert forall i :: 2 <= i < |s| ==> s[i] == s[2..][i - 2];
      StartsWith(s, "0x") && HexRun(s[2..])
  }

  /** Upper-case hex digits (and an upper-case X) are rejected. */
  lemma UpperHexRejected(s: string, i: int)
    requires 0 <= i < |s| && 'A' <= s[i] <= 'F'
    ensures !IsHexLower(s)
  {
  }

  /** After lower-casing, the pattern accepts exactly "0x" or "0X" followed by one
      or more hex digits of either case. */
  lemma IsHexLowerOfLower(s: string)
    ensures IsHexLower(Lower(s)) <==>
      |s| >= 3 && s[0] == '0' && (s[1] == 'x' || s[1] == 'X')
      && forall i :: 2 <= i < |s| ==> IsLowerHexDigit(LowerChar(s[i]))
  {
    var l := Lower(s);
    if |s| >= 3 {
      assert l[0] == LowerChar(s[0]) && l[1] == LowerChar(s[1]);
      assert forall i :: 2 <= i < |s| ==> l[i] == LowerChar(s[i]);
    }
  }

  /** The shape of `\d{4}-\d{2}-\d{2}T\d{2}:\d{2}:\d{2}Z`, where 'd' marks a digit. */
  const IsoTemplate: string := "dddd-dd-ddTdd:dd:ddZ"

  /** `w` has the shape of the template. */
  predicate IsoShape(w: string) {
    |w| == |IsoTemplate|
    && forall k :: 0 <= k < |IsoTemplate| ==>
         if IsoTemplate[k] == 'd' then IsDigit(w[k]) else w[k] == IsoTemplate[k]
  }

  /** The pattern matches the 20 characters of `s` starting at `i`. */
  predicate IsoAt(s: string, i: int) {
    0 <= i && i + |IsoTemplate| <= |s| && IsoShape(s[i..i + |IsoTemplate|])
  }

  /** The search of an unanchored pattern from position `i` onwards. */
  function SearchIso(s: string, i: nat): bool
    decreases |s| - i
  {
    if i + |IsoTemplate| > |s| then false
    else IsoAt(s, i) || SearchIso(s, i + 1)
  }

  /** The search from `i` succeeds exactly when the shape occurs at `i` or later. */
  lemma {:induction false} SearchIsoAt(s: string, i: nat)
    ensures SearchIso(s, i) <==> exists j :: i <= j && IsoAt(s, j)
    decreases |s| - i
  {
    if i + |IsoTemplate| <= |s| {
      SearchIsoAt(s, i + 1);
      if exists j :: i <= j && IsoAt(s, j) {
        var j :| i <= j && IsoAt(s, j);
        assert j == i || (i + 1 <= j && IsoAt(s, j));
      }
    }
  }

  /** `isIsoDate`: whether the timestamp shape occurs somewhere in `s`. Nothing
      anchors the pattern and no field is range-checked. */
  function IsIsoDate(s: string): (b: bool)
    ensures b <==> exists j :: IsoAt(s, j)
  {
    SearchIsoAt(s, 0);
    SearchIso(s, 0)
  }

  /** Text before or after a matching timestamp does not stop the match. */
  lemma {:induction false} IsoDateUnanchored(s: string, before: string, after: string)
    requires IsIsoDate(s)
    ensures IsIsoDate(before + s + after)
  {
    var j :| IsoAt(s, j);
    var t := before + s + after;
    assert t[|before| + j..|before| + j + |IsoTemplate|] == s[j..j + |IsoTemplate|];
    assert IsoAt(t, |before| + j);
  }

  /** Out-of-range fields pass: there is no calendar check. */
  lemma IsoDateNoRangeCheck()
    ensures IsIsoDate("9999-99-99T99:99:99Z")
  {
    assert IsoAt("9999-99-99T99:99:99Z", 0);
  }

  /** Milliseconds before the zone letter break the shape. */
  lemma IsoDateNoFraction()
    ensures !IsIsoDate("2024-01-01T00:00:00.000Z")
  {
    var m := "2024-01-01T00:00:00.000Z";
    forall j | 0 <= j && j + |IsoTemplate| <= |m| ensures !IsoAt(m, j) {
      var w := m[j..j + |IsoTemplate|];
      var k := if j == 0 then 19 else 4 - j;
      assert !(if IsoTemplate[k] == 'd' then IsDigit(w[k]) else w[k] == IsoTemplate[k]);
    }
  }

  /** The messages, in the order the checks run. */
  const Messages: seq<string> := [
    "name required",
    "symbol required",
    "decimals 0-18",
    "objectId must be 0x-prefixed lowercase hex",
    "addedAt must be ISO-8601 UTC",
    "verified boolean required",
    "logoURI must be HTTPS"
  ]

  /** The messages differ pairwise (they start with different letters). */
  lemma MessagesDistinct(i: nat, j: nat)
    requires i < |Messages| && j < |Messages| && i != j
    ensures Messages[i] != Messages[j]
  {
    assert Messages[i][0] != Messages[j][0];
  }

  predicate NameOk(t: Token) {
    Trim(t.name) != ""
  }

  predicate SymbolOk(t: Token) {
    Trim(t.symbol) != ""
  }

  predicate DecimalsOk(t: Token) {
    t.decimals.Int? && 0 <= t.decimals.value <= 18
  }

  /** An absent or empty logo passes; any other must use HTTPS. */
  predicate LogoOk(t: Token) {
    t.logoURI.None? || t.logoURI.value == "" || StartsWith(t.logoURI.value, "https://")
  }

  /** All checks of `validateToken` pass. */
  predicate IsValid(t: Token) {
    NameOk(t) && SymbolOk(t) && DecimalsOk(t) && IsHexLower(t.objectId)
    && IsIsoDate(t.addedAt) && LogoOk(t)
  }

  /** Whether each check of `validateToken` passes, in the order they run. The check
      that `verified` is a boolean (number 5) always passes here, as the field is a
      boolean by type. */
  function Passes(t: Token): (p: seq<bool>)
    ensures |p| == 7
  {
    [NameOk(t), SymbolOk(t), DecimalsOk(t), IsHexLower(t.objectId), IsIsoDate(t.addedAt),
     true, LogoOk(t)]
  }

  /** The numbers of the checks from `k` onwards that fail, in increasing order. */
  function FailedFrom(p: seq<bool>, k: nat): (r: seq<nat>)
    requires k <= |p|
    ensures forall i :: 0 <= i < |r| ==> k <= r[i] < |p| && !p[r[i]]
    ensures forall i, j :: 0 <= i < j < |r| ==> r[i] < r[j]
    ensures forall m :: k <= m < |p| && !p[m] ==> m in r
    ensures |r| <= |p| - k
    decreases |p| - k
  {
    if k == |p| then []
    else (if p[k] then [] else [k]) + FailedFrom(p, k + 1)
  }

  /** `validateToken`: the message of each failing check, in check order, so at
      most one per check and at most seven. Which messages appear is stated by
      `MessageIffFails`, and that none appears exactly when every check passes by
      `ValidateTokenEmptyIffValid`. */
  function ValidateToken(t: Token): (errs: seq<string>)
    ensures |errs| == |FailedFrom(Passes(t), 0)| <= 7
    ensures var failed := FailedFrom(Passes(t), 0);
            forall i :: 0 <= i < |errs| ==> errs[i] == Messages[failed[i]]
  {
    var failed := FailedFrom(Passes(t), 0);
    seq(|failed|, i requires 0 <= i < |failed| => Messages[failed[i]])
  }

  lemma {:induction false} FailedFromEmpty(p: seq<bool>, k: nat)
    requires k <= |p|
    ensures FailedFrom(p, k) == [] <==> forall m :: k <= m < |p| ==> p[m]
    decreases |p| - k
  {
    if k < |p| {
      FailedFromEmpty(p, k + 1);
    }
  }

  lemma {:induction false} NoFailures(p: seq<bool>)
    requires |p| == 7
    ensures FailedFrom(p, 0) == [] <==> p[0] && p[1] && p[2] && p[3] && p[4] && p[5] && p[6]
  {
    FailedFromEmpty(p, 0);
    if p[0] && p[1] && p[2] && p[3] && p[4] && p[5] && p[6] {
      forall m | 0 <= m < 7 ensures p[m] {
        if m < 4 {
          assert m == 0 || m == 1 || m == 2 || m == 3;
        } else {
          assert m == 4 || m == 5 || m == 6;
        }
      }
    }
  }

  /** Every check passes exactly when the token is valid. */
  lemma PassesValid(t: Token)
    ensures var p := Passes(t); IsValid(t) <==> p[0] && p[1] && p[2] && p[3] && p[4] && p[5] && p[6]
  {
    var p := Passes(t);
    assert p[0] == NameOk(t) && p[1] == SymbolOk(t) && p[2] == DecimalsOk(t);
    assert p[3] == IsHexLower(t.objectId) && p[4] == IsIsoDate(t.addedAt) && p[5] && p[6] == LogoOk(t);
  }

  /** `validateToken` returns no message exactly when every check passes. */
  lemma {:induction false} ValidateTokenEmptyIffValid(t: Token)
    ensures ValidateToken(t) == [] <==> IsValid(t)
  {
    var p := Passes(t);
    NoFailures(p);
    PassesValid(t);
    assert ValidateToken(t) == [] <==> FailedFrom(p, 0) == [];
  }

  /** A message is present exactly when its check fails. */
  lemma {:induction false} MessageIffFails(t: Token, m: nat)
    requires m < |Messages|
    ensures Messages[m] in ValidateToken(t) <==> !Passes(t)[m]
  {
    var errs := ValidateToken(t);
    var failed := FailedFrom(Passes(t), 0);
    assert forall i :: 0 <= i < |errs| ==> errs[i] == Messages[failed[i]];
    if Messages[m] in errs {
      var i :| 0 <= i < |errs| && errs[i] == Messages[m];
      if failed[i] != m {
        MessagesDistinct(failed[i], m);
      }
    }
    if !Passes(t)[m] {
      var i :| 0 <= i < |failed| && failed[i] == m;
      assert errs[i] == Messages[m];
    }
  }

  /** A name or symbol of white space only is rejected, and "verified boolean
      required" never appears. */
  lemma {:induction false} BlankNameOrSymbolRejected(t: Token)
    ensures Messages[0] in ValidateToken(t) <==> AllSpace(t.name)
    ensures Messages[1] in ValidateToken(t) <==> AllSpace(t.symbol)
    ensures Messages[5] !in ValidateToken(t)
  {
    var p := Passes(t);
    MessageIffFails(t, 0);
    MessageIffFails(t, 1);
    MessageIffFails(t, 5);
    assert p[0] == NameOk(t) && p[1] == SymbolOk(t) && p[5];
  }

  /** In a strictly increasing sequence, a smaller member comes earlier. */
  lemma IncreasingIndex(r: seq<nat>, i: int, j: int)
    requires forall a, b :: 0 <= a < b < |r| ==> r[a] < r[b]
    requires 0 <= i < |r| && 0 <= j < |r| && r[i] < r[j]
    ensures i < j
  {
  }

  /** When two checks fail, the message of the earlier check comes first. */
  lemma {:induction false} MessagesInCheckOrder(t: Token, m1: nat, m2: nat)
    requires m1 < m2 < |Messages| && !Passes(t)[m1] && !Passes(t)[m2]
    ensures var errs := ValidateToken(t);
            exists i, j :: 0 <= i < j < |errs| && errs[i] == Messages[m1] && errs[j] == Messages[m2]
  {
    var errs := ValidateToken(t);
    var failed := FailedFrom(Passes(t), 0);
    var i :| 0 <= i < |failed| && failed[i] == m1;
    var j :| 0 <= j < |failed| && failed[j] == m2;
    IncreasingIndex(failed, i, j);
    assert errs[i] == Messages[m1] && errs[j] == Messages[m2];
  }
}
