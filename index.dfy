/** The composition pipeline: load and normalise the discovered and the manual
    records, keep the valid ones, deduplicate by object identifier with the later
    record winning, drop banned identifiers, split off the strict list and sort
    both lists. Reading and writing the files is left to the caller: the records
    come in as parameters and the two lists go out as the result. */
module Index {
  import opened Wrappers
  import opened Strings
  import opened Types
  import opened Validate
  import opened Compose
  import opened Collections

  // ---------------------------------------------------------------------------
  // Ordering

  /** The primary sort key: the lower-cased symbol, or the name when the symbol
      is empty. */
  function SortKey(t: Token): string {
    Lower(if t.symbol != "" then t.symbol else t.name)
  }

  /** `cmpToken`: verified records first; then by the primary key; then by the
      lower-cased name. It returns 0 exactly when all three agree. */
  function CmpToken(a: Token, b: Token): (r: int)
    ensures -1 <= r <= 1
    ensures a.verified && !b.verified ==> r == -1
    ensures r == 0 <==> a.verified == b.verified && SortKey(a) == SortKey(b) && Lower(a.name) == Lower(b.name)
  {
    if a.verified != b.verified then (if a.verified then -1 else 1)
    else
      var c := StrCmp(SortKey(a), SortKey(b));
      if c != 0 then c else StrCmp(Lower(a.name), Lower(b.name))
  }

  lemma CmpTokenAntisymmetric(a: Token, b: Token)
    ensures CmpToken(b, a) == -CmpToken(a, b)
  {
    StrCmpAntisymmetric(SortKey(a), SortKey(b));
    StrCmpAntisymmetric(Lower(a.name), Lower(b.name));
  }

  lemma CmpTokenTransitive(a: Token, b: Token, c: Token)
    requires CmpToken(a, b) <= 0 && CmpToken(b, c) <= 0
    ensures CmpToken(a, c) <= 0
  {
    if a.verified == b.verified == c.verified {
      var ka, kb, kc := SortKey(a), SortKey(b), SortKey(c);
      StrCmpTransitive(ka, kb, kc);
      if StrCmp(ka, kc) == 0 {
        StrCmpAntisymmetric(ka, kb);
        StrCmpTransitive(Lower(a.name), Lower(b.name), Lower(c.name));
      }
    }
  }

  predicate Sorted(s: seq<Token>) {
    forall i, j :: 0 <= i < j < |s| ==> CmpToken(s[i], s[j]) <= 0
  }

  /** `x` goes in front of a sorted sequence whose first element compares greater. */
  lemma SortedPrepend(x: Token, s: seq<Token>)
    requires Sorted(s) && s != [] && CmpToken(s[0], x) > 0
    ensures Sorted([x] + s)
  {
    forall j | 0 <= j < |s| ensures CmpToken(x, s[j]) <= 0 {
      CmpTokenAntisymmetric(s[0], x);
      if j > 0 {
        CmpTokenTransitive(x, s[0], s[j]);
      }
    }
    SortedCons(x, s);
  }

  /** The first element of a sorted sequence does not compare greater than any
      later element, nor than an `x` it does not compare greater than. */
  lemma FirstBelow(s: seq<Token>, x: Token, y: Token)
    requires Sorted(s) && s != [] && CmpToken(s[0], x) <= 0
    requires y in multiset(s[1..]) + multiset{x}
    ensures CmpToken(s[0], y) <= 0
  {
    if y != x {
      assert y in multiset(s[1..]);
      var k :| 0 <= k < |s[1..]| && s[1..][k] == y;
      assert s[k + 1] == y;
    }
  }

  /** A record that does not compare greater than any element of a sorted
      sequence can go in front of it. */
  lemma SortedCons(y: Token, r: seq<Token>)
    requires Sorted(r)
    requires forall j :: 0 <= j < |r| ==> CmpToken(y, r[j]) <= 0
    ensures Sorted([y] + r)
  {
    var q := [y] + r;
    forall i, j | 0 <= i < j < |q| ensures CmpToken(q[i], q[j]) <= 0 {
      ConsPair(y, r, i, j);
    }
  }

  lemma ConsPair(y: Token, r: seq<Token>, i: nat, j: nat)
    requires Sorted(r)
    requires forall j :: 0 <= j < |r| ==> CmpToken(y, r[j]) <= 0
    requires i < j <= |r|
    ensures CmpToken(([y] + r)[i], ([y] + r)[j]) <= 0
  {
    var q := [y] + r;
    assert q[j] == r[j - 1];
    if i > 0 {
      assert q[i] == r[i - 1];
    }
  }

  /** The first element stays in front of the insertion into the rest. */
  lemma SortedKeepFirst(s: seq<Token>, x: Token, r: seq<Token>)
    requires Sorted(s) && s != [] && CmpToken(s[0], x) <= 0
    requires Sorted(r) && multiset(r) == multiset(s[1..]) + multiset{x}
    ensures Sorted([s[0]] + r)
    ensures multiset([s[0]] + r) == multiset(s) + multiset{x}
  {
    assert s == [s[0]] + s[1..];
    forall j | 0 <= j < |r| ensures CmpToken(s[0], r[j]) <= 0 {
      assert r[j] in multiset(r);
      FirstBelow(s, x, r[j]);
    }
    SortedCons(s[0], r);
  }

  /** Inserts `x` after every element that does not compare greater than it, so
      records that compare equal keep their input order (`InsertStable`). */
  function Insert(s: seq<Token>, x: Token): (r: seq<Token>)
    requires Sorted(s)
    ensures Sorted(r)
    ensures multiset(r) == multiset(s) + multiset{x}
  {
    if s == [] then [x]
    else if CmpToken(s[0], x) > 0 then
      SortedPrepend(x, s);
      [x] + s
    else
      var r := Insert(s[1..], x);
      SortedKeepFirst(s, x, r);
      [s[0]] + r
  }

  /** `[...ts].sort(cmpToken)`: a stable sort (`SortStable`), written as insertion
      sort. The result is ordered by `CmpToken` and is a permutation of the input. */
  function SortTokens(s: seq<Token>): (r: seq<Token>)
    ensures Sorted(r)
    ensures multiset(r) == multiset(s)
  {
    if s == [] then []
    else
      assert s == s[..|s| - 1] + [s[|s| - 1]];
      Insert(SortTokens(s[..|s| - 1]), s[|s| - 1])
  }

  /** The records that compare equal to `x`. */
  function TiesWith(x: Token): Token -> bool {
    t => CmpToken(t, x) == 0
  }

  /** Records that compare equal compare the same way against any other record. */
  lemma CmpTokenTies(a: Token, b: Token, c: Token)
    requires CmpToken(b, c) == 0
    ensures CmpToken(a, b) == CmpToken(a, c)
  {
  }

  /** No record of a sorted sequence that starts above `y` ties with `y`. */
  lemma NoTiesAbove(r: seq<Token>, y: Token, x: Token)
    requires Sorted(r) && r != [] && CmpToken(r[0], y) > 0 && CmpToken(y, x) == 0
    ensures forall k :: 0 <= k < |r| ==> !TiesWith(x)(r[k])
  {
    forall k | 0 <= k < |r| ensures CmpToken(r[k], x) != 0 {
      if CmpToken(r[k], x) == 0 {
        CmpTokenTies(r[0], r[k], x);
        CmpTokenTies(r[0], y, x);
        assert false;
      }
    }
  }

  /** `y` in front of a sorted sequence that starts above it. */
  lemma InsertStableFront(r: seq<Token>, y: Token, x: Token)
    requires Sorted(r) && r != [] && CmpToken(r[0], y) > 0
    ensures Filter([y] + r, TiesWith(x)) == Filter(r, TiesWith(x)) + (if TiesWith(x)(y) then [y] else [])
  {
    var p := TiesWith(x);
    FilterAppend([y], r, p);
    FilterSnoc([], y, p);
    assert [] + [y] == [y];
    if p(y) {
      NoTiesAbove(r, y, x);
      FilterNone(r, p);
    }
  }

  /** Inserting `y` puts it after every record it ties with, so the records tied
      with `x` are those of `r` in their order, then `y` if it ties. */
  lemma {:induction false} InsertStable(r: seq<Token>, y: Token, x: Token)
    requires Sorted(r)
    ensures Filter(Insert(r, y), TiesWith(x)) == Filter(r, TiesWith(x)) + (if TiesWith(x)(y) then [y] else [])
    decreases |r|
  {
    if r == [] {
      assert Insert(r, y) == [y] && [] + [y] == [y];
      FilterSnoc([], y, TiesWith(x));
    } else if CmpToken(r[0], y) > 0 {
      assert Insert(r, y) == [y] + r;
      InsertStableFront(r, y, x);
    } else {
      assert Insert(r, y) == [r[0]] + Insert(r[1..], y);
      InsertStable(r[1..], y, x);
      FilterConsTail(r, Insert(r[1..], y), if TiesWith(x)(y) then [y] else [], TiesWith(x));
    }
  }

  /** The sort is stable: the records that compare equal to any `x` come out in
      their input order. */
  lemma {:induction false} SortStable(s: seq<Token>, x: Token)
    ensures Filter(SortTokens(s), TiesWith(x)) == Filter(s, TiesWith(x))
    decreases |s|
  {
    if s != [] {
      var n := |s| - 1;
      assert s == s[..n] + [s[n]];
      SortStable(s[..n], x);
      InsertStable(SortTokens(s[..n]), s[n], x);
      FilterSnoc(s[..n], s[n], TiesWith(x));
    }
  }

  /** `x` goes in front of a sorted sequence whose first element compares greater. */
  lemma InsertFront(s: seq<Token>, x: Token)
    requires Sorted(s) && s != [] && CmpToken(s[0], x) > 0
    ensures Insert(s, x) == [x] + s
  {
  }

  /** Verified records come before unverified ones, and among verified records
      "A" comes before "B", whatever the input order. */
  lemma SortExample(t: Token)
    ensures var a := t.(symbol := "A", verified := true);
            var b := t.(symbol := "B", verified := true);
            var u := t.(symbol := "A", verified := false);
            SortTokens([u, b, a]) == [a, b, u]
  {
    var a := t.(symbol := "A", verified := true);
    var b := t.(symbol := "B", verified := true);
    var u := t.(symbol := "A", verified := false);
    ExampleOrder(t);
    SortPair(t);
    assert [u, b, a][..2] == [u, b];
    InsertFront([b, u], a);
  }

  /** The first two steps of the example: the unverified record goes behind. */
  lemma SortPair(t: Token)
    ensures var b := t.(symbol := "B", verified := true);
            var u := t.(symbol := "A", verified := false);
            SortTokens([u, b]) == [b, u]
  {
    var b := t.(symbol := "B", verified := true);
    var u := t.(symbol := "A", verified := false);
    assert CmpToken(u, b) > 0;
    assert [u, b][..1] == [u];
    assert SortTokens([u]) == [u];
    InsertFront([u], b);
  }

  /** The same three records in another input order sort the same way. */
  lemma SortDocumented(t: Token)
    ensures var a := t.(symbol := "A", verified := true);
            var b := t.(symbol := "B", verified := true);
            var u := t.(symbol := "A", verified := false);
            SortTokens([b, u, a]) == [a, b, u]
  {
    var a := t.(symbol := "A", verified := true);
    var b := t.(symbol := "B", verified := true);
    var u := t.(symbol := "A", verified := false);
    ExampleOrder(t);
    SortVerifiedFirst(t);
    assert [b, u, a][..2] == [b, u];
    InsertFront([b, u], a);
  }

  /** A verified record ahead of an unverified one stays ahead. */
  lemma SortVerifiedFirst(t: Token)
    ensures var b := t.(symbol := "B", verified := true);
            var u := t.(symbol := "A", verified := false);
            SortTokens([b, u]) == [b, u]
  {
    var b := t.(symbol := "B", verified := true);
    var u := t.(symbol := "A", verified := false);
    assert CmpToken(b, u) < 0;
    assert [b, u][..1] == [b];
    assert SortTokens([b]) == [b];
    assert Insert([b], u) == [b] + Insert([], u);
  }

  lemma ExampleOrder(t: Token)
    ensures var a := t.(symbol := "A", verified := true);
            var b := t.(symbol := "B", verified := true);
            CmpToken(b, a) > 0
  {
    var a := t.(symbol := "A", verified := true);
    var b := t.(symbol := "B", verified := true);
    assert SortKey(a) == "a" && SortKey(b) == "b";
  }

  // ---------------------------------------------------------------------------
  // Loading, validation and deduplication

  /** The normalisation applied to every loaded record: trimmed name and symbol,
      lower-cased object identifier. */
  function Normalize(t: Token): (r: Token)
    ensures NoEdgeSpace(r.name) && NoEdgeSpace(r.symbol) && Lower(r.objectId) == r.objectId
    ensures r.name == [] <==> AllSpace(t.name)
    ensures r.(name := t.name, symbol := t.symbol, objectId := t.objectId) == t
  {
    LowerIdempotent(t.objectId);
    t.(name := Trim(t.name), symbol := Trim(t.symbol), objectId := Lower(t.objectId))
  }

  function NormalizeAll(ts: seq<Token>): seq<Token> {
    seq(|ts|, i requires 0 <= i < |ts| => Normalize(ts[i]))
  }

  /** Normalising twice is normalising once. */
  lemma NormalizeIdempotent(t: Token)
    ensures Normalize(Normalize(t)) == Normalize(t)
  {
    var l := Lower(t.objectId);
    assert Lower(l) == l;
  }

  /** `inputTokens`: the discovered records, then the manual ones. */
  function Inputs(discovered: seq<Token>, manual: seq<Token>): seq<Token> {
    NormalizeAll(discovered) + NormalizeAll(manual)
  }

  /** A record the validation loop keeps. */
  predicate Accepted(t: Token) {
    ValidateToken(t) == []
  }

  /** `validTokens`: the input records that pass validation, in input order. */
  function ValidInputs(discovered: seq<Token>, manual: seq<Token>): seq<Token> {
    Filter(Inputs(discovered, manual), Accepted)
  }

  predicate UniqueIds(s: seq<Token>) {
    forall i, j :: 0 <= i < j < |s| ==> s[i].objectId != s[j].objectId
  }

  /** The position of the last record with identifier `id`. */
  function LastIndex(s: seq<Token>, id: string): (i: nat)
    requires id in IdSet(s)
    ensures i < |s| && s[i].objectId == id
    ensures forall j :: i < j < |s| ==> s[j].objectId != id
  {
    var n := |s| - 1;
    assert s == s[..n] + [s[n]];
    IdSetSnoc(s[..n], s[n]);
    if s[n].objectId == id then n else LastIndex(s[..n], id)
  }

  /** The record a map keyed by identifier holds for `id` after all of `s` was
      stored into it in order. */
  function LastWith(s: seq<Token>, id: string): (t: Token)
    requires id in IdSet(s)
    ensures t in s && t.objectId == id
  {
    s[LastIndex(s, id)]
  }

  /** The identifiers of `s` in order of first appearance, which is the order the
      keys of a `Map` keep. */
  function FirstIds(s: seq<Token>): (ids: seq<string>)
    ensures forall i, j :: 0 <= i < j < |ids| ==> ids[i] != ids[j]
    ensures forall id :: id in ids <==> id in IdSet(s)
  {
    if s == [] then []
    else
      var n := |s| - 1;
      assert s == s[..n] + [s[n]];
      IdSetSnoc(s[..n], s[n]);
      var ids := FirstIds(s[..n]);
      if s[n].objectId in ids then ids else ids + [s[n].objectId]
  }

  /** `Array.from(byId.values())` after every record of `s` was stored under its
      identifier: one record per identifier, namely the last one stored. */
  function Dedupe(s: seq<Token>): (r: seq<Token>)
    ensures UniqueIds(r)
    ensures forall id :: id in IdSet(r) <==> id in IdSet(s)
    ensures forall t :: t in r ==> t.objectId in IdSet(s) && t == LastWith(s, t.objectId)
  {
    var ids := FirstIds(s);
    var r := seq(|ids|, k requires 0 <= k < |ids| => LastWith(s, ids[k]));
    assert forall k :: 0 <= k < |r| ==> r[k].objectId == ids[k];
    assert forall id :: id in IdSet(r) <==> id in ids by {
      forall id | id in ids ensures id in IdSet(r) {
        var k :| 0 <= k < |ids| && ids[k] == id;
        assert r[k].objectId == id;
      }
    }
    r
  }

  /** When `id` occurs in `b`, the last record with it in `a + b` is the last in `b`;
      otherwise it is the last in `a`. */
  lemma LastWithAppend(a: seq<Token>, b: seq<Token>, id: string)
    requires id in IdSet(a + b)
    ensures id in IdSet(b) ==> LastWith(a + b, id) == LastWith(b, id)
    ensures id !in IdSet(b) ==> id in IdSet(a) && LastWith(a + b, id) == LastWith(a, id)
  {
    IdSetAppend(a, b);
    var s := a + b;
    var i := LastIndex(s, id);
    if id in IdSet(b) {
      var k := LastIndex(b, id);
      assert s[|a| + k] == b[k];
      assert b[i - |a|] == s[i];
    } else {
      forall j | |a| <= j < |s| ensures s[j].objectId != id {
        assert b[j - |a|] == s[j];
      }
      var k := LastIndex(a, id);
      assert s[k] == a[k];
      assert a[i] == s[i];
    }
  }

  lemma LastWithSnoc(s: seq<Token>, t: Token, id: string)
    requires id in IdSet(s + [t])
    ensures id == t.objectId ==> LastWith(s + [t], id) == t
    ensures id != t.objectId ==> id in IdSet(s) && LastWith(s + [t], id) == LastWith(s, id)
  {
    assert (s + [t])[..|s|] == s;
    IdSetSnoc(s, t);
  }

  lemma FirstIdsSnoc(s: seq<Token>, t: Token)
    ensures FirstIds(s + [t]) == if t.objectId in FirstIds(s) then FirstIds(s) else FirstIds(s) + [t.objectId]
  {
    assert (s + [t])[..|s|] == s;
  }

  /** Some record of `s` carries `a` before any record carries `b`. */
  predicate OccursBefore(s: seq<Token>, a: string, b: string) {
    exists p :: 0 <= p < |s| && s[p].objectId == a && forall q :: 0 <= q <= p ==> s[q].objectId != b
  }

  /** The identifiers are listed in order of first appearance. */
  lemma {:induction false} FirstIdsOrder(s: seq<Token>, i: nat, j: nat)
    requires i < j < |FirstIds(s)|
    ensures OccursBefore(s, FirstIds(s)[i], FirstIds(s)[j])
    decreases |s|
  {
    var n := |s| - 1;
    assert s == s[..n] + [s[n]];
    var prev, t := s[..n], s[n];
    FirstIdsSnoc(prev, t);
    var ids := FirstIds(prev);
    if j < |ids| {
      FirstIdsOrder(prev, i, j);
      var p :| 0 <= p < |prev| && prev[p].objectId == ids[i] && forall q :: 0 <= q <= p ==> prev[q].objectId != ids[j];
      assert s[p] == prev[p];
      forall q | 0 <= q <= p ensures s[q].objectId != ids[j] {
        assert s[q] == prev[q];
      }
    } else {
      NewIdAfterOld(prev, t, ids[i]);
    }
  }

  /** An identifier of `prev` occurs before a new one appended after it. */
  lemma NewIdAfterOld(prev: seq<Token>, t: Token, id: string)
    requires id in IdSet(prev) && t.objectId !in IdSet(prev)
    ensures OccursBefore(prev + [t], id, t.objectId)
  {
    var s := prev + [t];
    var p :| 0 <= p < |prev| && prev[p].objectId == id;
    assert s[p] == prev[p];
    forall q | 0 <= q <= p ensures s[q].objectId != t.objectId {
      assert s[q] == prev[q];
      assert prev[q].objectId in IdSet(prev);
    }
  }

  /** The deduplicated records are in the order their identifiers first appear:
      the order in which a `Map` keeps its keys. */
  lemma DedupeKeepsFirstPositions(s: seq<Token>, i: nat, j: nat)
    requires i < j < |Dedupe(s)|
    ensures OccursBefore(s, Dedupe(s)[i].objectId, Dedupe(s)[j].objectId)
  {
    var ids := FirstIds(s);
    assert |Dedupe(s)| == |ids|;
    assert Dedupe(s)[i].objectId == ids[i] && Dedupe(s)[j].objectId == ids[j];
    FirstIdsOrder(s, i, j);
  }

  // ---------------------------------------------------------------------------
  // The ban list and the two output lists

  /** `new Set(banned.map(b => b.objectId.toLowerCase()))`. An entry without an
      identifier makes the call throw, which aborts the whole run. */
  function BannedIds(entries: seq<BannedEntry>): (r: Result<set<string>>)
    ensures r.Ok? <==> forall i :: 0 <= i < |entries| ==> entries[i].objectId.Some?
    ensures r.Ok? ==> forall i :: 0 <= i < |entries| ==> Lower(entries[i].objectId.value) in r.value
    ensures r.Ok? ==> forall id :: id in r.value ==>
              exists i :: 0 <= i < |entries| && entries[i].objectId.Some? && id == Lower(entries[i].objectId.value)
  {
    if entries == [] then Ok({})
    else
      var n := |entries| - 1;
      assert entries == entries[..n] + [entries[n]];
      match BannedIds(entries[..n])
      case Err(e) => Err(e)
      case Ok(ids) =>
        match entries[n].objectId
        case None => Err("Cannot read properties of undefined (reading 'toLowerCase')")
        case Some(id) => Ok(ids + {Lower(id)})
  }

  /** `deduped.filter(t => !bannedSet.has(t.objectId))`. */
  function Unbanned(ts: seq<Token>, ids: set<string>): (r: seq<Token>)
    ensures forall i :: 0 <= i < |r| ==> r[i] in ts && r[i].objectId !in ids
    ensures forall i :: 0 <= i < |ts| && ts[i].objectId !in ids ==> ts[i] in r
    ensures multiset(r) <= multiset(ts)
  {
    Filter(ts, (t: Token) => t.objectId !in ids)
  }

  datatype Outputs = Outputs(all: OutputList, strict: OutputList)

  const AllListName: string := "Polar All Tokens"
  const StrictListName: string := "Polar Strict Tokens"
  const Chain: string := "sui"

  /** The whole composition as a function of the loaded records, the ban list and
      the timestamp `now` (the current time, without milliseconds). It fails exactly
      when some ban-list entry has no identifier. */
  function Pipeline(discovered: seq<Token>, manual: seq<Token>, banned: seq<BannedEntry>, now: string): (r: Result<Outputs>)
    ensures r.Err? <==> exists i :: 0 <= i < |banned| && banned[i].objectId.None?
  {
    var deduped := Dedupe(ValidInputs(discovered, manual));
    match BannedIds(banned)
    case Err(e) => Err(e)
    case Ok(ids) =>
      var all := Unbanned(deduped, ids);
      var strict := Filter(all, IsStrictEligible);
      Ok(Outputs(OutputList(AllListName, Chain, now, SortTokens(all), None),
                 OutputList(StrictListName, Chain, now, SortTokens(strict), Some(["verified"]))))
  }

  /** One step of the validation loop: the record is kept exactly when it has no
      message. */
  lemma ValidStep(input: seq<Token>, i: nat, errs: seq<string>)
    requires i < |input| && errs == ValidateToken(input[i])
    ensures Filter(input[..i + 1], Accepted) == Filter(input[..i], Accepted) + (if |errs| == 0 then [input[i]] else [])
  {
    assert input[..i + 1] == input[..i] + [input[i]];
    FilterSnoc(input[..i], input[i], Accepted);
  }

  /** The validation loop: keeps, in order, the records without messages. */
  method ValidTokens(input: seq<Token>) returns (valid: seq<Token>)
    ensures valid == Filter(input, Accepted)
  {
    valid := [];
    for i := 0 to |input|
      invariant valid == Filter(input[..i], Accepted)
    {
      var errs := ValidateToken(input[i]);
      ValidStep(input, i, errs);
      if |errs| == 0 {
        valid := valid + [input[i]];
      }
    }
    assert input[..|input|] == input;
  }

  /** The state of the dedupe loop after storing all of `s`: the keys in insertion
      order, and for each key the last record stored under it. */
  predicate MapHolds(s: seq<Token>, order: seq<string>, byId: map<string, Token>) {
    order == FirstIds(s)
    && byId.Keys == IdSet(s)
    && forall id :: id in byId ==> id in IdSet(s) && byId[id] == LastWith(s, id)
  }

  /** Storing one more record keeps the loop state in step. */
  lemma MapHoldsStep(s: seq<Token>, t: Token, order: seq<string>, byId: map<string, Token>)
    requires MapHolds(s, order, byId)
    ensures MapHolds(s + [t], if t.objectId in byId then order else order + [t.objectId], byId[t.objectId := t])
  {
    OrderStep(s, t, order, byId);
    KeysStep(s, t, byId);
    MapValuesStep(s, t, byId);
  }

  lemma OrderStep(s: seq<Token>, t: Token, order: seq<string>, byId: map<string, Token>)
    requires order == FirstIds(s) && byId.Keys == IdSet(s)
    ensures (if t.objectId in byId then order else order + [t.objectId]) == FirstIds(s + [t])
  {
    FirstIdsSnoc(s, t);
  }

  lemma KeysStep(s: seq<Token>, t: Token, byId: map<string, Token>)
    requires byId.Keys == IdSet(s)
    ensures byId[t.objectId := t].Keys == IdSet(s + [t])
  {
    IdSetSnoc(s, t);
  }

  lemma MapValuesStep(s: seq<Token>, t: Token, byId: map<string, Token>)
    requires byId.Keys == IdSet(s)
    requires forall id :: id in byId ==> id in IdSet(s) && byId[id] == LastWith(s, id)
    ensures forall id :: id in byId[t.objectId := t] ==>
              id in IdSet(s + [t]) && byId[t.objectId := t][id] == LastWith(s + [t], id)
  {
    IdSetSnoc(s, t);
    forall id | id in byId[t.objectId := t]
      ensures id in IdSet(s + [t]) && byId[t.objectId := t][id] == LastWith(s + [t], id)
    {
      LastWithSnoc(s, t, id);
    }
  }

  /** Reading the values of the final map in key order gives `Dedupe`. */
  lemma MapValuesAreDedupe(s: seq<Token>, order: seq<string>, byId: map<string, Token>)
    requires MapHolds(s, order, byId)
    ensures forall k :: 0 <= k < |order| ==> order[k] in byId
    ensures seq(|order|, k requires 0 <= k < |order| && order[k] in byId => byId[order[k]]) == Dedupe(s)
  {
  }

  /** The dedupe loop over a `Map` from identifier to record, modelled as the
      insertion order of the keys and the map itself. */
  method DedupeById(valid: seq<Token>) returns (deduped: seq<Token>)
    ensures deduped == Dedupe(valid)
  {
    var order: seq<string> := [];
    var byId: map<string, Token> := map[];
    for i := 0 to |valid|
      invariant MapHolds(valid[..i], order, byId)
    {
      var t := valid[i];
      assert valid[..i + 1] == valid[..i] + [t];
      MapHoldsStep(valid[..i], t, order, byId);
      if t.objectId !in byId {
        order := order + [t.objectId];
      }
      byId := byId[t.objectId := t];
    }
    assert valid[..|valid|] == valid;
    MapValuesAreDedupe(valid, order, byId);
    deduped := seq(|order|, k requires 0 <= k < |order| && order[k] in byId => byId[order[k]]);
  }

  /** `main` between reading and writing the files. */
  method BuildLists(discovered: seq<Token>, manual: seq<Token>, banned: seq<BannedEntry>, now: string)
    returns (r: Result<Outputs>)
    ensures r == Pipeline(discovered, manual, banned, now)
  {
    var input := NormalizeAll(discovered) + NormalizeAll(manual);
    var valid := ValidTokens(input);
    var deduped := DedupeById(valid);
    var ids := BannedIds(banned);
    if ids.Err? {
      return Err(ids.error);
    }
    var all := Unbanned(deduped, ids.value);
    var strict := Filter(all, IsStrictEligible);
    var allSorted := SortTokens(all);
    var strictSorted := SortTokens(strict);
    r := Ok(Outputs(OutputList(AllListName, Chain, now, allSorted, None),
                    OutputList(StrictListName, Chain, now, strictSorted, Some(["verified"]))));
  }

  // ---------------------------------------------------------------------------
  // Properties of the pipeline

  /** Fixed names, chain, timestamp and filters of the two lists; both lists are
      sorted. */
  lemma PipelineShape(discovered: seq<Token>, manual: seq<Token>, banned: seq<BannedEntry>, now: string)
    requires Pipeline(discovered, manual, banned, now).Ok?
    ensures var o := Pipeline(discovered, manual, banned, now).value;
            o.all.name == "Polar All Tokens" && o.strict.name == "Polar Strict Tokens"
            && o.all.chain == "sui" && o.strict.chain == "sui"
            && o.all.updatedAt == now && o.strict.updatedAt == now
            && o.all.filters.None? && o.strict.filters == Some(["verified"])
            && Sorted(o.all.tokens) && Sorted(o.strict.tokens)
  {
  }

  /** Every record of the full list is an accepted input record. */
  lemma ListedIsAccepted(discovered: seq<Token>, manual: seq<Token>, banned: seq<BannedEntry>, now: string, t: Token)
    requires Pipeline(discovered, manual, banned, now).Ok?
    requires t in Pipeline(discovered, manual, banned, now).value.all.tokens
    ensures t in ValidInputs(discovered, manual)
  {
    var ids := BannedIds(banned).value;
    var all := Unbanned(Dedupe(ValidInputs(discovered, manual)), ids);
    assert Pipeline(discovered, manual, banned, now).value.all.tokens == SortTokens(all);
    SortedUnbannedFrom(ValidInputs(discovered, manual), ids, t);
  }

  /** A record of the sorted, deduplicated and unbanned records is one of the
      records it started from. */
  lemma SortedUnbannedFrom(s: seq<Token>, ids: set<string>, t: Token)
    requires t in SortTokens(Unbanned(Dedupe(s), ids))
    ensures t in s
  {
    var d := Dedupe(s);
    var all := Unbanned(d, ids);
    assert t in multiset(all);
    var i :| 0 <= i < |all| && all[i] == t;
    assert t in d;
  }

  /** A record of `NormalizeAll(ts)` is normalised and comes from a record of `ts`. */
  lemma NormalizedFrom(ts: seq<Token>, t: Token)
    requires t in NormalizeAll(ts)
    ensures Normalize(t) == t
    ensures exists u :: u in ts && t == Normalize(u)
  {
    var i :| 0 <= i < |ts| && NormalizeAll(ts)[i] == t;
    NormalizeIdempotent(ts[i]);
  }

  /** An input record is normalised and comes from a discovered or a manual
      record. */
  lemma InputOrigin(discovered: seq<Token>, manual: seq<Token>, t: Token)
    requires t in Inputs(discovered, manual)
    ensures Normalize(t) == t
    ensures exists u :: (u in discovered || u in manual) && t == Normalize(u)
  {
    if t in NormalizeAll(discovered) {
      NormalizedFrom(discovered, t);
    } else {
      NormalizedFrom(manual, t);
    }
  }

  /** An accepted input record passes every check, is normalised, and comes from a
      discovered or a manual record. */
  lemma AcceptedInputFacts(discovered: seq<Token>, manual: seq<Token>, t: Token)
    requires t in ValidInputs(discovered, manual)
    ensures IsValid(t) && Normalize(t) == t
    ensures exists u :: (u in discovered || u in manual) && t == Normalize(u)
  {
    var valid := ValidInputs(discovered, manual);
    var i :| 0 <= i < |valid| && valid[i] == t;
    assert t in Inputs(discovered, manual) && Accepted(t);
    ValidateTokenEmptyIffValid(t);
    InputOrigin(discovered, manual, t);
  }

  /** Every listed record is the normalised form of a discovered or manual record,
      passes every validation check, and is unchanged by normalising it again. */
  lemma PipelineOutputsValid(discovered: seq<Token>, manual: seq<Token>, banned: seq<BannedEntry>, now: string)
    requires Pipeline(discovered, manual, banned, now).Ok?
    ensures var o := Pipeline(discovered, manual, banned, now).value;
            forall t :: t in o.all.tokens ==>
              IsValid(t) && Normalize(t) == t
              && exists u :: (u in discovered || u in manual) && t == Normalize(u)
  {
    var o := Pipeline(discovered, manual, banned, now).value;
    forall t | t in o.all.tokens
      ensures IsValid(t) && Normalize(t) == t
      ensures exists u :: (u in discovered || u in manual) && t == Normalize(u)
    {
      ListedIsAccepted(discovered, manual, banned, now, t);
      AcceptedInputFacts(discovered, manual, t);
    }
  }

  /** No listed record carries an identifier of the ban list (compared after
      lower-casing both). */
  lemma PipelineNoBanned(discovered: seq<Token>, manual: seq<Token>, banned: seq<BannedEntry>, now: string)
    requires Pipeline(discovered, manual, banned, now).Ok?
    ensures var o := Pipeline(discovered, manual, banned, now).value;
            forall t, i :: (t in o.all.tokens || t in o.strict.tokens) && 0 <= i < |banned| ==>
              banned[i].objectId.Some? && t.objectId != Lower(banned[i].objectId.value)
  {
    var o := Pipeline(discovered, manual, banned, now).value;
    var ids := BannedIds(banned).value;
    var all := Unbanned(Dedupe(ValidInputs(discovered, manual)), ids);
    var strict := Filter(all, IsStrictEligible);
    forall t | t in o.all.tokens || t in o.strict.tokens ensures t.objectId !in ids {
      assert t in multiset(o.all.tokens) || t in multiset(o.strict.tokens);
      assert t in all;
    }
  }

  /** The strict list holds exactly the verified records of the full list. */
  lemma PipelineStrictIsVerifiedPart(discovered: seq<Token>, manual: seq<Token>, banned: seq<BannedEntry>, now: string)
    requires Pipeline(discovered, manual, banned, now).Ok?
    ensures var o := Pipeline(discovered, manual, banned, now).value;
            (forall t :: t in o.strict.tokens <==> t in o.all.tokens && t.verified)
            && multiset(o.strict.tokens) <= multiset(o.all.tokens)
  {
    var o := Pipeline(discovered, manual, banned, now).value;
    var ids := BannedIds(banned).value;
    var all := Unbanned(Dedupe(ValidInputs(discovered, manual)), ids);
    var strict := Filter(all, IsStrictEligible);
    assert o.all.tokens == SortTokens(all) && o.strict.tokens == SortTokens(strict);
    forall t ensures t in o.strict.tokens <==> t in o.all.tokens && t.verified {
      calc {
        t in o.strict.tokens;
        t in multiset(strict);
        t in strict;
        t in all && t.verified;
        t in multiset(o.all.tokens) && t.verified;
      }
    }
  }

  lemma UniqueIdsSameToken(s: seq<Token>, x: Token, y: Token)
    requires UniqueIds(s) && x in s && y in s
    ensures x.objectId == y.objectId ==> x == y
  {
  }

  lemma {:induction false} UniqueIdsCount(s: seq<Token>, x: Token)
    requires UniqueIds(s)
    ensures multiset(s)[x] <= 1
  {
    if s != [] {
      var n := |s| - 1;
      assert s == s[..n] + [s[n]];
      UniqueIdsCount(s[..n], x);
      if s[n] == x {
        assert x !in s[..n];
      }
    }
  }

  lemma PairCount(r: seq<Token>, i: nat, j: nat)
    requires i < j < |r|
    ensures r[i] == r[j] ==> multiset(r)[r[i]] >= 2
  {
    assert r == r[..j] + [r[j]] + r[j + 1..];
    assert r[i] == r[..j][i];
  }

  /** A permutation of a sequence with distinct identifiers has distinct
      identifiers. */
  lemma UniqueIdsPermutation(s: seq<Token>, r: seq<Token>)
    requires UniqueIds(s) && multiset(r) == multiset(s)
    ensures UniqueIds(r)
  {
    forall i, j | 0 <= i < j < |r| ensures r[i].objectId != r[j].objectId {
      assert r[i] in multiset(s) && r[j] in multiset(s);
      UniqueIdsSameToken(s, r[i], r[j]);
      UniqueIdsCount(s, r[i]);
      PairCount(r, i, j);
    }
  }

  /** Each list has at most one record per identifier. */
  lemma PipelineUniqueIds(discovered: seq<Token>, manual: seq<Token>, banned: seq<BannedEntry>, now: string)
    requires Pipeline(discovered, manual, banned, now).Ok?
    ensures var o := Pipeline(discovered, manual, banned, now).value;
            UniqueIds(o.all.tokens) && UniqueIds(o.strict.tokens)
  {
    var ids := BannedIds(banned).value;
    var deduped := Dedupe(ValidInputs(discovered, manual));
    var all := Unbanned(deduped, ids);
    var strict := Filter(all, IsStrictEligible);
    UniqueIdsPermutation(deduped, deduped);
    UniqueIdsSubset(deduped, all);
    UniqueIdsSubset(all, strict);
    UniqueIdsPermutation(all, SortTokens(all));
    UniqueIdsPermutation(strict, SortTokens(strict));
  }

  /** Any sub-multiset of a sequence with distinct identifiers, in any order, has
      distinct identifiers. */
  lemma UniqueIdsSubset(s: seq<Token>, r: seq<Token>)
    requires UniqueIds(s) && multiset(r) <= multiset(s)
    ensures UniqueIds(r)
  {
    forall i, j | 0 <= i < j < |r| ensures r[i].objectId != r[j].objectId {
      assert r[i] in multiset(s) && r[j] in multiset(s);
      UniqueIdsSameToken(s, r[i], r[j]);
      UniqueIdsCount(s, r[i]);
      PairCount(r, i, j);
    }
  }

  /** Last write wins: each listed record is the last accepted input record with
      its identifier. An accepted manual record therefore replaces every discovered
      record with the same identifier, and when no manual record with that
      identifier is accepted (absent, or rejected by validation) the last accepted
      discovered record is listed. */
  lemma PipelineLastWins(discovered: seq<Token>, manual: seq<Token>, banned: seq<BannedEntry>, now: string)
    requires Pipeline(discovered, manual, banned, now).Ok?
    ensures var o := Pipeline(discovered, manual, banned, now).value;
            var vd := Filter(NormalizeAll(discovered), Accepted);
            var vm := Filter(NormalizeAll(manual), Accepted);
            forall t :: t in o.all.tokens ==>
              (t.objectId in IdSet(vm) ==> t == LastWith(vm, t.objectId))
              && (t.objectId !in IdSet(vm) ==> t.objectId in IdSet(vd) && t == LastWith(vd, t.objectId))
  {
    var o := Pipeline(discovered, manual, banned, now).value;
    var ids := BannedIds(banned).value;
    var valid := ValidInputs(discovered, manual);
    var all := Unbanned(Dedupe(valid), ids);
    var vd := Filter(NormalizeAll(discovered), Accepted);
    var vm := Filter(NormalizeAll(manual), Accepted);
    FilterAppend(NormalizeAll(discovered), NormalizeAll(manual), Accepted);
    assert valid == vd + vm;
    forall t | t in o.all.tokens
      ensures t.objectId in IdSet(vm) ==> t == LastWith(vm, t.objectId)
      ensures t.objectId !in IdSet(vm) ==> t.objectId in IdSet(vd) && t == LastWith(vd, t.objectId)
    {
      assert t in multiset(all);
      assert t in Dedupe(valid);
      LastWithAppend(vd, vm, t.objectId);
    }
  }

  /** Every accepted input record whose identifier is not banned has its
      identifier listed. */
  lemma PipelineComplete(discovered: seq<Token>, manual: seq<Token>, banned: seq<BannedEntry>, now: string, u: Token)
    requires Pipeline(discovered, manual, banned, now).Ok?
    requires u in ValidInputs(discovered, manual)
    requires forall i :: 0 <= i < |banned| && banned[i].objectId.Some? ==> Lower(banned[i].objectId.value) != u.objectId
    ensures exists t :: t in Pipeline(discovered, manual, banned, now).value.all.tokens && t.objectId == u.objectId
  {
    var o := Pipeline(discovered, manual, banned, now).value;
    var ids := BannedIds(banned).value;
    var valid := ValidInputs(discovered, manual);
    var deduped := Dedupe(valid);
    var all := Unbanned(deduped, ids);
    var k :| 0 <= k < |valid| && valid[k] == u;
    assert u.objectId in IdSet(valid);
    assert u.objectId in IdSet(deduped);
    var j :| 0 <= j < |deduped| && deduped[j].objectId == u.objectId;
    assert u.objectId !in ids;
    assert deduped[j] in all;
    assert deduped[j] in multiset(o.all.tokens);
  }
}
