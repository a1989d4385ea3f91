/** `Array.prototype.filter` and `map` over sequences. */
module Collections {

  /** `s.filter(p)`: the elements of `s` that satisfy `p`, in their order. */
  function Filter<T>(s: seq<T>, p: T -> bool): (r: seq<T>)
    ensures |r| <= |s|
    ensures forall i :: 0 <= i < |r| ==> r[i] in s && p(r[i])
    ensures forall i :: 0 <= i < |s| && p(s[i]) ==> s[i] in r
    ensures multiset(r) <= multiset(s)
  {
    if s == [] then []
    else
      assert s == s[..|s| - 1] + [s[|s| - 1]];
      Filter(s[..|s| - 1], p) + (if p(s[|s| - 1]) then [s[|s| - 1]] else [])
  }

  /** Filtering a concatenation filters each part: the relative order of the
      survivors of `a` and of `b` is kept. */
  lemma {:induction false} FilterAppend<T>(a: seq<T>, b: seq<T>, p: T -> bool)
    ensures Filter(a + b, p) == Filter(a, p) + Filter(b, p)
    decreases |b|
  {
    if b == [] {
      assert a + b == a;
    } else {
      var n := |b| - 1;
      assert (a + b)[..|a + b| - 1] == a + b[..n];
      FilterAppend(a, b[..n], p);
    }
  }

  /** An element put in front of two sequences whose filtered forms differ by a
      suffix keeps them differing by that suffix. */
  lemma FilterConsSuffix<T>(h: T, a: seq<T>, b: seq<T>, extra: seq<T>, p: T -> bool)
    requires Filter(a, p) == Filter(b, p) + extra
    ensures Filter([h] + a, p) == Filter([h] + b, p) + extra
  {
    FilterAppend([h], a, p);
    FilterAppend([h], b, p);
    SeqAssoc(Filter([h], p), Filter(b, p), extra);
  }

  /** The same, with the two sequences given as `r` split at its first element. */
  lemma FilterConsTail<T>(r: seq<T>, rest: seq<T>, extra: seq<T>, p: T -> bool)
    requires r != [] && Filter(rest, p) == Filter(r[1..], p) + extra
    ensures Filter([r[0]] + rest, p) == Filter(r, p) + extra
  {
    FilterConsSuffix(r[0], rest, r[1..], extra, p);
    SeqCons(r);
  }

  lemma SeqCons<T>(r: seq<T>)
    requires r != []
    ensures [r[0]] + r[1..] == r
  {
  }

  lemma SeqAssoc<T>(x: seq<T>, y: seq<T>, z: seq<T>)
    ensures x + (y + z) == (x + y) + z
  {
  }

  /** Filtering one more element keeps it exactly when it satisfies `p`. */
  lemma FilterSnoc<T>(s: seq<T>, x: T, p: T -> bool)
    ensures Filter(s + [x], p) == Filter(s, p) + (if p(x) then [x] else [])
  {
    assert (s + [x])[..|s|] == s;
  }

  /** Every element satisfying `p` is kept. */
  lemma {:induction false} FilterAll<T>(s: seq<T>, p: T -> bool)
    requires forall i :: 0 <= i < |s| ==> p(s[i])
    ensures Filter(s, p) == s
  {
    if s != [] {
      var n := |s| - 1;
      assert s == s[..n] + [s[n]];
      FilterAll(s[..n], p);
    }
  }

  /** Nothing is kept when no element satisfies `p`. */
  lemma {:induction false} FilterNone<T>(s: seq<T>, p: T -> bool)
    requires forall i :: 0 <= i < |s| ==> !p(s[i])
    ensures Filter(s, p) == []
  {
    if s != [] {
      FilterNone(s[..|s| - 1], p);
    }
  }
}
