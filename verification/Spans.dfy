/** Span lists as byte sets: merge, overlap, subtract. */
module Spans {

  type Span = (int, int)

  /** The byte `x` lies in some span. A reversed or empty span holds no byte. */
  predicate Covers(spans: seq<Span>, x: int) {
    exists i :: 0 <= i < |spans| && spans[i].0 <= x < spans[i].1
  }

  /** Ascending, non-empty, and never touching: the form `merge` puts every list in. */
  predicate Canonical(s: seq<Span>) {
    && (forall i :: 0 <= i < |s| ==> s[i].0 < s[i].1)
    && (forall i, j :: 0 <= i < j < |s| ==> s[i].1 < s[j].0)
  }

  predicate Sorted(s: seq<Span>) {
    forall i, j :: 0 <= i < j < |s| ==> Before(s[i], s[j])
  }

  /** Tuple order. */
  predicate Before(a: Span, b: Span) {
    a.0 < b.0 || (a.0 == b.0 && a.1 <= b.1)
  }

  // ---- sorting

  function Insert(x: Span, s: seq<Span>): (r: seq<Span>) {
    if s == [] || Before(x, s[0]) then [x] + s else [s[0]] + Insert(x, s[1..])
  }

  lemma {:induction false} InsertKeepsBag(x: Span, s: seq<Span>)
    ensures multiset(Insert(x, s)) == multiset(s) + multiset{x}
    decreases |s|
  {
    if s != [] && !Before(x, s[0]) {
      InsertKeepsBag(x, s[1..]);
      assert s == [s[0]] + s[1..];
    }
  }

  lemma {:induction false} FirstSorts(x: Span, s: seq<Span>)
    requires Sorted(s) && forall k :: 0 <= k < |s| ==> Before(x, s[k])
    ensures Sorted([x] + s)
  {
  }

  lemma {:induction false} InsertSorts(x: Span, s: seq<Span>)
    requires Sorted(s)
    ensures Sorted(Insert(x, s))
    decreases |s|
  {
    if s == [] || Before(x, s[0]) {
      FirstSorts(x, s);
    } else {
      var r := Insert(x, s[1..]);
      InsertSorts(x, s[1..]);
      InsertKeepsBag(x, s[1..]);
      forall k | 0 <= k < |r| ensures Before(s[0], r[k]) {
        assert r[k] in multiset(r);
      }
      FirstSorts(s[0], r);
    }
  }

  function Sort(s: seq<Span>): (r: seq<Span>)
    ensures Sorted(r) && multiset(r) == multiset(s)
  {
    if s == [] then [] else
    assert s == [s[0]] + s[1..];
    InsertSorts(s[0], Sort(s[1..]));
    InsertKeepsBag(s[0], Sort(s[1..]));
    Insert(s[0], Sort(s[1..]))
  }

  lemma {:induction false} SortCovers(s: seq<Span>, x: int)
    ensures Covers(Sort(s), x) <==> Covers(s, x)
  {
    var r := Sort(s);
    if Covers(s, x) {
      var i :| 0 <= i < |s| && s[i].0 <= x < s[i].1;
      assert s[i] in multiset(r);
    }
    if Covers(r, x) {
      var i :| 0 <= i < |r| && r[i].0 <= x < r[i].1;
      assert r[i] in multiset(s);
    }
  }

  lemma {:induction false} CoversConcat(a: seq<Span>, b: seq<Span>, x: int)
    ensures Covers(a + b, x) <==> Covers(a, x) || Covers(b, x)
  {
    if Covers(a, x) {
      var i :| 0 <= i < |a| && a[i].0 <= x < a[i].1;
      assert (a + b)[i] == a[i];
    }
    if Covers(b, x) {
      var i :| 0 <= i < |b| && b[i].0 <= x < b[i].1;
      assert (a + b)[|a| + i] == b[i];
    }
  }

  lemma {:induction false} CoversOne(s: Span, x: int)
    ensures Covers([s], x) <==> s.0 <= x < s.1
  {
    assert [s][0] == s;
  }

  lemma {:induction false} CoversFirst(s: seq<Span>, x: int)
    requires s != []
    ensures Covers(s, x) <==> s[0].0 <= x < s[0].1 || Covers(s[1..], x)
  {
    CoversConcat([s[0]], s[1..], x);
    CoversOne(s[0], x);
    assert s == [s[0]] + s[1..];
  }

  // ---- the canonical form

  lemma {:induction false} CanonicalConcat(cut: int, a: seq<Span>, b: seq<Span>)
    requires Canonical(a) && Canonical(b)
    requires forall i :: 0 <= i < |a| ==> a[i].1 <= cut
    requires forall i :: 0 <= i < |b| ==> cut < b[i].0
    ensures Canonical(a + b)
  {
  }

  /** Two canonical lists over the same bytes are the same list. */
  lemma {:induction false} CanonicalIsUnique(a: seq<Span>, b: seq<Span>)
    requires Canonical(a) && Canonical(b)
    requires forall x :: Covers(a, x) <==> Covers(b, x)
    ensures a == b
    decreases |a|
  {
    if b != [] {
      FirstIsCovered(b);
    }
    if a != [] {
      FirstIsCovered(a);
      assert Covers(b, a[0].0);
      FirstStarts(a, b);
      FirstStarts(b, a);
      FirstEnds(a, b);
      FirstEnds(b, a);
      RestsCover(a, b);
      CanonicalIsUnique(a[1..], b[1..]);
      assert a == [a[0]] + a[1..] && b == [b[0]] + b[1..];
    }
  }

  lemma {:induction false} FirstIsCovered(s: seq<Span>)
    requires Canonical(s) && s != []
    ensures Covers(s, s[0].0)
  {
    assert s[0].0 <= s[0].0 < s[0].1;
  }

  /** No byte beside a span of a canonical list is covered. */
  lemma {:induction false} NextToSpan(s: seq<Span>, k: nat)
    requires Canonical(s) && k < |s|
    ensures !Covers(s, s[k].0 - 1) && !Covers(s, s[k].1)
  {
  }

  lemma {:induction false} RestsCover(a: seq<Span>, b: seq<Span>)
    requires Canonical(a) && Canonical(b) && a != [] && b != [] && a[0] == b[0]
    requires forall x :: Covers(a, x) <==> Covers(b, x)
    ensures forall x :: Covers(a[1..], x) <==> Covers(b[1..], x)
  {
    forall x ensures Covers(a[1..], x) <==> Covers(b[1..], x) {
      RestCovers(a, x);
      RestCovers(b, x);
      assert Covers(a, x) <==> Covers(b, x);
    }
  }

  lemma {:induction false} FirstStarts(a: seq<Span>, b: seq<Span>)
    requires Canonical(a) && Canonical(b) && a != [] && b != []
    requires forall x :: Covers(a, x) <==> Covers(b, x)
    ensures b[0].0 <= a[0].0
  {
    assert Covers(b, a[0].0);
  }

  lemma {:induction false} FirstEnds(a: seq<Span>, b: seq<Span>)
    requires Canonical(a) && Canonical(b) && a != [] && b != [] && a[0].0 == b[0].0
    requires forall x :: Covers(a, x) <==> Covers(b, x)
    ensures a[0].1 <= b[0].1
  {
    NextToSpan(b, 0);
    assert !Covers(a, b[0].1);
  }

  lemma {:induction false} RestCovers(a: seq<Span>, x: int)
    requires Canonical(a) && a != []
    ensures Covers(a[1..], x) <==> Covers(a, x) && x >= a[0].1
  {
    CoversConcat([a[0]], a[1..], x);
    assert a == [a[0]] + a[1..];
    if Covers(a[1..], x) {
      var i :| 0 <= i < |a[1..]| && a[1..][i].0 <= x < a[1..][i].1;
      assert a[1..][i] == a[i + 1];
    }
  }

  // ---- merge

  /** One span taken into a merged list. */
  function Taken(out: seq<Span>, s: Span): seq<Span> {
    if out != [] && s.0 <= out[|out| - 1].1 then
      var last := out[|out| - 1];
      out[..|out| - 1] + [(last.0, if last.1 >= s.1 then last.1 else s.1)]
    else if s.1 > s.0 then out + [s]
    else out
  }

  function MergedFrom(out: seq<Span>, s: seq<Span>): seq<Span>
    decreases |s|
  {
    if s == [] then out else MergedFrom(Taken(out, s[0]), s[1..])
  }

  function Merged(spans: seq<Span>): seq<Span> {
    MergedFrom([], Sort(spans))
  }

  lemma {:induction false} MergedTakes(out: seq<Span>, s: seq<Span>, i: nat)
    requires i < |s|
    ensures MergedFrom(out, s[i..]) == MergedFrom(Taken(out, s[i]), s[i + 1..])
  {
    assert s[i..][1..] == s[i + 1..];
  }

  /** The last span is stretched, or a new one put after it. */
  method Take(before: seq<Span>, s: Span) returns (out: seq<Span>)
    ensures out == Taken(before, s)
  {
    out := before;
    if out != [] && s.0 <= out[|out| - 1].1 {
      var last := out[|out| - 1];
      out := out[..|out| - 1] + [(last.0, if last.1 >= s.1 then last.1 else s.1)];
    } else if s.1 > s.0 {
      out := out + [s];
    }
  }

  method Merge(spans: seq<Span>) returns (out: seq<Span>)
    ensures out == Merged(spans)
  {
    var s := Sort(spans);
    var i := 0;
    out := [];
    assert s[0..] == s;
    while i < |s|
      invariant 0 <= i <= |s|
      invariant MergedFrom(out, s[i..]) == Merged(spans)
    {
      MergedTakes(out, s, i);
      out := Take(out, s[i]);
      i := i + 1;
    }
  }

  lemma {:induction false} TakenStaysCanonical(out: seq<Span>, s: Span)
    requires Canonical(out) && (forall i :: 0 <= i < |out| ==> out[i].0 <= s.0)
    ensures Canonical(Taken(out, s))
    ensures forall i :: 0 <= i < |Taken(out, s)| ==> Taken(out, s)[i].0 <= s.0
  {
    var r := Taken(out, s);
    forall i, j | 0 <= i < j < |r| ensures r[i].1 < r[j].0 {
      assert i < |out| && r[i] == out[i];
    }
  }

  lemma {:induction false} TakenCovers(out: seq<Span>, s: Span, x: int)
    requires Canonical(out) && (forall i :: 0 <= i < |out| ==> out[i].0 <= s.0)
    ensures Covers(Taken(out, s), x) <==> Covers(out, x) || s.0 <= x < s.1
  {
    CoversConcat(out, [s], x);
    CoversOne(s, x);
    if out != [] && s.0 <= out[|out| - 1].1 {
      var n := |out| - 1;
      var grown := Taken(out, s)[n];
      CoversConcat(out[..n], [grown], x);
      CoversConcat(out[..n], [out[n]], x);
      CoversOne(grown, x);
      CoversOne(out[n], x);
      assert out == out[..n] + [out[n]];
    }
  }

  lemma {:induction false} MergedFromIsCanonical(out: seq<Span>, s: seq<Span>)
    requires Canonical(out) && Sorted(s)
    requires s != [] ==> forall i :: 0 <= i < |out| ==> out[i].0 <= s[0].0
    ensures Canonical(MergedFrom(out, s))
    decreases |s|
  {
    if s != [] {
      TakenStaysCanonical(out, s[0]);
      MergedFromIsCanonical(Taken(out, s[0]), s[1..]);
    }
  }

  lemma {:induction false} MergedFromCovers(out: seq<Span>, s: seq<Span>, x: int)
    requires Canonical(out) && Sorted(s)
    requires s != [] ==> forall i :: 0 <= i < |out| ==> out[i].0 <= s[0].0
    ensures Covers(MergedFrom(out, s), x) <==> Covers(out, x) || Covers(s, x)
    decreases |s|
  {
    if s != [] {
      TakenStaysCanonical(out, s[0]);
      TakenCovers(out, s[0], x);
      MergedFromCovers(Taken(out, s[0]), s[1..], x);
      CoversFirst(s, x);
    }
  }

  /** `merge` covers exactly the bytes it was given, in canonical form. */
  lemma {:induction false} MergedIsCanonical(spans: seq<Span>)
    ensures Canonical(Merged(spans))
    ensures forall x :: Covers(Merged(spans), x) <==> Covers(spans, x)
  {
    MergedFromIsCanonical([], Sort(spans));
    forall x ensures Covers(Merged(spans), x) <==> Covers(spans, x) {
      MergedFromCovers([], Sort(spans), x);
      SortCovers(spans, x);
    }
  }

  /** Any two lists over the same bytes merge to the same list. */
  lemma {:induction false} MergedIsNormal(a: seq<Span>, b: seq<Span>)
    ensures (forall x :: Covers(a, x) <==> Covers(b, x)) <==> Merged(a) == Merged(b)
  {
    MergedIsCanonical(a);
    MergedIsCanonical(b);
    if forall x :: Covers(a, x) <==> Covers(b, x) {
      CanonicalIsUnique(Merged(a), Merged(b));
    }
    if Merged(a) == Merged(b) {
      forall x ensures Covers(a, x) <==> Covers(b, x) {
        assert Covers(Merged(a), x) <==> Covers(a, x);
        assert Covers(Merged(b), x) <==> Covers(b, x);
      }
    }
  }

  lemma {:induction false} MergedFixesCanonical(s: seq<Span>)
    requires Canonical(s)
    ensures Merged(s) == s
  {
    MergedIsCanonical(s);
    CanonicalIsUnique(Merged(s), s);
  }

  // ---- union

  function Widths(s: seq<Span>): int {
    if s == [] then 0 else s[0].1 - s[0].0 + Widths(s[1..])
  }

  function Union(s: seq<Span>): int {
    Widths(Merged(s))
  }

  function Bytes(s: seq<Span>): set<int> {
    if s == [] then {} else Interval(s[0].0, s[0].1) + Bytes(s[1..])
  }

  function Interval(a: int, b: int): (r: set<int>)
    ensures forall x :: x in r <==> a <= x < b
    decreases b - a
  {
    if a >= b then {} else {a} + Interval(a + 1, b)
  }

  lemma {:induction false} BytesAreCovered(s: seq<Span>, x: int)
    ensures x in Bytes(s) <==> Covers(s, x)
    decreases |s|
  {
    if s != [] {
      BytesAreCovered(s[1..], x);
      CoversConcat([s[0]], s[1..], x);
      CoversOne(s[0], x);
      assert s == [s[0]] + s[1..];
    }
  }

  lemma {:induction false} IntervalCounts(a: int, b: int)
    requires a <= b
    ensures |Interval(a, b)| == b - a
    decreases b - a
  {
    if a < b {
      IntervalCounts(a + 1, b);
    }
  }

  lemma {:induction false} CanonicalCounts(s: seq<Span>)
    requires Canonical(s)
    ensures Widths(s) == |Bytes(s)|
    decreases |s|
  {
    if s != [] {
      CanonicalCounts(s[1..]);
      IntervalCounts(s[0].0, s[0].1);
      forall x | x in Bytes(s[1..]) ensures x !in Interval(s[0].0, s[0].1) {
        BytesAreCovered(s[1..], x);
        RestCovers(s, x);
      }
      assert Bytes(s) == Interval(s[0].0, s[0].1) + Bytes(s[1..]);
    }
  }

  /** `union` counts the bytes covered, each once. */
  lemma {:induction false} UnionCounts(s: seq<Span>)
    ensures Union(s) == |Bytes(s)|
  {
    MergedIsCanonical(s);
    CanonicalCounts(Merged(s));
    forall x ensures x in Bytes(Merged(s)) <==> x in Bytes(s) {
      BytesAreCovered(s, x);
      BytesAreCovered(Merged(s), x);
    }
    assert Bytes(Merged(s)) == Bytes(s);
  }
}
