/** Intersection and difference of span lists, and the identity they make. */
module SpanAlgebra {
  import opened Spans

  function Max(a: int, b: int): int {
    if a >= b then a else b
  }

  function Min(a: int, b: int): int {
    if a <= b then a else b
  }

  lemma {:induction false} Regroup(a: seq<Span>, b: seq<Span>, c: seq<Span>)
    ensures a + (b + c) == a + b + c
  {
  }

  // ---- overlap

  /** One span against a sorted list: spans before it are passed, the first past it ends the scan. */
  function Meets(lo: int, hi: int, b: seq<Span>): seq<Span> {
    if b == [] then []
    else if b[0].1 <= lo then Meets(lo, hi, b[1..])
    else if b[0].0 >= hi then []
    else [(Max(lo, b[0].0), Min(hi, b[0].1))] + Meets(lo, hi, b[1..])
  }

  function MeetsAll(a: seq<Span>, b: seq<Span>): seq<Span> {
    if a == [] then [] else Meets(a[0].0, a[0].1, b) + MeetsAll(a[1..], b)
  }

  function Overlapped(a: seq<Span>, b: seq<Span>): seq<Span> {
    MeetsAll(Sort(a), Sort(b))
  }

  method Overlap(a: seq<Span>, b: seq<Span>) returns (out: seq<Span>)
    ensures out == Overlapped(a, b)
  {
    var s, t := Sort(a), Sort(b);
    out := [];
    var i := 0;
    while i < |s|
      invariant 0 <= i <= |s|
      invariant out + MeetsAll(s[i..], t) == MeetsAll(s, t)
    {
      assert s[i..][1..] == s[i + 1..];
      ghost var met, rest := Meets(s[i].0, s[i].1, t), MeetsAll(s[i + 1..], t);
      Regroup(out, met, rest);
      out := OverlapOne(s[i].0, s[i].1, t, out);
      i := i + 1;
    }
  }

  /** The inner scan, appending to what the outer loop has. */
  method OverlapOne(lo: int, hi: int, t: seq<Span>, before: seq<Span>) returns (out: seq<Span>)
    ensures out == before + Meets(lo, hi, t)
  {
    out := before;
    var j := 0;
    while j < |t|
      invariant 0 <= j <= |t|
      invariant out + Meets(lo, hi, t[j..]) == before + Meets(lo, hi, t)
    {
      assert t[j..][1..] == t[j + 1..];
      var (x, y) := t[j];
      if y > lo {
        if x >= hi {
          return;
        }
        var piece := [(Max(lo, x), Min(hi, y))];
        assert out + (piece + Meets(lo, hi, t[j + 1..])) == out + piece + Meets(lo, hi, t[j + 1..]);
        out := out + piece;
      }
      j := j + 1;
    }
  }

  lemma {:induction false} MeetsCovers(lo: int, hi: int, b: seq<Span>, x: int)
    requires Sorted(b)
    ensures Covers(Meets(lo, hi, b), x) <==> lo <= x < hi && Covers(b, x)
    decreases |b|
  {
    if b != [] {
      MeetsCovers(lo, hi, b[1..], x);
      CoversConcat([b[0]], b[1..], x);
      CoversOne(b[0], x);
      assert b == [b[0]] + b[1..];
      if b[0].1 > lo {
        var piece := (Max(lo, b[0].0), Min(hi, b[0].1));
        CoversOne(piece, x);
        CoversConcat([piece], Meets(lo, hi, b[1..]), x);
      }
    }
  }

  lemma {:induction false} MeetsAllCovers(a: seq<Span>, b: seq<Span>, x: int)
    requires Sorted(b)
    ensures Covers(MeetsAll(a, b), x) <==> Covers(a, x) && Covers(b, x)
    decreases |a|
  {
    if a != [] {
      MeetsAllCovers(a[1..], b, x);
      MeetsCovers(a[0].0, a[0].1, b, x);
      CoversConcat(Meets(a[0].0, a[0].1, b), MeetsAll(a[1..], b), x);
      CoversConcat([a[0]], a[1..], x);
      CoversOne(a[0], x);
      assert a == [a[0]] + a[1..];
    }
  }

  /** `overlap` covers the bytes in both lists. */
  lemma {:induction false} OverlapIsIntersection(a: seq<Span>, b: seq<Span>, x: int)
    ensures Covers(Overlapped(a, b), x) <==> Covers(a, x) && Covers(b, x)
  {
    MeetsAllCovers(Sort(a), Sort(b), x);
    SortCovers(a, x);
    SortCovers(b, x);
  }

  // ---- subtract

  /** What is left of `[at, hi)` once a merged list is taken out of it. */
  function Gaps(at: int, hi: int, drop: seq<Span>): seq<Span>
    decreases |drop|
  {
    if drop == [] then (if at < hi then [(at, hi)] else [])
    else if drop[0].1 <= at || drop[0].0 >= hi then Gaps(at, hi, drop[1..])
    else
      var gap := if drop[0].0 > at then [(at, Min(drop[0].0, hi))] else [];
      var next := Max(at, drop[0].1);
      if next >= hi then gap else gap + Gaps(next, hi, drop[1..])
  }

  function GapsAll(keep: seq<Span>, drop: seq<Span>): seq<Span> {
    if keep == [] then [] else Gaps(keep[0].0, keep[0].1, drop) + GapsAll(keep[1..], drop)
  }

  function Subtracted(keep: seq<Span>, drop: seq<Span>): seq<Span> {
    GapsAll(Merged(keep), Merged(drop))
  }

  method Subtract(keep: seq<Span>, drop: seq<Span>) returns (out: seq<Span>)
    ensures out == Subtracted(keep, drop)
  {
    var k := Merge(keep);
    var d := Merge(drop);
    out := [];
    var i := 0;
    while i < |k|
      invariant 0 <= i <= |k|
      invariant out + GapsAll(k[i..], d) == GapsAll(k, d)
    {
      assert k[i..][1..] == k[i + 1..];
      ghost var gaps, rest := Gaps(k[i].0, k[i].1, d), GapsAll(k[i + 1..], d);
      Regroup(out, gaps, rest);
      out := SubtractOne(k[i].0, k[i].1, d, out);
      i := i + 1;
    }
  }

  /** The inner scan: `at` advances over each dropped span. */
  method SubtractOne(lo: int, hi: int, d: seq<Span>, before: seq<Span>) returns (out: seq<Span>)
    ensures out == before + Gaps(lo, hi, d)
  {
    out := before;
    var at, j := lo, 0;
    while j < |d|
      invariant 0 <= j <= |d|
      invariant out + Gaps(at, hi, d[j..]) == before + Gaps(lo, hi, d)
    {
      assert d[j..][1..] == d[j + 1..];
      var (x, y) := d[j];
      if !(y <= at || x >= hi) {
        var gap := if x > at then [(at, Min(x, hi))] else [];
        var next := Max(at, y);
        assert out + (gap + Gaps(next, hi, d[j + 1..])) == out + gap + Gaps(next, hi, d[j + 1..]);
        out := out + gap;
        at := next;
        if at >= hi {
          return;
        }
      }
      j := j + 1;
    }
    if at < hi {
      out := out + [(at, hi)];
    }
  }

  lemma {:induction false} GapsCover(at: int, hi: int, drop: seq<Span>, x: int)
    requires Canonical(drop)
    ensures Covers(Gaps(at, hi, drop), x) <==> at <= x < hi && !Covers(drop, x)
    decreases |drop|
  {
    CoversOne((at, hi), x);
    if drop != [] {
      RestCovers(drop, x);
      CoversConcat([drop[0]], drop[1..], x);
      CoversOne(drop[0], x);
      assert drop == [drop[0]] + drop[1..];
      var next := Max(at, drop[0].1);
      if drop[0].1 <= at || drop[0].0 >= hi {
        GapsCover(at, hi, drop[1..], x);
      } else {
        GapsCover(next, hi, drop[1..], x);
        var gap := if drop[0].0 > at then [(at, Min(drop[0].0, hi))] else [];
        CoversOne((at, Min(drop[0].0, hi)), x);
        CoversConcat(gap, Gaps(next, hi, drop[1..]), x);
      }
    }
  }

  /** Every span of a list lies inside `[lo, hi]`. */
  predicate Within(lo: int, hi: int, s: seq<Span>) {
    forall i :: 0 <= i < |s| ==> lo <= s[i].0 && s[i].1 <= hi
  }

  /** A gap, and then the gaps past the span that ends it. */
  lemma {:induction false} GapThenRest(at: int, x: int, y: int, hi: int, rest: seq<Span>)
    requires x < y && at < y && x < hi && Canonical(rest) && Within(y, hi, rest)
    ensures var gaps := (if x > at then [(at, Min(x, hi))] else []) + rest; Canonical(gaps) && Within(at, hi, gaps)
  {
  }

  lemma {:induction false} GapsAreCanonical(at: int, hi: int, drop: seq<Span>)
    requires Canonical(drop)
    ensures Canonical(Gaps(at, hi, drop)) && Within(at, hi, Gaps(at, hi, drop))
    decreases |drop|
  {
    if drop != [] {
      var (x, y) := drop[0];
      if y <= at || x >= hi {
        GapsAreCanonical(at, hi, drop[1..]);
      } else {
        GapsAreCanonical(y, hi, drop[1..]);
        GapThenRest(at, x, y, hi, Gaps(y, hi, drop[1..]));
      }
    }
  }

  lemma {:induction false} GapsAllAreCanonical(keep: seq<Span>, drop: seq<Span>)
    requires Canonical(keep) && Canonical(drop)
    ensures Canonical(GapsAll(keep, drop))
    ensures keep != [] ==> forall i :: 0 <= i < |GapsAll(keep, drop)| ==> keep[0].0 <= GapsAll(keep, drop)[i].0
    ensures forall x :: Covers(GapsAll(keep, drop), x) <==> Covers(keep, x) && !Covers(drop, x)
    decreases |keep|
  {
    if keep != [] {
      var head, rest := Gaps(keep[0].0, keep[0].1, drop), GapsAll(keep[1..], drop);
      GapsAllAreCanonical(keep[1..], drop);
      GapsAreCanonical(keep[0].0, keep[0].1, drop);
      CanonicalConcat(keep[0].1, head, rest);
      forall x ensures Covers(head + rest, x) <==> Covers(keep, x) && !Covers(drop, x) {
        GapsCover(keep[0].0, keep[0].1, drop, x);
        CoversConcat(head, rest, x);
        CoversConcat([keep[0]], keep[1..], x);
        CoversOne(keep[0], x);
        assert keep == [keep[0]] + keep[1..];
      }
    }
  }

  /** `subtract` covers the difference, and is already merged. */
  lemma {:induction false} SubtractIsDifference(keep: seq<Span>, drop: seq<Span>)
    ensures Canonical(Subtracted(keep, drop))
    ensures forall x :: Covers(Subtracted(keep, drop), x) <==> Covers(keep, x) && !Covers(drop, x)
    ensures Merged(Subtracted(keep, drop)) == Subtracted(keep, drop)
  {
    MergedIsCanonical(keep);
    MergedIsCanonical(drop);
    GapsAllAreCanonical(Merged(keep), Merged(drop));
    MergedFixesCanonical(Subtracted(keep, drop));
  }

  // ---- the identities

  /** The bytes of one list split into those in another and those not. */
  lemma {:induction false} UnionPartitions(a: seq<Span>, b: seq<Span>)
    ensures Union(a) == Union(Overlapped(a, b)) + Union(Subtracted(a, b))
  {
    var both, rest := Overlapped(a, b), Subtracted(a, b);
    UnionCounts(a);
    UnionCounts(both);
    UnionCounts(rest);
    SubtractIsDifference(a, b);
    forall x ensures x in Bytes(a) <==> x in Bytes(both) || x in Bytes(rest)
             ensures !(x in Bytes(both) && x in Bytes(rest)) {
      BytesAreCovered(a, x);
      BytesAreCovered(both, x);
      BytesAreCovered(rest, x);
      OverlapIsIntersection(a, b, x);
    }
    assert Bytes(a) == Bytes(both) + Bytes(rest);
    assert Bytes(both) !! Bytes(rest);
  }

  /** No judged byte is a damaged byte: whatever stands, whatever the oracle refuses,
      whatever the size. */
  lemma {:induction false} MisreadBytesAreNeverFlagged(stands: seq<Span>, errors: seq<Span>, n: int)
    ensures Union(Overlapped(Subtracted(stands, errors), Subtracted([(0, n)], stands))) == 0
  {
    var sound, damage := Subtracted(stands, errors), Subtracted([(0, n)], stands);
    SubtractIsDifference(stands, errors);
    SubtractIsDifference([(0, n)], stands);
    UnionCounts(Overlapped(sound, damage));
    forall x ensures x !in Bytes(Overlapped(sound, damage)) {
      BytesAreCovered(Overlapped(sound, damage), x);
      OverlapIsIntersection(sound, damage, x);
    }
    assert Bytes(Overlapped(sound, damage)) == {};
  }

  /** The damage a board reports by subtraction is what no root covers. */
  lemma {:induction false} DamageIsTheRest(stands: seq<Span>, n: nat)
    requires Within(0, n, stands)
    ensures Union(Subtracted([(0, n)], stands)) == n - Union(stands)
  {
    UnionPartitions([(0, n)], stands);
    var both := Overlapped([(0, n)], stands);
    UnionCounts(both);
    UnionCounts(stands);
    UnionCounts([(0, n)]);
    assert Bytes([(0, n)][1..]) == {};
    IntervalCounts(0, n);
    forall x ensures x in Bytes(both) <==> x in Bytes(stands) {
      BytesAreCovered(both, x);
      BytesAreCovered(stands, x);
      OverlapIsIntersection([(0, n)], stands, x);
      CoversOne((0, n), x);
    }
    assert Bytes(both) == Bytes(stands);
  }
}
