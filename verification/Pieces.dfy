/** When the pieces of an overlap come out merged. */
module Pieces {
  import opened Spans
  import opened SpanAlgebra

  predicate Meet(s: Span, t: Span) {
    s.0 < t.1 && t.0 < s.1
  }

  function Piece(s: Span, t: Span): Span {
    (Max(s.0, t.0), Min(s.1, t.1))
  }

  predicate Holds(s: Span, x: int) {
    s.0 <= x < s.1
  }

  /** Spans of both lists that meet are not empty and are listed once, and two bytes of both
      lists, the same or side by side, are in the same span of each. */
  ghost predicate Clear(a: seq<Span>, b: seq<Span>) {
    MeetOnce(a, b) && BytesClear(a, b)
  }

  predicate MeetOnce(a: seq<Span>, b: seq<Span>) {
    forall s, t :: s in a && t in b && Meet(s, t) ==> Once(a, s) && Once(b, t)
  }

  ghost predicate BytesClear(a: seq<Span>, b: seq<Span>) {
    forall s, t, s', t' :: s in a && t in b && s' in a && t' in b ==> ClearOf(s, t, s', t')
  }

  predicate Once(a: seq<Span>, s: Span) {
    s.0 < s.1 && multiset(a)[s] == 1
  }

  ghost predicate ClearOf(s: Span, t: Span, s': Span, t': Span) {
    forall x, y :: Holds(s, x) && Holds(t, x) && Holds(s', y) && Holds(t', y) && x <= y <= x + 1 ==> s == s' && t == t'
  }

  // ---- the pieces, pair by pair

  /** The pieces of one span are in order and apart. */
  ghost predicate RowApart(s: Span, b: seq<Span>) {
    && (forall j :: 0 <= j < |b| && Meet(s, b[j]) ==> Piece(s, b[j]).0 < Piece(s, b[j]).1)
    && (forall j, l :: 0 <= j < l < |b| && Meet(s, b[j]) && Meet(s, b[l]) ==> Piece(s, b[j]).1 < Piece(s, b[l]).0)
  }

  /** Every piece of one span ends before every piece of another starts. */
  ghost predicate RowsApart(s: Span, s': Span, b: seq<Span>) {
    forall j, l :: 0 <= j < |b| && 0 <= l < |b| && Meet(s, b[j]) && Meet(s', b[l]) ==>
      Piece(s, b[j]).1 < Piece(s', b[l]).0
  }

  ghost predicate AllApart(a: seq<Span>, b: seq<Span>) {
    && (forall i :: 0 <= i < |a| ==> RowApart(a[i], b))
    && (forall i, k :: 0 <= i < k < |a| ==> RowsApart(a[i], a[k], b))
  }

  lemma {:induction false} MeetsArePieces(s: Span, b: seq<Span>)
    requires Sorted(b)
    ensures forall j :: 0 <= j < |b| && Meet(s, b[j]) ==> Piece(s, b[j]) in Meets(s.0, s.1, b)
    ensures forall p :: p in Meets(s.0, s.1, b) ==> exists j :: 0 <= j < |b| && Meet(s, b[j]) && p == Piece(s, b[j])
    decreases |b|
  {
    if b != [] {
      var rest := Meets(s.0, s.1, b[1..]);
      MeetsArePieces(s, b[1..]);
      forall j | 0 <= j < |b| && Meet(s, b[j]) ensures Piece(s, b[j]) in Meets(s.0, s.1, b) {
        if j > 0 {
          assert b[1..][j - 1] == b[j] && Before(b[0], b[j]);
        }
      }
      forall p | p in Meets(s.0, s.1, b) ensures exists j :: 0 <= j < |b| && Meet(s, b[j]) && p == Piece(s, b[j]) {
        if p in rest {
          var j :| 0 <= j < |b| - 1 && Meet(s, b[1..][j]) && p == Piece(s, b[1..][j]);
          assert b[j + 1] == b[1..][j];
        } else {
          assert p == Piece(s, b[0]) && Meet(s, b[0]);
        }
      }
    }
  }

  lemma {:induction false} CanonicalSplits(p: seq<Span>, q: seq<Span>)
    ensures Canonical(p + q) <==>
              Canonical(p) && Canonical(q) && forall s, t :: s in p && t in q ==> s.1 < t.0
  {
    var r := p + q;
    if Canonical(r) {
      forall i | 0 <= i < |p| ensures p[i] == r[i] {}
      forall j | 0 <= j < |q| ensures q[j] == r[|p| + j] {}
      forall s, t | s in p && t in q ensures s.1 < t.0 {
        var i :| 0 <= i < |p| && p[i] == s;
        var j :| 0 <= j < |q| && q[j] == t;
        assert r[i].1 < r[|p| + j].0;
      }
    }
  }

  lemma {:induction false} CanonicalOne(s: Span)
    ensures Canonical([s]) <==> s.0 < s.1
  {
    assert [s][0] == s;
  }

  lemma {:induction false} RowSplits(s: Span, b: seq<Span>)
    requires b != []
    ensures RowApart(s, b) <==>
              && RowApart(s, b[1..])
              && (Meet(s, b[0]) ==> Piece(s, b[0]).0 < Piece(s, b[0]).1)
              && (Meet(s, b[0]) ==> forall l :: 1 <= l < |b| && Meet(s, b[l]) ==> Piece(s, b[0]).1 < Piece(s, b[l]).0)
  {
    var rest := b[1..];
    if RowApart(s, b) {
      forall j | 0 <= j < |rest| ensures rest[j] == b[j + 1] {}
    }
    if RowApart(s, rest) {
      forall j | 1 <= j < |b| ensures b[j] == rest[j - 1] {}
    }
  }

  /** One span's pieces are merged exactly when they are apart. */
  lemma {:induction false} MeetsCanonical(s: Span, b: seq<Span>)
    requires Sorted(b)
    ensures Canonical(Meets(s.0, s.1, b)) <==> RowApart(s, b)
    decreases |b|
  {
    if b != [] {
      var rest := Meets(s.0, s.1, b[1..]);
      MeetsCanonical(s, b[1..]);
      RowSplits(s, b);
      if Meet(s, b[0]) {
        CanonicalOne(Piece(s, b[0]));
        CanonicalSplits([Piece(s, b[0])], rest);
        MeetsArePieces(s, b[1..]);
        FirstPieceApart(s, b);
      } else if b[0].1 > s.0 {
        NoneMeets(s, b);
      }
    }
  }

  lemma {:induction false} NoneMeets(s: Span, b: seq<Span>)
    requires Sorted(b) && b != [] && b[0].0 >= s.1
    ensures RowApart(s, b)
  {
    forall j | 0 <= j < |b| ensures !Meet(s, b[j]) {
      if j > 0 {
        assert Before(b[0], b[j]);
      }
    }
  }

  lemma {:induction false} FirstPieceApart(s: Span, b: seq<Span>)
    requires Sorted(b) && b != []
    ensures (forall t :: t in Meets(s.0, s.1, b[1..]) ==> Piece(s, b[0]).1 < t.0)
       <==> (forall l :: 1 <= l < |b| && Meet(s, b[l]) ==> Piece(s, b[0]).1 < Piece(s, b[l]).0)
  {
    MeetsArePieces(s, b[1..]);
    forall l | 1 <= l < |b| ensures b[l] == b[1..][l - 1] {}
    if forall l :: 1 <= l < |b| && Meet(s, b[l]) ==> Piece(s, b[0]).1 < Piece(s, b[l]).0 {
      forall t | t in Meets(s.0, s.1, b[1..]) ensures Piece(s, b[0]).1 < t.0 {
        var j :| 0 <= j < |b| - 1 && Meet(s, b[1..][j]) && t == Piece(s, b[1..][j]);
        assert b[j + 1] == b[1..][j];
      }
    }
  }

  /** Every piece of a later list comes from a later span. */
  lemma {:induction false} MeetsAllArePieces(a: seq<Span>, b: seq<Span>)
    requires Sorted(b)
    ensures forall i, j :: 0 <= i < |a| && 0 <= j < |b| && Meet(a[i], b[j]) ==> Piece(a[i], b[j]) in MeetsAll(a, b)
    ensures forall p :: p in MeetsAll(a, b) ==>
              exists i, j :: 0 <= i < |a| && 0 <= j < |b| && Meet(a[i], b[j]) && p == Piece(a[i], b[j])
    decreases |a|
  {
    if a != [] {
      MeetsArePieces(a[0], b);
      MeetsAllArePieces(a[1..], b);
      forall i, j | 0 <= i < |a| && 0 <= j < |b| && Meet(a[i], b[j]) ensures Piece(a[i], b[j]) in MeetsAll(a, b) {
        if i > 0 {
          assert a[1..][i - 1] == a[i];
        }
      }
      forall p | p in MeetsAll(a, b)
        ensures exists i, j :: 0 <= i < |a| && 0 <= j < |b| && Meet(a[i], b[j]) && p == Piece(a[i], b[j])
      {
        if p in Meets(a[0].0, a[0].1, b) {
          var j :| 0 <= j < |b| && Meet(a[0], b[j]) && p == Piece(a[0], b[j]);
        } else {
          var i, j :| 0 <= i < |a| - 1 && 0 <= j < |b| && Meet(a[1..][i], b[j]) && p == Piece(a[1..][i], b[j]);
          assert a[i + 1] == a[1..][i];
        }
      }
    }
  }

  lemma {:induction false} AllSplits(a: seq<Span>, b: seq<Span>)
    requires a != []
    ensures AllApart(a, b) <==>
              RowApart(a[0], b) && AllApart(a[1..], b) && forall k :: 1 <= k < |a| ==> RowsApart(a[0], a[k], b)
  {
    var rest := a[1..];
    if AllApart(a, b) {
      forall i | 0 <= i < |rest| ensures rest[i] == a[i + 1] {}
    }
    if AllApart(rest, b) {
      forall i | 1 <= i < |a| ensures a[i] == rest[i - 1] {}
    }
  }

  lemma {:induction false} FirstRowApart(a: seq<Span>, b: seq<Span>)
    requires Sorted(b) && a != []
    ensures (forall p, q :: p in Meets(a[0].0, a[0].1, b) && q in MeetsAll(a[1..], b) ==> p.1 < q.0)
       <==> (forall k :: 1 <= k < |a| ==> RowsApart(a[0], a[k], b))
  {
    MeetsArePieces(a[0], b);
    MeetsAllArePieces(a[1..], b);
    forall k | 1 <= k < |a| ensures a[k] == a[1..][k - 1] {}
    if forall k :: 1 <= k < |a| ==> RowsApart(a[0], a[k], b) {
      forall p, q | p in Meets(a[0].0, a[0].1, b) && q in MeetsAll(a[1..], b) ensures p.1 < q.0 {
        var j :| 0 <= j < |b| && Meet(a[0], b[j]) && p == Piece(a[0], b[j]);
        var i, l :| 0 <= i < |a| - 1 && 0 <= l < |b| && Meet(a[1..][i], b[l]) && q == Piece(a[1..][i], b[l]);
        assert RowsApart(a[0], a[i + 1], b);
      }
    }
  }

  /** All the pieces are merged exactly when they are apart, pair by pair. */
  lemma {:induction false} MeetsAllCanonical(a: seq<Span>, b: seq<Span>)
    requires Sorted(b)
    ensures Canonical(MeetsAll(a, b)) <==> AllApart(a, b)
    decreases |a|
  {
    if a != [] {
      MeetsCanonical(a[0], b);
      MeetsAllCanonical(a[1..], b);
      CanonicalSplits(Meets(a[0].0, a[0].1, b), MeetsAll(a[1..], b));
      FirstRowApart(a, b);
      AllSplits(a, b);
    }
  }

  // ---- byte by byte

  /** Two pieces of different pairs, the earlier pair first. */
  predicate PairApart(a: seq<Span>, b: seq<Span>, i: nat, j: nat, k: nat, l: nat)
    requires i < |a| && k < |a| && j < |b| && l < |b|
  {
    Piece(a[i], b[j]).1 < Piece(a[k], b[l]).0
  }

  lemma {:induction false} ApartInOrder(a: seq<Span>, b: seq<Span>, i: nat, j: nat, k: nat, l: nat)
    requires AllApart(a, b) && i < |a| && k < |a| && j < |b| && l < |b|
    requires Meet(a[i], b[j]) && Meet(a[k], b[l]) && (i < k || (i == k && j < l))
    ensures PairApart(a, b, i, j, k, l)
  {
    if i < k {
      assert RowsApart(a[i], a[k], b);
    } else {
      assert RowApart(a[i], b);
    }
  }

  lemma {:induction false} RowPairApart(s: Span, b: seq<Span>, j: nat, l: nat)
    requires RowApart(s, b) && j < l < |b|
    ensures Meet(s, b[j]) && Meet(s, b[l]) ==> Piece(s, b[j]).1 < Piece(s, b[l]).0
  {
  }

  lemma {:induction false} OnceByIndex(a: seq<Span>, s: Span)
    requires s in a && forall i, k :: 0 <= i < k < |a| ==> !(a[i] == s && a[k] == s)
    ensures multiset(a)[s] == 1
    decreases |a|
  {
    assert a == [a[0]] + a[1..];
    if a[0] == s {
      forall k | 0 <= k < |a| - 1 ensures a[1..][k] != s {
        assert a[1..][k] == a[k + 1];
      }
    } else {
      forall i, k | 0 <= i < k < |a| - 1 ensures !(a[1..][i] == s && a[1..][k] == s) {
        assert a[1..][i] == a[i + 1] && a[1..][k] == a[k + 1];
      }
      OnceByIndex(a[1..], s);
    }
  }

  lemma {:induction false} TwiceByIndex(a: seq<Span>, i: nat, k: nat)
    requires i < k < |a| && a[i] == a[k]
    ensures multiset(a)[a[i]] >= 2
  {
    assert a == a[..k] + a[k..];
    assert a[..k][i] == a[i] && a[k..][0] == a[i];
    assert multiset(a[..k])[a[i]] >= 1 && multiset(a[k..])[a[i]] >= 1;
  }

  lemma {:induction false} ApartIsOnce(a: seq<Span>, b: seq<Span>, i: nat, j: nat)
    requires AllApart(a, b) && i < |a| && j < |b| && Meet(a[i], b[j])
    ensures Once(a, a[i]) && Once(b, b[j])
  {
    assert RowApart(a[i], b);
    forall m, k | 0 <= m < k < |a| ensures !(a[m] == a[i] && a[k] == a[i]) {
      assert RowsApart(a[m], a[k], b);
    }
    OnceByIndex(a, a[i]);
    forall m, k | 0 <= m < k < |b| ensures !(b[m] == b[j] && b[k] == b[j]) {
      RowPairApart(a[i], b, m, k);
    }
    OnceByIndex(b, b[j]);
  }

  lemma {:induction false} ApartIsClear(a: seq<Span>, b: seq<Span>)
    requires AllApart(a, b)
    ensures Clear(a, b)
  {
    forall s, t | s in a && t in b && Meet(s, t) ensures Once(a, s) && Once(b, t) {
      var i :| 0 <= i < |a| && a[i] == s;
      var j :| 0 <= j < |b| && b[j] == t;
      ApartIsOnce(a, b, i, j);
    }
    forall s, t, s', t' | s in a && t in b && s' in a && t' in b ensures ClearOf(s, t, s', t') {
      var i :| 0 <= i < |a| && a[i] == s;
      var j :| 0 <= j < |b| && b[j] == t;
      var k :| 0 <= k < |a| && a[k] == s';
      var l :| 0 <= l < |b| && b[l] == t';
      PairIsClear(a, b, i, j, k, l);
    }
  }

  lemma {:induction false} PairIsClear(a: seq<Span>, b: seq<Span>, i: nat, j: nat, k: nat, l: nat)
    requires AllApart(a, b) && i < |a| && k < |a| && j < |b| && l < |b|
    ensures ClearOf(a[i], b[j], a[k], b[l])
  {
    if Meet(a[i], b[j]) && Meet(a[k], b[l]) {
      if i < k || (i == k && j < l) {
        ApartInOrder(a, b, i, j, k, l);
      } else if k < i || l < j {
        ApartInOrder(a, b, k, l, i, j);
      }
    }
  }

  /** In sorted lists with clear bytes, an earlier pair's piece ends before a later one's starts. */
  lemma {:induction false} ClearIsPairApart(a: seq<Span>, b: seq<Span>, i: nat, j: nat, k: nat, l: nat)
    requires Sorted(a) && Sorted(b) && Clear(a, b) && i < |a| && k < |a| && j < |b| && l < |b|
    requires Meet(a[i], b[j]) && Meet(a[k], b[l]) && (i < k || (i == k && j < l))
    ensures PairApart(a, b, i, j, k, l)
  {
    var s, t, s', t' := a[i], b[j], a[k], b[l];
    assert Once(a, s) && Once(b, t) && Once(a, s') && Once(b, t');
    if i < k {
      assert Before(s, s');
      if s == s' { TwiceByIndex(a, i, k); }
    } else {
      assert Before(t, t');
      if t == t' { TwiceByIndex(b, j, l); }
    }
    assert ClearOf(s, t, s', t') && ClearOf(s', t', s, t) && ClearOf(s, t', s', t');
    BytesApart(s, t, s', t');
  }

  /** Two different pairs of non-empty spans that meet, the first starting no later. */
  lemma {:induction false} BytesApart(s: Span, t: Span, s': Span, t': Span)
    requires Meet(s, t) && Meet(s', t') && s.0 < s.1 && t.0 < t.1 && s'.0 < s'.1 && t'.0 < t'.1
    requires (s != s' && s.0 <= s'.0) || (s == s' && t != t' && t.0 <= t'.0)
    requires ClearOf(s, t, s', t') && ClearOf(s', t', s, t) && ClearOf(s, t', s', t')
    ensures Piece(s, t).1 < Piece(s', t').0
  {
    var p, q := Piece(s, t), Piece(s', t');
    ClearOfBytes(s, t, s', t', Max(p.0, q.0), Max(p.0, q.0));
    ClearOfBytes(s, t, s', t', p.1 - 1, q.0);
    ClearOfBytes(s', t', s, t, q.1 - 1, p.0);
    ClearOfBytes(s, t, s', t', q.1 - 1, q.1 - 1);
    ClearOfBytes(s, t', s', t', q.1 - 1, q.1 - 1);
  }

  lemma {:induction false} ClearOfBytes(s: Span, t: Span, s': Span, t': Span, x: int, y: int)
    requires ClearOf(s, t, s', t')
    ensures Holds(s, x) && Holds(t, x) && Holds(s', y) && Holds(t', y) && x <= y <= x + 1 ==> s == s' && t == t'
  {
  }

  lemma {:induction false} ClearIsApart(a: seq<Span>, b: seq<Span>)
    requires Sorted(a) && Sorted(b) && Clear(a, b)
    ensures AllApart(a, b)
  {
    forall i | 0 <= i < |a| ensures RowApart(a[i], b) {
      forall j | 0 <= j < |b| && Meet(a[i], b[j]) ensures Piece(a[i], b[j]).0 < Piece(a[i], b[j]).1 {
        assert Once(a, a[i]) && Once(b, b[j]);
      }
      forall j, l | 0 <= j < l < |b| && Meet(a[i], b[j]) && Meet(a[i], b[l])
        ensures Piece(a[i], b[j]).1 < Piece(a[i], b[l]).0
      {
        ClearIsPairApart(a, b, i, j, i, l);
      }
    }
    forall i, k | 0 <= i < k < |a| ensures RowsApart(a[i], a[k], b) {
      forall j, l | 0 <= j < |b| && 0 <= l < |b| && Meet(a[i], b[j]) && Meet(a[k], b[l])
        ensures Piece(a[i], b[j]).1 < Piece(a[k], b[l]).0
      {
        ClearIsPairApart(a, b, i, j, k, l);
      }
    }
  }

  lemma {:induction false} SameSpans(a: seq<Span>, a': seq<Span>)
    requires multiset(a) == multiset(a')
    ensures forall s :: s in a <==> s in a'
  {
    forall s ensures s in a <==> s in a' {
      assert s in multiset(a) <==> s in multiset(a');
    }
  }

  /** Being clear is about which spans are listed, not their order. */
  lemma {:induction false} ClearByBag(a: seq<Span>, b: seq<Span>, a': seq<Span>, b': seq<Span>)
    requires multiset(a) == multiset(a') && multiset(b) == multiset(b') && Clear(a, b)
    ensures Clear(a', b')
  {
    SameSpans(a, a');
    SameSpans(b, b');
    forall s, t | s in a' && t in b' && Meet(s, t) ensures Once(a', s) && Once(b', t) {
      assert s in a && t in b;
    }
    forall s, t, s', t' | s in a' && t in b' && s' in a' && t' in b' ensures ClearOf(s, t, s', t') {
      assert s in a && t in b && s' in a && t' in b;
    }
  }

  lemma {:induction false} ClearBySort(a: seq<Span>, b: seq<Span>)
    ensures Clear(Sort(a), Sort(b)) <==> Clear(a, b)
  {
    if Clear(a, b) {
      ClearByBag(a, b, Sort(a), Sort(b));
    }
    if Clear(Sort(a), Sort(b)) {
      ClearByBag(Sort(a), Sort(b), a, b);
    }
  }

  /** `overlap` comes out merged exactly when its inputs are clear of each other. */
  lemma {:induction false} OverlapIsMerged(a: seq<Span>, b: seq<Span>)
    ensures Canonical(Overlapped(a, b)) <==> Clear(a, b)
  {
    MeetsAllCanonical(Sort(a), Sort(b));
    ClearBySort(a, b);
    if AllApart(Sort(a), Sort(b)) {
      ApartIsClear(Sort(a), Sort(b));
    }
    if Clear(Sort(a), Sort(b)) {
      ClearIsApart(Sort(a), Sort(b));
    }
  }

  /** Merged lists are clear of each other, so their overlap is merged. */
  lemma {:induction false} MergedStayMerged(a: seq<Span>, b: seq<Span>)
    requires Canonical(a) && Canonical(b)
    ensures Canonical(Overlapped(a, b)) && Merged(Overlapped(a, b)) == Overlapped(a, b)
  {
    forall s, t | s in a && t in b && Meet(s, t) ensures Once(a, s) && Once(b, t) {
      CanonicalIsOnce(a, s);
      CanonicalIsOnce(b, t);
    }
    forall s, t, s', t' | s in a && t in b && s' in a && t' in b ensures ClearOf(s, t, s', t') {
      PairsAreClear(a, b, s, t, s', t');
    }
    assert MeetOnce(a, b) && BytesClear(a, b);
    OverlapIsMerged(a, b);
    MergedFixesCanonical(Overlapped(a, b));
  }

  lemma {:induction false} PairsAreClear(a: seq<Span>, b: seq<Span>, s: Span, t: Span, s': Span, t': Span)
    requires Canonical(a) && Canonical(b) && s in a && t in b && s' in a && t' in b
    ensures ClearOf(s, t, s', t')
  {
    CanonicalIsClear(a, s, s');
    CanonicalIsClear(b, t, t');
  }

  lemma {:induction false} CanonicalIsOnce(a: seq<Span>, s: Span)
    requires Canonical(a) && s in a
    ensures Once(a, s)
  {
    OnceByIndex(a, s);
  }

  lemma {:induction false} CanonicalIsClear(a: seq<Span>, s: Span, s': Span)
    requires Canonical(a) && s in a && s' in a
    ensures forall x, y :: Holds(s, x) && Holds(s', y) && x <= y <= x + 1 ==> s == s'
  {
    var i :| 0 <= i < |a| && a[i] == s;
    var k :| 0 <= k < |a| && a[k] == s';
  }

  /** Three lists that are not: spans that overlap, spans that only touch, and an empty span. */
  lemma {:induction false} OverlapCanStayApart()
    ensures var all := [(0, 10)];
            && Overlapped([(0, 6), (3, 9)], all) == [(0, 6), (3, 9)] && !Canonical([(0, 6), (3, 9)])
            && Overlapped([(0, 5), (5, 10)], all) == [(0, 5), (5, 10)] && !Canonical([(0, 5), (5, 10)])
            && Overlapped([(5, 5)], all) == [(5, 5)] && !Canonical([(5, 5)])
  {
    OverlapOfTwo((0, 6), (3, 9));
    OverlapOfTwo((0, 5), (5, 10));
    SortOne((5, 5));
    SortOne((0, 10));
    MeetsOne((5, 5), (0, 10));
    assert [(5, 5)][1..] == [];
    CloseIsNotCanonical((0, 6), (3, 9));
    CloseIsNotCanonical((0, 5), (5, 10));
    CanonicalOne((5, 5));
  }

  lemma {:induction false} CloseIsNotCanonical(s: Span, t: Span)
    requires s.1 >= t.0
    ensures !Canonical([s, t])
  {
    assert [s, t][0].1 >= [s, t][1].0;
  }

  lemma {:induction false} SortOne(s: Span)
    ensures Sort([s]) == [s]
  {
    assert [s][1..] == [] && Sort([]) == [];
  }

  lemma {:induction false} MeetsOne(s: Span, t: Span)
    requires Meet(s, t)
    ensures Meets(s.0, s.1, [t]) == [Piece(s, t)]
  {
    assert [t][1..] == [] && Meets(s.0, s.1, []) == [];
  }

  /** Two spans in order, both inside `(0, 10)`, are their own pieces. */
  lemma {:induction false} OverlapOfTwo(s: Span, t: Span)
    requires 0 <= s.0 < s.1 <= 10 && 0 <= t.0 < t.1 <= 10 && Before(s, t)
    ensures Overlapped([s, t], [(0, 10)]) == [s, t]
  {
    SortOne(t);
    SortOne((0, 10));
    assert [s, t][1..] == [t] && [t][1..] == [];
    assert Sort([s, t]) == Insert(s, [t]) == [s, t];
    MeetsOne(s, (0, 10));
    MeetsOne(t, (0, 10));
    assert MeetsAll([t], [(0, 10)]) == [t] + MeetsAll([], [(0, 10)]);
  }
}
