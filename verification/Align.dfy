/** Children aligned by longest common subsequence over their keys. */
module Align {
  import opened Wrappers
  import opened Trees

  type Pair = (Option<Tree>, Option<Tree>)

  /** A fan-out past this is aligned by position. */
  const FAN_OUT: nat := 0x4_0000

  function Max(a: nat, b: nat): nat {
    if a >= b then a else b
  }

  /** One cell of the table: matches left from `a[i..]` and `b[j..]`. */
  function Lcs(a: seq<Tree>, b: seq<Tree>, i: nat, j: nat): nat
    requires i <= |a| && j <= |b|
    decreases |a| - i + |b| - j
  {
    if i == |a| || j == |b| then 0
    else if Key(a[i]) == Key(b[j]) then Lcs(a, b, i + 1, j + 1) + 1
    else Max(Lcs(a, b, i + 1, j), Lcs(a, b, i, j + 1))
  }

  function LeftOnly(a: seq<Tree>): (r: seq<Pair>)
    ensures |r| == |a| && forall k :: 0 <= k < |r| ==> r[k] == (Some(a[k]), None)
  {
    seq(|a|, k requires 0 <= k < |a| => (Some(a[k]), None))
  }

  function RightOnly(b: seq<Tree>): (r: seq<Pair>)
    ensures |r| == |b| && forall k :: 0 <= k < |r| ==> r[k] == (None, Some(b[k]))
  {
    seq(|b|, k requires 0 <= k < |b| => (None, Some(b[k])))
  }

  /** The way through the table: a match where the keys agree, else the better side. */
  function Traced(a: seq<Tree>, b: seq<Tree>, i: nat, j: nat): seq<Pair>
    requires i <= |a| && j <= |b|
    decreases |a| - i + |b| - j
  {
    if i == |a| || j == |b| then LeftOnly(a[i..]) + RightOnly(b[j..])
    else if Key(a[i]) == Key(b[j]) then [(Some(a[i]), Some(b[j]))] + Traced(a, b, i + 1, j + 1)
    else if Lcs(a, b, i + 1, j) >= Lcs(a, b, i, j + 1) then [(Some(a[i]), None)] + Traced(a, b, i + 1, j)
    else [(None, Some(b[j]))] + Traced(a, b, i, j + 1)
  }

  function Nth(a: seq<Tree>, k: nat): Option<Tree> {
    if k < |a| then Some(a[k]) else None
  }

  function Positional(a: seq<Tree>, b: seq<Tree>): (r: seq<Pair>)
    ensures |r| == Max(|a|, |b|) && forall k :: 0 <= k < |r| ==> r[k] == (Nth(a, k), Nth(b, k))
  {
    seq(Max(|a|, |b|), k requires k >= 0 => (Nth(a, k), Nth(b, k)))
  }

  function Aligned(a: seq<Tree>, b: seq<Tree>): seq<Pair> {
    if |a| * |b| > FAN_OUT then Positional(a, b) else Traced(a, b, 0, 0)
  }

  /** Row `i` of the table holds its cells. */
  ghost predicate Filled(a: seq<Tree>, b: seq<Tree>, t: array2<nat>, i: nat)
    requires i <= |a| && t.Length0 == |a| + 1 && t.Length1 == |b| + 1
    reads t
  {
    forall j :: 0 <= j <= |b| ==> t[i, j] == Lcs(a, b, i, j)
  }

  /** One row of the table, from its far end, over the row below it. */
  method FillRow(a: seq<Tree>, b: seq<Tree>, t: array2<nat>, i: nat)
    requires i < |a| && t.Length0 == |a| + 1 && t.Length1 == |b| + 1
    requires Filled(a, b, t, i + 1) && t[i, |b|] == 0
    modifies t
    ensures Filled(a, b, t, i)
    ensures forall x, y :: 0 <= x <= |a| && x != i && 0 <= y <= |b| ==> t[x, y] == old(t[x, y])
  {
    var j := |b|;
    while j > 0
      invariant 0 <= j <= |b|
      invariant forall y :: j <= y <= |b| ==> t[i, y] == Lcs(a, b, i, y)
      invariant forall x, y :: 0 <= x <= |a| && x != i && 0 <= y <= |b| ==> t[x, y] == old(t[x, y])
    {
      j := j - 1;
      assert t[i + 1, j] == old(t[i + 1, j]) && t[i + 1, j + 1] == old(t[i + 1, j + 1]);
      t[i, j] := if Key(a[i]) == Key(b[j]) then t[i + 1, j + 1] + 1 else Max(t[i + 1, j], t[i, j + 1]);
    }
  }

  /** The table filled from its far corner. */
  method Fill(a: seq<Tree>, b: seq<Tree>) returns (t: array2<nat>)
    ensures fresh(t) && t.Length0 == |a| + 1 && t.Length1 == |b| + 1
    ensures forall i :: 0 <= i <= |a| ==> Filled(a, b, t, i)
  {
    t := new nat[|a| + 1, |b| + 1]((_, _) => 0);
    var i := |a|;
    while i > 0
      invariant 0 <= i <= |a|
      invariant forall x :: i <= x <= |a| ==> Filled(a, b, t, x)
      invariant forall x, y :: 0 <= x < i && 0 <= y <= |b| ==> t[x, y] == 0
    {
      i := i - 1;
      label before:
      FillRow(a, b, t, i);
      forall x | i < x <= |a| ensures Filled(a, b, t, x) {
        assert old@before(Filled(a, b, t, x));
        forall j | 0 <= j <= |b| ensures t[x, j] == Lcs(a, b, x, j) {
          assert t[x, j] == old@before(t[x, j]);
        }
      }
    }
  }

  /** Which side the table says loses nothing by skipping. */
  method SkipsLeft(a: seq<Tree>, b: seq<Tree>, t: array2<nat>, i: nat, j: nat) returns (left: bool)
    requires t.Length0 == |a| + 1 && t.Length1 == |b| + 1 && i < |a| && j < |b|
    requires Filled(a, b, t, i) && Filled(a, b, t, i + 1)
    ensures left <==> Lcs(a, b, i + 1, j) >= Lcs(a, b, i, j + 1)
  {
    left := t[i + 1, j] >= t[i, j + 1];
  }

  /** Back through the table from its near corner. */
  method Trace(a: seq<Tree>, b: seq<Tree>, t: array2<nat>) returns (out: seq<Pair>)
    requires t.Length0 == |a| + 1 && t.Length1 == |b| + 1
    requires forall i :: 0 <= i <= |a| ==> Filled(a, b, t, i)
    ensures out == Traced(a, b, 0, 0)
  {
    out := [];
    var i, j := 0, 0;
    while i < |a| && j < |b|
      invariant 0 <= i <= |a| && 0 <= j <= |b|
      invariant out + Traced(a, b, i, j) == Traced(a, b, 0, 0)
      decreases |a| - i + |b| - j
    {
      var pair: Pair;
      ghost var was := Traced(a, b, i, j);
      if Key(a[i]) == Key(b[j]) {
        pair := (Some(a[i]), Some(b[j]));
        i, j := i + 1, j + 1;
      } else {
        var left := SkipsLeft(a, b, t, i, j);
        if left {
          pair := (Some(a[i]), None);
          i := i + 1;
        } else {
          pair := (None, Some(b[j]));
          j := j + 1;
        }
      }
      Appended(out, pair, Traced(a, b, i, j));
      out := out + [pair];
    }
    out := out + (LeftOnly(a[i..]) + RightOnly(b[j..]));
  }

  lemma {:induction false} Appended(out: seq<Pair>, p: Pair, rest: seq<Pair>)
    ensures out + ([p] + rest) == out + [p] + rest
  {
  }

  method AlignChildren(a: seq<Tree>, b: seq<Tree>) returns (out: seq<Pair>)
    ensures out == Aligned(a, b)
  {
    if |a| * |b| > FAN_OUT {
      return Positional(a, b);
    }
    var t := Fill(a, b);
    out := Trace(a, b, t);
  }

  // ---- lossless

  function Lefts(p: seq<Pair>): seq<Tree> {
    if p == [] then [] else (if p[0].0.Some? then [p[0].0.value] else []) + Lefts(p[1..])
  }

  function Rights(p: seq<Pair>): seq<Tree> {
    if p == [] then [] else (if p[0].1.Some? then [p[0].1.value] else []) + Rights(p[1..])
  }

  /** Pairs with a node on both sides. */
  function Matched(p: seq<Pair>): nat {
    if p == [] then 0 else (if p[0].0.Some? && p[0].1.Some? then 1 else 0) + Matched(p[1..])
  }

  lemma {:induction false} OneSided(a: seq<Tree>)
    ensures Lefts(LeftOnly(a)) == a && Rights(LeftOnly(a)) == [] && Matched(LeftOnly(a)) == 0
    ensures Rights(RightOnly(a)) == a && Lefts(RightOnly(a)) == [] && Matched(RightOnly(a)) == 0
    decreases |a|
  {
    if a != [] {
      OneSided(a[1..]);
      assert LeftOnly(a)[1..] == LeftOnly(a[1..]);
      assert RightOnly(a)[1..] == RightOnly(a[1..]);
    }
  }

  lemma {:induction false} ErasedAfter(p: Pair, rest: seq<Pair>)
    ensures Lefts([p] + rest) == (if p.0.Some? then [p.0.value] else []) + Lefts(rest)
    ensures Rights([p] + rest) == (if p.1.Some? then [p.1.value] else []) + Rights(rest)
    ensures Matched([p] + rest) == (if p.0.Some? && p.1.Some? then 1 else 0) + Matched(rest)
  {
    assert ([p] + rest)[1..] == rest;
  }

  lemma {:induction false} TracedKeepsAll(a: seq<Tree>, b: seq<Tree>, i: nat, j: nat)
    requires i <= |a| && j <= |b|
    ensures Lefts(Traced(a, b, i, j)) == a[i..] && Rights(Traced(a, b, i, j)) == b[j..]
    ensures Matched(Traced(a, b, i, j)) == Lcs(a, b, i, j)
    decreases |a| - i + |b| - j
  {
    if i == |a| {
      OneSided(b[j..]);
      assert LeftOnly(a[i..]) + RightOnly(b[j..]) == RightOnly(b[j..]);
    } else if j == |b| {
      OneSided(a[i..]);
      assert LeftOnly(a[i..]) + RightOnly(b[j..]) == LeftOnly(a[i..]);
    } else {
      assert a[i..] == [a[i]] + a[i + 1..] && b[j..] == [b[j]] + b[j + 1..];
      if Key(a[i]) == Key(b[j]) {
        TracedKeepsAll(a, b, i + 1, j + 1);
        ErasedAfter((Some(a[i]), Some(b[j])), Traced(a, b, i + 1, j + 1));
      } else if Lcs(a, b, i + 1, j) >= Lcs(a, b, i, j + 1) {
        TracedKeepsAll(a, b, i + 1, j);
        ErasedAfter((Some(a[i]), None), Traced(a, b, i + 1, j));
      } else {
        TracedKeepsAll(a, b, i, j + 1);
        ErasedAfter((None, Some(b[j])), Traced(a, b, i, j + 1));
      }
    }
  }

  lemma {:induction false} PositionalKeepsAll(a: seq<Tree>, b: seq<Tree>)
    ensures Lefts(Positional(a, b)) == a && Rights(Positional(a, b)) == b
    decreases |a| + |b|
  {
    if a != [] || b != [] {
      var a', b' := if a == [] then [] else a[1..], if b == [] then [] else b[1..];
      PositionalKeepsAll(a', b');
      assert Positional(a, b)[1..] == Positional(a', b');
    }
  }

  /** Erasing the gaps gives back both child lists, in order. */
  lemma {:induction false} AlignedIsLossless(a: seq<Tree>, b: seq<Tree>)
    ensures Lefts(Aligned(a, b)) == a && Rights(Aligned(a, b)) == b
  {
    TracedKeepsAll(a, b, 0, 0);
    PositionalKeepsAll(a, b);
  }

  // ---- optimal

  /** Any way of matching children in order, key by key. */
  ghost predicate Matching(a: seq<Tree>, b: seq<Tree>, i: nat, j: nat, m: seq<(nat, nat)>) {
    && (forall k :: 0 <= k < |m| ==> i <= m[k].0 < |a| && j <= m[k].1 < |b| && Key(a[m[k].0]) == Key(b[m[k].1]))
    && (forall k, l :: 0 <= k < l < |m| ==> m[k].0 < m[l].0 && m[k].1 < m[l].1)
  }

  lemma {:induction false} LcsBoundsMatchings(a: seq<Tree>, b: seq<Tree>, i: nat, j: nat, m: seq<(nat, nat)>)
    requires i <= |a| && j <= |b| && Matching(a, b, i, j, m)
    ensures |m| <= Lcs(a, b, i, j)
    decreases |a| - i + |b| - j
  {
    if m != [] {
      var (p, q) := m[0];
      if Key(a[i]) == Key(b[j]) {
        LcsBoundsMatchings(a, b, i + 1, j + 1, m[1..]);
      } else if p > i {
        forall k | 0 <= k < |m| ensures m[k].0 >= i + 1 {
        }
        LcsBoundsMatchings(a, b, i + 1, j, m);
      } else {
        forall k | 0 <= k < |m| ensures m[k].1 >= j + 1 {
        }
        LcsBoundsMatchings(a, b, i, j + 1, m);
      }
    }
  }

  /** Every pair the table makes has equal keys. */
  lemma {:induction false} TracedPairsAgree(a: seq<Tree>, b: seq<Tree>, i: nat, j: nat)
    requires i <= |a| && j <= |b|
    ensures forall k :: 0 <= k < |Traced(a, b, i, j)| ==>
              var p := Traced(a, b, i, j)[k];
              p.0.Some? && p.1.Some? ==> Key(p.0.value) == Key(p.1.value)
    decreases |a| - i + |b| - j
  {
    if i < |a| && j < |b| {
      if Key(a[i]) == Key(b[j]) {
        TracedPairsAgree(a, b, i + 1, j + 1);
      } else if Lcs(a, b, i + 1, j) >= Lcs(a, b, i, j + 1) {
        TracedPairsAgree(a, b, i + 1, j);
      } else {
        TracedPairsAgree(a, b, i, j + 1);
      }
    }
  }

  /** How many of ours, and of theirs, an alignment has used before a place. */
  function Used(p: seq<Pair>, k: nat): (nat, nat)
    requires k <= |p|
  {
    (|Lefts(p[..k])|, |Rights(p[..k])|)
  }

  lemma {:induction false} UsedAfter(pair: Pair, rest: seq<Pair>, k: nat)
    requires k <= |rest|
    ensures var (i, j) := Used(rest, k);
            Used([pair] + rest, k + 1) == (i + (if pair.0.Some? then 1 else 0), j + (if pair.1.Some? then 1 else 0))
  {
    assert ([pair] + rest)[..k + 1] == [pair] + rest[..k];
    ErasedAfter(pair, rest[..k]);
  }

  /** A child of theirs is left unpaired, while ours are not used up, only where leaving ours
      instead would lose a match. */
  predicate OursFirst(a: seq<Tree>, b: seq<Tree>, i: nat, j: nat, p: seq<Pair>) {
    forall k :: 0 <= k < |p| && p[k].0.None? ==> Forced(a, b, i + Used(p, k).0, j + Used(p, k).1)
  }

  /** From here leaving ours would lose a match, or there is none of ours left. */
  predicate Forced(a: seq<Tree>, b: seq<Tree>, m: nat, n: nat) {
    m < |a| ==> n < |b| && Lcs(a, b, m + 1, n) < Lcs(a, b, m, n + 1)
  }

  lemma {:induction false} OursFirstLed(a: seq<Tree>, b: seq<Tree>, i: nat, j: nat, pair: Pair, rest: seq<Pair>)
    requires pair.0.Some? || (i < |a| ==> j < |b| && Lcs(a, b, i + 1, j) < Lcs(a, b, i, j + 1))
    requires OursFirst(a, b, i + (if pair.0.Some? then 1 else 0), j + (if pair.1.Some? then 1 else 0), rest)
    ensures OursFirst(a, b, i, j, [pair] + rest)
  {
    var p := [pair] + rest;
    var i', j' := i + (if pair.0.Some? then 1 else 0), j + (if pair.1.Some? then 1 else 0);
    forall k | 0 <= k < |p| && p[k].0.None? ensures Forced(a, b, i + Used(p, k).0, j + Used(p, k).1) {
      if k > 0 {
        UsedAfter(pair, rest, k - 1);
        assert rest[k - 1] == p[k];
        assert Forced(a, b, i' + Used(rest, k - 1).0, j' + Used(rest, k - 1).1);
      } else {
        assert p[..0] == [];
      }
    }
  }

  lemma {:induction false} TracedSkipsOursFirst(a: seq<Tree>, b: seq<Tree>, i: nat, j: nat)
    requires i <= |a| && j <= |b|
    ensures OursFirst(a, b, i, j, Traced(a, b, i, j))
    decreases |a| - i + |b| - j
  {
    if i < |a| && j < |b| {
      if Key(a[i]) == Key(b[j]) {
        TracedSkipsOursFirst(a, b, i + 1, j + 1);
        OursFirstLed(a, b, i, j, (Some(a[i]), Some(b[j])), Traced(a, b, i + 1, j + 1));
      } else if Lcs(a, b, i + 1, j) >= Lcs(a, b, i, j + 1) {
        TracedSkipsOursFirst(a, b, i + 1, j);
        OursFirstLed(a, b, i, j, (Some(a[i]), None), Traced(a, b, i + 1, j));
      } else {
        TracedSkipsOursFirst(a, b, i, j + 1);
        OursFirstLed(a, b, i, j, (None, Some(b[j])), Traced(a, b, i, j + 1));
      }
    } else if i < |a| {
      assert RightOnly(b[j..]) == [];
    }
  }

  /** Of the alignments that match as much, this is the one that leaves ours unpaired first; and past
      the fan-out children are paired by position. */
  lemma {:induction false} AlignedSkipsOursFirst(a: seq<Tree>, b: seq<Tree>)
    ensures |a| * |b| <= 262144 ==> OursFirst(a, b, 0, 0, Aligned(a, b))
    ensures |a| * |b| > 262144 ==>
              |Aligned(a, b)| == Max(|a|, |b|)
              && forall k :: 0 <= k < |Aligned(a, b)| ==> Aligned(a, b)[k] == (Nth(a, k), Nth(b, k))
  {
    TracedSkipsOursFirst(a, b, 0, 0);
  }

  /** Within the fan-out, the alignment pairs equal keys and no matching pairs more. */
  lemma {:induction false} AlignedIsOptimal(a: seq<Tree>, b: seq<Tree>, m: seq<(nat, nat)>)
    requires |a| * |b| <= 262144 && Matching(a, b, 0, 0, m)
    ensures |m| <= Matched(Aligned(a, b))
    ensures forall k :: 0 <= k < |Aligned(a, b)| ==>
              var p := Aligned(a, b)[k];
              p.0.Some? && p.1.Some? ==> Key(p.0.value) == Key(p.1.value)
  {
    LcsBoundsMatchings(a, b, 0, 0, m);
    TracedKeepsAll(a, b, 0, 0);
    TracedPairsAgree(a, b, 0, 0);
  }
}
