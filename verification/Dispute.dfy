/** Built bytes judged one by one against an oracle in recovery. */
module Dispute {
  import opened Wrappers
  import opened Spans
  import opened Paint

  datatype Verdict = Agree | Regrouped | Relabelled | Renamed | Interstice | Silent

  predicate Prefixed(s: string, p: string) {
    p <= s
  }

  predicate Refused(name: string) {
    Prefixed(name, "ERROR") || Prefixed(name, "MISSING")
  }

  /** Everything a byte is judged by. */
  datatype Case = Case(us: seq<Leaf>, them: seq<Leaf>, renames: set<set<string>>, terminals: set<string>)

  function NodeOver(nodes: seq<Leaf>, x: int): Option<Leaf> {
    var i := LastOver(nodes, x);
    if i >= 0 then Some(nodes[i]) else None
  }

  function Judged(c: Case, o: Option<Leaf>, t: Option<Leaf>): Verdict {
    if t.None? || Refused(t.value.name) then Silent
    else if !t.value.leaf || t.value.name !in c.terminals then Interstice
    else if o.Some? && (o.value.name, o.value.named) == (t.value.name, t.value.named) then Agree
    else
      var same := o.Some? && (o.value.start, o.value.end) == (t.value.start, t.value.end);
      if same && {o.value.name, t.value.name} in c.renames then Renamed
      else if same then Relabelled else Regrouped
  }

  /** The verdict on one byte: the deepest node of each tree over it, compared. */
  function At(c: Case, x: int): Verdict {
    Judged(c, NodeOver(c.us, x), NodeOver(c.them, x))
  }

  predicate Disputed(c: Case, x: int) {
    At(c, x).Regrouped? || At(c, x).Relabelled?
  }

  // ---- the tally

  datatype Tally = Tally(agree: nat, regrouped: nat, relabelled: nat, renamed: nat, interstice: nat, silent: nat)

  const NONE := Tally(0, 0, 0, 0, 0, 0)

  function Tallied(t: Tally, v: Verdict): Tally {
    match v
    case Agree => t.(agree := t.agree + 1)
    case Regrouped => t.(regrouped := t.regrouped + 1)
    case Relabelled => t.(relabelled := t.relabelled + 1)
    case Renamed => t.(renamed := t.renamed + 1)
    case Interstice => t.(interstice := t.interstice + 1)
    case Silent => t.(silent := t.silent + 1)
  }

  function Total(t: Tally): nat {
    t.agree + t.regrouped + t.relabelled + t.renamed + t.interstice + t.silent
  }

  /** How many bytes of `[lo, hi)` come out as `v`. */
  function Count(c: Case, v: Verdict, lo: int, hi: int): nat
    decreases hi - lo
  {
    if lo >= hi then 0 else Count(c, v, lo, hi - 1) + (if At(c, hi - 1) == v then 1 else 0)
  }

  function CountAll(c: Case, v: Verdict, stands: seq<Span>): nat {
    if stands == [] then 0
    else CountAll(c, v, stands[..|stands| - 1]) + Count(c, v, stands[|stands| - 1].0, stands[|stands| - 1].1)
  }

  /** The tally, verdict by verdict, as counts of bytes. */
  function Counted(c: Case, stands: seq<Span>, lo: int, hi: int): Tally {
    Tally(CountAll(c, Agree, stands) + Count(c, Agree, lo, hi),
          CountAll(c, Regrouped, stands) + Count(c, Regrouped, lo, hi),
          CountAll(c, Relabelled, stands) + Count(c, Relabelled, lo, hi),
          CountAll(c, Renamed, stands) + Count(c, Renamed, lo, hi),
          CountAll(c, Interstice, stands) + Count(c, Interstice, lo, hi),
          CountAll(c, Silent, stands) + Count(c, Silent, lo, hi))
  }

  lemma {:induction false} CountedGrows(c: Case, stands: seq<Span>, lo: int, i: int)
    requires lo <= i
    ensures Counted(c, stands, lo, i + 1) == Tallied(Counted(c, stands, lo, i), At(c, i))
  {
  }

  // ---- runs

  /** The disputed runs of `[lo, hi)`, the last one still open if it ends there. */
  function RunsTo(c: Case, lo: int, hi: int): seq<Span>
    decreases hi - lo
  {
    if lo >= hi then [] else
    var r := RunsTo(c, lo, hi - 1);
    if Disputed(c, hi - 1) then Grown(r, hi) else r
  }

  /** A list grown by the byte `hi - 1`, its last span stretched where it touches. */
  function Grown(r: seq<Span>, hi: int): seq<Span> {
    if r != [] && r[|r| - 1].1 == hi - 1 then r[..|r| - 1] + [(r[|r| - 1].0, hi)]
    else r + [(hi - 1, hi)]
  }

  function RunsOf(c: Case, stands: seq<Span>): seq<Span> {
    if stands == [] then []
    else RunsOf(c, stands[..|stands| - 1]) + RunsTo(c, stands[|stands| - 1].0, stands[|stands| - 1].1)
  }

  /** Ascending, never touching, and over exactly the disputed bytes of `[lo, hi)`. */
  ghost predicate Maximal(c: Case, lo: int, hi: int, runs: seq<Span>) {
    Canonical(runs) && forall x :: Covers(runs, x) <==> lo <= x < hi && Disputed(c, x)
  }

  lemma {:induction false} RunsAreMaximal(c: Case, lo: int, hi: int)
    ensures Maximal(c, lo, hi, RunsTo(c, lo, hi))
  {
    RunsAreCanonical(c, lo, hi);
    forall x ensures Covers(RunsTo(c, lo, hi), x) <==> lo <= x < hi && Disputed(c, x) {
      RunsCover(c, lo, hi, x);
    }
  }

  lemma {:induction false} GrownIsCanonical(r: seq<Span>, hi: int)
    requires Canonical(r) && (r != [] ==> r[|r| - 1].1 <= hi - 1)
    ensures Canonical(Grown(r, hi)) && Grown(r, hi)[|Grown(r, hi)| - 1].1 == hi
  {
    forall i | 0 <= i < |r| - 1 ensures r[i].1 < r[|r| - 1].0 {
    }
  }

  lemma {:induction false} RunsAreCanonical(c: Case, lo: int, hi: int)
    ensures var r := RunsTo(c, lo, hi); Canonical(r) && (r != [] ==> r[|r| - 1].1 <= hi)
    decreases hi - lo
  {
    if lo < hi {
      RunsAreCanonical(c, lo, hi - 1);
      if Disputed(c, hi - 1) {
        GrownIsCanonical(RunsTo(c, lo, hi - 1), hi);
      }
    }
  }

  lemma {:induction false} RunsCover(c: Case, lo: int, hi: int, x: int)
    ensures Covers(RunsTo(c, lo, hi), x) <==> lo <= x < hi && Disputed(c, x)
    decreases hi - lo
  {
    if lo < hi {
      RunsCover(c, lo, hi - 1, x);
      if Disputed(c, hi - 1) {
        RunsAreCanonical(c, lo, hi - 1);
        GrownCovers(RunsTo(c, lo, hi - 1), hi, x);
      }
    }
  }

  lemma {:induction false} GrownCovers(r: seq<Span>, hi: int, x: int)
    requires r != [] ==> r[|r| - 1].0 < r[|r| - 1].1 <= hi - 1
    ensures Covers(Grown(r, hi), x) <==> Covers(r, x) || x == hi - 1
  {
    if r != [] && r[|r| - 1].1 == hi - 1 {
      var init, last := r[..|r| - 1], r[|r| - 1];
      assert r == init + [last];
      CoversConcat(init, [last], x);
      CoversConcat(init, [(last.0, hi)], x);
      CoversOne(last, x);
      CoversOne((last.0, hi), x);
    } else {
      CoversConcat(r, [(hi - 1, hi)], x);
      CoversOne((hi - 1, hi), x);
    }
  }

  /** No disputed byte stands next to a run inside its stand. */
  lemma {:induction false} RunsEndAtUndisputed(c: Case, lo: int, hi: int, k: nat)
    requires k < |RunsTo(c, lo, hi)|
    ensures var r := RunsTo(c, lo, hi)[k];
            && (lo < r.0 ==> !Disputed(c, r.0 - 1)) && (r.1 < hi ==> !Disputed(c, r.1))
            && lo <= r.0 < r.1 <= hi
  {
    var runs := RunsTo(c, lo, hi);
    RunsAreMaximal(c, lo, hi);
    assert Covers(runs, runs[k].0) && Covers(runs, runs[k].1 - 1);
    NextToSpan(runs, k);
  }

  lemma {:induction false} GrownWidths(r: seq<Span>, hi: int)
    ensures Widths(Grown(r, hi)) == Widths(r) + 1
  {
    if r != [] && r[|r| - 1].1 == hi - 1 {
      WidthsSnoc(r);
      WidthsSnoc(Grown(r, hi));
      assert Grown(r, hi)[..|r| - 1] == r[..|r| - 1];
    } else {
      WidthsSnoc(r + [(hi - 1, hi)]);
      assert (r + [(hi - 1, hi)])[..|r|] == r;
    }
  }

  lemma {:induction false} WidthsSnoc(s: seq<Span>)
    requires s != []
    ensures Widths(s) == Widths(s[..|s| - 1]) + s[|s| - 1].1 - s[|s| - 1].0
  {
    WidthsConcat(s[..|s| - 1], [s[|s| - 1]]);
    assert s == s[..|s| - 1] + [s[|s| - 1]];
  }

  /** Run widths count the disputed bytes. */
  lemma {:induction false} RunsCountDisputes(c: Case, lo: int, hi: int)
    ensures Widths(RunsTo(c, lo, hi)) == Count(c, Regrouped, lo, hi) + Count(c, Relabelled, lo, hi)
    decreases hi - lo
  {
    if lo < hi {
      RunsCountDisputes(c, lo, hi - 1);
      GrownWidths(RunsTo(c, lo, hi - 1), hi);
    }
  }

  lemma {:induction false} WidthsConcat(a: seq<Span>, b: seq<Span>)
    ensures Widths(a + b) == Widths(a) + Widths(b)
    decreases |a|
  {
    if a == [] {
      assert a + b == b;
    } else {
      WidthsConcat(a[1..], b);
      assert (a + b)[1..] == a[1..] + b;
    }
  }

  lemma {:induction false} AllRunsCountDisputes(c: Case, stands: seq<Span>)
    ensures Widths(RunsOf(c, stands)) == CountAll(c, Regrouped, stands) + CountAll(c, Relabelled, stands)
    decreases |stands|
  {
    if stands != [] {
      var n := |stands| - 1;
      AllRunsCountDisputes(c, stands[..n]);
      RunsCountDisputes(c, stands[n].0, stands[n].1);
      WidthsConcat(RunsOf(c, stands[..n]), RunsTo(c, stands[n].0, stands[n].1));
    }
  }

  lemma {:induction false} OneVerdictMore(t: Tally, v: Verdict)
    ensures Total(Tallied(t, v)) == Total(t) + 1
  {
  }

  /** Every byte gets one verdict: the six counts of a stand add to its width. */
  lemma {:induction false} VerdictsPartition(c: Case, lo: int, hi: int)
    requires lo <= hi
    ensures Total(Counted(c, [], lo, hi)) == hi - lo
    decreases hi - lo
  {
    if lo < hi {
      VerdictsPartition(c, lo, hi - 1);
      CountedGrows(c, [], lo, hi - 1);
      OneVerdictMore(Counted(c, [], lo, hi - 1), At(c, hi - 1));
    }
  }

  lemma {:induction false} TotalOfLast(c: Case, stands: seq<Span>)
    requires stands != []
    ensures var n := |stands| - 1;
            Total(Counted(c, stands, 0, 0))
            == Total(Counted(c, stands[..n], 0, 0)) + Total(Counted(c, [], stands[n].0, stands[n].1))
  {
  }

  /** The tally adds to the bytes built. */
  lemma {:induction false} TallyConserves(c: Case, stands: seq<Span>)
    requires forall i :: 0 <= i < |stands| ==> stands[i].0 <= stands[i].1
    ensures Total(Counted(c, stands, 0, 0)) == Widths(stands)
    decreases |stands|
  {
    if stands != [] {
      var n := |stands| - 1;
      TallyConserves(c, stands[..n]);
      TotalOfLast(c, stands);
      VerdictsPartition(c, stands[n].0, stands[n].1);
      WidthsSnoc(stands);
    }
  }

  // ---- pairs

  /** One (ours, theirs) disagreement: the bytes it cost and the times it came. */
  datatype Pair = Pair(ours: string, theirs: string, bytes: int, times: nat)

  function Spelled(nodes: seq<Leaf>, x: int): string {
    match NodeOver(nodes, x)
    case None => "\U{2014}"
    case Some(n) => if n.named then n.name else "\"" + n.name + "\""
  }

  predicate Wears(c: Case, r: Span, p: Pair) {
    p.ours == Spelled(c.us, r.0) && p.theirs == Spelled(c.them, r.0)
  }

  function PairBytes(pairs: seq<Pair>): int {
    if pairs == [] then 0 else PairBytes(pairs[..|pairs| - 1]) + pairs[|pairs| - 1].bytes
  }

  function PairTimes(pairs: seq<Pair>): nat {
    if pairs == [] then 0 else PairTimes(pairs[..|pairs| - 1]) + pairs[|pairs| - 1].times
  }

  /** The bytes and runs of a list that wear one pair of labels. */
  function Worn(c: Case, ours: string, theirs: string, runs: seq<Span>): (int, nat) {
    if runs == [] then (0, 0) else
    var (b, n) := Worn(c, ours, theirs, runs[..|runs| - 1]);
    var r := runs[|runs| - 1];
    if ours == Spelled(c.us, r.0) && theirs == Spelled(c.them, r.0) then (b + r.1 - r.0, n + 1) else (b, n)
  }

  lemma {:induction false} PairUpdate(pairs: seq<Pair>, k: nat, p: Pair)
    requires k < |pairs|
    ensures PairBytes(pairs[k := p]) == PairBytes(pairs) - pairs[k].bytes + p.bytes
    ensures PairTimes(pairs[k := p]) as int == PairTimes(pairs) as int - pairs[k].times as int + p.times as int
    decreases |pairs|
  {
    var n := |pairs| - 1;
    if k < n {
      PairUpdate(pairs[..n], k, p);
      assert pairs[k := p][..n] == pairs[..n][k := p];
    } else {
      assert pairs[k := p][..n] == pairs[..n];
    }
  }

  predicate HasPair(c: Case, r: Span, pairs: seq<Pair>) {
    exists k :: 0 <= k < |pairs| && Wears(c, r, pairs[k])
  }

  /** Every run's labels have a row. */
  predicate AllWorn(c: Case, pairs: seq<Pair>, runs: seq<Span>) {
    forall i :: 0 <= i < |runs| ==> HasPair(c, runs[i], pairs)
  }

  /** Every row holds the bytes and the runs of its labels. */
  predicate RowsCount(c: Case, pairs: seq<Pair>, runs: seq<Span>) {
    forall k :: 0 <= k < |pairs| ==> (pairs[k].bytes, pairs[k].times) == Worn(c, pairs[k].ours, pairs[k].theirs, runs)
  }

  predicate RowsDiffer(pairs: seq<Pair>) {
    forall i, k :: 0 <= i < k < |pairs| ==> (pairs[i].ours, pairs[i].theirs) != (pairs[k].ours, pairs[k].theirs)
  }

  /** One row for each pair of labels some run wears, holding that pair's bytes and runs. */
  ghost predicate PairsOf(c: Case, pairs: seq<Pair>, runs: seq<Span>) {
    && PairBytes(pairs) == Widths(runs) && PairTimes(pairs) == |runs|
    && RowsCount(c, pairs, runs) && RowsDiffer(pairs) && AllWorn(c, pairs, runs)
  }

  method Paired(c: Case, runs: seq<Span>) returns (pairs: seq<Pair>)
    ensures PairsOf(c, pairs, runs)
  {
    pairs := [];
    var i := 0;
    while i < |runs|
      invariant 0 <= i <= |runs|
      invariant PairsOf(c, pairs, runs[..i])
    {
      var r := runs[i];
      var k := 0;
      while k < |pairs| && !Wears(c, r, pairs[k])
        invariant 0 <= k <= |pairs|
        invariant forall j :: 0 <= j < k ==> !Wears(c, r, pairs[j])
      {
        k := k + 1;
      }
      assert runs[..i + 1] == runs[..i] + [r];
      if k < |pairs| {
        PairGrows(c, pairs, runs[..i], r, k);
        pairs := pairs[k := Costlier(pairs[k], r)];
      } else {
        PairOpens(c, pairs, runs[..i], r);
        pairs := pairs + [Opened(c, r)];
      }
      i := i + 1;
    }
    assert runs[..|runs|] == runs;
  }

  /** A run's row is still there when a row is rewritten with the same labels, or added. */
  lemma {:induction false} HasPairKept(c: Case, r: Span, pairs: seq<Pair>, now: seq<Pair>)
    requires HasPair(c, r, pairs) && |pairs| <= |now|
    requires forall k :: 0 <= k < |pairs| ==> pairs[k].ours == now[k].ours && pairs[k].theirs == now[k].theirs
    ensures HasPair(c, r, now)
  {
    var m :| 0 <= m < |pairs| && Wears(c, r, pairs[m]);
    assert Wears(c, r, now[m]);
  }

  lemma {:induction false} AllHavePairs(c: Case, runs: seq<Span>, r: Span, pairs: seq<Pair>, now: seq<Pair>, k: nat)
    requires AllWorn(c, pairs, runs) && |pairs| <= |now|
    requires forall k :: 0 <= k < |pairs| ==> pairs[k].ours == now[k].ours && pairs[k].theirs == now[k].theirs
    requires k < |now| && Wears(c, r, now[k])
    ensures AllWorn(c, now, runs + [r])
  {
    forall i | 0 <= i < |runs + [r]| ensures HasPair(c, (runs + [r])[i], now) {
      if i < |runs| {
        HasPairKept(c, runs[i], pairs, now);
      }
    }
  }

  lemma {:induction false} WornAfter(c: Case, ours: string, theirs: string, runs: seq<Span>, r: Span)
    ensures var (b, n) := Worn(c, ours, theirs, runs);
            Worn(c, ours, theirs, runs + [r])
            == if ours == Spelled(c.us, r.0) && theirs == Spelled(c.them, r.0) then (b + r.1 - r.0, n + 1) else (b, n)
  {
    assert (runs + [r])[..|runs|] == runs;
  }

  function Costlier(p: Pair, r: Span): Pair {
    p.(bytes := p.bytes + r.1 - r.0, times := p.times + 1)
  }

  function Opened(c: Case, r: Span): Pair {
    Pair(Spelled(c.us, r.0), Spelled(c.them, r.0), r.1 - r.0, 1)
  }

  lemma {:induction false} RowGrows(c: Case, pairs: seq<Pair>, runs: seq<Span>, r: Span, k: nat)
    requires RowsCount(c, pairs, runs) && RowsDiffer(pairs) && k < |pairs| && Wears(c, r, pairs[k])
    ensures var now := pairs[k := Costlier(pairs[k], r)]; RowsCount(c, now, runs + [r]) && RowsDiffer(now)
  {
    var now := pairs[k := Costlier(pairs[k], r)];
    forall j | 0 <= j < |now| ensures (now[j].bytes, now[j].times) == Worn(c, now[j].ours, now[j].theirs, runs + [r]) {
      WornAfter(c, now[j].ours, now[j].theirs, runs, r);
      assert j != k ==> (pairs[j].ours, pairs[j].theirs) != (pairs[k].ours, pairs[k].theirs);
    }
  }

  lemma {:induction false} PairGrows(c: Case, pairs: seq<Pair>, runs: seq<Span>, r: Span, k: nat)
    requires PairsOf(c, pairs, runs) && k < |pairs| && Wears(c, r, pairs[k])
    ensures PairsOf(c, pairs[k := Costlier(pairs[k], r)], runs + [r])
  {
    PairUpdate(pairs, k, Costlier(pairs[k], r));
    WidthsConcat(runs, [r]);
    RowGrows(c, pairs, runs, r, k);
    AllHavePairs(c, runs, r, pairs, pairs[k := Costlier(pairs[k], r)], k);
  }

  lemma {:induction false} RowOpens(c: Case, pairs: seq<Pair>, runs: seq<Span>, r: Span)
    requires RowsCount(c, pairs, runs) && RowsDiffer(pairs) && AllWorn(c, pairs, runs) && !HasPair(c, r, pairs)
    ensures RowsCount(c, pairs + [Opened(c, r)], runs + [r]) && RowsDiffer(pairs + [Opened(c, r)])
  {
    var now := pairs + [Opened(c, r)];
    Unworn(c, r, pairs, runs);
    forall j | 0 <= j < |now| ensures (now[j].bytes, now[j].times) == Worn(c, now[j].ours, now[j].theirs, runs + [r]) {
      WornAfter(c, now[j].ours, now[j].theirs, runs, r);
      assert j < |pairs| ==> !Wears(c, r, pairs[j]);
    }
    forall j | 0 <= j < |pairs| ensures (now[j].ours, now[j].theirs) != (now[|pairs|].ours, now[|pairs|].theirs) {
      assert !Wears(c, r, pairs[j]);
    }
  }

  lemma {:induction false} OpenedCounts(c: Case, pairs: seq<Pair>, r: Span)
    ensures PairBytes(pairs + [Opened(c, r)]) == PairBytes(pairs) + r.1 - r.0
    ensures PairTimes(pairs + [Opened(c, r)]) == PairTimes(pairs) + 1
  {
    assert (pairs + [Opened(c, r)])[..|pairs|] == pairs;
  }

  lemma {:induction false} PairOpens(c: Case, pairs: seq<Pair>, runs: seq<Span>, r: Span)
    requires PairsOf(c, pairs, runs) && !HasPair(c, r, pairs)
    ensures PairsOf(c, pairs + [Opened(c, r)], runs + [r])
  {
    WidthsConcat(runs, [r]);
    OpenedCounts(c, pairs, r);
    RowOpens(c, pairs, runs, r);
    AllHavePairs(c, runs, r, pairs, pairs + [Opened(c, r)], |pairs|);
  }

  /** Labels no pair has yet were worn by no run so far. */
  lemma {:induction false} Unworn(c: Case, r: Span, pairs: seq<Pair>, runs: seq<Span>)
    requires !HasPair(c, r, pairs)
    requires AllWorn(c, pairs, runs)
    ensures Worn(c, Spelled(c.us, r.0), Spelled(c.them, r.0), runs) == (0, 0)
    decreases |runs|
  {
    if runs != [] {
      var n := |runs| - 1;
      forall j | 0 <= j < n ensures HasPair(c, runs[..n][j], pairs) {
        assert runs[..n][j] == runs[j];
      }
      Unworn(c, r, pairs, runs[..n]);
      assert HasPair(c, runs[n], pairs);
      var k :| 0 <= k < |pairs| && Wears(c, runs[n], pairs[k]);
      assert !Wears(c, r, pairs[k]);
    }
  }

  /** Where the stands are apart, so are all the runs: none crosses from one to the next. */
  lemma {:induction false} AllRunsAreApart(c: Case, stands: seq<Span>)
    requires Canonical(stands)
    ensures Canonical(RunsOf(c, stands))
    ensures forall i :: 0 <= i < |RunsOf(c, stands)| ==>
              stands != [] && RunsOf(c, stands)[i].1 <= stands[|stands| - 1].1
    decreases |stands|
  {
    if stands != [] {
      var n := |stands| - 1;
      var (lo, hi) := stands[n];
      var before, runs := RunsOf(c, stands[..n]), RunsTo(c, lo, hi);
      AllRunsAreApart(c, stands[..n]);
      RunsAreCanonical(c, lo, hi);
      RunsStayInside(c, lo, hi);
      ApartConcat(if n > 0 then stands[n - 1].1 else lo - 1, lo, hi, before, runs);
    }
  }

  lemma {:induction false} RunsStayInside(c: Case, lo: int, hi: int)
    ensures forall k :: 0 <= k < |RunsTo(c, lo, hi)| ==> lo <= RunsTo(c, lo, hi)[k].0 && RunsTo(c, lo, hi)[k].1 <= hi
  {
    forall k | 0 <= k < |RunsTo(c, lo, hi)| ensures lo <= RunsTo(c, lo, hi)[k].0 && RunsTo(c, lo, hi)[k].1 <= hi {
      RunsEndAtUndisputed(c, lo, hi, k);
    }
  }

  lemma {:induction false} ApartConcat(cut: int, lo: int, hi: int, a: seq<Span>, b: seq<Span>)
    requires Canonical(a) && Canonical(b) && cut < lo <= hi
    requires forall i :: 0 <= i < |a| ==> a[i].1 <= cut
    requires forall i :: 0 <= i < |b| ==> lo <= b[i].0 && b[i].1 <= hi
    ensures Canonical(a + b) && forall i :: 0 <= i < |a + b| ==> (a + b)[i].1 <= hi
  {
    CanonicalConcat(cut, a, b);
  }

  // ---- the judgment

  /** One more byte, over a list whose last run may still be open. */
  lemma {:induction false} RunsGrow(c: Case, lo: int, i: int, shut: seq<Span>, run: Option<Span>)
    requires lo <= i && RunsTo(c, lo, i) == (if run.Some? then shut + [run.value] else shut)
    requires (shut != [] ==> shut[|shut| - 1].1 < i) && (run.Some? ==> run.value.1 == i)
    ensures RunsTo(c, lo, i + 1)
         == if !Disputed(c, i) then (if run.Some? then shut + [run.value] else shut)
            else if run.Some? then shut + [(run.value.0, i + 1)]
            else shut + [(i, i + 1)]
  {
    if run.Some? {
      assert (shut + [run.value])[..|shut|] == shut;
    }
  }

  /** A stand's runs so far: those that are shut, added to the earlier ones, and the open one. */
  predicate RunsSoFar(c: Case, before: seq<Span>, lo: int, i: int, runs: seq<Span>, shut: seq<Span>,
                      run: Option<Span>) {
    && lo <= i && runs == before + shut && (shut != [] ==> shut[|shut| - 1].1 < i)
    && RunsTo(c, lo, i) == (if run.Some? then shut + [run.value] else shut)
    && (run.Some? ==> run.value.1 == i)
  }

  lemma {:induction false} DisputedGrows(c: Case, before: seq<Span>, lo: int, i: int, runs: seq<Span>,
                                         shut: seq<Span>, run: Option<Span>)
    requires RunsSoFar(c, before, lo, i, runs, shut, run) && Disputed(c, i)
    ensures RunsSoFar(c, before, lo, i + 1, runs, shut, Some((if run.Some? then run.value.0 else i, i + 1)))
  {
    RunsGrow(c, lo, i, shut, run);
  }

  lemma {:induction false} RunShuts(c: Case, before: seq<Span>, lo: int, i: int, runs: seq<Span>, shut: seq<Span>,
                                    run: Span)
    requires RunsSoFar(c, before, lo, i, runs, shut, Some(run)) && !Disputed(c, i)
    ensures RunsSoFar(c, before, lo, i + 1, runs + [run], shut + [run], None)
  {
    RunsGrow(c, lo, i, shut, Some(run));
    assert runs + [run] == before + (shut + [run]);
  }

  lemma {:induction false} StaysShut(c: Case, before: seq<Span>, lo: int, i: int, runs: seq<Span>, shut: seq<Span>)
    requires RunsSoFar(c, before, lo, i, runs, shut, None) && !Disputed(c, i)
    ensures RunsSoFar(c, before, lo, i + 1, runs, shut, None)
  {
    RunsGrow(c, lo, i, shut, None);
  }

  lemma {:induction false} RunsEnd(c: Case, before: seq<Span>, lo: int, i: int, runs: seq<Span>, shut: seq<Span>,
                                   run: Option<Span>)
    requires RunsSoFar(c, before, lo, i, runs, shut, run)
    ensures (if run.Some? then runs + [run.value] else runs) == before + RunsTo(c, lo, i)
  {
  }

  lemma {:induction false} PaintIsOver(c: Case, o: int, t: int, x: int)
    requires o == LastOver(c.us, x) && t == LastOver(c.them, x)
    ensures At(c, x) == Judged(c, if o >= 0 then Some(c.us[o]) else None, if t >= 0 then Some(c.them[t]) else None)
  {
  }

  /** One stand, byte by byte, under the painted indices. */
  method DisputeStand(c: Case, o: array<int>, t: array<int>, lo: nat, hi: nat, ghost judged: seq<Span>, was: Tally,
                      before: seq<Span>)
    returns (tally: Tally, runs: seq<Span>)
    requires lo <= hi <= o.Length == t.Length
    requires forall x :: 0 <= x < o.Length ==> o[x] == LastOver(c.us, x) && t[x] == LastOver(c.them, x)
    requires was == Counted(c, judged, lo, lo)
    ensures tally == Counted(c, judged, lo, hi) && runs == before + RunsTo(c, lo, hi)
  {
    tally, runs := was, before;
    var run: Option<Span> := None;
    ghost var shut := [];
    var i := lo;
    while i < hi
      invariant lo <= i <= hi
      invariant tally == Counted(c, judged, lo, i)
      invariant RunsSoFar(c, before, lo, i, runs, shut, run)
    {
      var v := Judged(c, if o[i] >= 0 then Some(c.us[o[i]]) else None, if t[i] >= 0 then Some(c.them[t[i]]) else None);
      PaintIsOver(c, o[i], t[i], i);
      assert v == At(c, i);
      CountedGrows(c, judged, lo, i);
      tally := Tallied(tally, v);
      if v.Regrouped? || v.Relabelled? {
        DisputedGrows(c, before, lo, i, runs, shut, run);
        if run.Some? && run.value.1 == i {
          run := Some((run.value.0, i + 1));
        } else {
          run := Some((i, i + 1));
        }
      } else if run.Some? {
        RunShuts(c, before, lo, i, runs, shut, run.value);
        runs, shut := runs + [run.value], shut + [run.value];
        run := None;
      } else {
        StaysShut(c, before, lo, i, runs, shut);
      }
      i := i + 1;
    }
    RunsEnd(c, before, lo, hi, runs, shut, run);
    if run.Some? {
      runs := runs + [run.value];
    }
  }

  /** Every stand, byte by byte: the tally is the six counts, the runs are the maximal
      disputed runs of each stand in turn, and nothing is lost between the columns. */
  method Disputes(c: Case, size: nat, stands: seq<Span>) returns (tally: Tally, runs: seq<Span>, pairs: seq<Pair>)
    requires forall i :: 0 <= i < |stands| ==> 0 <= stands[i].0 <= stands[i].1 <= size
    ensures tally == Counted(c, stands, 0, 0)
    ensures runs == RunsOf(c, stands)
    ensures PairsOf(c, pairs, runs)
    ensures Total(tally) == Widths(stands)
    ensures Widths(runs) == tally.regrouped + tally.relabelled == PairBytes(pairs)
  {
    var o := Painted(c.us, size);
    var t := Painted(c.them, size);
    tally, runs := NONE, [];
    var s := 0;
    while s < |stands|
      invariant 0 <= s <= |stands|
      invariant tally == Counted(c, stands[..s], 0, 0) && runs == RunsOf(c, stands[..s])
      invariant forall x :: 0 <= x < size ==> o[x] == LastOver(c.us, x) && t[x] == LastOver(c.them, x)
    {
      tally, runs := DisputeStand(c, o, t, stands[s].0, stands[s].1, stands[..s], tally, runs);
      assert stands[..s + 1][..s] == stands[..s];
      s := s + 1;
    }
    assert stands[..|stands|] == stands;
    TallyConserves(c, stands);
    AllRunsCountDisputes(c, stands);
    pairs := Paired(c, runs);
  }
}
