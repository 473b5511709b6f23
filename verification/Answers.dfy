/** What a query's answer says, and that the graft records all of it and nothing else. */
module Answers {
  import opened Wrappers
  import opened Graft

  // ---- what the lines say

  /** Where a pattern line's parent and child are, the two captures after it, in either order. */
  function Positions(lines: seq<Line>, i: nat): Option<((int, int), (int, int))> {
    if i + 2 < |lines| && lines[i + 1].Capture? && lines[i + 2].Capture? then
      var (a, b) := (lines[i + 1], lines[i + 2]);
      if a.name == "parent" && b.name == "child" then Some(((a.start, a.end), (b.start, b.end)))
      else if a.name == "child" && b.name == "parent" then Some(((b.start, b.end), (a.start, a.end)))
      else None
    else None
  }

  /** A pattern line with its two captures and no more. */
  predicate Complete(lines: seq<Line>, i: nat) {
    && i < |lines| && lines[i].Pattern? && Positions(lines, i).Some?
    && (i + 3 < |lines| ==> lines[i + 3].Pattern?)
  }

  /** A known pattern, with its two captures. */
  predicate Asks(selected: seq<Spec>, lines: seq<Line>, i: nat) {
    i < |lines| && lines[i].Pattern? && lines[i].index < |selected| && Positions(lines, i).Some?
  }

  /** The children of the edges a pattern line names. */
  function Named(edges: seq<(Edge, Cell)>, selected: seq<Spec>, lines: seq<Line>, i: nat): seq<Cell>
    requires Asks(selected, lines, i)
  {
    var spec := selected[lines[i].index];
    var (p, c) := Positions(lines, i).value;
    Matching(edges, Edge(p.0, p.1, spec.child, spec.named, c.0, c.1))
  }

  /** A pattern line gives a field to the one child its edge leads to. */
  predicate Gives(edges: seq<(Edge, Cell)>, selected: seq<Spec>, lines: seq<Line>, i: nat, c: Cell, field: string) {
    && Asks(selected, lines, i) && Named(edges, selected, lines, i) == [c]
    && field == selected[lines[i].index].field
  }

  /** A pattern line that can be taken: complete, known, and leading to one child, or to several
      named ones. */
  predicate Fit(edges: seq<(Edge, Cell)>, selected: seq<Spec>, lines: seq<Line>, i: nat) {
    && Complete(lines, i) && Asks(selected, lines, i)
    && var found := Named(edges, selected, lines, i);
       |found| == 1 || (|found| > 1 && selected[lines[i].index].named)
  }

  predicate AllFit(edges: seq<(Edge, Cell)>, selected: seq<Spec>, lines: seq<Line>, from: nat) {
    forall i :: from <= i < |lines| && lines[i].Pattern? ==> Fit(edges, selected, lines, i)
  }

  /** Some line from `from` on gives this child this field. */
  predicate Given(edges: seq<(Edge, Cell)>, selected: seq<Spec>, lines: seq<Line>, from: nat, c: Cell, field: string) {
    exists i :: from <= i < |lines| && Gives(edges, selected, lines, i, c, field)
  }

  predicate Told(table: Table, c: Cell, field: string) {
    c in table && table[c] == field
  }

  /** This child is not given two fields, by the table or the lines. */
  ghost predicate Agrees(edges: seq<(Edge, Cell)>, selected: seq<Spec>, lines: seq<Line>, from: nat, table: Table,
                         c: Cell) {
    forall f, g :: Has(edges, selected, lines, from, table, c, f) && Has(edges, selected, lines, from, table, c, g) ==>
      f == g
  }

  predicate Has(edges: seq<(Edge, Cell)>, selected: seq<Spec>, lines: seq<Line>, from: nat, table: Table, c: Cell,
                field: string) {
    Told(table, c, field) || Given(edges, selected, lines, from, c, field)
  }

  // ---- one pattern at a time

  /** The answer scanned to its end, and the last pattern finished. */
  function Closed(edges: seq<(Edge, Cell)>, selected: seq<Spec>, s: Scan, lines: seq<Line>): Result<Table> {
    var t :- ScannedFrom(edges, selected, s, lines);
    Finished(edges, t)
  }

  /** From a pattern line on, with what was recorded before it. */
  function FromPattern(edges: seq<(Edge, Cell)>, selected: seq<Spec>, lines: seq<Line>, i: nat, table: Table)
    : Result<Table>
    requires i < |lines| && lines[i].Pattern?
  {
    if lines[i].index >= |selected| then Fault
    else Closed(edges, selected, Scan(Some(selected[lines[i].index]), map[], table), lines[i + 1..])
  }

  lemma {:induction false} ClosedSteps(edges: seq<(Edge, Cell)>, selected: seq<Spec>, s: Scan, lines: seq<Line>, i: nat)
    requires i <= |lines|
    ensures Closed(edges, selected, s, lines[i..])
         == if i == |lines| then Finished(edges, s)
            else if Scanned(edges, selected, s, lines[i]).Fault? then Fault
            else Closed(edges, selected, Scanned(edges, selected, s, lines[i]).value, lines[i + 1..])
  {
    if i < |lines| {
      assert lines[i..][1..] == lines[i + 1..] && lines[i..][0] == lines[i];
    }
  }

  /** Once two captures are in, a third is a fault, and anything else finishes the pattern. */
  lemma {:induction false} SecondCaptureIn(edges: seq<(Edge, Cell)>, selected: seq<Spec>, s: Scan, lines: seq<Line>,
                                           i: nat)
    requires i <= |lines| && s.spec.Some? && s.hit.Keys == {"parent", "child"}
    ensures Closed(edges, selected, s, lines[i..])
         == if i == |lines| then Finished(edges, s)
            else if lines[i].Capture? || Finished(edges, s).Fault? then Fault
            else FromPattern(edges, selected, lines, i, Finished(edges, s).value)
  {
    ClosedSteps(edges, selected, s, lines, i);
  }

  /** With one capture in, only the other one may follow. */
  lemma {:induction false} FirstCaptureIn(edges: seq<(Edge, Cell)>, selected: seq<Spec>, s: Scan, lines: seq<Line>,
                                          i: nat, name: string, other: string)
    requires i <= |lines| && s.spec.Some? && s.hit.Keys == {name}
    requires name != other && {name, other} == {"parent", "child"}
    ensures Closed(edges, selected, s, lines[i..])
         == if i < |lines| && lines[i].Capture? && lines[i].name == other then
              Closed(edges, selected, s.(hit := s.hit[other := (lines[i].start, lines[i].end)]), lines[i + 1..])
            else Fault
  {
    ClosedSteps(edges, selected, s, lines, i);
    assert other in {"parent", "child"} && other !in s.hit.Keys;
    if i < |lines| && lines[i].Capture? && lines[i].name !in s.hit && lines[i].name in {"parent", "child"} {
      assert lines[i].name in {name, other};
    }
  }

  lemma {:induction false} NoCaptureIn(edges: seq<(Edge, Cell)>, selected: seq<Spec>, s: Scan, lines: seq<Line>, i: nat)
    requires i <= |lines| && s.spec.Some? && s.hit == map[]
    ensures Closed(edges, selected, s, lines[i..])
         == if i < |lines| && lines[i].Capture? && lines[i].name in {"parent", "child"} then
              Closed(edges, selected, s.(hit := map[lines[i].name := (lines[i].start, lines[i].end)]), lines[i + 1..])
            else Fault
  {
    ClosedSteps(edges, selected, s, lines, i);
    assert "parent" in {"parent", "child"} && "parent" !in s.hit.Keys;
  }

  /** Both captures of a complete pattern line, as they are scanned. */
  function Hits(lines: seq<Line>, i: nat): Hit
    requires Positions(lines, i).Some?
  {
    map["parent" := Positions(lines, i).value.0, "child" := Positions(lines, i).value.1]
  }

  lemma {:induction false} TwoCaptures(edges: seq<(Edge, Cell)>, selected: seq<Spec>, s: Scan, lines: seq<Line>, i: nat)
    requires i < |lines| && s.spec.Some? && s.hit == map[]
    ensures Closed(edges, selected, s, lines[i + 1..])
         == if Positions(lines, i).Some? then Closed(edges, selected, s.(hit := Hits(lines, i)), lines[i + 3..])
            else Fault
  {
    NoCaptureIn(edges, selected, s, lines, i + 1);
    if i + 1 < |lines| && lines[i + 1].Capture? && lines[i + 1].name in {"parent", "child"} {
      var name := lines[i + 1].name;
      var other := if name == "parent" then "child" else "parent";
      var t := s.(hit := map[name := (lines[i + 1].start, lines[i + 1].end)]);
      assert name == "parent" || name == "child";
      FirstCaptureIn(edges, selected, t, lines, i + 2, name, other);
      if i + 2 < |lines| && lines[i + 2].Capture? && lines[i + 2].name == other {
        assert t.hit[other := (lines[i + 2].start, lines[i + 2].end)] == Hits(lines, i);
      }
    }
  }

  /** A pattern line, and then the next one, or the end. */
  lemma {:induction false} PatternSteps(edges: seq<(Edge, Cell)>, selected: seq<Spec>, lines: seq<Line>, i: nat,
                                        table: Table)
    requires i < |lines| && lines[i].Pattern?
    ensures FromPattern(edges, selected, lines, i, table)
         == if !Complete(lines, i) || !Asks(selected, lines, i) then Fault else
            var t := Finished(edges, Scan(Some(selected[lines[i].index]), Hits(lines, i), table));
            if t.Fault? || i + 3 == |lines| then t else FromPattern(edges, selected, lines, i + 3, t.value)
  {
    if lines[i].index < |selected| {
      var s := Scan(Some(selected[lines[i].index]), map[], table);
      TwoCaptures(edges, selected, s, lines, i);
      if Positions(lines, i).Some? {
        SecondCaptureIn(edges, selected, s.(hit := Hits(lines, i)), lines, i + 3);
      }
    }
  }

  /** What finishing a pattern line makes of the table. */
  lemma {:induction false} FinishesOne(edges: seq<(Edge, Cell)>, selected: seq<Spec>, lines: seq<Line>, i: nat,
                                       table: Table)
    requires Complete(lines, i) && Asks(selected, lines, i)
    ensures var t := Finished(edges, Scan(Some(selected[lines[i].index]), Hits(lines, i), table));
            && (t.Success? <==>
                  && Fit(edges, selected, lines, i)
                  && forall c, f, g :: Gives(edges, selected, lines, i, c, f) && Told(table, c, g) ==> f == g)
            && (t.Success? ==> forall c, f ::
                  Told(t.value, c, f) <==> Told(table, c, f) || Gives(edges, selected, lines, i, c, f))
  {
    var spec := selected[lines[i].index];
    var s := Scan(Some(spec), Hits(lines, i), table);
    var found := Named(edges, selected, lines, i);
    var t := Finished(edges, s);
    if |found| == 1 {
      var c := found[0];
      assert found == [c];
      assert Gives(edges, selected, lines, i, c, spec.field);
      if c in table {
        assert Told(table, c, table[c]);
      }
      forall d, f | Gives(edges, selected, lines, i, d, f) ensures d == c && f == spec.field {
      }
    }
  }

  lemma {:induction false} GivenFirst(edges: seq<(Edge, Cell)>, selected: seq<Spec>, lines: seq<Line>, i: nat, c: Cell,
                                      f: string)
    requires Complete(lines, i)
    ensures Given(edges, selected, lines, i, c, f)
       <==> Gives(edges, selected, lines, i, c, f) || Given(edges, selected, lines, i + 3, c, f)
  {
    if Given(edges, selected, lines, i, c, f) {
      var k :| i <= k < |lines| && Gives(edges, selected, lines, k, c, f);
      assert k != i + 1 && k != i + 2;
    }
  }

  lemma {:induction false} FitFirst(edges: seq<(Edge, Cell)>, selected: seq<Spec>, lines: seq<Line>, i: nat)
    requires Complete(lines, i)
    ensures AllFit(edges, selected, lines, i)
       <==> Fit(edges, selected, lines, i) && AllFit(edges, selected, lines, i + 3)
  {
    if Fit(edges, selected, lines, i) && AllFit(edges, selected, lines, i + 3) {
      forall k | i <= k < |lines| && lines[k].Pattern? ensures Fit(edges, selected, lines, k) {
        assert k != i + 1 && k != i + 2;
      }
    }
  }

  /** One line's gift recorded in the table, what is had is the same. */
  lemma {:induction false} RecordedIsHad(edges: seq<(Edge, Cell)>, selected: seq<Spec>, lines: seq<Line>, i: nat,
                                         table: Table, next: Table)
    requires Complete(lines, i)
    requires forall c, f :: Told(next, c, f) <==> Told(table, c, f) || Gives(edges, selected, lines, i, c, f)
    ensures forall c, f :: Has(edges, selected, lines, i, table, c, f)
                      <==> Has(edges, selected, lines, i + 3, next, c, f)
    ensures forall c :: Agrees(edges, selected, lines, i, table, c)
                   <==> Agrees(edges, selected, lines, i + 3, next, c)
  {
    forall c, f ensures Has(edges, selected, lines, i, table, c, f)
                   <==> Has(edges, selected, lines, i + 3, next, c, f)
    {
      GivenFirst(edges, selected, lines, i, c, f);
      assert Told(next, c, f) <==> Told(table, c, f) || Gives(edges, selected, lines, i, c, f);
    }
    forall c ensures Agrees(edges, selected, lines, i, table, c) <==> Agrees(edges, selected, lines, i + 3, next, c) {
      SameHad(edges, selected, lines, i, table, i + 3, next, c);
    }
  }

  lemma {:induction false} SameHad(edges: seq<(Edge, Cell)>, selected: seq<Spec>, lines: seq<Line>, i: nat,
                                   table: Table, j: nat, next: Table, c: Cell)
    requires forall f :: Has(edges, selected, lines, i, table, c, f) <==> Has(edges, selected, lines, j, next, c, f)
    ensures Agrees(edges, selected, lines, i, table, c) <==> Agrees(edges, selected, lines, j, next, c)
  {
    if Agrees(edges, selected, lines, i, table, c) {
      forall f, g |
        Has(edges, selected, lines, j, next, c, f) && Has(edges, selected, lines, j, next, c, g)
        ensures f == g
      {
        assert Has(edges, selected, lines, i, table, c, f) && Has(edges, selected, lines, i, table, c, g);
      }
    }
    if Agrees(edges, selected, lines, j, next, c) {
      forall f, g |
        Has(edges, selected, lines, i, table, c, f) && Has(edges, selected, lines, i, table, c, g)
        ensures f == g
      {
        assert Has(edges, selected, lines, j, next, c, f) && Has(edges, selected, lines, j, next, c, g);
      }
    }
  }

  /** What stands in the way of one line stands in the way of them all. */
  lemma {:induction false} UnfitStops(edges: seq<(Edge, Cell)>, selected: seq<Spec>, lines: seq<Line>, i: nat,
                                      table: Table)
    requires i < |lines| && lines[i].Pattern? && AllFit(edges, selected, lines, i)
    requires forall c :: Agrees(edges, selected, lines, i, table, c)
    ensures Complete(lines, i) && Asks(selected, lines, i)
    ensures Finished(edges, Scan(Some(selected[lines[i].index]), Hits(lines, i), table)).Success?
  {
    assert Fit(edges, selected, lines, i);
    FinishesOne(edges, selected, lines, i, table);
    forall c, f, g | Gives(edges, selected, lines, i, c, f) && Told(table, c, g) ensures f == g {
      assert Agrees(edges, selected, lines, i, table, c);
      assert Given(edges, selected, lines, i, c, f);
      assert Has(edges, selected, lines, i, table, c, f) && Has(edges, selected, lines, i, table, c, g);
    }
  }

  /** Past the last line, what is had is what the table holds. */
  lemma {:induction false} NothingFollows(edges: seq<(Edge, Cell)>, selected: seq<Spec>, lines: seq<Line>, i: nat,
                                          table: Table)
    requires i >= |lines|
    ensures AllFit(edges, selected, lines, i)
    ensures forall c, f :: Has(edges, selected, lines, i, table, c, f) <==> Told(table, c, f)
    ensures forall c :: Agrees(edges, selected, lines, i, table, c)
  {
    forall c, f ensures Has(edges, selected, lines, i, table, c, f) <==> Told(table, c, f) {
    }
    forall c ensures Agrees(edges, selected, lines, i, table, c) {
    }
  }

  /** From a pattern line on: all is recorded exactly when every line fits and no child is given
      two fields. */
  lemma {:induction false} PatternsSucceed(edges: seq<(Edge, Cell)>, selected: seq<Spec>, lines: seq<Line>, i: nat,
                                           table: Table)
    requires i < |lines| && lines[i].Pattern?
    requires AllFit(edges, selected, lines, i) && forall c :: Agrees(edges, selected, lines, i, table, c)
    ensures FromPattern(edges, selected, lines, i, table).Success?
    decreases |lines| - i
  {
    PatternSteps(edges, selected, lines, i, table);
    UnfitStops(edges, selected, lines, i, table);
    var t := Finished(edges, Scan(Some(selected[lines[i].index]), Hits(lines, i), table)).value;
    if i + 3 < |lines| {
      FinishesOne(edges, selected, lines, i, table);
      RecordedIsHad(edges, selected, lines, i, table, t);
      FitFirst(edges, selected, lines, i);
      var next := i + 3;
      forall c ensures Agrees(edges, selected, lines, next, t, c) {
        assert Agrees(edges, selected, lines, i, table, c);
      }
      PatternsSucceed(edges, selected, lines, next, t);
    }
  }

  /** And then the table holds what it held and what the lines give, and nothing else. */
  lemma {:induction false} PatternsAreRecorded(edges: seq<(Edge, Cell)>, selected: seq<Spec>, lines: seq<Line>, i: nat,
                                               table: Table)
    requires i < |lines| && lines[i].Pattern? && FromPattern(edges, selected, lines, i, table).Success?
    ensures AllFit(edges, selected, lines, i) && forall c :: Agrees(edges, selected, lines, i, table, c)
    ensures var t := FromPattern(edges, selected, lines, i, table).value;
            forall c, f :: Told(t, c, f) <==> Has(edges, selected, lines, i, table, c, f)
    decreases |lines| - i
  {
    PatternSteps(edges, selected, lines, i, table);
    var t := Finished(edges, Scan(Some(selected[lines[i].index]), Hits(lines, i), table)).value;
    FinishesOne(edges, selected, lines, i, table);
    RecordedIsHad(edges, selected, lines, i, table, t);
    FitFirst(edges, selected, lines, i);
    if i + 3 < |lines| {
      PatternsAreRecorded(edges, selected, lines, i + 3, t);
    } else {
      NothingFollows(edges, selected, lines, i + 3, t);
    }
  }

  /** Lines before the first pattern say nothing. */
  lemma {:induction false} LeadingCaptures(edges: seq<(Edge, Cell)>, selected: seq<Spec>, lines: seq<Line>, i: nat,
                                           s: Scan)
    requires i <= |lines| && s == Scan(None, map[], map[])
    requires forall k :: 0 <= k < i ==> !lines[k].Pattern?
    ensures Tabled(edges, selected, lines) == Closed(edges, selected, s, lines[i..])
    decreases i
  {
    if i == 0 {
      assert lines[0..] == lines;
    } else {
      LeadingCaptures(edges, selected, lines, i - 1, s);
      ClosedSteps(edges, selected, s, lines, i - 1);
    }
  }

  /** The whole answer is its patterns from the first on. */
  lemma {:induction false} TabledFromFirst(edges: seq<(Edge, Cell)>, selected: seq<Spec>, lines: seq<Line>, i: nat,
                                           s: Scan)
    requires i <= |lines| && (i < |lines| ==> lines[i].Pattern?) && s == Scan(None, map[], map[])
    requires forall k :: 0 <= k < i ==> !lines[k].Pattern?
    ensures Tabled(edges, selected, lines)
         == if i < |lines| then FromPattern(edges, selected, lines, i, s.table) else Success(s.table)
    ensures AllFit(edges, selected, lines, 0) <==> AllFit(edges, selected, lines, i)
    ensures forall c, f :: Given(edges, selected, lines, 0, c, f) <==> Has(edges, selected, lines, i, s.table, c, f)
  {
    LeadingCaptures(edges, selected, lines, i, s);
    ClosedSteps(edges, selected, s, lines, i);
    forall c, f | Given(edges, selected, lines, 0, c, f) ensures Given(edges, selected, lines, i, c, f) {
      var k :| 0 <= k < |lines| && Gives(edges, selected, lines, k, c, f);
      assert k >= i;
    }
  }

  function FirstPattern(lines: seq<Line>, from: nat): (r: nat)
    requires from <= |lines|
    ensures from <= r <= |lines| && (r < |lines| ==> lines[r].Pattern?)
    ensures forall k :: from <= k < r ==> !lines[k].Pattern?
    decreases |lines| - from
  {
    if from == |lines| || lines[from].Pattern? then from else FirstPattern(lines, from + 1)
  }

  /** An answer can be taken exactly when every pattern line is known and complete and leads to
      one child, or to several named ones, and no child is given two fields; and then the table
      holds exactly what the lines give: every field given, and no field that is not. */
  lemma {:induction false} TableIsExact(edges: seq<(Edge, Cell)>, selected: seq<Spec>, lines: seq<Line>)
    ensures Tabled(edges, selected, lines).Success?
       <==> AllFit(edges, selected, lines, 0)
            && forall c, f, g ::
                 Given(edges, selected, lines, 0, c, f) && Given(edges, selected, lines, 0, c, g) ==> f == g
    ensures Tabled(edges, selected, lines).Success? ==>
              forall c, f :: Told(Tabled(edges, selected, lines).value, c, f)
                        <==> Given(edges, selected, lines, 0, c, f)
  {
    var i, none: Table := FirstPattern(lines, 0), map[];
    TabledFromFirst(edges, selected, lines, i, Scan(None, map[], none));
    if i < |lines| {
      if Tabled(edges, selected, lines).Success? {
        PatternsAreRecorded(edges, selected, lines, i, none);
      }
      if AllFit(edges, selected, lines, i) && forall c :: Agrees(edges, selected, lines, i, none, c) {
        PatternsSucceed(edges, selected, lines, i, none);
      }
    } else {
      NothingFollows(edges, selected, lines, i, none);
    }
  }

  /** So an accepted graft gives every anonymous child its answered field, and leaves every other
      node's as it was. */
  lemma {:induction false} GraftIsExact(edges: seq<(Edge, Cell)>, selected: seq<Spec>, lines: seq<Line>,
                                        fields: Fields)
    requires Tabled(edges, selected, lines).Success?
    ensures var now := Grafted(Tabled(edges, selected, lines).value, fields);
            && now.Keys == fields.Keys
            && (forall c, f :: c in fields && !c.named && Given(edges, selected, lines, 0, c, f) ==> now[c] == Some(f))
            && (forall c :: c in fields && now[c] != fields[c] ==>
                  !c.named && now[c].Some? && Given(edges, selected, lines, 0, c, now[c].value))
  {
    TableIsExact(edges, selected, lines);
    var table := Tabled(edges, selected, lines).value;
    var now := Grafted(table, fields);
    forall c, f | c in fields && !c.named && Given(edges, selected, lines, 0, c, f) ensures now[c] == Some(f) {
      assert Told(table, c, f);
    }
    forall c | c in fields && now[c] != fields[c]
      ensures !c.named && now[c].Some? && Given(edges, selected, lines, 0, c, now[c].value)
    {
      assert Told(table, c, table[c]);
    }
  }

  /** An edge leads to one child alone exactly when it is listed once, for that child. */
  lemma {:induction false} LeadsToOne(edges: seq<(Edge, Cell)>, e: Edge, c: Cell)
    ensures Matching(edges, e) == [c]
       <==> exists i :: 0 <= i < |edges| && OnlyAt(edges, e, i) && edges[i].1 == c
    decreases |edges|
  {
    if edges != [] {
      var n := |edges| - 1;
      var rest := edges[..n];
      LeadsToOne(rest, e, c);
      LeadsNowhere(rest, e);
      if edges[n].0 == e {
        if Matching(edges, e) == [c] {
          assert Matching(edges, e)[|Matching(rest, e)|] == edges[n].1;
          assert OnlyAt(edges, e, n) && edges[n].1 == c;
        }
        if i :| 0 <= i < |edges| && OnlyAt(edges, e, i) && edges[i].1 == c {
          assert i == n;
        }
      } else {
        assert Matching(rest, e) + [] == Matching(rest, e);
        if i :| 0 <= i < n && OnlyAt(rest, e, i) && rest[i].1 == c {
          assert OnlyAt(edges, e, i);
        }
        if i :| 0 <= i < |edges| && OnlyAt(edges, e, i) && edges[i].1 == c {
          assert i < n && OnlyAt(rest, e, i) && rest[i].1 == c;
        }
      }
    }
  }

  /** An edge stands at one place of a list and at no other. */
  predicate OnlyAt(edges: seq<(Edge, Cell)>, e: Edge, i: nat)
    requires i < |edges|
  {
    edges[i].0 == e && forall j :: 0 <= j < |edges| && edges[j].0 == e ==> j == i
  }

  lemma {:induction false} LeadsNowhere(edges: seq<(Edge, Cell)>, e: Edge)
    ensures Matching(edges, e) == [] <==> forall i :: 0 <= i < |edges| ==> edges[i].0 != e
    decreases |edges|
  {
    if edges != [] {
      var n := |edges| - 1;
      LeadsNowhere(edges[..n], e);
    }
  }

  /** An answer is accepted exactly when every named child, and every child with a field printed, has
      the very field it is given. */
  lemma {:induction false} AcceptedExactly(edges: seq<(Edge, Cell)>, selected: seq<Spec>, lines: seq<Line>,
                                           fields: Fields)
    requires Tabled(edges, selected, lines).Success? && Tabled(edges, selected, lines).value.Keys <= fields.Keys
    ensures Accepted(Tabled(edges, selected, lines).value, fields)
       <==> forall c, f :: Given(edges, selected, lines, 0, c, f) ==>
              c in fields && (c.named || fields[c].Some? ==> fields[c] == Some(f))
  {
    TableIsExact(edges, selected, lines);
    var table := Tabled(edges, selected, lines).value;
    forall c, f | Given(edges, selected, lines, 0, c, f) ensures c in fields && Told(table, c, f) {
    }
    forall c | c in table ensures Given(edges, selected, lines, 0, c, table[c]) {
      assert Told(table, c, table[c]);
    }
  }

  // ---- every edge of a tree

  /** From a child on, an edge is listed exactly when it is to one of them, or under one. */
  lemma {:induction false} EdgesFromAreAll(node: Cell, i: nat, e: Edge, c: Cell)
    requires node.Tree() && i <= |node.kids|
    ensures (e, c) in EdgesFrom(node, i) <==> EdgeFrom(node, i, e, c)
    decreases node.height, |node.kids| - i
  {
    if i < |node.kids| {
      var kid := node.kids[i];
      EdgesFromAreAll(kid, 0, e, c);
      EdgesFromAreAll(node, i + 1, e, c);
      var one, under, rest := [(EdgeTo(node, kid), kid)], Edges(kid), EdgesFrom(node, i + 1);
      assert (e, c) in one + under + rest <==> (e, c) in one || (e, c) in under || (e, c) in rest;
      assert under == EdgesFrom(kid, 0);
    }
  }

  ghost predicate EdgeFrom(node: Cell, i: nat, e: Edge, c: Cell)
    requires node.Tree() && i <= |node.kids|
    decreases node.height, |node.kids| - i
  {
    i < |node.kids| && (
      var kid := node.kids[i];
      (e, c) == (EdgeTo(node, kid), kid) || EdgeFrom(kid, 0, e, c) || EdgeFrom(node, i + 1, e, c))
  }

  /** A node of a tree, the root itself or one below it. */
  ghost predicate Within(root: Cell, n: Cell)
    requires root.Tree()
    decreases root.height
  {
    n == root || exists k :: k in root.kids && Within(k, n)
  }

  /** An edge is among a tree's exactly when some node of the tree has the child it leads to. */
  lemma {:induction false} EdgesAreAll(root: Cell, e: Edge, c: Cell)
    requires root.Tree()
    ensures (e, c) in Edges(root)
       <==> exists p :: Within(root, p) && c in p.kids
                        && e == Edge(p.start, p.end, c.name, c.named, c.start, c.end)
  {
    EdgesFromAreAll(root, 0, e, c);
    if EdgeFrom(root, 0, e, c) {
      EdgeHasParent(root, 0, e, c);
    }
    if p :| Within(root, p) && c in p.kids && e == Edge(p.start, p.end, c.name, c.named, c.start, c.end) {
      ParentHasEdge(root, p, c);
    }
  }

  lemma {:induction false} EdgeHasParent(node: Cell, i: nat, e: Edge, c: Cell)
    requires node.Tree() && i <= |node.kids| && EdgeFrom(node, i, e, c)
    ensures exists p :: Within(node, p) && c in p.kids && e == EdgeTo(p, c)
    decreases node.height, |node.kids| - i
  {
    var kid := node.kids[i];
    if (e, c) == (EdgeTo(node, kid), kid) {
      assert Within(node, node) && c in node.kids;
    } else if EdgeFrom(kid, 0, e, c) {
      EdgeHasParent(kid, 0, e, c);
      var p :| Within(kid, p) && c in p.kids && e == EdgeTo(p, c);
      assert kid in node.kids && Within(node, p);
    } else {
      EdgeHasParent(node, i + 1, e, c);
    }
  }

  lemma {:induction false} EdgeReaches(node: Cell, i: nat, k: nat, e: Edge, c: Cell)
    requires node.Tree() && i <= k < |node.kids|
    requires (e, c) == (EdgeTo(node, node.kids[k]), node.kids[k]) || EdgeFrom(node.kids[k], 0, e, c)
    ensures EdgeFrom(node, i, e, c)
    decreases k - i
  {
    if i < k {
      EdgeReaches(node, i + 1, k, e, c);
    }
  }

  lemma {:induction false} ParentHasEdge(root: Cell, p: Cell, c: Cell)
    requires root.Tree() && Within(root, p) && c in p.kids
    ensures EdgeFrom(root, 0, EdgeTo(p, c), c)
    decreases root.height
  {
    if p == root {
      var k :| 0 <= k < |root.kids| && root.kids[k] == c;
      EdgeReaches(root, 0, k, EdgeTo(p, c), c);
    } else {
      var kid :| kid in root.kids && Within(kid, p);
      ParentHasEdge(kid, p, c);
      var k :| 0 <= k < |root.kids| && root.kids[k] == kid;
      EdgeReaches(root, 0, k, EdgeTo(p, c), c);
    }
  }

  /** How many nodes there are below one. */
  ghost function Below(node: Cell, i: nat): nat
    requires node.Tree() && i <= |node.kids|
    decreases node.height, |node.kids| - i
  {
    if i == |node.kids| then 0 else 1 + Below(node.kids[i], 0) + Below(node, i + 1)
  }

  /** And there is one edge to each node but the root. */
  lemma {:induction false} EdgesAreCounted(node: Cell, i: nat)
    requires node.Tree() && i <= |node.kids|
    ensures |EdgesFrom(node, i)| == Below(node, i)
    decreases node.height, |node.kids| - i
  {
    if i < |node.kids| {
      EdgesAreCounted(node.kids[i], 0);
      EdgesAreCounted(node, i + 1);
    }
  }
}
