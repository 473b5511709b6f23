/** What one bounded pass of the open-frame matchers runs, and what it reports. */
module Passing {
  import opened Wrappers
  import opened Books
  import opened Guards
  import opened Steps
  import opened Scanning
  import opened Reading

  /** A rule is a matcher of this kind, and its guard holds with this cursor, ending so bound. */
  predicate Takes(e: Scene, rule: Rule, kind: int, cursor: int, off: int, o: State, f: Facts, b: Bound) {
    && rule.phase == Matched && rule.kind == Some(kind)
    && PlainFrom(e, rule.when, 0, off, o, f, true, Bound(0, None, None, cursor, None)) == Success(Some(b))
  }

  /** A rule is no matcher of this kind, or its guard does not hold. */
  predicate Leaves(e: Scene, rule: Rule, kind: int, cursor: int, off: int, o: State, f: Facts) {
    || rule.phase != Matched || rule.kind != Some(kind)
    || PlainFrom(e, rule.when, 0, off, o, f, true, Bound(0, None, None, cursor, None)) == Success(None)
  }

  predicate LeavesAll(e: Scene, from: nat, n: nat, kind: int, cursor: int, off: int, o: State, f: Facts)
    requires n <= |e.book.rules|
  {
    forall r :: from <= r < n ==> Leaves(e, e.book.rules[r], kind, cursor, off, o, f)
  }

  /** The first matcher of the kind whose guard holds is taken, and none exactly when there is none. */
  lemma {:induction false} FirstMatcherIsTaken(e: Scene, r: nat, kind: int, cursor: int, off: int, o: State, f: Facts)
    requires r <= |e.book.rules| && TakenFrom(e, r, kind, cursor, off, o, f).Success?
    ensures match TakenFrom(e, r, kind, cursor, off, o, f).value
            case None => LeavesAll(e, r, |e.book.rules|, kind, cursor, off, o, f)
            case Some((rule, b)) =>
              exists n: nat :: r <= n < |e.book.rules| && LeavesAll(e, r, n, kind, cursor, off, o, f)
                               && rule == e.book.rules[n] && Takes(e, rule, kind, cursor, off, o, f, b)
    decreases |e.book.rules| - r
  {
    if r < |e.book.rules| {
      if Leaves(e, e.book.rules[r], kind, cursor, off, o, f) {
        FirstMatcherIsTaken(e, r + 1, kind, cursor, off, o, f);
        var t := TakenFrom(e, r, kind, cursor, off, o, f).value;
        if t.Some? {
          var n: nat :| r < n < |e.book.rules| && LeavesAll(e, r + 1, n, kind, cursor, off, o, f)
                        && t.value.0 == e.book.rules[n] && Takes(e, t.value.0, kind, cursor, off, o, f, t.value.1);
          assert LeavesAll(e, r, n, kind, cursor, off, o, f);
        }
      } else {
        assert LeavesAll(e, r, r, kind, cursor, off, o, f);
      }
    }
  }

  // ---- the frames a pass runs through

  /** What a matcher is told of an offset: its indentation is what is carried. */
  predicate ToldAt(e: Scene, off: int, o: State, f: Facts) {
    && FactsAt(e.text, off, e.book.tab).Success? && Carried(e.book, o).Success?
    && f == FactsAt(e.text, off, e.book.tab).value.(lead := Carried(e.book, o).value.GetOr(0))
  }

  /** The matcher a frame's kind takes at an offset, and what it bound, or none. */
  ghost predicate FrameTakes(e: Scene, cursor: int, off: int, o: State, took: Option<(Rule, Bound)>) {
    && At(o.frames, cursor).Success?
    && exists f :: ToldAt(e, off, o, f)
                   && TakenFrom(e, 0, At(o.frames, cursor).value.kind, cursor, off, o, f) == Success(took)
  }

  /** One frame: its matcher is applied to the organs, and the offset moves past what it ate. */
  ghost predicate OneFrame(e: Scene, cursor: int, off: int, o: State, next: int, after: State) {
    exists rule, b ::
      && FrameTakes(e, cursor, off, o, Some((rule, b)))
      && Applied(e, rule, off, o, b).Success? && Applied(e, rule, off, o, b).value.organs == after
      && next == off + b.eaten
  }

  /** A pass, frame by frame: the offsets and the organs before each and after the last. */
  datatype Trip = Trip(offs: seq<int>, organs: seq<State>)

  ghost predicate Travels(e: Scene, start: int, ceiling: int, n: nat, t: Trip) {
    && |t.offs| == |t.organs| == n + 1 && (n > 0 ==> start + n <= ceiling)
    && forall k :: 0 <= k < n ==> OneFrame(e, start + k, t.offs[k], t.organs[k], t.offs[k + 1], t.organs[k + 1])
  }

  /** What a pass that ran `n` frames and stopped reports. */
  ghost predicate Reports(e: Scene, at: int, start: int, ceiling: int, n: nat, t: Trip, p: PassResult)
    requires |t.offs| == |t.organs| == n + 1
  {
    var off, o := t.offs[n], t.organs[n];
    && (start + n >= ceiling || FrameTakes(e, start + n, off, o, None))
    && p.ran == n && p.cursor == start + n && p.at == off && p.eaten == off - at
    && Carried(e.book, o).Success? && p.budget == Carried(e.book, o).value.GetOr(0)
    && p.more == if start + n < |o.frames| then 1 else 0
  }

  lemma {:induction false} SweepTravels(e: Scene, at: int, off: int, ran: nat, cursor: int, ceiling: int, o: State)
    returns (n: nat, t: Trip)
    requires SweptFrom(e, at, off, ran, cursor, ceiling, o).Success?
    ensures var p := SweptFrom(e, at, off, ran, cursor, ceiling, o).value;
            && Travels(e, cursor, ceiling, n, t) && t.offs[0] == off && t.organs[0] == o
            && p.ran >= ran && Reports(e, at, cursor, ceiling, n, t, p.(ran := p.ran - ran))
    decreases ceiling - cursor
  {
    n, t := 0, Trip([off], [o]);
    if cursor < ceiling {
      var f := FactsAt(e.text, off, e.book.tab).value.(lead := Carried(e.book, o).value.GetOr(0));
      var took := TakenFrom(e, 0, At(o.frames, cursor).value.kind, cursor, off, o, f).value;
      assert ToldAt(e, off, o, f);
      assert FrameTakes(e, cursor, off, o, took);
      if took.Some? {
        var (rule, b) := took.value;
        var after := Applied(e, rule, off, o, b).value.organs;
        assert OneFrame(e, cursor, off, o, off + b.eaten, after);
        n, t := SweepTravels(e, at, off + b.eaten, ran + 1, cursor + 1, ceiling, after);
        var p := SweptFrom(e, at, off, ran, cursor, ceiling, o).value;
        TravelsLed(e, cursor, ceiling, n, t, off, o);
        ReportsLed(e, at, cursor, ceiling, n, t, off, o, p.(ran := p.ran - (ran + 1)));
        n, t := n + 1, Trip([off] + t.offs, [o] + t.organs);
      }
    }
  }

  lemma {:induction false} ReportsLed(e: Scene, at: int, start: int, ceiling: int, n: nat, t: Trip, off: int, o: State,
                                      p: PassResult)
    requires |t.offs| == |t.organs| == n + 1 && Reports(e, at, start + 1, ceiling, n, t, p)
    ensures Reports(e, at, start, ceiling, n + 1, Trip([off] + t.offs, [o] + t.organs), p.(ran := p.ran + 1))
  {
    assert ([off] + t.offs)[n + 1] == t.offs[n] && ([o] + t.organs)[n + 1] == t.organs[n];
  }

  lemma {:induction false} TravelsLed(e: Scene, start: int, ceiling: int, n: nat, t: Trip, off: int, o: State)
    requires start < ceiling && Travels(e, start + 1, ceiling, n, t)
    requires OneFrame(e, start, off, o, t.offs[0], t.organs[0])
    ensures Travels(e, start, ceiling, n + 1, Trip([off] + t.offs, [o] + t.organs))
  {
    var u := Trip([off] + t.offs, [o] + t.organs);
    forall k | 0 <= k < n + 1 ensures OneFrame(e, start + k, u.offs[k], u.organs[k], u.offs[k + 1], u.organs[k + 1]) {
      if k > 0 {
        assert OneFrame(e, start + 1 + (k - 1), t.offs[k - 1], t.organs[k - 1], t.offs[k], t.organs[k]);
      }
    }
  }

  // ---- what a pass test binds

  /** Where a pass starts: here, or past the blanks after what was eaten. */
  function Setting(e: Scene, t: Test, at: int, b: Bound): (int, Option<int>)
    requires t.Pass? && (t.after ==> at + b.eaten >= 0 && e.book.tab > 0)
  {
    if t.after then
      var (off, col) := Soaked(e.text, at + b.eaten, e.book.tab, 0);
      (off, Some(col))
    else (at, None)
  }

  /** The frames a pass may run through. */
  predicate Bounds(t: Test, o: State, f: Facts, b: Bound, ceiling: int)
    requires t.Pass?
  {
    ceiling <= |o.frames|
    && match t.until
       case None => ceiling == |o.frames|
       case Some(v) =>
         Eval(v, o, f, b).Success? && ceiling <= Eval(v, o, f, b).value
         && (ceiling == |o.frames| || ceiling == Eval(v, o, f, b).value)
  }

  /** The organs a pass starts with: the carried indentation is what was soaked, where there was
      any to soak and a register that carries it. */
  predicate Scratch(book: Book, o: State, lead: Option<int>, s: State) {
    && s.(regs := o.regs) == o
    && (if lead.Some? && book.budget.Some? then Put(o.regs, book.budget.value, lead.value) == Success(s.regs)
        else s.regs == o.regs)
  }

  /** A pass test runs its frames from where it stands to its ceiling or to the first frame with no
      matcher, on organs of its own, binds what it reports, and holds if what ran compares. */
  lemma {:induction false} PassTestReports(e: Scene, t: Test, at: int, o: State, f: Facts, anew: bool, b: Bound)
    requires t.Pass? && HoldsPass(e, t, at, o, f, anew, b).Success?
    ensures Eval(t.start, o, f, b).Success? && (t.after ==> at + b.eaten >= 0 && e.book.tab > 0)
    ensures var (off, lead) := Setting(e, t, at, b);
            var start := Eval(t.start, o, f, b).value;
            exists ceiling: int, n: nat, trip, p ::
              Conducted(e, t, off, lead, start, o, f, b, HoldsPass(e, t, at, o, f, anew, b), ceiling, n, trip, p)
  {
    var (off, lead) := Setting(e, t, at, b);
    var start := Eval(t.start, o, f, b).value;
    var until := if t.until.None? then None else Some(Eval(t.until.value, o, f, b).value);
    var s := Seeded(e.book, o, lead).value;
    var p := Swept(e, off, o, start, lead, until).value;
    var n, trip := SweepTravels(e, off, off, 0, start, Ceiling(o, until), s);
    assert Bounds(t, o, f, b, Ceiling(o, until));
    assert p.(ran := p.ran - 0) == p;
    var v := HoldsPass(e, t, at, o, f, anew, b);
    assert Conducted(e, t, off, lead, start, o, f, b, v, Ceiling(o, until), n, trip, p);
  }

  /** A pass from an offset, an indentation and a cursor: the frames it ran and how the test ends. */
  ghost predicate Conducted(e: Scene, t: Test, off: int, lead: Option<int>, start: int, o: State, f: Facts, b: Bound,
                            v: Verdict, ceiling: int, n: nat, trip: Trip, p: PassResult)
    requires t.Pass?
  {
    && Bounds(t, o, f, b, ceiling) && Travels(e, start, ceiling, n, trip)
    && trip.offs[0] == off && Scratch(e.book, o, lead, trip.organs[0])
    && Reports(e, off, start, ceiling, n, trip, p) && Concludes(t, o, f, b.(pass := Some(p)), v)
  }

  /** How a pass test ends. */
  predicate Concludes(t: Test, o: State, f: Facts, b: Bound, v: Verdict)
    requires t.Pass? && b.pass.Some?
  {
    match t.verdict
    case None => v == Success(Some(b))
    case Some((op, n)) =>
      Eval(n, o, f, b).Success?
      && v == Success(if Compare(b.pass.value.ran, op, Eval(n, o, f, b).value) then Some(b) else None)
  }

  /** What a guard reads of the pass it ran. */
  lemma {:induction false} ReportIsRead(o: State, f: Facts, b: Bound, p: PassResult)
    requires b.pass == Some(p)
    ensures Eval(OfPass(Ran), o, f, b) == Success(p.ran) && Eval(OfPass(Reached), o, f, b) == Success(p.cursor)
    ensures Eval(OfPass(Budget), o, f, b) == Success(p.budget) && Eval(OfPass(Ate), o, f, b) == Success(p.eaten)
    ensures Eval(OfPass(Stopped), o, f, b) == Success(p.at) && Eval(OfPass(More), o, f, b) == Success(p.more)
  {
  }
}
