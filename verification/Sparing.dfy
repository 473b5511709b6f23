/** Books whose zero-width answers leave the organs alone, and what that makes of a walk. */
module Sparing {
  import opened Wrappers
  import opened Books
  import opened Guards
  import opened Steps
  import opened Walks
  import opened Scanning
  import opened Standing

  predicate WritesNothing(act: Action) {
    act.Refuse? || act.Abstain? || act.Emit? || act.Skip?
  }

  predicate Unwritten(rule: Rule) {
    forall i :: 0 <= i < |rule.then_| ==> WritesNothing(rule.then_[i])
  }

  /** A rule that, once its guard holds, withdraws the ask or gives an answer that is not empty. */
  predicate Settles(rule: Rule) {
    && SolidRule(rule) && (forall i :: 0 <= i < |rule.then_| ==> !rule.then_[i].Refuse?)
    && exists i :: 0 <= i < |rule.then_| && (rule.then_[i].Emit? || rule.then_[i].Abstain?)
  }

  /** No rule that writes can leave the ask empty or unanswered. */
  predicate BookSpares(book: Book) {
    forall r :: 0 <= r < |book.rules| ==> Unwritten(book.rules[r]) || Settles(book.rules[r])
  }

  /** Organs are as they were, or the ask is over and its answer not empty. */
  predicate Spared(a: Attempted, o: State) {
    a.organs == o || (a.abstained && a.hit.None?) || (a.hit.Some? && a.hit.value.length > 0)
  }

  lemma {:induction false} ActsLeaveOrgans(e: Scene, rule: Rule, at: int, f: Facts, b: Bound, i: nat, o: State,
                                           skip: int, hit: Option<Hit>)
    requires Unwritten(rule) && i <= |rule.then_|
    ensures var a := ActsFrom(e, rule, at, f, b, i, o, skip, hit); a.Success? ==> a.value.organs == o
    decreases |rule.then_| - i
  {
    if i < |rule.then_| && ActsFrom(e, rule, at, f, b, i, o, skip, hit).Success? {
      assert WritesNothing(rule.then_[i]);
      match rule.then_[i]
      case Emit(symbol, extent) =>
        var h := Answered(e, rule.name, symbol, extent, at, skip, o, f, b).value;
        ActsLeaveOrgans(e, rule, at, f, b, i + 1, o, skip, Some(h));
      case Skip(v) => ActsLeaveOrgans(e, rule, at, f, b, i + 1, o, skip + Eval(v, o, f, b).value, hit);
      case Refuse =>
      case Abstain =>
      case _ => assert false;
    }
  }

  /** A settling rule's actions so far: every answer not empty, and one given if any was due. */
  predicate Settled(rule: Rule, i: nat, hit: Option<Hit>)
    requires i <= |rule.then_|
  {
    && (hit.Some? ==> hit.value.length > 0)
    && (hit.None? ==> forall j :: 0 <= j < i ==> !rule.then_[j].Emit? && !rule.then_[j].Abstain?)
  }

  lemma {:induction false} ActsSettle(e: Scene, rule: Rule, at: int, f: Facts, b: Bound, i: nat, o: State,
                                      skip: int, hit: Option<Hit>)
    requires Settles(rule) && i <= |rule.then_| && Settled(rule, i, hit)
    ensures var a := ActsFrom(e, rule, at, f, b, i, o, skip, hit);
            a.Success? ==> if a.value.abstained then a.value.hit.None?
                           else a.value.hit.Some? && a.value.hit.value.length > 0
    decreases |rule.then_| - i
  {
    if i < |rule.then_| && ActsFrom(e, rule, at, f, b, i, o, skip, hit).Success? {
      match rule.then_[i]
      case Emit(symbol, extent) =>
        assert Solid(rule.then_[i]);
        PositiveEvaluates(extent.v, o, f, b);
        var h := Answered(e, rule.name, symbol, extent, at, skip, o, f, b).value;
        ActsSettle(e, rule, at, f, b, i + 1, o, skip, Some(h));
      case Skip(v) => ActsSettle(e, rule, at, f, b, i + 1, o, skip + Eval(v, o, f, b).value, hit);
      case Refuse =>
      case Abstain =>
      case _ => ActsSettle(e, rule, at, f, b, i + 1, Written(rule.then_[i], o, f, b).value, skip, hit);
    }
  }

  lemma {:induction false} TriedSpares(e: Scene, r: nat, at: int, o: State, f: Facts, anew: bool)
    requires BookSpares(e.book) && r < |e.book.rules|
    ensures var a := Tried(e, e.book.rules[r], at, o, f, anew); a.Success? ==> Spared(a.value, o)
  {
    var rule := e.book.rules[r];
    var a := Tried(e, rule, at, o, f, anew);
    if a.Success? {
      var g := GuardFrom(e, rule.when, 0, at, o, f, anew, UNBOUND).value;
      if g.Some? {
        var facts := FactsAt(e.text, at, e.book.tab).value;
        if Unwritten(rule) {
          ActsLeaveOrgans(e, rule, at, facts, g.value, 0, o, 0, None);
        } else {
          ActsSettle(e, rule, at, facts, g.value, 0, o, 0, None);
        }
      }
    }
  }

  lemma {:induction false} RulesSpare(e: Scene, phase: Phase, r: nat, off: int, f: Facts, sealed: Option<string>,
                                      o: State, anew: bool, spent: set<string>)
    requires BookSpares(e.book) && r <= |e.book.rules|
    ensures var a := RulesFrom(e, phase, r, off, f, sealed, o, anew, spent); a.Success? ==> Spared(a.value, o)
    decreases |e.book.rules| - r
  {
    if r < |e.book.rules| {
      var rule := e.book.rules[r];
      if PassedOver(rule, phase, sealed, spent) {
        RulesSpare(e, phase, r + 1, off, f, sealed, o, anew, spent);
      } else {
        TriedSpares(e, r, off, o, f, anew);
        var a := Tried(e, rule, off, o, f, anew);
        if a.Success? && a.value.hit.None? && !a.value.abstained {
          RulesSpare(e, phase, r + 1, off, f, sealed, a.value.organs, anew, spent);
        }
      }
    }
  }

  lemma {:induction false} PhaseSpares(e: Scene, phase: Phase, at: int, o: State, anew: bool, broke: bool,
                                       spent: set<string>)
    requires BookSpares(e.book)
    ensures var a := Entered(e, phase, at, o, anew, broke, spent); a.Success? ==> Spared(a.value, o)
  {
    if Entered(e, phase, at, o, anew, broke, spent).Success? && !(phase == Matched || (phase == Layout && !anew)) {
      var stand := Stood(e, phase, at, o).value;
      RulesSpare(e, phase, 0, stand.0, stand.1.(broke := broke), Sealed(e.book, o), o, anew, spent);
    }
  }

  /** An empty answer leaves the organs as they were. */
  predicate Leaves(a: Answer, o: State) {
    a.hit.Some? && a.hit.value.length == 0 ==> a.organs == o
  }

  lemma {:induction false} PhasesSpare(e: Scene, phases: seq<Phase>, at: int, o: State, anew: bool, broke: bool,
                                       spent: set<string>)
    requires BookSpares(e.book)
    ensures var a := PhasesFrom(e, phases, at, o, anew, broke, spent); a.Success? ==> Leaves(a.value, o)
    decreases |phases|
  {
    if phases != [] {
      PhaseSpares(e, phases[0], at, o, anew, broke, spent);
      var a := Entered(e, phases[0], at, o, anew, broke, spent);
      if a.Success? && a.value.hit.None? && !a.value.abstained {
        PhasesSpare(e, phases[1..], at, a.value.organs, anew, broke, spent);
      }
    }
  }

  lemma {:induction false} StepSpares(e: Scene, at: int, o: State, spent: set<string>)
    requires BookSpares(e.book)
    ensures var a := Stepped(e, at, o, true, spent); a.Success? ==> Leaves(a.value, o)
  {
    var over := Over(e, at);
    PhasesSpare(e, PHASES, at + over, o, true, Broken(e, at, over, o), spent);
  }

  lemma {:induction false} BookIsStill(e: Scene, asked: Option<Hit -> bool>)
    requires BookSpares(e.book)
    ensures Still(Walking(e, asked))
  {
    var w := Walking(e, asked);
    forall at: int, o: State, spent: set<string> {:trigger w.ask(at, o, spent)} |
      0 <= at <= |e.text| && w.ask(at, o, spent).Success? && w.ask(at, o, spent).value.hit.Some?
      ensures var a := w.ask(at, o, spent).value;
              a.hit.value.length == 0 && a.hit.value.start == at ==> a.organs == o
    {
      StepSpares(e, at, o, spent);
    }
  }

  /** A book of single, unclassified emits, of no more terminals than the repeats allowed, whose
      empty answers leave the organs alone, is walked to the end of any text on which no ask
      faults, enveloped or not; and no offset holds more empty answers than there are terminals,
      but for one leaned over to. */
  lemma {:induction false} SparingBookFinishes(e: Scene, asked: Option<Hit -> bool>, lo: nat, hi: nat, o: State,
                                               limit: nat, x: int)
    requires Sound(e.env) && BookSkipsForward(e.book) && BookIsPlain(e.book) && BookSpares(e.book)
    requires lo <= |e.text| && hi <= |e.text| && |Terminals(e.book.rules)| <= STALL && Answering(Walking(e, asked))
    ensures WalkFinishes(Walking(e, asked), |Terminals(e.book.rules)|, lo, hi, o, limit, x)
  {
    var names := Terminals(e.book.rules);
    BookIsForward(e, asked);
    BookIsNovel(e, asked);
    BookIsStill(e, asked);
    StillWalkFinishes(Walking(e, asked), names, lo, hi, o, limit, x);
  }
}
