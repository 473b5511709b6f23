/** Which answers end inside the text, and the walk over them. */
module Claiming {
  import opened Wrappers
  import opened Books
  import opened Guards
  import opened Steps
  import opened Walks
  import opened Scanning
  import opened Guarding

  /** Value expressions that are worth at most the width eaten. */
  predicate AtMostWidth(v: Value) {
    match v
    case Num(n) => n <= 0
    case Width => true
    case Bin(Minus, a, b) => AtMostWidth(a) && NonNegative(b)
    case Bin(Min, a, b) => AtMostWidth(a) || AtMostWidth(b)
    case Bin(Max, a, b) => AtMostWidth(a) && AtMostWidth(b)
    case _ => false
  }

  lemma {:induction false} AtMostWidthEvaluates(v: Value, o: State, f: Facts, b: Bound)
    requires AtMostWidth(v) && 0 <= b.eaten && Eval(v, o, f, b).Success?
    ensures Eval(v, o, f, b).value <= b.eaten
  {
    match v
    case Bin(op, x, y) =>
      if AtMostWidth(x) { AtMostWidthEvaluates(x, o, f, b); }
      if AtMostWidth(y) { AtMostWidthEvaluates(y, o, f, b); }
      if NonNegative(y) { NonNegativeEvaluates(y, o, f, b); }
    case _ =>
  }

  /** A rule that claims no more than its guard ate: no skip, and no extent beyond the width. */
  predicate Claims(rule: Rule) {
    forall i :: 0 <= i < |rule.then_| ==>
      && !rule.then_[i].Skip?
      && (rule.then_[i].Emit? && rule.then_[i].extent.Stated? ==> AtMostWidth(rule.then_[i].extent.v))
  }

  predicate HitInside(e: Scene, at: int, hit: Option<Hit>) {
    hit.Some? ==> hit.value.start == at && hit.value.start + hit.value.length <= |e.text|
  }

  lemma {:induction false} AnswerStaysInside(e: Scene, rule: string, symbol: string, extent: Extent, at: int, o: State,
                                             f: Facts, b: Bound)
    requires EatenInside(e, at, b) && (extent.Stated? ==> AtMostWidth(extent.v))
    ensures var h := Answered(e, rule, symbol, extent, at, 0, o, f, b); h.Success? ==> HitInside(e, at, Some(h.value))
  {
    if extent.Stated? && Eval(extent.v, o, f, b).Success? {
      AtMostWidthEvaluates(extent.v, o, f, b);
    }
  }

  lemma {:induction false} ActsStayInside(e: Scene, rule: Rule, at: int, f: Facts, b: Bound, i: nat, o: State,
                                          hit: Option<Hit>)
    requires Claims(rule) && EatenInside(e, at, b) && i <= |rule.then_| && HitInside(e, at, hit)
    ensures var a := ActsFrom(e, rule, at, f, b, i, o, 0, hit); a.Success? ==> HitInside(e, at, a.value.hit)
    decreases |rule.then_| - i
  {
    if i < |rule.then_| && ActsFrom(e, rule, at, f, b, i, o, 0, hit).Success? {
      match rule.then_[i]
      case Refuse =>
      case Abstain =>
      case Emit(symbol, extent) =>
        AnswerStaysInside(e, rule.name, symbol, extent, at, o, f, b);
        ActsStayInside(e, rule, at, f, b, i + 1, o, Some(Answered(e, rule.name, symbol, extent, at, 0, o, f, b).value));
      case Skip(_) => assert false;
      case _ =>
        ActsStayInside(e, rule, at, f, b, i + 1, Written(rule.then_[i], o, f, b).value, hit);
    }
  }

  /** So the answer of such a rule starts where it was asked and ends inside the text. */
  lemma {:induction false} ClaimsStayInside(e: Scene, rule: Rule, at: int, o: State, f: Facts, anew: bool)
    requires Sound(e.env) && Claims(rule) && 0 <= at <= |e.text|
    ensures var a := Tried(e, rule, at, o, f, anew); a.Success? ==> HitInside(e, at, a.value.hit)
  {
    GuardEatsForward(e, rule.when, 0, at, o, f, anew, UNBOUND);
    if Tried(e, rule, at, o, f, anew).Success? {
      var g := GuardFrom(e, rule.when, 0, at, o, f, anew, UNBOUND).value;
      if g.Some? {
        ActsStayInside(e, rule, at, FactsAt(e.text, at, e.book.tab).value, g.value, 0, o, None);
      }
    }
  }

  // ---- every answer of a walk

  /** Every rule of this name claims no more than its guard ate. */
  predicate NameClaims(book: Book, name: string) {
    forall r :: 0 <= r < |book.rules| && book.rules[r].name == name ==> Claims(book.rules[r])
  }

  /** An answer given by a rule that claims no more than its guard ate ends inside the text. */
  predicate EndsInside(e: Scene, h: Hit) {
    NameClaims(e.book, h.rule) ==> h.start + h.length <= |e.text|
  }

  predicate AnswerEndsInside(e: Scene, hit: Option<Hit>) {
    hit.Some? ==> EndsInside(e, hit.value)
  }

  lemma {:induction false} ActsNameTheirRule(e: Scene, rule: Rule, at: int, f: Facts, b: Bound, i: nat, o: State,
                                             skip: int, hit: Option<Hit>)
    requires i <= |rule.then_| && (hit.Some? ==> hit.value.rule == rule.name)
    ensures var a := ActsFrom(e, rule, at, f, b, i, o, skip, hit);
            a.Success? && a.value.hit.Some? ==> a.value.hit.value.rule == rule.name
    decreases |rule.then_| - i
  {
    if i < |rule.then_| && ActsFrom(e, rule, at, f, b, i, o, skip, hit).Success? {
      match rule.then_[i]
      case Refuse =>
      case Abstain =>
      case Emit(symbol, extent) =>
        var h := Answered(e, rule.name, symbol, extent, at, skip, o, f, b).value;
        ActsNameTheirRule(e, rule, at, f, b, i + 1, o, skip, Some(h));
      case Skip(v) =>
        ActsNameTheirRule(e, rule, at, f, b, i + 1, o, skip + Eval(v, o, f, b).value, hit);
      case _ =>
        ActsNameTheirRule(e, rule, at, f, b, i + 1, Written(rule.then_[i], o, f, b).value, skip, hit);
    }
  }

  lemma {:induction false} TriedNamesItsRule(e: Scene, rule: Rule, at: int, o: State, f: Facts, anew: bool)
    ensures var a := Tried(e, rule, at, o, f, anew);
            a.Success? && a.value.hit.Some? ==> a.value.hit.value.rule == rule.name
  {
    if Tried(e, rule, at, o, f, anew).Success? {
      var g := GuardFrom(e, rule.when, 0, at, o, f, anew, UNBOUND).value;
      if g.Some? {
        ActsNameTheirRule(e, rule, at, FactsAt(e.text, at, e.book.tab).value, g.value, 0, o, 0, None);
      }
    }
  }

  lemma {:induction false} TriedEndsInside(e: Scene, r: nat, at: int, o: State, f: Facts, anew: bool)
    requires Sound(e.env) && r < |e.book.rules| && 0 <= at <= |e.text|
    ensures var a := Tried(e, e.book.rules[r], at, o, f, anew); a.Success? ==> AnswerEndsInside(e, a.value.hit)
  {
    TriedNamesItsRule(e, e.book.rules[r], at, o, f, anew);
    if Claims(e.book.rules[r]) {
      ClaimsStayInside(e, e.book.rules[r], at, o, f, anew);
    }
  }

  lemma {:induction false} RulesEndInside(e: Scene, phase: Phase, r: nat, off: int, f: Facts, sealed: Option<string>,
                                          o: State, anew: bool, spent: set<string>)
    requires Sound(e.env) && r <= |e.book.rules| && 0 <= off <= |e.text|
    ensures var a := RulesFrom(e, phase, r, off, f, sealed, o, anew, spent);
            a.Success? ==> AnswerEndsInside(e, a.value.hit)
    decreases |e.book.rules| - r
  {
    if r < |e.book.rules| {
      var rule := e.book.rules[r];
      if PassedOver(rule, phase, sealed, spent) {
        RulesEndInside(e, phase, r + 1, off, f, sealed, o, anew, spent);
      } else {
        TriedEndsInside(e, r, off, o, f, anew);
        var a := Tried(e, rule, off, o, f, anew);
        if a.Success? && a.value.hit.None? && !a.value.abstained {
          RulesEndInside(e, phase, r + 1, off, f, sealed, a.value.organs, anew, spent);
        }
      }
    }
  }

  lemma {:induction false} PhaseEndsInside(e: Scene, phase: Phase, at: int, o: State, anew: bool, broke: bool,
                                           spent: set<string>)
    requires Sound(e.env) && 0 <= at <= |e.text|
    ensures var a := Entered(e, phase, at, o, anew, broke, spent); a.Success? ==> AnswerEndsInside(e, a.value.hit)
  {
    if Entered(e, phase, at, o, anew, broke, spent).Success? && !(phase == Matched || (phase == Layout && !anew)) {
      var stand := Stood(e, phase, at, o).value;
      RulesEndInside(e, phase, 0, stand.0, stand.1.(broke := broke), Sealed(e.book, o), o, anew, spent);
    }
  }

  lemma {:induction false} PhasesEndInside(e: Scene, phases: seq<Phase>, at: int, o: State, anew: bool, broke: bool,
                                           spent: set<string>)
    requires Sound(e.env) && 0 <= at <= |e.text|
    ensures var a := PhasesFrom(e, phases, at, o, anew, broke, spent); a.Success? ==> AnswerEndsInside(e, a.value.hit)
    decreases |phases|
  {
    if phases != [] {
      PhaseEndsInside(e, phases[0], at, o, anew, broke, spent);
      var a := Entered(e, phases[0], at, o, anew, broke, spent);
      if a.Success? && a.value.hit.None? && !a.value.abstained {
        PhasesEndInside(e, phases[1..], at, a.value.organs, anew, broke, spent);
      }
    }
  }

  lemma {:induction false} StepEndsInside(e: Scene, at: int, o: State, spent: set<string>)
    requires Sound(e.env) && 0 <= at <= |e.text|
    ensures var a := Stepped(e, at, o, true, spent); a.Success? ==> AnswerEndsInside(e, a.value.hit)
  {
    var over := Over(e, at);
    PhasesEndInside(e, PHASES, at + over, o, true, Broken(e, at, over, o), spent);
  }

  lemma {:induction false} BookEndsInside(e: Scene, asked: Option<Hit -> bool>)
    requires Sound(e.env)
    ensures Gives(Walking(e, asked), (h: Hit) => EndsInside(e, h))
  {
    var w := Walking(e, asked);
    forall at: int, o: State, spent: set<string> {:trigger w.ask(at, o, spent)} |
      0 <= at <= |e.text| && w.ask(at, o, spent).Success? && w.ask(at, o, spent).value.hit.Some?
      ensures EndsInside(e, w.ask(at, o, spent).value.hit.value)
    {
      StepEndsInside(e, at, o, spent);
    }
  }

  /** Whatever the rest of its book does, and wherever a walk goes, every answer it gives back
      from a rule that claims no more than its guard ate ends inside the text. */
  lemma {:induction false} WalkEndsInside(e: Scene, asked: Option<Hit -> bool>, lo: int, hi: int, o: State, limit: nat)
    requires Sound(e.env) && hi <= |e.text|
    ensures var hits := Run(Walking(e, asked), hi, limit, Arriving(lo, o)).hits;
            forall h :: h in hits && NameClaims(e.book, h.rule) ==> h.start + h.length <= |e.text|
  {
    var good := (h: Hit) => EndsInside(e, h);
    BookEndsInside(e, asked);
    RunGives(Walking(e, asked), good, hi, limit, Arriving(lo, o));
  }
}
