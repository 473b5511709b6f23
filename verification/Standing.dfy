/** Where a book's zero-width answers stand, and what that makes of the repeat limit. */
module Standing {
  import opened Wrappers
  import opened Books
  import opened Guards
  import opened Steps
  import opened Walks
  import opened Scanning
  import opened Guarding

  // ---- rules that answer where they are asked

  /** Value expressions that cannot evaluate to less than one. */
  predicate Positive(v: Value) {
    match v
    case Num(n) => n > 0
    case Bin(Plus, a, b) => (Positive(a) && NonNegative(b)) || (NonNegative(a) && Positive(b))
    case Bin(Min, a, b) => Positive(a) && Positive(b)
    case Bin(Max, a, b) => Positive(a) || Positive(b)
    case _ => false
  }

  /** An emit whose answer cannot be empty. */
  predicate Solid(act: Action) {
    act.Emit? ==> act.extent.Stated? && Positive(act.extent.v)
  }

  predicate SolidRule(rule: Rule) {
    forall i :: 0 <= i < |rule.then_| ==> Solid(rule.then_[i])
  }

  /** No emit that could be empty comes after a skip. */
  predicate Steady(rule: Rule) {
    forall i, j :: 0 <= i < j < |rule.then_| && rule.then_[i].Skip? ==> Solid(rule.then_[j])
  }

  // ---- what a rule's first probe foretells of its answer

  /** The pattern a guard asks before it binds anything, if it asks one. */
  function Leading(when: seq<Test>, i: nat): Option<string>
    requires i <= |when|
    decreases |when| - i
  {
    if i == |when| then None
    else if when[i].Probe? then Some(when[i].p)
    else if Binds(when[i]) then None
    else Leading(when, i + 1)
  }

  /** Value expressions that read nothing but the first match. */
  predicate Exact(v: Value) {
    match v
    case Num(_) => true
    case Span(_) => true
    case Number(_) => true
    case Bin(_, a, b) => Exact(a) && Exact(b)
    case _ => false
  }

  /** Value expressions that are worth no less for what is eaten after the first match. */
  predicate Growing(v: Value) {
    match v
    case Width => true
    case Bin(Plus, a, b) => Growing(a) && Growing(b)
    case Bin(Minus, a, b) => Growing(a) && Exact(b)
    case Bin(Min, a, b) => Growing(a) && Growing(b)
    case Bin(Max, a, b) => Growing(a) && Growing(b)
    case _ => Exact(v)
  }

  /** What a value is worth once a match is all that is bound. */
  function Foretold(v: Value, m: Match): int {
    var b := UNBOUND.(eaten := m.end - m.start, first := Some(m));
    var n := Eval(v, State([], [], [], 0), Facts(false, 0, false, false, 0, false, false), b);
    if n.Success? then n.value else 0
  }

  /** How far the actions before `i` skip. */
  function SkipTo(acts: seq<Action>, i: nat, m: Match): int
    requires i <= |acts|
  {
    if i == 0 then 0
    else SkipTo(acts, i - 1, m) + if acts[i - 1].Skip? then Foretold(acts[i - 1].v, m) else 0
  }

  /** An answer is as long as this value, or empty. */
  function Worth(extent: Extent): Value {
    if extent.Stated? then extent.v else Width
  }

  predicate MayBeEmpty(extent: Extent, m: Match) {
    !Positive(Worth(extent)) && (Growing(Worth(extent)) ==> Foretold(Worth(extent), m) <= 0)
  }

  /** Every skip of the rule can be read off the first match. */
  predicate SkipsForetold(rule: Rule) {
    forall i :: 0 <= i < |rule.then_| && rule.then_[i].Skip? ==> Exact(rule.then_[i].v)
  }

  /** With this first match at `off`, one of the rule's emits could be empty at `x`. */
  predicate EmitMeets(rule: Rule, m: Match, off: int, x: int) {
    exists i :: 0 <= i < |rule.then_| && rule.then_[i].Emit? && MayBeEmpty(rule.then_[i].extent, m)
                && off + SkipTo(rule.then_, i, m) == x
  }

  /** Standing at `off`, the rule could answer empty at `x`: by what its first probe finds
      there, or, where that does not tell, by the shape of its actions. A rule that waits for
      a terminal not to be wanted answers nowhere. */
  predicate CanMeet(e: Scene, rule: Rule, off: int, x: int) {
    var p := Leading(rule.when, 0);
    if Withheld in rule.when then false
    else if p.Some? && SkipsForetold(rule) then
      var m := e.env.probe(p.value, e.text, off);
      m.Some? && EmitMeets(rule, m.value, off, x)
    else
      !SolidRule(rule) && (Steady(rule) ==> off == x)
  }

  /** Some of the book's trivia ends at an offset. */
  ghost predicate TriviaEnds(e: Scene, x: int) {
    e.book.trivia.Some? &&
    exists at: int :: 0 <= at < x && Over(e, at) == x - at
  }

  predicate BlankBefore(e: Scene, x: int) {
    0 < x <= |e.text| && IsBlank(e.text[x - 1])
  }

  /** Neither blanks before a layout rule nor trivia lead to an offset. */
  ghost predicate Unmoved(e: Scene, phase: Phase, x: int) {
    (phase == Layout ==> !BlankBefore(e, x)) && !TriviaEnds(e, x)
  }

  /** Nothing a book is asked further back can answer zero-width at an offset: a rule that
      could answer empty there does so from there, it is no layout rule that reads past a
      blank to it, and no trivia ends there. */
  ghost predicate Unleant(e: Scene, x: int) {
    forall r, off {:trigger CanMeet(e, e.book.rules[r], off, x)} ::
      0 <= r < |e.book.rules| && 0 <= off <= |e.text| && CanMeet(e, e.book.rules[r], off, x) ==>
        off == x && Unmoved(e, e.book.rules[r].phase, x)
  }

  lemma {:induction false} PositiveEvaluates(v: Value, o: State, f: Facts, b: Bound)
    requires Positive(v) && Eval(v, o, f, b).Success?
    ensures Eval(v, o, f, b).value > 0
  {
    match v
    case Bin(op, x, y) =>
      if Positive(x) { PositiveEvaluates(x, o, f, b); }
      if Positive(y) { PositiveEvaluates(y, o, f, b); }
      if NonNegative(x) { NonNegativeEvaluates(x, o, f, b); }
      if NonNegative(y) { NonNegativeEvaluates(y, o, f, b); }
    case _ =>
  }

  /** An answer is empty, and at this offset. */
  predicate EmptyAt(hit: Option<Hit>, x: int) {
    hit.Some? && hit.value.length == 0 && hit.value.start == x
  }

  // ---- a rule whose first probe tells

  lemma {:induction false} ExactEvaluates(v: Value, o: State, f: Facts, b: Bound, o': State, f': Facts, b': Bound)
    requires Exact(v) && b.first == b'.first
    ensures Eval(v, o, f, b) == Eval(v, o', f', b')
  {
    match v
    case Bin(_, x, y) =>
      ExactEvaluates(x, o, f, b, o', f', b');
      ExactEvaluates(y, o, f, b, o', f', b');
    case _ =>
  }

  lemma {:induction false} GrowingEvaluates(v: Value, o: State, f: Facts, b: Bound, o': State, f': Facts, b': Bound)
    requires Growing(v) && b.first == b'.first && b'.eaten <= b.eaten && Eval(v, o, f, b).Success?
    ensures Eval(v, o', f', b').Success? && Eval(v, o', f', b').value <= Eval(v, o, f, b).value
  {
    if Exact(v) {
      ExactEvaluates(v, o, f, b, o', f', b');
    } else {
      match v
      case Bin(op, x, y) =>
        GrowingEvaluates(x, o, f, b, o', f', b');
        if Exact(y) {
          ExactEvaluates(y, o, f, b, o', f', b');
        } else {
          GrowingEvaluates(y, o, f, b, o', f', b');
        }
      case _ =>
    }
  }

  /** A guard has matched first what its leading probe finds, and eaten at least that. */
  predicate Found(m: Match, b: Bound) {
    b.first == Some(m) && m.end - m.start <= b.eaten
  }

  lemma {:induction false} FirstMatchStays(e: Scene, t: Test, at: int, o: State, f: Facts, anew: bool, b: Bound)
    requires b.first.Some?
    ensures var v := Holds(e, t, at, o, f, anew, b); v.Success? && v.value.Some? ==> v.value.value.first == b.first
  {
    if !Binds(t) {
      OnlyBindersBind(e, t, at, o, f, anew, b);
    }
  }

  lemma {:induction false} FoundStays(e: Scene, when: seq<Test>, i: nat, at: int, o: State, f: Facts, anew: bool,
                                      b: Bound, m: Match)
    requires Sound(e.env) && EatenInside(e, at, b) && i <= |when| && Found(m, b)
    ensures var v := GuardFrom(e, when, i, at, o, f, anew, b); v.Success? && v.value.Some? ==> Found(m, v.value.value)
    decreases |when| - i
  {
    if i < |when| {
      var v := Holds(e, when[i], at, o, f, anew, b);
      TestEatsForward(e, when[i], at, o, f, anew, b);
      FirstMatchStays(e, when[i], at, o, f, anew, b);
      if v.Success? && v.value.Some? {
        FoundStays(e, when, i + 1, at, o, f, anew, v.value.value, m);
      }
    }
  }

  lemma {:induction false} LeadingIsFound(e: Scene, when: seq<Test>, i: nat, at: int, o: State, f: Facts, anew: bool)
    requires Sound(e.env) && 0 <= at <= |e.text| && i <= |when| && Leading(when, i).Some?
    ensures var v := GuardFrom(e, when, i, at, o, f, anew, UNBOUND);
            var m := e.env.probe(Leading(when, i).value, e.text, at);
            v.Success? && v.value.Some? ==> m.Some? && Found(m.value, v.value.value)
    decreases |when| - i
  {
    var t := when[i];
    var v := Holds(e, t, at, o, f, anew, UNBOUND);
    if v.Success? && v.value.Some? {
      TestEatsForward(e, t, at, o, f, anew, UNBOUND);
      if t.Probe? {
        var m := e.env.probe(t.p, e.text, at).value;
        FoundStays(e, when, i + 1, at, o, f, anew, v.value.value, m);
      } else {
        OnlyBindersBind(e, t, at, o, f, anew, UNBOUND);
        LeadingIsFound(e, when, i + 1, at, o, f, anew);
      }
    }
  }

  lemma {:induction false} WithheldFails(e: Scene, when: seq<Test>, i: nat, at: int, o: State, f: Facts, anew: bool,
                                         b: Bound)
    requires i <= |when| && exists k :: i <= k < |when| && when[k] == Withheld
    ensures var v := GuardFrom(e, when, i, at, o, f, anew, b); v.Success? ==> v.value.None?
    decreases |when| - i
  {
    var v := Holds(e, when[i], at, o, f, anew, b);
    if v.Success? && v.value.Some? {
      WithheldFails(e, when, i + 1, at, o, f, anew, v.value.value);
    }
  }

  lemma {:induction false} AnswerIsForetold(e: Scene, rule: string, symbol: string, extent: Extent, at: int, skip: int,
                                            o: State, f: Facts, b: Bound, m: Match)
    requires Found(m, b)
    ensures var h := Answered(e, rule, symbol, extent, at, skip, o, f, b);
            h.Success? ==> h.value.start == at + skip && (h.value.length == 0 ==> MayBeEmpty(extent, m))
  {
    var v := Worth(extent);
    var n := Eval(v, o, f, b);
    if n.Success? {
      if Positive(v) {
        PositiveEvaluates(v, o, f, b);
      }
      if Growing(v) {
        GrowingEvaluates(v, o, f, b, State([], [], [], 0), Facts(false, 0, false, false, 0, false, false),
                         UNBOUND.(eaten := m.end - m.start, first := Some(m)));
      }
    }
  }

  lemma {:induction false} SkipIsForetold(v: Value, o: State, f: Facts, b: Bound, m: Match)
    requires Exact(v) && Found(m, b) && Eval(v, o, f, b).Success?
    ensures Eval(v, o, f, b).value == Foretold(v, m)
  {
    ExactEvaluates(v, o, f, b, State([], [], [], 0), Facts(false, 0, false, false, 0, false, false),
                   UNBOUND.(eaten := m.end - m.start, first := Some(m)));
  }

  lemma {:induction false} ActsAreForetold(e: Scene, rule: Rule, at: int, f: Facts, b: Bound, i: nat, o: State,
                                           skip: int, hit: Option<Hit>, m: Match, x: int)
    requires SkipsForetold(rule) && i <= |rule.then_| && Found(m, b) && skip == SkipTo(rule.then_, i, m)
    requires EmptyAt(hit, x) ==> EmitMeets(rule, m, at, x)
    ensures var a := ActsFrom(e, rule, at, f, b, i, o, skip, hit);
            a.Success? && EmptyAt(a.value.hit, x) ==> EmitMeets(rule, m, at, x)
    decreases |rule.then_| - i
  {
    if i < |rule.then_| && ActsFrom(e, rule, at, f, b, i, o, skip, hit).Success? {
      var next := SkipTo(rule.then_, i + 1, m);
      match rule.then_[i]
      case Refuse =>
      case Abstain =>
      case Emit(symbol, extent) =>
        var h := Answered(e, rule.name, symbol, extent, at, skip, o, f, b).value;
        AnswerIsForetold(e, rule.name, symbol, extent, at, skip, o, f, b, m);
        ActsAreForetold(e, rule, at, f, b, i + 1, o, next, Some(h), m, x);
      case Skip(v) =>
        SkipIsForetold(v, o, f, b, m);
        ActsAreForetold(e, rule, at, f, b, i + 1, o, next, hit, m, x);
      case _ =>
        ActsAreForetold(e, rule, at, f, b, i + 1, Written(rule.then_[i], o, f, b).value, next, hit, m, x);
    }
  }

  // ---- a rule that answers where it stands

  /** Not empty, or standing at an offset, and then from a rule that could be empty. */
  predicate Stands(hit: Option<Hit>, at: int, rule: Rule) {
    hit.Some? && hit.value.length == 0 ==> !SolidRule(rule) && (Steady(rule) ==> hit.value.start == at)
  }

  lemma {:induction false} ActsStand(e: Scene, rule: Rule, at: int, f: Facts, b: Bound,
                                     i: nat, o: State, skip: int, hit: Option<Hit>)
    requires i <= |rule.then_| && Stands(hit, at, rule)
    requires (forall j :: 0 <= j < i ==> !rule.then_[j].Skip?) ==> skip == 0
    ensures var a := ActsFrom(e, rule, at, f, b, i, o, skip, hit); a.Success? ==> Stands(a.value.hit, at, rule)
    decreases |rule.then_| - i
  {
    if i < |rule.then_| && ActsFrom(e, rule, at, f, b, i, o, skip, hit).Success? {
      match rule.then_[i]
      case Refuse =>
      case Abstain =>
      case Emit(symbol, extent) =>
        var h := Answered(e, rule.name, symbol, extent, at, skip, o, f, b).value;
        if Solid(rule.then_[i]) {
          PositiveEvaluates(extent.v, o, f, b);
        }
        ActsStand(e, rule, at, f, b, i + 1, o, skip, Some(h));
      case Skip(v) =>
        ActsStand(e, rule, at, f, b, i + 1, o, skip + Eval(v, o, f, b).value, hit);
      case _ =>
        ActsStand(e, rule, at, f, b, i + 1, Written(rule.then_[i], o, f, b).value, skip, hit);
    }
  }

  // ---- from a rule to a book

  /** A rule answers empty only where it could. */
  lemma {:induction false} TriedMeets(e: Scene, rule: Rule, at: int, o: State, f: Facts, anew: bool, x: int)
    requires Sound(e.env) && 0 <= at <= |e.text|
    ensures var a := Tried(e, rule, at, o, f, anew);
            a.Success? && EmptyAt(a.value.hit, x) ==> CanMeet(e, rule, at, x)
  {
    var g := GuardFrom(e, rule.when, 0, at, o, f, anew, UNBOUND);
    if Tried(e, rule, at, o, f, anew).Success? && g.value.Some? {
      var p := Leading(rule.when, 0);
      var facts := FactsAt(e.text, at, e.book.tab).value;
      if Withheld in rule.when {
        WithheldFails(e, rule.when, 0, at, o, f, anew, UNBOUND);
      } else if p.Some? && SkipsForetold(rule) {
        LeadingIsFound(e, rule.when, 0, at, o, f, anew);
        ActsAreForetold(e, rule, at, facts, g.value.value, 0, o, 0, None, e.env.probe(p.value, e.text, at).value, x);
      } else {
        ActsStand(e, rule, at, facts, g.value.value, 0, o, 0, None);
      }
    }
  }

  /** An empty answer at an offset is given from there, and nothing moved the phase there. */
  ghost predicate Pinned(e: Scene, phase: Phase, hit: Option<Hit>, off: int, x: int) {
    EmptyAt(hit, x) ==> off == x && Unmoved(e, phase, x)
  }

  lemma {:induction false} RulesArePinned(e: Scene, phase: Phase, r: nat, off: int, f: Facts, sealed: Option<string>,
                                          o: State, anew: bool, spent: set<string>, x: int)
    requires Sound(e.env) && Unleant(e, x) && r <= |e.book.rules| && 0 <= off <= |e.text|
    ensures var a := RulesFrom(e, phase, r, off, f, sealed, o, anew, spent);
            a.Success? ==> Pinned(e, phase, a.value.hit, off, x)
    decreases |e.book.rules| - r
  {
    if r < |e.book.rules| {
      var rule := e.book.rules[r];
      if PassedOver(rule, phase, sealed, spent) {
        RulesArePinned(e, phase, r + 1, off, f, sealed, o, anew, spent, x);
      } else {
        TriedMeets(e, rule, off, o, f, anew, x);
        var a := Tried(e, rule, off, o, f, anew);
        if a.Success? && a.value.hit.None? && !a.value.abstained {
          RulesArePinned(e, phase, r + 1, off, f, sealed, a.value.organs, anew, spent, x);
        }
      }
    }
  }

  lemma {:induction false} SoakEndsBlank(text: string, off: nat, tab: int, col: int)
    requires tab > 0
    ensures var end := Soaked(text, off, tab, col).0; end > off ==> end <= |text| && IsBlank(text[end - 1])
    decreases |text| - off
  {
    if off < |text| && IsBlank(text[off]) {
      SoakEndsBlank(text, off + 1, tab, Advance(text[off], tab, col));
    }
  }

  /** An empty answer at an offset that no trivia ends at is given from there. */
  ghost predicate Placed(e: Scene, hit: Option<Hit>, at: int, x: int) {
    EmptyAt(hit, x) ==> at == x && !TriviaEnds(e, x)
  }

  lemma {:induction false} PhaseIsPlaced(e: Scene, phase: Phase, at: int, o: State, anew: bool, broke: bool,
                                         spent: set<string>, x: int)
    requires Sound(e.env) && Unleant(e, x) && 0 <= at <= |e.text|
    ensures var a := Entered(e, phase, at, o, anew, broke, spent); a.Success? ==> Placed(e, a.value.hit, at, x)
  {
    if Entered(e, phase, at, o, anew, broke, spent).Success? && !(phase == Matched || (phase == Layout && !anew)) {
      var stand := Stood(e, phase, at, o).value;
      RulesArePinned(e, phase, 0, stand.0, stand.1.(broke := broke), Sealed(e.book, o), o, anew, spent, x);
      if phase == Layout {
        SoakEndsBlank(e.text, at, e.book.tab, Carried(e.book, o).value.GetOr(0));
      }
    }
  }

  lemma {:induction false} PhasesArePlaced(e: Scene, phases: seq<Phase>, at: int, o: State, anew: bool, broke: bool,
                                           spent: set<string>, x: int)
    requires Sound(e.env) && Unleant(e, x) && 0 <= at <= |e.text|
    ensures var a := PhasesFrom(e, phases, at, o, anew, broke, spent); a.Success? ==> Placed(e, a.value.hit, at, x)
    decreases |phases|
  {
    if phases != [] {
      PhaseIsPlaced(e, phases[0], at, o, anew, broke, spent, x);
      var a := Entered(e, phases[0], at, o, anew, broke, spent);
      if a.Success? && a.value.hit.None? && !a.value.abstained {
        PhasesArePlaced(e, phases[1..], at, a.value.organs, anew, broke, spent, x);
      }
    }
  }

  /** Trivia that does not end at an offset does not lead there. */
  lemma {:induction false} NoTriviaLeads(e: Scene, at: int, x: int)
    requires Sound(e.env) && 0 <= at <= |e.text| && at + Over(e, at) == x && !TriviaEnds(e, x)
    ensures at == x
  {
  }

  lemma {:induction false} OverStaysInside(e: Scene, at: int)
    requires Sound(e.env) && 0 <= at <= |e.text|
    ensures 0 <= at <= at + Over(e, at) <= |e.text|
  {
  }

  /** No ask further back answers zero-width at an offset nothing leans over to. */
  lemma {:induction false} StepStandsStill(e: Scene, at: int, o: State, spent: set<string>, x: int)
    requires Sound(e.env) && Unleant(e, x) && 0 <= at <= |e.text|
    ensures var a := Stepped(e, at, o, true, spent); a.Success? && EmptyAt(a.value.hit, x) ==> at == x
  {
    var over := Over(e, at);
    OverStaysInside(e, at);
    PhasesArePlaced(e, PHASES, at + over, o, true, Broken(e, at, over, o), spent, x);
    if at + over == x && !TriviaEnds(e, x) {
      NoTriviaLeads(e, at, x);
    }
  }

  lemma {:induction false} BookStandsStill(e: Scene, asked: Option<Hit -> bool>, x: int)
    requires Sound(e.env) && Unleant(e, x)
    ensures StandsStillAt(Walking(e, asked), x)
  {
    var w := Walking(e, asked);
    forall at: int, o: State, spent: set<string> {:trigger w.ask(at, o, spent)} |
      0 <= at <= |w.text| && w.ask(at, o, spent).Success? && w.ask(at, o, spent).value.hit.Some?
      ensures var h := w.ask(at, o, spent).value.hit.value;
              h.length == 0 && h.start == x ==> at == x
    {
      StepStandsStill(e, at, o, spent, x);
    }
  }

  /** For any book, any text and any offset nothing leans over to, `STALL` is the bound. */
  lemma {:induction false} BookStacks(e: Scene, asked: Option<Hit -> bool>, lo: nat, hi: nat, o: State, limit: nat,
                                      x: int)
    requires Sound(e.env) && BookSkipsForward(e.book) && lo <= |e.text| && hi <= |e.text| && Unleant(e, x)
    ensures Stacked(Run(Walking(e, asked), hi, limit, Arriving(lo, o)).hits, x) <= STALL
  {
    BookIsForward(e, asked);
    BookStandsStill(e, asked, x);
    StackedStandingStill(Walking(e, asked), hi, limit, Arriving(lo, o), x);
  }

  /** A book without trivia, layout rules or skips leans over to no offset of any text. */
  lemma {:induction false} PlainBookLeansNowhere(e: Scene, x: int)
    requires e.book.trivia.None?
    requires forall r :: 0 <= r < |e.book.rules| ==>
               && e.book.rules[r].phase != Layout
               && forall i :: 0 <= i < |e.book.rules[r].then_| ==> !e.book.rules[r].then_[i].Skip?
    ensures Unleant(e, x)
  {
    forall r, off | 0 <= r < |e.book.rules| && CanMeet(e, e.book.rules[r], off, x) ensures off == x {
      var rule := e.book.rules[r];
      var p := Leading(rule.when, 0);
      if Withheld !in rule.when && p.Some? && SkipsForetold(rule) {
        NoSkipLeads(rule, e.env.probe(p.value, e.text, off).value, off, x);
      }
    }
  }

  lemma {:induction false} NoSkipLeads(rule: Rule, m: Match, off: int, x: int)
    requires EmitMeets(rule, m, off, x) && forall i :: 0 <= i < |rule.then_| ==> !rule.then_[i].Skip?
    ensures off == x
  {
    var i :| 0 <= i < |rule.then_| && rule.then_[i].Emit? && MayBeEmpty(rule.then_[i].extent, m)
             && off + SkipTo(rule.then_, i, m) == x;
    NothingSkipped(rule.then_, i, m);
  }

  lemma {:induction false} NothingSkipped(acts: seq<Action>, i: nat, m: Match)
    requires i <= |acts| && forall j :: 0 <= j < i ==> !acts[j].Skip?
    ensures SkipTo(acts, i, m) == 0
  {
    if i > 0 {
      NothingSkipped(acts, i - 1, m);
    }
  }

  // ---- a book that passes the limit

  /** Leans from the front of a text of one byte to its end, and opens a frame. */
  function Leans(): Rule {
    Rule("over", Inside, [FramesDepthIs(Eq, Num(0))],
         [Skip(Num(1)), Emit("a", Stated(Num(0))), PushFrame(Num(0), 0)], {}, None, None)
  }

  /** Answers empty and opens one more frame, up to `STALL` of them. */
  function Again(): Rule {
    Rule("again", Inside, [FramesDepthIs(Ge, Num(1)), FramesDepthIs(Le, Num(STALL))],
         [Emit("b", Stated(Num(0))), PushFrame(Num(0), 0)], {}, None, None)
  }

  predicate Leaning(e: Scene) {
    && e.text == "x" && e.book.tab == 8 && e.book.budget.None? && !e.book.lines && e.book.trivia.None?
    && e.book.rules == [Leans(), Again()]
  }

  /** Such a book over such a text, with no probes at all. */
  function LeaningScene(): (e: Scene)
    ensures Leaning(e) && Sound(e.env)
  {
    Scene(Book([Leans(), Again()], 8, None, false, [], None),
          Env((p: string, text: string, off: int) => None, (s: string) => s, (t: string, s: string) => None), "x")
  }

  function Opened(o: State): State {
    o.(frames := o.frames + [Frame(0, 0)])
  }

  lemma {:induction false} LeansTries(e: Scene, at: int, o: State, f: Facts)
    requires Leaning(e) && 0 <= at <= 1
    ensures Tried(e, Leans(), at, o, f, true)
         == Success(if o.frames == [] then Attempted(Some(Hit("a", at + 1, 0, "over")), Opened(o), false)
                    else Attempted(None, o, false))
  {
    var g := FactsAt(e.text, at, 8).value;
    var h := Hit("a", at + 1, 0, "over");
    assert GuardFrom(e, Leans().when, 1, at, o, f, true, UNBOUND) == Success(Some(UNBOUND));
    var done := Success(Attempted(Some(h), Opened(o), false));
    assert ActsFrom(e, Leans(), at, g, UNBOUND, 3, Opened(o), 1, Some(h)) == done;
    assert ActsFrom(e, Leans(), at, g, UNBOUND, 2, o, 1, Some(h)) == done;
    assert ActsFrom(e, Leans(), at, g, UNBOUND, 1, o, 1, None) == done;
  }

  lemma {:induction false} AgainTries(e: Scene, at: int, o: State, f: Facts)
    requires Leaning(e) && 0 <= at <= 1
    ensures Tried(e, Again(), at, o, f, true)
         == Success(if 1 <= |o.frames| <= STALL then Attempted(Some(Hit("b", at, 0, "again")), Opened(o), false)
                    else Attempted(None, o, false))
  {
    var g := FactsAt(e.text, at, 8).value;
    var h := Hit("b", at, 0, "again");
    var few := Compare(|o.frames|, Le, STALL);
    assert GuardFrom(e, Again().when, 2, at, o, f, true, UNBOUND) == Success(Some(UNBOUND));
    assert GuardFrom(e, Again().when, 1, at, o, f, true, UNBOUND) == Check(few, UNBOUND);
    var done := Success(Attempted(Some(h), Opened(o), false));
    assert ActsFrom(e, Again(), at, g, UNBOUND, 2, Opened(o), 0, Some(h)) == done;
    assert ActsFrom(e, Again(), at, g, UNBOUND, 1, o, 0, Some(h)) == done;
  }

  lemma {:induction false} LeaningIgnores(e: Scene, phase: Phase, at: int, o: State, broke: bool)
    requires Leaning(e) && 0 <= at <= 1 && phase != Inside
    ensures Entered(e, phase, at, o, true, broke, {}) == Success(Attempted(None, o, false))
  {
    if phase != Matched {
      var stand := Stood(e, phase, at, o).value;
      var f := stand.1.(broke := broke);
      assert RulesFrom(e, phase, 2, stand.0, f, Sealed(e.book, o), o, true, {}) == Success(Attempted(None, o, false));
      assert RulesFrom(e, phase, 1, stand.0, f, Sealed(e.book, o), o, true, {}) == Success(Attempted(None, o, false));
    }
  }

  lemma {:induction false} LeaningDeclines(e: Scene, phases: seq<Phase>, at: int, o: State, broke: bool)
    requires Leaning(e) && 0 <= at <= 1 && Inside !in phases
    ensures PhasesFrom(e, phases, at, o, true, broke, {}) == Success(Answer(None, o))
    decreases |phases|
  {
    if phases != [] {
      LeaningIgnores(e, phases[0], at, o, broke);
      LeaningDeclines(e, phases[1..], at, o, broke);
    }
  }

  /** What such a book answers, by how many frames are open. */
  function LeaningAnswer(at: int, o: State): Answer {
    if o.frames == [] then Answer(Some(Hit("a", at + 1, 0, "over")), Opened(o))
    else if |o.frames| <= STALL then Answer(Some(Hit("b", at, 0, "again")), Opened(o))
    else Answer(None, o)
  }

  lemma {:induction false} LeaningEnters(e: Scene, at: int, o: State, broke: bool)
    requires Leaning(e) && 0 <= at <= 1
    ensures var a := LeaningAnswer(at, o);
            Entered(e, Inside, at, o, true, broke, {}) == Success(Attempted(a.hit, a.organs, false))
  {
    var a := LeaningAnswer(at, o);
    var f := Stood(e, Inside, at, o).value.1.(broke := broke);
    LeansTries(e, at, o, f);
    AgainTries(e, at, o, f);
    NamesNothingSpent();
    assert RulesFrom(e, Inside, 2, at, f, Sealed(e.book, o), o, true, {}) == Success(Attempted(None, o, false));
    if o.frames != [] {
      assert RulesFrom(e, Inside, 1, at, f, Sealed(e.book, o), o, true, {})
          == Success(Attempted(a.hit, a.organs, false));
    }
    assert RulesFrom(e, Inside, 0, at, f, Sealed(e.book, o), o, true, {})
        == Success(Attempted(a.hit, a.organs, false));
  }

  lemma {:induction false} NamesNothingSpent()
    ensures !Spent(Leans(), {}) && !Spent(Again(), {})
  {
    assert "a" in Emits(Leans().then_);
    assert "b" in Emits(Again().then_);
  }

  lemma {:induction false} LeaningPhases(e: Scene, phases: seq<Phase>, at: int, o: State, broke: bool)
    requires Leaning(e) && 0 <= at <= 1 && phases != [] && phases[0] == Inside && Inside !in phases[1..]
    ensures PhasesFrom(e, phases, at, o, true, broke, {}) == Success(LeaningAnswer(at, o))
  {
    LeaningEnters(e, at, o, broke);
    LeaningDeclines(e, phases[1..], at, o, broke);
  }

  lemma {:induction false} LeaningSteps(e: Scene, at: int, o: State)
    requires Leaning(e) && 0 <= at <= 1
    ensures Stepped(e, at, o, true, {}) == Success(LeaningAnswer(at, o))
  {
    LeaningPhases(e, PHASES, at, o, false);
  }

  /** A walker over `x` that answers as such a book does. */
  ghost predicate AnswersLeaning(w: Walker) {
    && w.text == "x" && !w.lines && w.asked.None?
    && forall at: int, o: State {:trigger w.ask(at, o, {})} :: 0 <= at <= 1 ==>
         w.ask(at, o, {}) == Success(LeaningAnswer(at, o))
  }

  lemma {:induction false} LeaningRepeats(w: Walker, fuel: nat, p: Point)
    requires AnswersLeaning(w)
    requires p.at == 1 && p.spent == {} && |p.organs.frames| == p.held + 1 <= STALL + 1 && fuel > STALL - p.held
    ensures Run(w, 1, fuel, p).end.Done? && Stacked(Run(w, 1, fuel, p).hits, 1) == STALL - p.held
    decreases STALL - p.held
  {
    assert w.ask(1, p.organs, {}) == Success(LeaningAnswer(1, p.organs));
    if p.held < STALL {
      var m := Turn(w, p);
      assert |Opened(p.organs).frames| == |p.organs.frames| + 1;
      LeaningRepeats(w, fuel - 1, m.p);
      StackedLed(m.hit, Run(w, 1, fuel - 1, m.p).hits, 1);
    }
  }

  lemma {:induction false} LeaningRuns(w: Walker, limit: nat)
    requires AnswersLeaning(w) && limit > STALL + 1
    ensures var r := Run(w, 1, limit, Arriving(0, START));
            r.end.Done? && Stacked(r.hits, 1) == STALL + 1
  {
    var p := Arriving(0, START);
    assert w.ask(0, START, {}) == Success(LeaningAnswer(0, START));
    var m := Turn(w, p);
    LeaningRepeats(w, limit - 1, m.p);
    StackedLed(m.hit, Run(w, 1, limit - 1, m.p).hits, 1);
  }

  /** `STALL` is not the bound for every book: a walk of `x` by this one finishes with one
      more zero-width answer at the end of the text. */
  lemma {:induction false} BookCanPassStall(e: Scene, limit: nat)
    requires Leaning(e) && limit > STALL + 1
    ensures BookSkipsForward(e.book)
    ensures var r := Run(Walking(e, None), |e.text|, limit, Arriving(0, START));
            r.end.Done? && Stacked(r.hits, 1) == 513
  {
    var w := Walking(e, None);
    forall at: int, o: State {:trigger w.ask(at, o, {})} | 0 <= at <= 1
      ensures w.ask(at, o, {}) == Success(LeaningAnswer(at, o))
    {
      LeaningSteps(e, at, o);
    }
    LeaningRuns(w, limit);
  }
}
