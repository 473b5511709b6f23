/** What the interpreter promises of every book: where it answers, what it names, how
    far its bounded loops go. */
module Scanning {
  import opened Wrappers
  import opened Books
  import opened Guards
  import opened Steps
  import opened Walks

  // ---- answers never stand behind the ask

  /** Value expressions that cannot evaluate below zero. */
  predicate NonNegative(v: Value) {
    match v
    case Num(n) => n >= 0
    case Span(_) => true
    case Number(_) => true
    case FramesDepth => true
    case MarksDepth => true
    case Bin(Plus, a, b) => NonNegative(a) && NonNegative(b)
    case Bin(Min, a, b) => NonNegative(a) && NonNegative(b)
    case Bin(Max, a, b) => NonNegative(a) || NonNegative(b)
    case _ => false
  }

  predicate SkipsForward(rule: Rule) {
    forall i :: 0 <= i < |rule.then_| && rule.then_[i].Skip? ==> NonNegative(rule.then_[i].v)
  }

  predicate BookSkipsForward(book: Book) {
    forall r :: 0 <= r < |book.rules| ==> SkipsForward(book.rules[r])
  }

  lemma {:induction false} FigureIsNonNegative(s: string, n: nat)
    ensures Figure(s, n).Success? ==> Figure(s, n).value >= 0
    decreases |s|
  {
    if s != [] && '0' <= s[0] <= '9' {
      FigureIsNonNegative(s[1..], 10 * n + (s[0] as int - '0' as int));
    }
  }

  lemma {:induction false} NonNegativeEvaluates(v: Value, o: State, f: Facts, b: Bound)
    requires NonNegative(v) && Eval(v, o, f, b).Success?
    ensures Eval(v, o, f, b).value >= 0
  {
    match v
    case Number(g) => FigureIsNonNegative(Caught(b.first, g).value.GetOr(""), 0);
    case Bin(op, x, y) =>
      if NonNegative(x) { NonNegativeEvaluates(x, o, f, b); }
      if NonNegative(y) { NonNegativeEvaluates(y, o, f, b); }
    case _ =>
  }

  lemma {:induction false} ActsAnswerAhead(e: Scene, rule: Rule, at: int, f: Facts, b: Bound,
                                           i: nat, o: State, skip: int, hit: Option<Hit>)
    requires SkipsForward(rule) && i <= |rule.then_| && 0 <= skip
    requires hit.Some? ==> at <= hit.value.start && 0 <= hit.value.length
    requires ActsFrom(e, rule, at, f, b, i, o, skip, hit).Success?
    ensures var a := ActsFrom(e, rule, at, f, b, i, o, skip, hit).value;
            a.hit.Some? ==> at <= a.hit.value.start && 0 <= a.hit.value.length
    decreases |rule.then_| - i
  {
    if i < |rule.then_| {
      match rule.then_[i]
      case Refuse =>
      case Abstain =>
      case Emit(symbol, extent) =>
        var h := Answered(e, rule.name, symbol, extent, at, skip, o, f, b).value;
        ActsAnswerAhead(e, rule, at, f, b, i + 1, o, skip, Some(h));
      case Skip(v) =>
        NonNegativeEvaluates(v, o, f, b);
        ActsAnswerAhead(e, rule, at, f, b, i + 1, o, skip + Eval(v, o, f, b).value, hit);
      case _ =>
        ActsAnswerAhead(e, rule, at, f, b, i + 1, Written(rule.then_[i], o, f, b).value, skip, hit);
    }
  }

  lemma {:induction false} TriedAnswersAhead(e: Scene, rule: Rule, at: int, o: State, f: Facts, anew: bool)
    requires SkipsForward(rule) && Tried(e, rule, at, o, f, anew).Success?
    ensures var a := Tried(e, rule, at, o, f, anew).value;
            a.hit.Some? ==> at <= a.hit.value.start && 0 <= a.hit.value.length
  {
    var g := GuardFrom(e, rule.when, 0, at, o, f, anew, UNBOUND).value;
    if g.Some? {
      ActsAnswerAhead(e, rule, at, FactsAt(e.text, at, e.book.tab).value, g.value, 0, o, 0, None);
    }
  }

  lemma {:induction false} RulesAnswerAhead(e: Scene, phase: Phase, r: nat, off: int, f: Facts, sealed: Option<string>,
                                            o: State, anew: bool, spent: set<string>)
    requires BookSkipsForward(e.book) && r <= |e.book.rules|
    requires RulesFrom(e, phase, r, off, f, sealed, o, anew, spent).Success?
    ensures var a := RulesFrom(e, phase, r, off, f, sealed, o, anew, spent).value;
            a.hit.Some? ==> off <= a.hit.value.start && 0 <= a.hit.value.length
    decreases |e.book.rules| - r
  {
    if r < |e.book.rules| {
      var rule := e.book.rules[r];
      if PassedOver(rule, phase, sealed, spent) {
        RulesAnswerAhead(e, phase, r + 1, off, f, sealed, o, anew, spent);
      } else {
        TriedAnswersAhead(e, rule, off, o, f, anew);
        var a := Tried(e, rule, off, o, f, anew).value;
        if a.hit.None? && !a.abstained {
          RulesAnswerAhead(e, phase, r + 1, off, f, sealed, a.organs, anew, spent);
        }
      }
    }
  }

  /** A hit, if there is one, stands at or after an offset. */
  predicate Ahead(hit: Option<Hit>, at: int) {
    hit.Some? ==> at <= hit.value.start && 0 <= hit.value.length
  }

  lemma {:induction false} PhaseAnswersAhead(e: Scene, phase: Phase, at: int, o: State, anew: bool, broke: bool,
                                             spent: set<string>)
    requires BookSkipsForward(e.book)
    ensures var a := Entered(e, phase, at, o, anew, broke, spent); a.Success? ==> Ahead(a.value.hit, at)
  {
    if Entered(e, phase, at, o, anew, broke, spent).Success? && !(phase == Matched || (phase == Layout && !anew)) {
      var stand := Stood(e, phase, at, o).value;
      RulesAnswerAhead(e, phase, 0, stand.0, stand.1.(broke := broke), Sealed(e.book, o), o, anew, spent);
    }
  }

  lemma {:induction false} PhasesAnswerAhead(e: Scene, phases: seq<Phase>, at: int, o: State, anew: bool, broke: bool,
                                             spent: set<string>)
    requires BookSkipsForward(e.book)
    ensures var a := PhasesFrom(e, phases, at, o, anew, broke, spent); a.Success? ==> Ahead(a.value.hit, at)
    decreases |phases|
  {
    if phases != [] {
      PhaseAnswersAhead(e, phases[0], at, o, anew, broke, spent);
      var a := Entered(e, phases[0], at, o, anew, broke, spent);
      if a.Success? && a.value.hit.None? && !a.value.abstained {
        PhasesAnswerAhead(e, phases[1..], at, a.value.organs, anew, broke, spent);
      }
    }
  }

  lemma {:induction false} OrderAnswersAhead(e: Scene, phases: seq<Phase>, at: int, over: int, o: State,
                                             spent: set<string>)
    requires BookSkipsForward(e.book) && over >= 0
    ensures var a := PhasesFrom(e, phases, at + over, o, true, Broken(e, at, over, o), spent);
            a.Success? ==> Ahead(a.value.hit, at)
  {
    PhasesAnswerAhead(e, phases, at + over, o, true, Broken(e, at, over, o), spent);
  }

  lemma {:induction false} StepAnswersAhead(e: Scene, at: int, o: State, spent: set<string>)
    requires Sound(e.env) && BookSkipsForward(e.book) && 0 <= at <= |e.text|
    ensures var a := Stepped(e, at, o, true, spent); a.Success? ==> Ahead(a.value.hit, at)
  {
    OrderAnswersAhead(e, PHASES, at, Over(e, at), o, spent);
  }

  /** A book whose skips cannot go back never answers behind an ask. */
  lemma {:induction false} BookIsForward(e: Scene, asked: Option<Hit -> bool>)
    requires Sound(e.env) && BookSkipsForward(e.book)
    ensures Forward(Walking(e, asked))
  {
    var w := Walking(e, asked);
    forall at: int, o: State, spent: set<string> {:trigger w.ask(at, o, spent)} |
      0 <= at <= |e.text| && w.ask(at, o, spent).Success? && w.ask(at, o, spent).value.hit.Some?
      ensures w.ask(at, o, spent).value.hit.value.start >= at
      ensures w.ask(at, o, spent).value.hit.value.length >= 0
    {
      StepAnswersAhead(e, at, o, spent);
    }
  }

  // ---- answers never name a spent terminal

  predicate Plain(rule: Rule) {
    |Emits(rule.then_)| <= 1 &&
    forall i :: 0 <= i < |rule.then_| && rule.then_[i].Emit? ==> !rule.then_[i].extent.Classified?
  }

  predicate BookIsPlain(book: Book) {
    forall r :: 0 <= r < |book.rules| ==> Plain(book.rules[r])
  }

  /** Every terminal a book can name. */
  function Terminals(rules: seq<Rule>): set<string> {
    if rules == [] then {} else (set s | s in Emits(rules[0].then_)) + Terminals(rules[1..])
  }

  lemma {:induction false} TerminalsHoldEmits(rules: seq<Rule>, r: nat, s: string)
    requires r < |rules| && s in Emits(rules[r].then_)
    ensures s in Terminals(rules)
    decreases |rules|
  {
    if r > 0 {
      TerminalsHoldEmits(rules[1..], r - 1, s);
    }
  }

  lemma {:induction false} EmitsHoldEach(acts: seq<Action>, i: nat)
    requires i < |acts| && acts[i].Emit?
    ensures acts[i].symbol in Emits(acts)
    decreases |acts|
  {
    if i > 0 {
      EmitsHoldEach(acts[1..], i - 1);
    }
  }

  lemma {:induction false} ActsNameAnEmit(e: Scene, rule: Rule, at: int, f: Facts, b: Bound,
                                          i: nat, o: State, skip: int, hit: Option<Hit>)
    requires Plain(rule) && i <= |rule.then_|
    requires hit.Some? ==> hit.value.symbol in Emits(rule.then_)
    requires ActsFrom(e, rule, at, f, b, i, o, skip, hit).Success?
    ensures var a := ActsFrom(e, rule, at, f, b, i, o, skip, hit).value;
            a.hit.Some? ==> a.hit.value.symbol in Emits(rule.then_)
    decreases |rule.then_| - i
  {
    if i < |rule.then_| {
      match rule.then_[i]
      case Refuse =>
      case Abstain =>
      case Emit(symbol, extent) =>
        EmitsHoldEach(rule.then_, i);
        var h := Answered(e, rule.name, symbol, extent, at, skip, o, f, b).value;
        ActsNameAnEmit(e, rule, at, f, b, i + 1, o, skip, Some(h));
      case Skip(v) =>
        ActsNameAnEmit(e, rule, at, f, b, i + 1, o, skip + Eval(v, o, f, b).value, hit);
      case _ =>
        ActsNameAnEmit(e, rule, at, f, b, i + 1, Written(rule.then_[i], o, f, b).value, skip, hit);
    }
  }

  lemma {:induction false} RulesNameUnspent(e: Scene, phase: Phase, r: nat, off: int, f: Facts, sealed: Option<string>,
                                            o: State, anew: bool, spent: set<string>)
    requires BookIsPlain(e.book) && r <= |e.book.rules|
    requires RulesFrom(e, phase, r, off, f, sealed, o, anew, spent).Success?
    ensures var a := RulesFrom(e, phase, r, off, f, sealed, o, anew, spent).value;
            a.hit.Some? ==> a.hit.value.symbol in Terminals(e.book.rules) - spent
    decreases |e.book.rules| - r
  {
    if r < |e.book.rules| {
      var rule := e.book.rules[r];
      if PassedOver(rule, phase, sealed, spent) {
        RulesNameUnspent(e, phase, r + 1, off, f, sealed, o, anew, spent);
      } else {
        var g := GuardFrom(e, rule.when, 0, off, o, f, anew, UNBOUND).value;
        if g.Some? {
          ActsNameAnEmit(e, rule, off, FactsAt(e.text, off, e.book.tab).value, g.value, 0, o, 0, None);
        }
        var a := Tried(e, rule, off, o, f, anew).value;
        if a.hit.Some? {
          TerminalsHoldEmits(e.book.rules, r, a.hit.value.symbol);
        } else if !a.abstained {
          RulesNameUnspent(e, phase, r + 1, off, f, sealed, a.organs, anew, spent);
        }
      }
    }
  }

  lemma {:induction false} PhasesNameUnspent(e: Scene, phases: seq<Phase>, at: int, o: State, anew: bool, broke: bool,
                                             spent: set<string>)
    requires BookIsPlain(e.book)
    requires PhasesFrom(e, phases, at, o, anew, broke, spent).Success?
    ensures var a := PhasesFrom(e, phases, at, o, anew, broke, spent).value;
            a.hit.Some? ==> a.hit.value.symbol in Terminals(e.book.rules) - spent
    decreases |phases|
  {
    if phases != [] {
      var phase := phases[0];
      if !(phase == Matched || (phase == Layout && !anew)) {
        var stand := Stood(e, phase, at, o).value;
        RulesNameUnspent(e, phase, 0, stand.0, stand.1.(broke := broke), Sealed(e.book, o), o, anew, spent);
      }
      var a := Entered(e, phase, at, o, anew, broke, spent).value;
      if a.hit.None? && !a.abstained {
        PhasesNameUnspent(e, phases[1..], at, a.organs, anew, broke, spent);
      }
    }
  }

  /** A book of single, unclassified emits never answers with a spent terminal. */
  lemma {:induction false} BookIsNovel(e: Scene, asked: Option<Hit -> bool>)
    requires BookIsPlain(e.book)
    ensures Novel(Walking(e, asked), Terminals(e.book.rules))
  {
    var w := Walking(e, asked);
    forall at: int, o: State, spent: set<string> {:trigger w.ask(at, o, spent)} |
      w.ask(at, o, spent).Success? && w.ask(at, o, spent).value.hit.Some?
      ensures w.ask(at, o, spent).value.hit.value.symbol in Terminals(e.book.rules) - spent
    {
      var over := Over(e, at);
      PhasesNameUnspent(e, PHASES, at + over, o, true, Broken(e, at, over, o), spent);
    }
  }

  // ---- the bounded loops of a guard

  /** A pass ends where it started plus what it ran, inside its ceiling. */
  lemma {:induction false} PassStaysUnderCeiling(e: Scene, at: int, off: int, ran: nat, cursor: int, ceiling: int,
                                                 o: State)
    requires SweptFrom(e, at, off, ran, cursor, ceiling, o).Success?
    ensures var p := SweptFrom(e, at, off, ran, cursor, ceiling, o).value;
            && p.cursor - p.ran == cursor - ran && ran <= p.ran
            && p.cursor <= (if cursor <= ceiling then ceiling else cursor)
            && p.at == at + p.eaten
    decreases ceiling - cursor
  {
    if cursor < ceiling {
      var f := FactsAt(e.text, off, e.book.tab).value.(lead := Carried(e.book, o).value.GetOr(0));
      var took := TakenFrom(e, 0, At(o.frames, cursor).value.kind, cursor, off, o, f).value;
      if took.Some? {
        var done := Applied(e, took.value.0, off, o, took.value.1).value;
        PassStaysUnderCeiling(e, at, off + took.value.1.eaten, ran + 1, cursor + 1, ceiling, done.organs);
      }
    }
  }

  /** A soak splits at any offset it passes. */
  lemma {:induction false} SoakSplits(text: string, off: nat, mid: nat, tab: int, col: int)
    requires tab > 0 && off <= mid <= Soaked(text, off, tab, col).0 <= |text|
    ensures exists part :: Soaked(text[..mid], off, tab, col) == (mid, part)
                           && Soaked(text, mid, tab, part) == Soaked(text, off, tab, col)
    decreases mid - off
  {
    if off < mid {
      SoakSplits(text, off + 1, mid, tab, Advance(text[off], tab, col));
    } else {
      assert Soaked(text[..mid], off, tab, col) == (mid, col);
    }
  }

  lemma {:induction false} AdvanceKeepsOrder(c: char, tab: int, a: int, b: int)
    requires tab > 0 && a <= b
    ensures Advance(c, tab, a) <= Advance(c, tab, b)
  {
    if c == '\t' {
      if b / tab < a / tab {
        EarlierStop(b, a, tab);
      }
      MultipleKeepsOrder(tab, a / tab, b / tab);
    }
  }

  lemma {:induction false} MultipleKeepsOrder(tab: int, m: int, n: int)
    requires tab > 0
    ensures m <= n ==> tab * m <= tab * n
  {
  }

  lemma {:induction false} EarlierStop(a: int, b: int, tab: int)
    requires tab > 0 && a / tab < b / tab
    ensures a < b
  {
    MultipleKeepsOrder(tab, a / tab + 1, b / tab);
  }

  /** A larger carry soaks to the same offset and to no smaller a column. */
  lemma {:induction false} SoakKeepsOrder(text: string, off: nat, tab: int, a: int, b: int)
    requires tab > 0 && a <= b
    ensures Soaked(text, off, tab, a).0 == Soaked(text, off, tab, b).0
    ensures Soaked(text, off, tab, a).1 <= Soaked(text, off, tab, b).1
    decreases |text| - off
  {
    if off < |text| && IsBlank(text[off]) {
      AdvanceKeepsOrder(text[off], tab, a, b);
      SoakKeepsOrder(text, off + 1, tab, Advance(text[off], tab, a), Advance(text[off], tab, b));
    }
  }

  /** Shifting the carry by whole tab stops shifts the columns by as much. */
  lemma {:induction false} SoakShifts(text: string, off: nat, tab: int, col: int, stops: int)
    requires tab > 0
    ensures Soaked(text, off, tab, col + stops * tab).0 == Soaked(text, off, tab, col).0
    ensures Soaked(text, off, tab, col + stops * tab).1 == Soaked(text, off, tab, col).1 + stops * tab
    decreases |text| - off
  {
    if off < |text| && IsBlank(text[off]) {
      ModShifts(col, stops, tab);
      SoakShifts(text, off + 1, tab, Advance(text[off], tab, col), stops);
    }
  }

  lemma {:induction false} ModShifts(col: int, stops: int, tab: int)
    requires tab > 0
    ensures (col + stops * tab) % tab == col % tab
  {
    var q, r := col / tab, col % tab;
    assert col + stops * tab == (q + stops) * tab + r by {
      assert col == q * tab + r;
    }
    EuclidIsUnique(col + stops * tab, tab, q + stops, r);
  }

  lemma {:induction false} EuclidIsUnique(n: int, tab: int, q: int, r: int)
    requires tab > 0 && n == q * tab + r && 0 <= r < tab
    ensures n % tab == r
  {
    assert n == n / tab * tab + n % tab;
    MultipleKeepsOrder(tab, n / tab + 1, q);
    MultipleKeepsOrder(tab, q + 1, n / tab);
  }

  /** A bounded soak passes only blanks, and overshoots its target by less than a tab. */
  lemma {:induction false} BoundedSoakStops(text: string, off: nat, tab: int, col: int, want: int, limit: int, ate: nat)
    requires tab > 0
    ensures var (end, got) := SoakedTo(text, off, tab, col, want, limit, ate);
            && (forall i :: off <= i < end && i < |text| ==> IsBlank(text[i]))
            && (off < end ==> got < want + tab)
            && (end >= |text| || !IsBlank(text[end]) || got >= want || ate + (end - off) >= limit)
    decreases |text| - off
  {
    if off < |text| && IsBlank(text[off]) && col < want && ate < limit {
      BoundedSoakStops(text, off + 1, tab, Advance(text[off], tab, col), want, limit, ate + 1);
    }
  }

  // ---- nesting

  /** One token of a nested run: how it moves the depth, and where it ends. */
  function Token(e: Scene, open: string, close: string, off: int): (int, int) {
    var c := e.env.probe(close, e.text, off);
    if c.Some? then (-1, c.value.end) else
    var o := e.env.probe(open, e.text, off);
    if o.Some? then (1, o.value.end) else (0, off + 1)
  }

  /** Where `k` tokens from `off` end, and the depth they sum to. */
  function Offset(e: Scene, open: string, close: string, off: int, k: nat): int
    decreases k
  {
    if k == 0 then off else Offset(e, open, close, Token(e, open, close, off).1, k - 1)
  }

  function Depth(e: Scene, open: string, close: string, off: int, k: nat): int
    decreases k
  {
    if k == 0 then 0
    else Token(e, open, close, off).0 + Depth(e, open, close, Token(e, open, close, off).1, k - 1)
  }

  /** The tokens a nested run claims. */
  function Tokens(e: Scene, open: string, close: string, off: int, depth: nat): nat
    requires Nested(e, open, close, off, depth).Success?
    decreases |e.text| - off, depth
  {
    if off >= |e.text| || depth == 0 then 0 else
    var (move, next) := Token(e, open, close, off);
    1 + Tokens(e, open, close, next, depth + move)
  }

  /** A nested run ends at a token boundary, paid off or at the end of the text. */
  lemma {:induction false} NestEndsPaidOff(e: Scene, open: string, close: string, off: int, depth: nat)
    requires Nested(e, open, close, off, depth).Success?
    ensures var (end, left) := Nested(e, open, close, off, depth).value;
            var k := Tokens(e, open, close, off, depth);
            && end == Offset(e, open, close, off, k)
            && left == depth + Depth(e, open, close, off, k)
            && (left == 0 || end >= |e.text|)
    decreases |e.text| - off, depth
  {
    if off < |e.text| && depth > 0 {
      var (move, next) := Token(e, open, close, off);
      NestEndsPaidOff(e, open, close, next, depth + move);
    }
  }

  /** And at no boundary before it was the count paid off or the text at its end. */
  lemma {:induction false} NestEndsAtFirst(e: Scene, open: string, close: string, off: int, depth: nat, j: nat)
    requires Nested(e, open, close, off, depth).Success?
    requires j < Tokens(e, open, close, off, depth)
    ensures Offset(e, open, close, off, j) < |e.text| && depth + Depth(e, open, close, off, j) > 0
    decreases |e.text| - off, depth
  {
    if j > 0 {
      var (move, next) := Token(e, open, close, off);
      NestEndsAtFirst(e, open, close, next, depth + move, j - 1);
    }
  }
}
