/** The answer of a customary at one offset: guards, the organ pass, actions, phases. */
module Steps {
  import opened Wrappers
  import opened Books
  import opened Guards

  // ---- actions

  /** What one rule did: its answer, the organs it left, and whether it withdrew the ask. */
  datatype Attempted = Attempted(hit: Option<Hit>, organs: State, abstained: bool)

  function Sliced(s: Option<Slice>, b: Bound): Result<Option<string>> {
    match s
    case None => Success(Some(""))
    case Some(Whole) => if b.first.None? then Success(Some("")) else Caught(b.first, 0)
    case Some(Group(g)) => if b.first.None? then Success(Some("")) else Caught(b.first, g)
    case Some(Literal(s)) => Success(Some(s))
  }

  /** A frame stack popped through its innermost frame of one kind, or emptied. */
  function FramesUntil(s: seq<Frame>, kind: int): seq<Frame> {
    if s == [] then []
    else if s[|s| - 1].kind == kind then s[..|s| - 1]
    else FramesUntil(s[..|s| - 1], kind)
  }

  function MarksUntil(s: seq<Mark>, kind: int): seq<Mark> {
    if s == [] then []
    else if s[|s| - 1].kind == kind then s[..|s| - 1]
    else MarksUntil(s[..|s| - 1], kind)
  }

  /** The organ writes of one action; answers and withdrawals write nothing. */
  function Written(act: Action, o: State, f: Facts, b: Bound): Result<State> {
    match act
    case PushFrame(width, kind) =>
      var w :- Eval(width, o, f, b);
      Success(o.(frames := o.frames + [Frame(w, kind)]))
    case PushMark(kind, count, tag) =>
      var t :- Sliced(tag, b);
      var n :- Eval(count, o, f, b);
      Success(o.(marks := o.marks + [Mark(kind, n, t)]))
    case PopFrame => Success(if o.frames == [] then o else o.(frames := o.frames[..|o.frames| - 1]))
    case PopMark => Success(if o.marks == [] then o else o.(marks := o.marks[..|o.marks| - 1]))
    case PopFrames(kind) => Success(o.(frames := FramesUntil(o.frames, kind)))
    case PopMarks(kind) => Success(o.(marks := MarksUntil(o.marks, kind)))
    case Set(r, v) =>
      var n :- Eval(v, o, f, b);
      var regs :- Put(o.regs, r, n);
      Success(o.(regs := regs))
    case Refuse => Success(o)
    case Abstain => Success(o)
    case Emit(_, _) => Success(o)
    case Skip(_) => Success(o)
  }

  /** The answer an `emit` makes: its terminal, renamed by a class table where it names one. */
  function Answered(e: Scene, rule: string, symbol: string, extent: Extent,
                    at: int, skip: int, o: State, f: Facts, b: Bound): Result<Hit> {
    match extent
    case Claimed => Success(Hit(symbol, at + skip, Length(b.eaten), rule))
    case Classified(table) =>
      var name := e.env.renamed(table, Cut(e.text, at, at + b.eaten)).GetOr(symbol);
      Success(Hit(name, at + skip, Length(b.eaten), rule))
    case Stated(v) =>
      var n :- Eval(v, o, f, b);
      Success(Hit(symbol, at + skip, Length(n), rule))
  }

  function Length(n: int): nat {
    if n < 0 then 0 else n
  }

  function ActsFrom(e: Scene, rule: Rule, at: int, f: Facts, b: Bound,
                    i: nat, o: State, skip: int, hit: Option<Hit>): Result<Attempted>
    requires i <= |rule.then_|
    decreases |rule.then_| - i
  {
    if i == |rule.then_| then Success(Attempted(hit, o, false)) else
    match rule.then_[i]
    case Refuse => Success(Attempted(None, o, false))
    case Abstain => Success(Attempted(None, o, true))
    case Emit(symbol, extent) =>
      var h :- Answered(e, rule.name, symbol, extent, at, skip, o, f, b);
      ActsFrom(e, rule, at, f, b, i + 1, o, skip, Some(h))
    case Skip(v) =>
      var n :- Eval(v, o, f, b);
      ActsFrom(e, rule, at, f, b, i + 1, o, skip + n, hit)
    case _ =>
      var o' :- Written(rule.then_[i], o, f, b);
      ActsFrom(e, rule, at, f, b, i + 1, o', skip, hit)
  }

  function Applied(e: Scene, rule: Rule, at: int, o: State, b: Bound): Result<Attempted> {
    var f :- FactsAt(e.text, at, e.book.tab);
    ActsFrom(e, rule, at, f, b, 0, o, 0, None)
  }

  // ---- the organ pass

  function PlainFrom(e: Scene, when: seq<Test>, i: nat, at: int, o: State, f: Facts, anew: bool, b: Bound): Verdict
    requires i <= |when|
    decreases |when| - i
  {
    if i == |when| then Success(Some(b)) else
    var v :- HoldsPlain(e, when[i], at, o, f, anew, b);
    if v.None? then Success(None) else PlainFrom(e, when, i + 1, at, o, f, anew, v.value)
  }

  predicate Matches(rule: Rule, kind: int) {
    rule.phase == Matched && rule.kind == Some(kind)
  }

  /** The first matcher of one kind whose guard holds under the cursor, and what it bound. */
  function TakenFrom(e: Scene, r: nat, kind: int, cursor: int, off: int, o: State,
                     f: Facts): Result<Option<(Rule, Bound)>>
    requires r <= |e.book.rules|
    decreases |e.book.rules| - r
  {
    if r == |e.book.rules| then Success(None)
    else if !Matches(e.book.rules[r], kind) then TakenFrom(e, r + 1, kind, cursor, off, o, f)
    else
      var v :- PlainFrom(e, e.book.rules[r].when, 0, off, o, f, true, UNBOUND.(cursor := cursor));
      if v.Some? then Success(Some((e.book.rules[r], v.value)))
      else TakenFrom(e, r + 1, kind, cursor, off, o, f)
  }

  function Summed(e: Scene, at: int, off: int, ran: nat, cursor: int, o: State): Result<PassResult> {
    var budget :- Carried(e.book, o);
    Success(PassResult(ran, cursor, budget.GetOr(0), off - at, off, if cursor < |o.frames| then 1 else 0))
  }

  function SweptFrom(e: Scene, at: int, off: int, ran: nat, cursor: int, ceiling: int, o: State): Result<PassResult>
    decreases ceiling - cursor
  {
    if cursor >= ceiling then Summed(e, at, off, ran, cursor, o) else
    var carry :- Carried(e.book, o);
    var facts :- FactsAt(e.text, off, e.book.tab);
    var frame :- At(o.frames, cursor);
    var f := facts.(lead := carry.GetOr(0));
    var took :- TakenFrom(e, 0, frame.kind, cursor, off, o, f);
    if took.None? then Summed(e, at, off, ran, cursor, o) else
    var done :- Applied(e, took.value.0, off, o, took.value.1);
    SweptFrom(e, at, off + took.value.1.eaten, ran + 1, cursor + 1, ceiling, done.organs)
  }

  function Ceiling(o: State, until: Option<int>): int {
    if until.Some? && until.value < |o.frames| then until.value else |o.frames|
  }

  function Seeded(book: Book, o: State, lead: Option<int>): Result<State> {
    if lead.Some? && book.budget.Some? then
      var regs :- Put(o.regs, book.budget.value, lead.value);
      Success(o.(regs := regs))
    else Success(o)
  }

  /** One bounded pass of the open-frame matchers, from a stated cursor. */
  function Swept(e: Scene, at: int, o: State, start: int, lead: Option<int>, until: Option<int>): Result<PassResult> {
    var scratch :- Seeded(e.book, o, lead);
    SweptFrom(e, at, at, 0, start, Ceiling(o, until), scratch)
  }

  function HoldsPass(e: Scene, t: Test, at: int, o: State, f: Facts, anew: bool, b: Bound): Verdict {
    if !t.Pass? then HoldsPlain(e, t, at, o, f, anew, b) else
    var start :- Eval(t.start, o, f, b);
    if t.after && (at + b.eaten < 0 || e.book.tab <= 0) then Fault else
    var (off, lead) := if t.after then
        var (x, c) := Soaked(e.text, at + b.eaten, e.book.tab, 0); (x, Some(c))
      else (at, None);
    var until :- if t.until.None? then Success(None)
                 else var n :- Eval(t.until.value, o, f, b); Success(Some(n));
    var pass :- Swept(e, off, o, start, lead, until);
    var b' := b.(pass := Some(pass));
    if t.verdict.None? then Success(Some(b')) else
    var n :- Eval(t.verdict.value.1, o, f, b');
    Check(Compare(pass.ran, t.verdict.value.0, n), b')
  }

  // ---- scoring a group

  predicate Unscored(t: Test) {
    t.Fires? || t.NoFires?
  }

  /** Every test of a scored rule starts from nothing bound, and its own `fires` are not asked. */
  function ScoresFrom(e: Scene, when: seq<Test>, i: nat, at: int, o: State, f: Facts, anew: bool): Result<bool>
    requires i <= |when|
    decreases |when| - i
  {
    if i == |when| then Success(true)
    else if Unscored(when[i]) then ScoresFrom(e, when, i + 1, at, o, f, anew)
    else
      var v :- HoldsPass(e, when[i], at, o, f, anew, UNBOUND);
      if v.None? then Success(false) else ScoresFrom(e, when, i + 1, at, o, f, anew)
  }

  function GroupFrom(e: Scene, r: nat, group: string, at: int, o: State, f: Facts, anew: bool): Result<bool>
    requires r <= |e.book.rules|
    decreases |e.book.rules| - r
  {
    if r == |e.book.rules| then Success(false)
    else if group !in e.book.rules[r].groups then GroupFrom(e, r + 1, group, at, o, f, anew)
    else
      var v :- ScoresFrom(e, e.book.rules[r].when, 0, at, o, f, anew);
      if v then Success(true) else GroupFrom(e, r + 1, group, at, o, f, anew)
  }

  /** Whether any rule of a group would hold here, guard only. */
  function Scored(e: Scene, group: string, at: int, o: State, anew: bool, lead: int): Result<bool> {
    var f :- FactsAt(e.text, at, e.book.tab);
    GroupFrom(e, 0, group, at, o, f.(lead := lead), anew)
  }

  /** Where a `fires` test scores, and with what indentation. */
  function Anchored(e: Scene, anchor: Anchor, at: int, o: State, f: Facts, b: Bound): Result<(int, int)> {
    match anchor
    case From(v, lead) =>
      var off :- Eval(v, o, f, b);
      var n :- EvalOr(lead, 0, o, f, b);
      Success((off, n))
    case _ =>
      var off := if anchor.After? then at + b.eaten else at;
      if off < 0 || e.book.tab <= 0 then Fault else
      Success(Soaked(e.text, off, e.book.tab, 0))
  }

  function Fired(e: Scene, group: string, anchor: Anchor, at: int, o: State, f: Facts, anew: bool,
                 b: Bound): Result<bool> {
    var where :- Anchored(e, anchor, at, o, f, b);
    Scored(e, group, where.0, o, anew, where.1)
  }

  function Holds(e: Scene, t: Test, at: int, o: State, f: Facts, anew: bool, b: Bound): Verdict {
    match t
    case Fires(group, anchor) => var v :- Fired(e, group, anchor, at, o, f, anew, b); Check(v, b)
    case NoFires(group, anchor) => var v :- Fired(e, group, anchor, at, o, f, anew, b); Check(!v, b)
    case _ => HoldsPass(e, t, at, o, f, anew, b)
  }

  // ---- one answer

  function GuardFrom(e: Scene, when: seq<Test>, i: nat, at: int, o: State, f: Facts, anew: bool, b: Bound): Verdict
    requires i <= |when|
    decreases |when| - i
  {
    if i == |when| then Success(Some(b)) else
    var v :- Holds(e, when[i], at, o, f, anew, b);
    if v.None? then Success(None) else GuardFrom(e, when, i + 1, at, o, f, anew, v.value)
  }

  /** Score a rule's guard, and apply the rule only if it holds. */
  function Tried(e: Scene, rule: Rule, at: int, o: State, f: Facts, anew: bool): Result<Attempted> {
    var g :- GuardFrom(e, rule.when, 0, at, o, f, anew, UNBOUND);
    if g.None? then Success(Attempted(None, o, false)) else Applied(e, rule, at, o, g.value)
  }

  /** The name of the opaque kind the innermost frame is, if it is one. */
  function SealedFrom(opaques: seq<(string, int)>, top: int): Option<string> {
    if opaques == [] then None
    else if opaques[0].1 == top then Some(opaques[0].0)
    else SealedFrom(opaques[1..], top)
  }

  function Sealed(book: Book, o: State): Option<string> {
    if o.frames == [] then None else SealedFrom(book.opaque_, o.frames[|o.frames| - 1].kind)
  }

  predicate Spent(rule: Rule, spent: set<string>) {
    var emits := Emits(rule.then_);
    emits != [] && forall s :: s in emits ==> s in spent
  }

  predicate PassedOver(rule: Rule, phase: Phase, sealed: Option<string>, spent: set<string>) {
    || rule.phase != phase
    || (phase == Layout && sealed.Some? && sealed.value != "" && rule.closes != sealed)
    || Spent(rule, spent)
  }

  /** Where a phase stands: `layout` reads past the blanks, with what they are worth. */
  function Stood(e: Scene, phase: Phase, at: int, o: State): Result<(int, Facts)> {
    var carry :- Carried(e.book, o);
    if phase != Layout then
      var f :- FactsAt(e.text, at, e.book.tab); Success((at, f))
    else if at < 0 || e.book.tab <= 0 then Fault
    else
      var (off, lead) := Soaked(e.text, at, e.book.tab, carry.GetOr(0));
      var f :- FactsAt(e.text, off, e.book.tab);
      Success((off, f.(lead := lead)))
  }

  /** How one phase's rules ended: an answer, the ask withdrawn, or nothing to say. */
  function RulesFrom(e: Scene, phase: Phase, r: nat, off: int, f: Facts, sealed: Option<string>,
                     o: State, anew: bool, spent: set<string>): Result<Attempted>
    requires r <= |e.book.rules|
    decreases |e.book.rules| - r
  {
    if r == |e.book.rules| then Success(Attempted(None, o, false))
    else if PassedOver(e.book.rules[r], phase, sealed, spent) then
      RulesFrom(e, phase, r + 1, off, f, sealed, o, anew, spent)
    else
      var a :- Tried(e, e.book.rules[r], off, o, f, anew);
      if a.hit.Some? || a.abstained then Success(a)
      else RulesFrom(e, phase, r + 1, off, f, sealed, a.organs, anew, spent)
  }

  /** What an ask comes back with. */
  datatype Answer = Answer(hit: Option<Hit>, organs: State)

  /** An answer with extent moves the mark the next gap is measured from. */
  function Marked(h: Hit, o: State): State {
    if h.length > 0 then o.(since := h.start + h.length) else o
  }

  /** One phase: rules that are only called are never entered, and layout is asked only afresh. */
  function Entered(e: Scene, phase: Phase, at: int, o: State, anew: bool, broke: bool,
                   spent: set<string>): Result<Attempted> {
    if phase == Matched || (phase == Layout && !anew) then Success(Attempted(None, o, false)) else
    var stand :- Stood(e, phase, at, o);
    RulesFrom(e, phase, 0, stand.0, stand.1.(broke := broke), Sealed(e.book, o), o, anew, spent)
  }

  function PhasesFrom(e: Scene, phases: seq<Phase>, at: int, o: State, anew: bool, broke: bool,
                      spent: set<string>): Result<Answer> {
    if phases == [] then Success(Answer(None, o)) else
    var a :- Entered(e, phases[0], at, o, anew, broke, spent);
    if a.hit.Some? then Success(Answer(a.hit, Marked(a.hit.value, a.organs)))
    else if a.abstained then Success(Answer(None, a.organs))
    else PhasesFrom(e, phases[1..], at, a.organs, anew, broke, spent)
  }

  /** How far the book's own trivia reaches from an offset. */
  function Over(e: Scene, at: int): int {
    if e.book.trivia.None? then 0 else
    var m := e.env.probe(e.book.trivia.value, e.text, at);
    if m.None? then 0 else m.value.end - at
  }

  predicate Broken(e: Scene, at: int, over: int, o: State) {
    && e.book.trivia.Some?
    && var gap := Cut(e.text, if o.since < at then o.since else at, at + over);
       exists i :: 0 <= i < |gap| && (gap[i] == '\r' || gap[i] == '\n')
  }

  /** The customary's answer at one offset. */
  function Stepped(e: Scene, at: int, o: State, anew: bool, spent: set<string>): Result<Answer> {
    var over := Over(e, at);
    PhasesFrom(e, PHASES, at + over, o, anew, Broken(e, at, over, o), spent)
  }
}
