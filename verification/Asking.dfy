/** Which rule answers an ask, and what the ask leaves behind. */
module Asking {
  import opened Wrappers
  import opened Books
  import opened Texts
  import opened Guards
  import opened Steps
  import opened Scanning
  import opened Walks
  import opened Reading

  // ---- a guard, test by test

  /** What is bound before each test of a guard, and after the last asked. */
  ghost predicate Bindings(e: Scene, when: seq<Test>, from: nat, n: nat, at: int, o: State, f: Facts, anew: bool,
                           bs: seq<Bound>) {
    && from <= n <= |when| && |bs| == n - from + 1
    && forall i :: from <= i < n ==> Holds(e, when[i], at, o, f, anew, bs[i - from]) == Success(Some(bs[i + 1 - from]))
  }

  /** A guard ends at its n-th test: all of them held, or that one did not. */
  ghost predicate GuardEnds(e: Scene, when: seq<Test>, from: nat, n: nat, at: int, o: State, f: Facts, anew: bool,
                            bs: seq<Bound>, v: Verdict)
    requires Bindings(e, when, from, n, at, o, f, anew, bs)
  {
    if n == |when| then v == Success(Some(bs[n - from]))
    else v == Holds(e, when[n], at, o, f, anew, bs[n - from]) && !(v.Success? && v.value.Some?)
  }

  lemma {:induction false} GuardFollows(e: Scene, when: seq<Test>, i: nat, at: int, o: State, f: Facts, anew: bool,
                                        b: Bound) returns (n: nat, bs: seq<Bound>)
    requires i <= |when|
    ensures Bindings(e, when, i, n, at, o, f, anew, bs) && bs[0] == b
    ensures GuardEnds(e, when, i, n, at, o, f, anew, bs, GuardFrom(e, when, i, at, o, f, anew, b))
    decreases |when| - i
  {
    n, bs := i, [b];
    if i < |when| {
      var one := Holds(e, when[i], at, o, f, anew, b);
      if one.Success? && one.value.Some? {
        n, bs := GuardFollows(e, when, i + 1, at, o, f, anew, one.value.value);
        var cs := [b] + bs;
        forall k | i <= k < n ensures Holds(e, when[k], at, o, f, anew, cs[k - i]) == Success(Some(cs[k + 1 - i])) {
          assert cs[k + 1 - i] == bs[k + 1 - (i + 1)];
          if k > i {
            assert cs[k - i] == bs[k - (i + 1)];
          }
        }
        assert cs[n - i] == bs[n - (i + 1)];
        bs := cs;
      }
    }
  }

  /** A guard holds exactly when every test does, each bound to what the ones before it bound; and
      otherwise it ends as the first test that does not hold. */
  lemma {:induction false} GuardIsItsTests(e: Scene, when: seq<Test>, at: int, o: State, f: Facts, anew: bool, b: Bound)
    ensures var v := GuardFrom(e, when, 0, at, o, f, anew, b);
            exists n: nat, bs :: Bindings(e, when, 0, n, at, o, f, anew, bs) && bs[0] == b
                                 && GuardEnds(e, when, 0, n, at, o, f, anew, bs, v)
  {
    var n, bs := GuardFollows(e, when, 0, at, o, f, anew, b);
  }

  // ---- the rules of a phase

  /** An attempt that neither answers nor withdraws the ask. */
  predicate Declines(a: Attempted) {
    a.hit.None? && !a.abstained
  }

  /** The organs before each rule of a phase, and after the last one asked: a rule passed over
      leaves them as they are, and one that is tried and declines leaves what it wrote. */
  ghost predicate Declined(e: Scene, phase: Phase, from: nat, n: nat, off: int, f: Facts, sealed: Option<string>,
                           anew: bool, spent: set<string>, os: seq<State>) {
    && from <= n <= |e.book.rules| && |os| == n - from + 1
    && forall r :: from <= r < n ==>
         if PassedOver(e.book.rules[r], phase, sealed, spent) then os[r + 1 - from] == os[r - from]
         else Tried(e, e.book.rules[r], off, os[r - from], f, anew) == Success(Attempted(None, os[r + 1 - from], false))
  }

  /** How a phase ends at its n-th rule: with nothing left to ask, or as that rule does. */
  ghost predicate EndsAt(e: Scene, phase: Phase, from: nat, n: nat, off: int, f: Facts, sealed: Option<string>,
                         anew: bool, spent: set<string>, os: seq<State>, a: Result<Attempted>)
    requires Declined(e, phase, from, n, off, f, sealed, anew, spent, os)
  {
    var o := os[n - from];
    if n == |e.book.rules| then a == Success(Attempted(None, o, false))
    else
      && !PassedOver(e.book.rules[n], phase, sealed, spent) && a == Tried(e, e.book.rules[n], off, o, f, anew)
      && (a.Success? ==> !Declines(a.value))
  }

  lemma {:induction false} DeclinedLed(e: Scene, phase: Phase, from: nat, n: nat, off: int, f: Facts,
                                       sealed: Option<string>, anew: bool, spent: set<string>, o: State,
                                       os: seq<State>)
    requires from < n && Declined(e, phase, from + 1, n, off, f, sealed, anew, spent, os)
    requires if PassedOver(e.book.rules[from], phase, sealed, spent) then os[0] == o
             else Tried(e, e.book.rules[from], off, o, f, anew) == Success(Attempted(None, os[0], false))
    ensures Declined(e, phase, from, n, off, f, sealed, anew, spent, [o] + os)
    ensures ([o] + os)[n - from] == os[n - (from + 1)]
  {
    var cs := [o] + os;
    forall r | from <= r < n
      ensures if PassedOver(e.book.rules[r], phase, sealed, spent) then cs[r + 1 - from] == cs[r - from]
              else Tried(e, e.book.rules[r], off, cs[r - from], f, anew)
                   == Success(Attempted(None, cs[r + 1 - from], false))
    {
      assert cs[r + 1 - from] == os[r + 1 - (from + 1)];
      if r > from {
        assert cs[r - from] == os[r - (from + 1)];
      }
    }
  }

  lemma {:induction false} EndsLed(e: Scene, phase: Phase, from: nat, n: nat, off: int, f: Facts,
                                   sealed: Option<string>, anew: bool, spent: set<string>, o: State,
                                   os: seq<State>, a: Result<Attempted>)
    requires from < n && Declined(e, phase, from + 1, n, off, f, sealed, anew, spent, os)
    requires EndsAt(e, phase, from + 1, n, off, f, sealed, anew, spent, os, a)
    requires if PassedOver(e.book.rules[from], phase, sealed, spent) then os[0] == o
             else Tried(e, e.book.rules[from], off, o, f, anew) == Success(Attempted(None, os[0], false))
    ensures Declined(e, phase, from, n, off, f, sealed, anew, spent, [o] + os)
    ensures EndsAt(e, phase, from, n, off, f, sealed, anew, spent, [o] + os, a)
  {
    DeclinedLed(e, phase, from, n, off, f, sealed, anew, spent, o, os);
  }

  /** The first rule of a phase that answers or withdraws the ask is the phase's answer, and every
      rule before it has left what it wrote. */
  lemma {:induction false} FirstRuleAnswers(e: Scene, phase: Phase, r: nat, off: int, f: Facts, sealed: Option<string>,
                                            o: State, anew: bool, spent: set<string>) returns (n: nat, os: seq<State>)
    requires r <= |e.book.rules|
    ensures Declined(e, phase, r, n, off, f, sealed, anew, spent, os) && os[0] == o
    ensures EndsAt(e, phase, r, n, off, f, sealed, anew, spent, os,
                   RulesFrom(e, phase, r, off, f, sealed, o, anew, spent))
    decreases |e.book.rules| - r
  {
    n, os := r, [o];
    var goes, o' := Next(e, phase, r, off, f, sealed, o, anew, spent);
    if goes {
      var v := RulesFrom(e, phase, r + 1, off, f, sealed, o', anew, spent);
      n, os := FirstRuleAnswers(e, phase, r + 1, off, f, sealed, o', anew, spent);
      EndsLed(e, phase, r, n, off, f, sealed, anew, spent, o, os, v);
      os := [o] + os;
    }
  }

  /** Whether a phase goes on past a rule, and with what organs; if not, it ends there. */
  lemma {:induction false} Next(e: Scene, phase: Phase, r: nat, off: int, f: Facts, sealed: Option<string>, o: State,
                                anew: bool, spent: set<string>) returns (goes: bool, after: State)
    requires r <= |e.book.rules|
    ensures goes ==> r < |e.book.rules|
                     && (if PassedOver(e.book.rules[r], phase, sealed, spent) then after == o
                         else Tried(e, e.book.rules[r], off, o, f, anew) == Success(Attempted(None, after, false)))
                     && RulesFrom(e, phase, r, off, f, sealed, o, anew, spent)
                        == RulesFrom(e, phase, r + 1, off, f, sealed, after, anew, spent)
    ensures !goes ==> Declined(e, phase, r, r, off, f, sealed, anew, spent, [o])
                      && EndsAt(e, phase, r, r, off, f, sealed, anew, spent, [o],
                                RulesFrom(e, phase, r, off, f, sealed, o, anew, spent))
  {
    goes, after := false, o;
    if r < |e.book.rules| {
      if PassedOver(e.book.rules[r], phase, sealed, spent) {
        goes := true;
      } else {
        var a := Tried(e, e.book.rules[r], off, o, f, anew);
        if a.Success? && Declines(a.value) {
          goes, after := true, a.value.organs;
        }
      }
    }
  }

  /** One phase: asked unless it is the matchers', or a layout not asked afresh. */
  lemma {:induction false} PhaseIsItsRules(e: Scene, phase: Phase, at: int, o: State, anew: bool, broke: bool,
                                           spent: set<string>)
    ensures var a := Entered(e, phase, at, o, anew, broke, spent);
            if phase == Matched || (phase == Layout && !anew) then a == Success(Attempted(None, o, false))
            else if Stood(e, phase, at, o).Fault? then a.Fault?
            else
              var (off, f) := Stood(e, phase, at, o).value;
              exists n: nat, os ::
                && Declined(e, phase, 0, n, off, f.(broke := broke), Sealed(e.book, o), anew, spent, os) && os[0] == o
                && EndsAt(e, phase, 0, n, off, f.(broke := broke), Sealed(e.book, o), anew, spent, os, a)
  {
    if !(phase == Matched || (phase == Layout && !anew)) && Stood(e, phase, at, o).Success? {
      var (off, f) := Stood(e, phase, at, o).value;
      var n, os := FirstRuleAnswers(e, phase, 0, off, f.(broke := broke), Sealed(e.book, o), o, anew, spent);
    }
  }

  /** A rule outside its phase is passed over; so is one with nothing unspent to name, and one that
      does not close the opaque frame a layout is inside of; and no other. */
  lemma {:induction false} PassedOverExactly(book: Book, rule: Rule, phase: Phase, o: State, spent: set<string>)
    ensures var emits := set s | s in Emits(rule.then_);
            PassedOver(rule, phase, Sealed(book, o), spent)
            <==> rule.phase != phase || (emits != {} && emits <= spent)
                 || (phase == Layout && Opaque(book, o) && rule.closes != Sealed(book, o))
  {
    var emits := set s | s in Emits(rule.then_);
    if Emits(rule.then_) != [] {
      assert Emits(rule.then_)[0] in emits;
    }
    SealedIsInnermost(book, o);
  }

  /** The innermost frame is of an opaque kind, one that has a name. */
  ghost predicate Opaque(book: Book, o: State) {
    o.frames != [] && exists i :: FirstOpaque(book.opaque_, o.frames[|o.frames| - 1].kind, i) && book.opaque_[i].0 != ""
  }

  /** The first opaque kind of a list that is this one. */
  predicate FirstOpaque(opaques: seq<(string, int)>, kind: int, i: int) {
    0 <= i < |opaques| && opaques[i].1 == kind && forall j :: 0 <= j < i ==> opaques[j].1 != kind
  }

  lemma {:induction false} SealedFromFirst(opaques: seq<(string, int)>, kind: int)
    ensures match SealedFrom(opaques, kind)
            case None => forall i :: 0 <= i < |opaques| ==> opaques[i].1 != kind
            case Some(name) => exists i :: FirstOpaque(opaques, kind, i) && opaques[i].0 == name
    decreases |opaques|
  {
    if opaques != [] {
      if opaques[0].1 == kind {
        assert FirstOpaque(opaques, kind, 0);
      } else {
        var rest := opaques[1..];
        SealedFromFirst(rest, kind);
        if SealedFrom(rest, kind).Some? {
          var i :| FirstOpaque(rest, kind, i) && rest[i].0 == SealedFrom(rest, kind).value;
          assert opaques[i + 1] == rest[i];
          forall j | 0 <= j < i + 1 ensures opaques[j].1 != kind {
            assert j > 0 ==> opaques[j] == rest[j - 1];
          }
          assert FirstOpaque(opaques, kind, i + 1);
        } else {
          forall j | 0 <= j < |opaques| ensures opaques[j].1 != kind {
            assert j > 0 ==> opaques[j] == rest[j - 1];
          }
        }
      }
    }
  }

  /** The seal is the name of the innermost frame's kind, the first listed, if it is opaque. */
  lemma {:induction false} SealedIsInnermost(book: Book, o: State)
    ensures Sealed(book, o).Some? && Sealed(book, o).value != "" <==> Opaque(book, o)
    ensures o.frames != [] ==> forall i :: FirstOpaque(book.opaque_, o.frames[|o.frames| - 1].kind, i) ==>
              Sealed(book, o) == Some(book.opaque_[i].0)
    ensures o.frames == [] ==> Sealed(book, o) == None
  {
    if o.frames != [] {
      var kind := o.frames[|o.frames| - 1].kind;
      SealedFromFirst(book.opaque_, kind);
      forall i, j | FirstOpaque(book.opaque_, kind, i) && FirstOpaque(book.opaque_, kind, j) ensures i == j {
      }
    }
  }

  // ---- the phases of an ask

  /** The organs before each phase, and after the last one asked, each declining. */
  ghost predicate Silent(e: Scene, phases: seq<Phase>, from: nat, n: nat, at: int, anew: bool, broke: bool,
                         spent: set<string>, os: seq<State>) {
    && from <= n <= |phases| && |os| == n - from + 1
    && forall i :: from <= i < n ==>
         Entered(e, phases[i], at, os[i - from], anew, broke, spent)
         == Success(Attempted(None, os[i + 1 - from], false))
  }

  /** An answer with extent is where the next gap is measured from; nothing else moves that. */
  predicate MarksEnd(a: Attempted, r: Answer) {
    && r.hit == a.hit
    && r.organs == if a.hit.Some? && a.hit.value.length > 0
                   then a.organs.(since := a.hit.value.start + a.hit.value.length) else a.organs
  }

  /** How an ask ends at its n-th phase: with nothing to say, or as that phase does. */
  ghost predicate AskEnds(e: Scene, phases: seq<Phase>, from: nat, n: nat, at: int, anew: bool, broke: bool,
                          spent: set<string>, os: seq<State>, r: Result<Answer>)
    requires Silent(e, phases, from, n, at, anew, broke, spent, os)
  {
    if n == |phases| then r == Success(Answer(None, os[n - from]))
    else
      var a := Entered(e, phases[n], at, os[n - from], anew, broke, spent);
      if a.Fault? then r.Fault? else r.Success? && !Declines(a.value) && MarksEnd(a.value, r.value)
  }

  /** What an attempt comes to: abstaining answers nothing. */
  lemma {:induction false} AbstainingIsSilent(e: Scene, rule: Rule, at: int, f: Facts, b: Bound, i: nat, o: State,
                                              skip: int, hit: Option<Hit>)
    requires i <= |rule.then_|
    ensures var a := ActsFrom(e, rule, at, f, b, i, o, skip, hit); a.Success? && a.value.abstained ==> a.value.hit.None?
    decreases |rule.then_| - i
  {
    if i < |rule.then_| && ActsFrom(e, rule, at, f, b, i, o, skip, hit).Success? {
      match rule.then_[i]
      case Refuse =>
      case Abstain =>
      case Emit(symbol, extent) =>
        var h := Answered(e, rule.name, symbol, extent, at, skip, o, f, b).value;
        AbstainingIsSilent(e, rule, at, f, b, i + 1, o, skip, Some(h));
      case Skip(v) => AbstainingIsSilent(e, rule, at, f, b, i + 1, o, skip + Eval(v, o, f, b).value, hit);
      case _ => AbstainingIsSilent(e, rule, at, f, b, i + 1, Written(rule.then_[i], o, f, b).value, skip, hit);
    }
  }

  lemma {:induction false} SilentLed(e: Scene, phases: seq<Phase>, from: nat, n: nat, at: int, anew: bool,
                                     broke: bool, spent: set<string>, o: State, os: seq<State>)
    requires from < n && Silent(e, phases, from + 1, n, at, anew, broke, spent, os)
    requires Entered(e, phases[from], at, o, anew, broke, spent) == Success(Attempted(None, os[0], false))
    ensures Silent(e, phases, from, n, at, anew, broke, spent, [o] + os)
    ensures ([o] + os)[n - from] == os[n - (from + 1)]
  {
    var cs := [o] + os;
    forall k | from <= k < n
      ensures Entered(e, phases[k], at, cs[k - from], anew, broke, spent)
           == Success(Attempted(None, cs[k + 1 - from], false))
    {
      assert cs[k + 1 - from] == os[k + 1 - (from + 1)];
      if k > from {
        assert cs[k - from] == os[k - (from + 1)];
      }
    }
  }

  lemma {:induction false} FirstPhaseAnswers(e: Scene, phases: seq<Phase>, i: nat, at: int, o: State, anew: bool,
                                             broke: bool, spent: set<string>) returns (n: nat, os: seq<State>)
    requires i <= |phases|
    ensures Silent(e, phases, i, n, at, anew, broke, spent, os) && os[0] == o
    ensures AskEnds(e, phases, i, n, at, anew, broke, spent, os, PhasesFrom(e, phases[i..], at, o, anew, broke, spent))
    decreases |phases| - i
  {
    n, os := i, [o];
    if i < |phases| {
      assert phases[i..][1..] == phases[i + 1..];
      var a := Entered(e, phases[i], at, o, anew, broke, spent);
      if a.Success? && Declines(a.value) {
        n, os := FirstPhaseAnswers(e, phases, i + 1, at, a.value.organs, anew, broke, spent);
        SilentLed(e, phases, i, n, at, anew, broke, spent, o, os);
        os := [o] + os;
      }
    }
  }

  /** Some course of the phases, declining one after another, ends so. */
  ghost predicate Asked(e: Scene, phases: seq<Phase>, at: int, o: State, anew: bool, broke: bool, spent: set<string>,
                        r: Result<Answer>) {
    exists n: nat, os :: Silent(e, phases, 0, n, at, anew, broke, spent, os) && os[0] == o
                         && AskEnds(e, phases, 0, n, at, anew, broke, spent, os, r)
  }

  lemma {:induction false} PhasesAreAsked(e: Scene, phases: seq<Phase>, at: int, o: State, anew: bool, broke: bool,
                                          spent: set<string>)
    ensures Asked(e, phases, at, o, anew, broke, spent, PhasesFrom(e, phases, at, o, anew, broke, spent))
  {
    assert phases[0..] == phases;
    var n, os := FirstPhaseAnswers(e, phases, 0, at, o, anew, broke, spent);
  }

  /** An ask is its phases in order past the trivia: the first that answers or withdraws is the
      ask's answer, the ones before it have left what they wrote, and an answer with extent is where
      the next gap is measured from. */
  lemma {:induction false} AskIsItsPhases(e: Scene, at: int, o: State, anew: bool, spent: set<string>)
    ensures var phases := [Inside, Matched, Layout, Commanded, Opening, Enclosing, Bounded, Ordered];
            Asked(e, phases, at + Over(e, at), o, anew, Broken(e, at, Over(e, at), o), spent,
                  Stepped(e, at, o, anew, spent))
  {
    var phases := [Inside, Matched, Layout, Commanded, Opening, Enclosing, Bounded, Ordered];
    assert phases == PHASES;
    var broke, stand := Broken(e, at, Over(e, at), o), at + Over(e, at);
    PhasesAreAsked(e, phases, stand, o, anew, broke, spent);
    assert Stepped(e, at, o, anew, spent) == PhasesFrom(e, phases, stand, o, anew, broke, spent);
  }

  /** The gap is broken by a line ending anywhere from the last answer's end, or from the ask if that
      is further back, to the end of the trivia. */
  lemma {:induction false} BrokenIsLineEnding(e: Scene, at: int, over: int, o: State)
    requires 0 <= o.since && 0 <= at <= at + over <= |e.text|
    ensures Broken(e, at, over, o)
       <==> e.book.trivia.Some?
            && exists i :: 0 <= i < |e.text| && (o.since <= i || at <= i) && i < at + over
                           && (e.text[i] == '\n' || e.text[i] == '\r')
  {
    var lo := if o.since < at then o.since else at;
    var gap := Cut(e.text, lo, at + over);
    assert gap == e.text[lo..at + over];
    if k :| 0 <= k < |gap| && (gap[k] == '\r' || gap[k] == '\n') {
      assert e.text[lo + k] == gap[k];
    }
    if i :| 0 <= i < |e.text| && (o.since <= i || at <= i) && i < at + over
            && (e.text[i] == '\n' || e.text[i] == '\r') {
      var k := i - lo;
      assert 0 <= k < |gap| && gap[k] == e.text[i];
      assert gap[k] == '\r' || gap[k] == '\n';
      assert e.book.trivia.Some? ==> Broken(e, at, over, o);
    }
  }

  /** Where trivia stands, the answer stands at its end or after it. */
  lemma {:induction false} StepAnswersPastTrivia(e: Scene, at: int, o: State, spent: set<string>)
    requires Sound(e.env) && BookSkipsForward(e.book) && 0 <= at <= |e.text| && e.book.trivia.Some?
    ensures var m := e.env.probe(e.book.trivia.value, e.text, at);
            var a := Stepped(e, at, o, true, spent);
            a.Success? ==> Ahead(a.value.hit, if m.Some? then m.value.end else at)
  {
    var over := Over(e, at);
    PhasesAnswerAhead(e, PHASES, at + over, o, true, Broken(e, at, over, o), spent);
  }

  // ---- where the last answer ended

  lemma {:induction false} ActsKeepMark(e: Scene, rule: Rule, at: int, f: Facts, b: Bound, i: nat, o: State, skip: int,
                                        hit: Option<Hit>)
    requires i <= |rule.then_|
    ensures var a := ActsFrom(e, rule, at, f, b, i, o, skip, hit); a.Success? ==> a.value.organs.since == o.since
    decreases |rule.then_| - i
  {
    if i < |rule.then_| && ActsFrom(e, rule, at, f, b, i, o, skip, hit).Success? {
      match rule.then_[i]
      case Refuse =>
      case Abstain =>
      case Emit(symbol, extent) =>
        var h := Answered(e, rule.name, symbol, extent, at, skip, o, f, b).value;
        ActsKeepMark(e, rule, at, f, b, i + 1, o, skip, Some(h));
      case Skip(v) => ActsKeepMark(e, rule, at, f, b, i + 1, o, skip + Eval(v, o, f, b).value, hit);
      case _ => ActsKeepMark(e, rule, at, f, b, i + 1, Written(rule.then_[i], o, f, b).value, skip, hit);
    }
  }

  lemma {:induction false} TriedKeepsMark(e: Scene, rule: Rule, at: int, o: State, f: Facts, anew: bool)
    ensures var a := Tried(e, rule, at, o, f, anew); a.Success? ==> a.value.organs.since == o.since
  {
    if Tried(e, rule, at, o, f, anew).Success? {
      var g := GuardFrom(e, rule.when, 0, at, o, f, anew, UNBOUND).value;
      if g.Some? {
        ActsKeepMark(e, rule, at, FactsAt(e.text, at, e.book.tab).value, g.value, 0, o, 0, None);
      }
    }
  }

  lemma {:induction false} RulesKeepMark(e: Scene, phase: Phase, r: nat, off: int, f: Facts, sealed: Option<string>,
                                         o: State, anew: bool, spent: set<string>)
    requires r <= |e.book.rules|
    ensures var a := RulesFrom(e, phase, r, off, f, sealed, o, anew, spent);
            a.Success? ==> a.value.organs.since == o.since
    decreases |e.book.rules| - r
  {
    if r < |e.book.rules| {
      var rule := e.book.rules[r];
      if PassedOver(rule, phase, sealed, spent) {
        RulesKeepMark(e, phase, r + 1, off, f, sealed, o, anew, spent);
      } else {
        TriedKeepsMark(e, rule, off, o, f, anew);
        var a := Tried(e, rule, off, o, f, anew);
        if a.Success? && Declines(a.value) {
          RulesKeepMark(e, phase, r + 1, off, f, sealed, a.value.organs, anew, spent);
        }
      }
    }
  }

  lemma {:induction false} PhaseKeepsMark(e: Scene, phase: Phase, at: int, o: State, anew: bool, broke: bool,
                                          spent: set<string>)
    ensures var a := Entered(e, phase, at, o, anew, broke, spent); a.Success? ==> a.value.organs.since == o.since
  {
    if Entered(e, phase, at, o, anew, broke, spent).Success? && !(phase == Matched || (phase == Layout && !anew)) {
      var stand := Stood(e, phase, at, o).value;
      RulesKeepMark(e, phase, 0, stand.0, stand.1.(broke := broke), Sealed(e.book, o), o, anew, spent);
    }
  }

  /** The mark stands at the end of the last answer with extent, and nowhere else. */
  predicate Since(r: Answer, was: State) {
    r.organs.since == if r.hit.Some? && r.hit.value.length > 0 then r.hit.value.start + r.hit.value.length
                      else was.since
  }

  lemma {:induction false} PhasesMoveMark(e: Scene, phases: seq<Phase>, at: int, o: State, anew: bool, broke: bool,
                                          spent: set<string>)
    ensures var a := PhasesFrom(e, phases, at, o, anew, broke, spent); a.Success? ==> Since(a.value, o)
    decreases |phases|
  {
    if phases != [] {
      PhaseKeepsMark(e, phases[0], at, o, anew, broke, spent);
      var a := Entered(e, phases[0], at, o, anew, broke, spent);
      if a.Success? && Declines(a.value) {
        PhasesMoveMark(e, phases[1..], at, a.value.organs, anew, broke, spent);
      }
    }
  }

  /** No rule moves the mark the next gap is measured from: only an answer with extent does. */
  lemma {:induction false} StepMovesMark(e: Scene, at: int, o: State, anew: bool, spent: set<string>)
    ensures var a := Stepped(e, at, o, anew, spent); a.Success? ==> Since(a.value, o)
  {
    var over := Over(e, at);
    PhasesMoveMark(e, PHASES, at + over, o, anew, Broken(e, at, over, o), spent);
  }

  /** A layout stands past the blanks, and its indentation goes on from the carried one. */
  lemma {:induction false} LayoutStandsPastBlanks(e: Scene, at: nat, o: State)
    requires at <= |e.text| && Stood(e, Layout, at, o).Success?
    ensures var (off, f) := Stood(e, Layout, at, o).value;
            && at <= off <= |e.text| && (forall i :: at <= i < off ==> IsBlank(e.text[i]))
            && (off < |e.text| ==> !IsBlank(e.text[off]))
            && f.(lead := FactsAt(e.text, off, e.book.tab).value.lead) == FactsAt(e.text, off, e.book.tab).value
            && match e.book.budget
               case None => f.lead == Soaked(e.text, at, e.book.tab, 0).1
               case Some(r) =>
                 At(o.regs, r).Success? && f.lead == Soaked(e.text, at, e.book.tab, At(o.regs, r).value).1
  {
    SoakPassesBlanks(e.text, at, e.book.tab, Carried(e.book, o).value.GetOr(0));
  }

  // ---- scoring a group

  /** A test that is scored fails, or does not, with nothing bound before it. */
  predicate ScoresAt(e: Scene, t: Test, at: int, o: State, f: Facts, anew: bool, pass: bool) {
    var v := HoldsPass(e, t, at, o, f, anew, UNBOUND);
    v.Success? && (v.value.Some? <==> pass)
  }

  /** A rule scores exactly when every test of it that scores no group does. */
  lemma {:induction false} ScoreIsItsTests(e: Scene, when: seq<Test>, i: nat, at: int, o: State, f: Facts, anew: bool)
    requires i <= |when|
    ensures ScoresFrom(e, when, i, at, o, f, anew) == Success(true)
       <==> forall k :: i <= k < |when| && !Unscored(when[k]) ==> ScoresAt(e, when[k], at, o, f, anew, true)
    decreases |when| - i
  {
    if i < |when| {
      ScoreIsItsTests(e, when, i + 1, at, o, f, anew);
    }
  }

  /** And it does not exactly when one does not before which all did. */
  lemma {:induction false} ScoreFailsAtATest(e: Scene, when: seq<Test>, i: nat, at: int, o: State, f: Facts,
                                             anew: bool)
    requires i <= |when|
    ensures ScoresFrom(e, when, i, at, o, f, anew) == Success(false)
       <==> exists n :: ScoreStops(e, when, i, n, at, o, f, anew)
    decreases |when| - i
  {
    if i < |when| {
      var next := i + 1;
      ScoreFailsAtATest(e, when, next, at, o, f, anew);
      if n :| ScoreStops(e, when, next, n, at, o, f, anew) {
        if Unscored(when[i]) || ScoresAt(e, when[i], at, o, f, anew, true) {
          assert ScoreStops(e, when, i, n, at, o, f, anew);
        }
      }
      if !Unscored(when[i]) && ScoresAt(e, when[i], at, o, f, anew, false) {
        assert ScoreStops(e, when, i, i, at, o, f, anew);
      }
      if n :| ScoreStops(e, when, i, n, at, o, f, anew) && n > i {
        assert ScoreStops(e, when, next, n, at, o, f, anew);
      }
    }
  }

  predicate ScoreStops(e: Scene, when: seq<Test>, from: nat, n: int, at: int, o: State, f: Facts, anew: bool) {
    && from <= n < |when| && !Unscored(when[n]) && ScoresAt(e, when[n], at, o, f, anew, false)
    && forall k :: from <= k < n && !Unscored(when[k]) ==> ScoresAt(e, when[k], at, o, f, anew, true)
  }

  /** The rules of a group score, or do not. */
  predicate RuleScores(e: Scene, r: nat, at: int, o: State, f: Facts, anew: bool, yes: bool)
    requires r < |e.book.rules|
  {
    ScoresFrom(e, e.book.rules[r].when, 0, at, o, f, anew) == Success(yes)
  }

  predicate FirstToScore(e: Scene, from: nat, r: int, group: string, at: int, o: State, f: Facts, anew: bool) {
    && from <= r < |e.book.rules| && group in e.book.rules[r].groups && RuleScores(e, r, at, o, f, anew, true)
    && forall q :: from <= q < r && group in e.book.rules[q].groups ==> RuleScores(e, q, at, o, f, anew, false)
  }

  /** A group scores exactly when one of its rules does and those before it do not; and it does not
      exactly when none of them does. */
  lemma {:induction false} GroupIsItsRules(e: Scene, r: nat, group: string, at: int, o: State, f: Facts, anew: bool)
    requires r <= |e.book.rules|
    ensures GroupFrom(e, r, group, at, o, f, anew) == Success(true)
       <==> exists n :: FirstToScore(e, r, n, group, at, o, f, anew)
    ensures GroupFrom(e, r, group, at, o, f, anew) == Success(false)
       <==> forall q :: r <= q < |e.book.rules| && group in e.book.rules[q].groups ==>
              RuleScores(e, q, at, o, f, anew, false)
    decreases |e.book.rules| - r
  {
    if r < |e.book.rules| {
      var next := r + 1;
      GroupIsItsRules(e, next, group, at, o, f, anew);
      if group in e.book.rules[r].groups && RuleScores(e, r, at, o, f, anew, true) {
        assert FirstToScore(e, r, r, group, at, o, f, anew);
      }
      if n :| FirstToScore(e, next, n, group, at, o, f, anew) {
        if group !in e.book.rules[r].groups || RuleScores(e, r, at, o, f, anew, false) {
          assert FirstToScore(e, r, n, group, at, o, f, anew);
        }
      }
      if n :| FirstToScore(e, r, n, group, at, o, f, anew) && n > r {
        assert FirstToScore(e, next, n, group, at, o, f, anew);
      }
    }
  }

  /** The only rule of a group, and all it asks is an indentation. */
  predicate AsksIndent(book: Book, group: string, r: nat, op: Cmp, n: int) {
    && r < |book.rules| && group in book.rules[r].groups && book.rules[r].when == [LeadIs(op, Num(n))]
    && forall q :: 0 <= q < |book.rules| && q != r ==> group !in book.rules[q].groups
  }

  lemma {:induction false} IndentIsScored(e: Scene, group: string, r: nat, op: Cmp, n: int, at: int, o: State,
                                          anew: bool, lead: int)
    requires AsksIndent(e.book, group, r, op, n) && 0 <= at <= |e.text| && e.book.tab > 0
    ensures Scored(e, group, at, o, anew, lead) == Success(Compare(lead, op, n))
  {
    var f := FactsAt(e.text, at, e.book.tab).value.(lead := lead);
    var t := LeadIs(op, Num(n));
    assert Eval(Num(n), o, f, UNBOUND) == Success(n);
    assert HoldsPass(e, t, at, o, f, anew, UNBOUND) == Check(Compare(lead, op, n), UNBOUND);
    assert e.book.rules[r].when[0] == t;
    assert ScoresFrom(e, [t], 1, at, o, f, anew) == Success(true);
    assert RuleScores(e, r, at, o, f, anew, Compare(lead, op, n));
    GroupIsItsRules(e, 0, group, at, o, f, anew);
    if Compare(lead, op, n) {
      assert FirstToScore(e, 0, r, group, at, o, f, anew);
    }
  }

  /** A test that holds or does not, and binds nothing. */
  function Settles(yes: bool, b: Bound): Verdict {
    Success(if yes then Some(b) else None)
  }

  /** An indentation scored at an anchor is the anchor's: past the blanks here, past the blanks after
      what was eaten. */
  lemma {:induction false} AnchorSetsIndent(e: Scene, group: string, r: nat, op: Cmp, n: int, at: nat, o: State,
                                            f: Facts, anew: bool, b: Bound)
    requires AsksIndent(e.book, group, r, op, n) && at <= |e.text| && 0 <= at + b.eaten <= |e.text| && e.book.tab > 0
    ensures Holds(e, Fires(group, Here), at, o, f, anew, b)
         == Settles(Compare(Soaked(e.text, at, e.book.tab, 0).1, op, n), b)
    ensures Holds(e, Fires(group, After), at, o, f, anew, b)
         == Settles(Compare(Soaked(e.text, at + b.eaten, e.book.tab, 0).1, op, n), b)
  {
    var (x, c) := Soaked(e.text, at, e.book.tab, 0);
    IndentIsScored(e, group, r, op, n, x, o, anew, c);
    FiresSettles(e, group, Here, at, o, f, anew, b, Compare(c, op, n));
    var (y, d) := Soaked(e.text, at + b.eaten, e.book.tab, 0);
    IndentIsScored(e, group, r, op, n, y, o, anew, d);
    FiresSettles(e, group, After, at, o, f, anew, b, Compare(d, op, n));
  }

  /** And stated, it is the one stated with the offset, or none. */
  lemma {:induction false} StatedAnchorSetsIndent(e: Scene, group: string, r: nat, op: Cmp, n: int, at: nat, o: State,
                                                  f: Facts, anew: bool, b: Bound, v: Value, lead: Option<Value>)
    requires AsksIndent(e.book, group, r, op, n) && e.book.tab > 0
    requires Eval(v, o, f, b).Success? && 0 <= Eval(v, o, f, b).value <= |e.text|
    requires lead.Some? ==> Eval(lead.value, o, f, b).Success?
    ensures Holds(e, Fires(group, From(v, lead)), at, o, f, anew, b)
         == Settles(Compare(if lead.Some? then Eval(lead.value, o, f, b).value else 0, op, n), b)
  {
    var m := if lead.Some? then Eval(lead.value, o, f, b).value else 0;
    IndentIsScored(e, group, r, op, n, Eval(v, o, f, b).value, o, anew, m);
    FiresSettles(e, group, From(v, lead), at, o, f, anew, b, Compare(m, op, n));
  }

  lemma {:induction false} FiresSettles(e: Scene, group: string, anchor: Anchor, at: int, o: State, f: Facts,
                                        anew: bool, b: Bound, yes: bool)
    requires Fired(e, group, anchor, at, o, f, anew, b) == Success(yes)
    ensures Holds(e, Fires(group, anchor), at, o, f, anew, b) == Settles(yes, b)
  {
  }
}
