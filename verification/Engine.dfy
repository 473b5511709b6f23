/** The interpreter as it runs: organs updated in place, loops over rules, tests and bytes.
    Every method is proved against the function of the same step. */
module Engine {
  import opened Wrappers
  import opened Books
  import opened Guards
  import opened Steps
  import opened Walks

  class Organs {
    var frames: seq<Frame>
    var marks: seq<Mark>
    var regs: seq<int>
    var since: int

    constructor (s: State)
      ensures Key() == s
    {
      frames, marks, regs, since := s.frames, s.marks, s.regs, s.since;
    }

    function Key(): State
      reads this
    {
      State(frames, marks, regs, since)
    }

    method Copy() returns (c: Organs)
      ensures fresh(c) && c.Key() == Key()
    {
      c := new Organs(Key());
    }

    /** One organ write; the pops walk the stack down in place. */
    method Write(act: Action, f: Facts, b: Bound) returns (ok: bool)
      modifies this
      ensures var w := Written(act, old(Key()), f, b);
              ok == w.Success? && Key() == if w.Success? then w.value else old(Key())
    {
      var o := Key();
      match act
      case PopFrames(kind) =>
        while frames != [] && frames[|frames| - 1].kind != kind
          invariant marks == o.marks && regs == o.regs && since == o.since
          invariant FramesUntil(frames, kind) == FramesUntil(o.frames, kind)
          decreases |frames|
        {
          frames := frames[..|frames| - 1];
        }
        if frames != [] {
          frames := frames[..|frames| - 1];
        }
        return true;
      case PopMarks(kind) =>
        while marks != [] && marks[|marks| - 1].kind != kind
          invariant frames == o.frames && regs == o.regs && since == o.since
          invariant MarksUntil(marks, kind) == MarksUntil(o.marks, kind)
          decreases |marks|
        {
          marks := marks[..|marks| - 1];
        }
        if marks != [] {
          marks := marks[..|marks| - 1];
        }
        return true;
      case _ =>
        var w := Written(act, o, f, b);
        if w.Success? {
          frames, marks, regs, since := w.value.frames, w.value.marks, w.value.regs, w.value.since;
        }
        return w.Success?;
    }
  }

  class Interpreter {
    const book: Book
    const env: Env

    constructor (book: Book, env: Env)
      ensures this.book == book && this.env == env
    {
      this.book, this.env := book, env;
    }

    function On(text: string): Scene {
      Scene(book, env, text)
    }

    method Soak(text: string, at: nat, carry: int) returns (off: nat, col: int)
      requires book.tab > 0
      ensures (off, col) == Soaked(text, at, book.tab, carry)
    {
      off, col := at, carry;
      while off < |text| && IsBlank(text[off])
        invariant Soaked(text, off, book.tab, col) == Soaked(text, at, book.tab, carry)
        decreases |text| - off
      {
        off, col := off + 1, Advance(text[off], book.tab, col);
      }
    }

    method SoakUpTo(text: string, at: nat, carry: int, want: int, limit: int) returns (off: nat, col: int)
      requires book.tab > 0
      ensures (off, col) == SoakedTo(text, at, book.tab, carry, want, limit, 0)
    {
      off, col := at, carry;
      var ate := 0;
      while off < |text| && IsBlank(text[off]) && col < want && ate < limit
        invariant 0 <= ate
        invariant SoakedTo(text, off, book.tab, col, want, limit, ate)
               == SoakedTo(text, at, book.tab, carry, want, limit, 0)
        decreases |text| - off
      {
        off, col, ate := off + 1, Advance(text[off], book.tab, col), ate + 1;
      }
    }

    method NestFrom(text: string, open: string, close: string, at: int) returns (r: Result<(int, nat)>)
      ensures r == Nested(On(text), open, close, at, 1)
    {
      var off, depth: nat := at, 1;
      while off < |text| && depth > 0
        invariant Nested(On(text), open, close, off, depth) == Nested(On(text), open, close, at, 1)
        decreases |text| - off, depth
      {
        var c := env.probe(close, text, off);
        if c.Some? {
          if c.value.end < off { return Fault; }
          off, depth := c.value.end, depth - 1;
        } else {
          var o := env.probe(open, text, off);
          if o.Some? {
            if o.value.end <= off { return Fault; }
            off, depth := o.value.end, depth + 1;
          } else {
            off := off + 1;
          }
        }
      }
      r := Success((off, depth));
    }

    method TestPlain(t: Test, text: string, at: int, organs: Organs, f: Facts, anew: bool, b: Bound)
      returns (v: Verdict)
      ensures v == HoldsPlain(On(text), t, at, organs.Key(), f, anew, b)
    {
      var o := organs.Key();
      match t
      case Nest(open, close) =>
        var end := NestFrom(text, open, close, at + b.eaten);
        if end.Fault? { return Fault; }
        return Success(Some(b.(eaten := end.value.0 - at)));
      case Soak(to, one, from) =>
        var want := EvalOr(to, 0x4000_0000, o, f, b);
        if want.Fault? { return Fault; }
        var col := SoakBase(On(text), o, f, b, from);
        if col.Fault? || at + b.eaten < 0 || book.tab <= 0 { return Fault; }
        var off, got := SoakUpTo(text, at + b.eaten, col.value, want.value, if one then 1 else 0x4000_0000);
        return Success(Some(b.(eaten := off - at, lead := Some(got))));
      case _ =>
        return HoldsPlain(On(text), t, at, o, f, anew, b);
    }

    /** A rule's actions, in order, over the organs themselves. */
    method Apply(rule: Rule, text: string, at: int, organs: Organs, b: Bound)
      returns (ok: bool, hit: Option<Hit>, abstained: bool)
      modifies organs
      ensures var a := Applied(On(text), rule, at, old(organs.Key()), b);
              ok == a.Success? && (ok ==> a.value == Attempted(hit, organs.Key(), abstained))
    {
      var facts := FactsAt(text, at, book.tab);
      ok, hit, abstained := false, None, false;
      if facts.Fault? { return; }
      var f := facts.value;
      var skip, i := 0, 0;
      while i < |rule.then_|
        invariant 0 <= i <= |rule.then_|
        invariant ActsFrom(On(text), rule, at, f, b, i, organs.Key(), skip, hit)
               == ActsFrom(On(text), rule, at, f, b, 0, old(organs.Key()), 0, None)
        decreases |rule.then_| - i
      {
        match rule.then_[i] {
          case Refuse =>
            ok, hit := true, None;
            return;
          case Abstain =>
            ok, hit, abstained := true, None, true;
            return;
          case Emit(symbol, extent) =>
            var h := Answered(On(text), rule.name, symbol, extent, at, skip, organs.Key(), f, b);
            if h.Fault? { return; }
            hit := Some(h.value);
          case Skip(v) =>
            var n := Eval(v, organs.Key(), f, b);
            if n.Fault? { return; }
            skip := skip + n.value;
          case _ =>
            var done := organs.Write(rule.then_[i], f, b);
            if !done { return; }
        }
        i := i + 1;
      }
      ok := true;
    }

    method MatchRule(when: seq<Test>, text: string, off: int, organs: Organs, f: Facts, cursor: int)
      returns (v: Verdict)
      ensures v == PlainFrom(On(text), when, 0, off, organs.Key(), f, true, UNBOUND.(cursor := cursor))
    {
      var b, j := UNBOUND.(cursor := cursor), 0;
      while j < |when|
        invariant 0 <= j <= |when|
        invariant PlainFrom(On(text), when, j, off, organs.Key(), f, true, b)
               == PlainFrom(On(text), when, 0, off, organs.Key(), f, true, UNBOUND.(cursor := cursor))
      {
        v := TestPlain(when[j], text, off, organs, f, true, b);
        if v.Fault? || v.value.None? { return; }
        b := v.value.value;
        j := j + 1;
      }
      v := Success(Some(b));
    }

    /** The first matcher that holds for the frame under the cursor. */
    method Take(text: string, kind: int, cursor: int, off: int, organs: Organs, f: Facts)
      returns (r: Result<Option<(Rule, Bound)>>)
      ensures r == TakenFrom(On(text), 0, kind, cursor, off, organs.Key(), f)
    {
      var i := 0;
      while i < |book.rules|
        invariant 0 <= i <= |book.rules|
        invariant TakenFrom(On(text), i, kind, cursor, off, organs.Key(), f)
               == TakenFrom(On(text), 0, kind, cursor, off, organs.Key(), f)
      {
        if Matches(book.rules[i], kind) {
          var v := MatchRule(book.rules[i].when, text, off, organs, f, cursor);
          if v.Fault? { return Fault; }
          if v.value.Some? { return Success(Some((book.rules[i], v.value.value))); }
        }
        i := i + 1;
      }
      r := Success(None);
    }

    /** One frame of a pass: the matcher that holds for it, applied to the copy. */
    method MatchFrame(text: string, ghost at: int, off: int, ghost ran: nat, cursor: int, ghost ceiling: int,
                      scratch: Organs)
      returns (r: Result<Option<int>>)
      requires cursor < ceiling
      modifies scratch
      ensures var all := SweptFrom(On(text), at, off, ran, cursor, ceiling, old(scratch.Key()));
              match r
              case Fault => all.Fault?
              case Success(None) => all == Summed(On(text), at, off, ran, cursor, scratch.Key())
              case Success(Some(eaten)) =>
                all == SweptFrom(On(text), at, off + eaten, ran + 1, cursor + 1, ceiling, scratch.Key())
    {
      var carry := Carried(book, scratch.Key());
      var facts := FactsAt(text, off, book.tab);
      var frame := At(scratch.frames, cursor);
      if carry.Fault? || facts.Fault? || frame.Fault? { return Fault; }
      var took := Take(text, frame.value.kind, cursor, off, scratch, facts.value.(lead := carry.value.GetOr(0)));
      if took.Fault? { return Fault; }
      if took.value.None? { return Success(None); }
      var (rule, b) := took.value.value;
      var ok, _, _ := Apply(rule, text, off, scratch, b);
      r := if ok then Success(Some(b.eaten)) else Fault;
    }

    /** One bounded pass of the open-frame matchers, on a copy: the organs are only read. */
    method Sweep(text: string, at: int, organs: Organs, start: int, lead: Option<int>, until: Option<int>)
      returns (r: Result<PassResult>)
      ensures r == Swept(On(text), at, organs.Key(), start, lead, until)
    {
      var scratch := organs.Copy();
      if lead.Some? && book.budget.Some? {
        var regs := Put(scratch.regs, book.budget.value, lead.value);
        if regs.Fault? { return Fault; }
        scratch.regs := regs.value;
      }
      var off, ran: nat, cursor, ceiling := at, 0, start, Ceiling(scratch.Key(), until);
      ghost var all := Swept(On(text), at, organs.Key(), start, lead, until);
      ghost var o := scratch.Key();
      while cursor < ceiling
        invariant fresh(scratch) && o == scratch.Key()
        invariant SweptFrom(On(text), at, off, ran, cursor, ceiling, o) == all
        decreases ceiling - cursor
      {
        var eaten := MatchFrame(text, at, off, ran, cursor, ceiling, scratch);
        o := scratch.Key();
        if eaten.Fault? { return Fault; }
        if eaten.value.None? { break; }
        assert SweptFrom(On(text), at, off + eaten.value.value, ran + 1, cursor + 1, ceiling, o) == all;
        off, cursor, ran := off + eaten.value.value, cursor + 1, ran + 1;
      }
      r := Summed(On(text), at, off, ran, cursor, scratch.Key());
    }

    method TestPass(t: Test, text: string, at: int, organs: Organs, f: Facts, anew: bool, b: Bound)
      returns (v: Verdict)
      ensures v == HoldsPass(On(text), t, at, organs.Key(), f, anew, b)
    {
      if !t.Pass? {
        v := TestPlain(t, text, at, organs, f, anew, b);
        return;
      }
      var o := organs.Key();
      var start := Eval(t.start, o, f, b);
      if start.Fault? { return Fault; }
      var off, lead: Option<int> := at, None;
      if t.after {
        if at + b.eaten < 0 || book.tab <= 0 { return Fault; }
        var x, c := Soak(text, at + b.eaten, 0);
        off, lead := x, Some(c);
      }
      var until: Option<int> := None;
      if t.until.Some? {
        var n := Eval(t.until.value, o, f, b);
        if n.Fault? { return Fault; }
        until := Some(n.value);
      }
      var pass := Sweep(text, off, organs, start.value, lead, until);
      if pass.Fault? { return Fault; }
      var b' := b.(pass := Some(pass.value));
      if t.verdict.None? { return Success(Some(b')); }
      var n := Eval(t.verdict.value.1, o, f, b');
      if n.Fault? { return Fault; }
      v := Check(Compare(pass.value.ran, t.verdict.value.0, n.value), b');
    }

    method ScoreRule(when: seq<Test>, text: string, at: int, frozen: Organs, f: Facts, anew: bool)
      returns (r: Result<bool>)
      ensures r == ScoresFrom(On(text), when, 0, at, frozen.Key(), f, anew)
    {
      var j := 0;
      while j < |when|
        invariant 0 <= j <= |when|
        invariant ScoresFrom(On(text), when, j, at, frozen.Key(), f, anew)
               == ScoresFrom(On(text), when, 0, at, frozen.Key(), f, anew)
      {
        if !Unscored(when[j]) {
          var v := TestPass(when[j], text, at, frozen, f, anew, UNBOUND);
          if v.Fault? { return Fault; }
          if v.value.None? { return Success(false); }
        }
        j := j + 1;
      }
      r := Success(true);
    }

    /** Whether any rule of a group would hold here, scored against a frozen copy. */
    method Score(group: string, text: string, at: int, organs: Organs, anew: bool, lead: int) returns (r: Result<bool>)
      ensures r == Scored(On(text), group, at, organs.Key(), anew, lead)
    {
      var facts := FactsAt(text, at, book.tab);
      if facts.Fault? { return Fault; }
      var f := facts.value.(lead := lead);
      var frozen := organs.Copy();
      var i := 0;
      while i < |book.rules|
        invariant 0 <= i <= |book.rules| && frozen.Key() == organs.Key()
        invariant GroupFrom(On(text), i, group, at, organs.Key(), f, anew)
               == GroupFrom(On(text), 0, group, at, organs.Key(), f, anew)
      {
        if group in book.rules[i].groups {
          var v := ScoreRule(book.rules[i].when, text, at, frozen, f, anew);
          if v.Fault? || v.value { return v; }
        }
        i := i + 1;
      }
      r := Success(false);
    }

    method TestAny(t: Test, text: string, at: int, organs: Organs, f: Facts, anew: bool, b: Bound)
      returns (v: Verdict)
      ensures v == Holds(On(text), t, at, organs.Key(), f, anew, b)
    {
      if !Unscored(t) {
        v := TestPass(t, text, at, organs, f, anew, b);
        return;
      }
      var anchor := t.anchor;
      var where: (int, int);
      if anchor.From? {
        var a := Anchored(On(text), anchor, at, organs.Key(), f, b);
        if a.Fault? { return Fault; }
        where := a.value;
      } else {
        var off := if anchor.After? then at + b.eaten else at;
        if off < 0 || book.tab <= 0 { return Fault; }
        var x, c := Soak(text, off, 0);
        where := (x, c);
      }
      var any := Score(t.group, text, where.0, organs, anew, where.1);
      if any.Fault? { return Fault; }
      v := Check(if t.Fires? then any.value else !any.value, b);
    }

    /** Score a rule's guard without committing, then apply. A rule turned away by its
        guard leaves the organs as they were. */
    method Attempt(rule: Rule, text: string, at: int, organs: Organs, f: Facts, anew: bool)
      returns (ok: bool, hit: Option<Hit>, abstained: bool)
      modifies organs
      ensures var a := Tried(On(text), rule, at, old(organs.Key()), f, anew);
              ok == a.Success? && (ok ==> a.value == Attempted(hit, organs.Key(), abstained))
      ensures GuardFrom(On(text), rule.when, 0, at, old(organs.Key()), f, anew, UNBOUND) == Success(None) ==>
                ok && hit.None? && !abstained && organs.Key() == old(organs.Key())
    {
      ok, hit, abstained := false, None, false;
      ghost var o := organs.Key();
      var b, i := UNBOUND, 0;
      while i < |rule.when|
        invariant 0 <= i <= |rule.when| && organs.Key() == o
        invariant GuardFrom(On(text), rule.when, i, at, o, f, anew, b)
               == GuardFrom(On(text), rule.when, 0, at, o, f, anew, UNBOUND)
      {
        var v := TestAny(rule.when[i], text, at, organs, f, anew, b);
        if v.Fault? { return; }
        if v.value.None? {
          ok := true;
          return;
        }
        b := v.value.value;
        i := i + 1;
      }
      ok, hit, abstained := Apply(rule, text, at, organs, b);
    }

    /** One phase's rules in order, until one answers or withdraws the ask. */
    method Enter(phase: Phase, text: string, at: int, organs: Organs, anew: bool, broke: bool, spent: set<string>)
      returns (ok: bool, hit: Option<Hit>, abstained: bool)
      modifies organs
      ensures var a := Entered(On(text), phase, at, old(organs.Key()), anew, broke, spent);
              ok == a.Success? && (ok ==> a.value == Attempted(hit, organs.Key(), abstained))
    {
      ok, hit, abstained := true, None, false;
      if phase == Matched || (phase == Layout && !anew) { return; }
      var stand := Stood(On(text), phase, at, organs.Key());
      if stand.Fault? {
        ok := false;
        return;
      }
      var off, f := stand.value.0, stand.value.1.(broke := broke);
      var sealed := Sealed(book, organs.Key());
      var i := 0;
      while i < |book.rules|
        invariant 0 <= i <= |book.rules| && ok && hit.None? && !abstained
        invariant RulesFrom(On(text), phase, i, off, f, sealed, organs.Key(), anew, spent)
               == RulesFrom(On(text), phase, 0, off, f, sealed, old(organs.Key()), anew, spent)
      {
        if !PassedOver(book.rules[i], phase, sealed, spent) {
          ok, hit, abstained := Attempt(book.rules[i], text, off, organs, f, anew);
          if !ok || hit.Some? || abstained { return; }
        }
        i := i + 1;
      }
    }

    /** The phases in order, until one of them answers or withdraws the ask. */
    method EnterAll(phases: seq<Phase>, text: string, at: int, organs: Organs, anew: bool, broke: bool,
                    spent: set<string>)
      returns (r: Result<Option<Hit>>)
      modifies organs
      ensures match r
              case Fault => PhasesFrom(On(text), phases, at, old(organs.Key()), anew, broke, spent).Fault?
              case Success(hit) =>
                PhasesFrom(On(text), phases, at, old(organs.Key()), anew, broke, spent)
                == Success(Answer(hit, organs.Key()))
    {
      var p := 0;
      assert phases[0..] == phases;
      while p < |phases|
        invariant 0 <= p <= |phases|
        invariant PhasesFrom(On(text), phases[p..], at, organs.Key(), anew, broke, spent)
               == PhasesFrom(On(text), phases, at, old(organs.Key()), anew, broke, spent)
      {
        var ok, hit, abstained := Enter(phases[p], text, at, organs, anew, broke, spent);
        if !ok { return Fault; }
        if hit.Some? {
          if hit.value.length > 0 {
            organs.since := hit.value.start + hit.value.length;
          }
          return Success(hit);
        }
        if abstained { return Success(None); }
        p := p + 1;
      }
      r := Success(None);
    }

    /** The customary's answer at one offset, or none. */
    method Step(text: string, at: int, organs: Organs, anew: bool, spent: set<string>) returns (r: Result<Option<Hit>>)
      modifies organs
      ensures match r
              case Fault => Stepped(On(text), at, old(organs.Key()), anew, spent).Fault?
              case Success(hit) =>
                Stepped(On(text), at, old(organs.Key()), anew, spent) == Success(Answer(hit, organs.Key()))
    {
      var over := Over(On(text), at);
      var broke := Broken(On(text), at, over, organs.Key());
      r := EnterAll(PHASES, text, at + over, organs, anew, broke, spent);
    }

    /** A walker that asks this book of a text. */
    ghost predicate Serves(w: Walker, text: string) {
      w.text == text && w.lines == book.lines &&
      forall at: int, o: State, spent: set<string> {:trigger Stepped(On(text), at, o, true, spent)} ::
        w.ask(at, o, spent) == Stepped(On(text), at, o, true, spent)
    }

    /** One ask of a walk. */
    method Ask(ghost w: Walker, text: string, at: int, organs: Organs, spent: set<string>)
      returns (r: Result<Option<Hit>>)
      requires Serves(w, text)
      modifies organs
      ensures var a := w.ask(at, old(organs.Key()), spent);
              match r
              case Fault => a.Fault?
              case Success(hit) => a == Success(Answer(hit, organs.Key()))
    {
      r := Step(text, at, organs, true, spent);
    }

    /** Every answer over a text, in order. The organs come back as the walk left them: the
        caller's own object, unless an envelope voided an answer, in which case a copy is
        returned and the caller's object keeps the effects of the first voided answer. */
    method Walk(text: string, organs: Organs, asked: Option<Hit -> bool>, lo: nat, hi: nat, limit: nat)
      returns (end: Ending, out: seq<Hit>, journal: seq<(int, State)>, left: Organs)
      requires hi <= |text|
      modifies organs
      ensures var r := Run(Walking(On(text), asked), hi, limit, Arriving(lo, old(organs.Key())));
              && end == r.end
              && (end != Raised ==>
                  && out == r.hits
                  && journal == [(lo as int, old(organs.Key()))] + r.journal
                  && left.Key() == r.last.organs
                  && organs.Key() == r.last.lent.GetOr(r.last.organs)
                  && if r.last.lent.None? then left == organs else asked.Some? && fresh(left))
    {
      end, out, journal, left := WalkBy(Walking(On(text), asked), text, organs, asked, lo, hi, limit);
    }

    /** One turn: an answer admitted, an answer voided, or a decline. Voiding gives back a
        copy of the organs as they were, and leaves the object asked as the answer left it. */
    method OneTurn(ghost w: Walker, text: string, organs: Organs, asked: Option<Hit -> bool>,
                   at: int, spent: set<string>, held: nat, ghost lent: Option<State>)
      returns (end: Option<Ending>, hit: Option<Hit>, moved: bool, next: int, spent': set<string>, held': nat,
               left: Organs)
      requires w.asked == asked && Serves(w, text)
      modifies organs
      ensures left == organs || (asked.Some? && fresh(left))
      ensures match Turn(w, Point(at, spent, held, old(organs.Key()), lent))
              case Raise => end == Some(Raised)
              case Stop(o) => end == Some(Done) && left == organs && left.Key() == o
              case On(q, h, m) =>
                && end.None? && (hit, moved) == (h, m)
                && q == Point(next, spent', held', left.Key(),
                              if left == organs || lent.Some? then lent else Some(organs.Key()))
    {
      end, hit, moved, next, spent', held', left := None, None, false, at, spent, held, organs;
      if at < 0 {
        end := Some(Raised);
        return;
      }
      var was := organs.Key();
      var answer := Ask(w, text, at, organs, spent);
      if answer.Fault? {
        end := Some(Raised);
        return;
      }
      hit := answer.value;
      if hit.None? {
        if at >= |text| {
          end := Some(Done);
          return;
        }
        moved, next, spent', held' := true, Next(text, book.lines, at), {}, 0;
        return;
      }
      var h := hit.value;
      if asked.Some? && !asked.value(h) {
        hit := None;
        left := new Organs(was);
        spent' := spent + {h.symbol};
      } else if h.length == 0 && h.start == at {
        held' := held + 1;
        if held' > STALL {
          end := Some(Raised);
          return;
        }
        spent' := if organs.Key() != was then {} else spent + {h.symbol};
      } else {
        moved, next, spent', held' := true, h.start + h.length, {}, 0;
      }
    }

    method WalkBy(ghost w: Walker, text: string, organs: Organs, asked: Option<Hit -> bool>, lo: nat, hi: nat,
                  limit: nat)
      returns (end: Ending, out: seq<Hit>, journal: seq<(int, State)>, left: Organs)
      requires hi <= |text| && w.asked == asked && Serves(w, text)
      modifies organs
      ensures var r := Run(w, hi, limit, Arriving(lo, old(organs.Key())));
              && end == r.end
              && (end != Raised ==>
                  && out == r.hits
                  && journal == [(lo as int, old(organs.Key()))] + r.journal
                  && left.Key() == r.last.organs
                  && organs.Key() == r.last.lent.GetOr(r.last.organs)
                  && if r.last.lent.None? then left == organs else asked.Some? && fresh(left))
    {
      ghost var p := Arriving(lo, organs.Key());
      left, out, journal := organs, [], [(lo as int, organs.Key())];
      ghost var run := Run(w, hi, limit, p);
      ghost var whole := Walked(run.end, run.hits, journal + run.journal, run.last, run.steps);
      assert [] + run.hits == run.hits;
      var at: int, spent: set<string>, held: nat, steps := lo, {}, 0, 0;
      while (at < hi || at == hi == |text|) && steps < limit
        invariant 0 <= steps <= limit
        invariant left == organs || fresh(left)
        invariant p == Point(at, spent, held, left.Key(), p.lent)
        invariant p.lent.None? ==> left == organs
        invariant p.lent.Some? ==> asked.Some? && fresh(left) && organs.Key() == p.lent.value
        invariant Rests(whole, out, journal, Run(w, hi, limit - steps, p))
        decreases limit - steps
      {
        ghost var turn := Turn(w, p);
        RunGoesOn(w, hi, limit - steps, p, whole, out, journal);
        var stop, hit, moved;
        stop, hit, moved, at, spent, held, left := OneTurn(w, text, left, asked, at, spent, held, p.lent);
        if stop.Some? {
          end := stop.value;
          return;
        }
        steps := steps + 1;
        out := out + Listed(hit);
        assert journal + [] == journal;
        ghost var noted := journal + Noted(turn.moved, turn.p);
        if moved {
          journal := journal + [(at, left.Key())];
        }
        assert journal == noted;
        p := turn.p;
      }
      end := if at < hi || at == hi == |text| then Exhausted else Done;
    }
  }
}
