/** What the actions of a rule do to the organs, and what they answer. */
module Acting {
  import opened Wrappers
  import opened Books
  import opened Guards
  import opened Steps

  // ---- the stacks

  /** A pop takes back exactly what a push put on, and nothing else has changed. */
  lemma {:induction false} PopUndoesPushFrame(o: State, width: Value, kind: int, f: Facts, b: Bound)
    ensures var pushed := Written(PushFrame(width, kind), o, f, b);
            pushed.Success? ==> pushed.value.frames != o.frames && Written(PopFrame, pushed.value, f, b) == Success(o)
  {
  }

  lemma {:induction false} PopUndoesPushMark(o: State, kind: int, count: Value, tag: Option<Slice>, f: Facts, b: Bound)
    ensures var pushed := Written(PushMark(kind, count, tag), o, f, b);
            pushed.Success? ==> pushed.value.marks != o.marks && Written(PopMark, pushed.value, f, b) == Success(o)
  {
  }

  /** A plain pop drops the innermost entry of its own stack, and from an empty one nothing. */
  lemma {:induction false} PopDropsInnermost(o: State, f: Facts, b: Bound)
    ensures var r := Written(PopFrame, o, f, b);
            r.Success? && r.value.(frames := o.frames) == o
            && (if o.frames == [] then r.value.frames == [] else exists x :: o.frames == r.value.frames + [x])
    ensures var r := Written(PopMark, o, f, b);
            r.Success? && r.value.(marks := o.marks) == o
            && (if o.marks == [] then r.value.marks == [] else exists x :: o.marks == r.value.marks + [x])
  {
    if o.frames != [] {
      assert o.frames == o.frames[..|o.frames| - 1] + [o.frames[|o.frames| - 1]];
    }
    if o.marks != [] {
      assert o.marks == o.marks[..|o.marks| - 1] + [o.marks[|o.marks| - 1]];
    }
  }

  /** What is left below the innermost entry of a kind, or nothing where there is none. */
  predicate PoppedTo<T(==)>(s: seq<T>, r: seq<T>, of: T -> bool) {
    && r <= s
    && (forall i :: |r| < i < |s| ==> !of(s[i]))
    && (if exists i :: 0 <= i < |s| && of(s[i]) then |r| < |s| && of(s[|r|]) else r == [])
  }

  lemma {:induction false} FramesUntilPops(s: seq<Frame>, kind: int)
    ensures PoppedTo(s, FramesUntil(s, kind), (x: Frame) => x.kind == kind)
  {
    if s != [] && s[|s| - 1].kind != kind {
      FramesUntilPops(s[..|s| - 1], kind);
      if i :| 0 <= i < |s| && s[i].kind == kind {
        assert s[..|s| - 1][i] == s[i];
      }
    }
  }

  lemma {:induction false} MarksUntilPops(s: seq<Mark>, kind: int)
    ensures PoppedTo(s, MarksUntil(s, kind), (x: Mark) => x.kind == kind)
  {
    if s != [] && s[|s| - 1].kind != kind {
      MarksUntilPops(s[..|s| - 1], kind);
      if i :| 0 <= i < |s| && s[i].kind == kind {
        assert s[..|s| - 1][i] == s[i];
      }
    }
  }

  /** A pop to a kind leaves the entries below the innermost of that kind, or none, and
      changes its own stack only. */
  lemma {:induction false} PopReachesKind(o: State, kind: int, f: Facts, b: Bound)
    ensures var r := Written(PopFrames(kind), o, f, b);
            && r.Success? && r.value.(frames := o.frames) == o
            && PoppedTo(o.frames, r.value.frames, (x: Frame) => x.kind == kind)
    ensures var r := Written(PopMarks(kind), o, f, b);
            && r.Success? && r.value.(marks := o.marks) == o
            && PoppedTo(o.marks, r.value.marks, (x: Mark) => x.kind == kind)
  {
    FramesUntilPops(o.frames, kind);
    MarksUntilPops(o.marks, kind);
  }

  /** A push changes its own stack only, by one entry on top, and what was pushed is what the
      top of the stack then reads. */
  lemma {:induction false} PushedFrameIsRead(o: State, width: Value, kind: int, f: Facts, b: Bound)
    ensures var r := Written(PushFrame(width, kind), o, f, b);
            && (r.Success? <==> Eval(width, o, f, b).Success?)
            && (r.Success? ==>
                  && r.value.(frames := o.frames) == o && o.frames <= r.value.frames
                  && Eval(FramesTopWidth, r.value, f, b) == Eval(width, o, f, b)
                  && Eval(FramesDepth, r.value, f, b) == Success(|o.frames| + 1)
                  && r.value.frames[|o.frames|].kind == kind)
  {
  }

  lemma {:induction false} PushedMarkIsRead(o: State, kind: int, count: Value, tag: Option<Slice>, f: Facts, b: Bound)
    ensures var r := Written(PushMark(kind, count, tag), o, f, b);
            && (r.Success? <==> Eval(count, o, f, b).Success? && Sliced(tag, b).Success?)
            && (r.Success? ==>
                  && r.value.(marks := o.marks) == o && o.marks <= r.value.marks
                  && Eval(MarksTopCount, r.value, f, b) == Eval(count, o, f, b)
                  && Eval(MarksDepth, r.value, f, b) == Success(|o.marks| + 1)
                  && r.value.marks[|o.marks|].kind == kind && r.value.marks[|o.marks|].tag == Sliced(tag, b).value)
  {
  }

  /** The register an index designates, counting back from the end where it is negative. */
  predicate Designates(i: int, n: nat, j: int) {
    0 <= j < n && (i == j || i == j - n)
  }

  /** Setting a register changes that one and no other, and it then reads as it was set. An
      index outside the bank faults. */
  lemma {:induction false} SetChangesOne(o: State, i: int, v: Value, f: Facts, b: Bound)
    ensures var r := Written(Set(i, v), o, f, b);
            && (r.Success? <==> Eval(v, o, f, b).Success? && exists j :: Designates(i, |o.regs|, j))
            && (r.Success? ==>
                  && r.value.(regs := o.regs) == o && |r.value.regs| == |o.regs|
                  && Eval(Reg(i), r.value, f, b) == Eval(v, o, f, b)
                  && (forall j :: 0 <= j < |o.regs| && !Designates(i, |o.regs|, j) ==>
                        r.value.regs[j] == o.regs[j])
                  && forall j :: Designates(i, |o.regs|, j) ==> Success(r.value.regs[j]) == Eval(v, o, f, b))
  {
    var n := |o.regs|;
    if 0 <= i < n {
      assert Designates(i, n, i);
    } else if -n <= i < 0 {
      assert Designates(i, n, n + i);
    }
  }

  /** Every action that is no write leaves the organs as they are. */
  lemma {:induction false} OthersWriteNothing(act: Action, o: State, f: Facts, b: Bound)
    requires act.Refuse? || act.Abstain? || act.Emit? || act.Skip?
    ensures Written(act, o, f, b) == Success(o)
  {
  }

  // ---- the actions of a rule, in order

  /** The first action that withdraws, if one does. */
  function Withdrawn(acts: seq<Action>, i: nat): (k: nat)
    requires i <= |acts|
    ensures i <= k <= |acts| && (k < |acts| ==> acts[k].Refuse? || acts[k].Abstain?)
    ensures forall j :: i <= j < k ==> !acts[j].Refuse? && !acts[j].Abstain?
    decreases |acts| - i
  {
    if i == |acts| || acts[i].Refuse? || acts[i].Abstain? then i else Withdrawn(acts, i + 1)
  }

  /** The organs and the skip, before each action and after the last. */
  datatype Course = Course(organs: seq<State>, skips: seq<int>)

  /** Each action follows from the one before it. */
  ghost predicate Follows(acts: seq<Action>, from: nat, n: nat, f: Facts, b: Bound, c: Course) {
    && from <= n <= |acts| && |c.organs| == |c.skips| == n - from + 1
    && (forall i :: from <= i < n ==> Success(c.organs[i + 1 - from]) == Written(acts[i], c.organs[i - from], f, b))
    && (forall i :: from <= i < n && acts[i].Skip? ==>
          Success(c.skips[i + 1 - from] - c.skips[i - from]) == Eval(acts[i].v, c.organs[i - from], f, b))
    && (forall i :: from <= i < n && !acts[i].Skip? ==> c.skips[i + 1 - from] == c.skips[i - from])
  }

  /** The answer an emit makes: where it was asked and what was skipped before it, as long as what
      is eaten or what it states, and never shorter than nothing. */
  predicate Makes(e: Scene, rule: Rule, act: Action, at: int, skip: int, o: State, f: Facts, b: Bound, h: Hit)
    requires act.Emit?
  {
    && h.rule == rule.name && h.start == at + skip
    && (match act.extent
        case Stated(v) =>
          h.symbol == act.symbol
          && Eval(v, o, f, b).Success? && h.length == if Eval(v, o, f, b).value > 0 then Eval(v, o, f, b).value else 0
        case Claimed => h.symbol == act.symbol && h.length == if b.eaten > 0 then b.eaten else 0
        case Classified(table) =>
          && h.length == (if b.eaten > 0 then b.eaten else 0)
          && h.symbol == e.env.renamed(table, Cut(e.text, at, at + b.eaten)).GetOr(act.symbol))
  }

  lemma {:induction false} AnsweredMakes(e: Scene, rule: Rule, act: Action, at: int, skip: int, o: State, f: Facts,
                                         b: Bound)
    requires act.Emit?
    ensures var h := Answered(e, rule.name, act.symbol, act.extent, at, skip, o, f, b);
            h.Success? ==> Makes(e, rule, act, at, skip, o, f, b, h.value)
  {
  }

  /** The answer of the last emit between two actions, or the answer before them. */
  ghost predicate Answers(e: Scene, rule: Rule, at: int, from: nat, n: nat, f: Facts, b: Bound, c: Course,
                          was: Option<Hit>, now: Option<Hit>)
    requires Follows(rule.then_, from, n, f, b, c)
  {
    if exists l :: LastEmit(rule.then_, from, n, l) then
      && now.Some?
      && forall l :: LastEmit(rule.then_, from, n, l) ==>
           Makes(e, rule, rule.then_[l], at, c.skips[l - from], c.organs[l - from], f, b, now.value)
    else now == was
  }

  predicate LastEmit(acts: seq<Action>, from: nat, n: nat, l: int) {
    from <= l < n <= |acts| && acts[l].Emit? && forall m :: l < m < n ==> !acts[m].Emit?
  }

  /** How a rule ends: the organs after its last action, and nothing answered if one withdrew. */
  ghost predicate Ends(e: Scene, rule: Rule, at: int, from: nat, f: Facts, b: Bound, c: Course, was: Option<Hit>,
                       a: Attempted)
    requires from <= |rule.then_| && Follows(rule.then_, from, Withdrawn(rule.then_, from), f, b, c)
  {
    var n := Withdrawn(rule.then_, from);
    && a.organs == c.organs[n - from]
    && (a.abstained <==> n < |rule.then_| && rule.then_[n].Abstain?)
    && (if n < |rule.then_| then a.hit.None? else Answers(e, rule, at, from, n, f, b, c, was, a.hit))
  }

  function Led(o: State, skip: int, c: Course): Course {
    Course([o] + c.organs, [skip] + c.skips)
  }

  lemma {:induction false} FollowsLed(acts: seq<Action>, from: nat, n: nat, f: Facts, b: Bound, o: State, skip: int,
                                      c: Course)
    requires from < n && Follows(acts, from + 1, n, f, b, c)
    requires Written(acts[from], o, f, b) == Success(c.organs[0])
    requires if acts[from].Skip? then Eval(acts[from].v, o, f, b) == Success(c.skips[0] - skip) else c.skips[0] == skip
    ensures Follows(acts, from, n, f, b, Led(o, skip, c))
  {
    var d := Led(o, skip, c);
    forall i | from <= i < n
      ensures Success(d.organs[i + 1 - from]) == Written(acts[i], d.organs[i - from], f, b)
      ensures if acts[i].Skip? then Success(d.skips[i + 1 - from] - d.skips[i - from])
                                    == Eval(acts[i].v, d.organs[i - from], f, b)
              else d.skips[i + 1 - from] == d.skips[i - from]
    {
      if i > from {
        assert d.organs[i - from] == c.organs[i - (from + 1)] && d.skips[i - from] == c.skips[i - (from + 1)];
      }
    }
  }

  lemma {:induction false} AnswersLed(e: Scene, rule: Rule, at: int, from: nat, n: nat, f: Facts, b: Bound, o: State,
                                      skip: int, c: Course, was: Option<Hit>, mid: Option<Hit>, now: Option<Hit>)
    requires from < n && Follows(rule.then_, from + 1, n, f, b, c)
    requires Follows(rule.then_, from, n, f, b, Led(o, skip, c))
    requires Answers(e, rule, at, from + 1, n, f, b, c, mid, now)
    requires if rule.then_[from].Emit? then mid.Some? && Makes(e, rule, rule.then_[from], at, skip, o, f, b, mid.value)
             else mid == was
    ensures Answers(e, rule, at, from, n, f, b, Led(o, skip, c), was, now)
  {
    var acts, d, next := rule.then_, Led(o, skip, c), from + 1;
    if l :| LastEmit(acts, next, n, l) {
      assert LastEmit(acts, from, n, l);
      forall m | LastEmit(acts, from, n, m)
        ensures Makes(e, rule, acts[m], at, d.skips[m - from], d.organs[m - from], f, b, now.value)
      {
        assert m == l;
        assert d.skips[l - from] == c.skips[l - (from + 1)] && d.organs[l - from] == c.organs[l - (from + 1)];
      }
    } else if acts[from].Emit? {
      if exists m :: from < m < n && acts[m].Emit? {
        LastEmitExists(acts, next, n);
      }
      assert LastEmit(acts, from, n, from);
    } else {
      forall l ensures !LastEmit(acts, from, n, l) {
        assert !LastEmit(acts, next, n, l);
      }
    }
  }

  lemma {:induction false} LastEmitExists(acts: seq<Action>, from: nat, n: nat)
    requires n <= |acts| && exists m :: from <= m < n && acts[m].Emit?
    ensures exists l :: LastEmit(acts, from, n, l)
    decreases n
  {
    if acts[n - 1].Emit? {
      assert LastEmit(acts, from, n, n - 1);
    } else {
      LastEmitExists(acts, from, n - 1);
      var l :| LastEmit(acts, from, n - 1, l);
      assert LastEmit(acts, from, n, l);
    }
  }

  /** One action more, in front of a course that is known from the next on. */
  lemma {:induction false} EndsLed(e: Scene, rule: Rule, at: int, from: nat, f: Facts, b: Bound, o: State, skip: int,
                                   c: Course, was: Option<Hit>, mid: Option<Hit>, a: Attempted)
    requires from < |rule.then_| && !rule.then_[from].Refuse? && !rule.then_[from].Abstain?
    requires Follows(rule.then_, from + 1, Withdrawn(rule.then_, from + 1), f, b, c)
    requires Written(rule.then_[from], o, f, b) == Success(c.organs[0])
    requires if rule.then_[from].Skip? then Eval(rule.then_[from].v, o, f, b) == Success(c.skips[0] - skip)
             else c.skips[0] == skip
    requires if rule.then_[from].Emit? then mid.Some? && Makes(e, rule, rule.then_[from], at, skip, o, f, b, mid.value)
             else mid == was
    requires Ends(e, rule, at, from + 1, f, b, c, mid, a)
    ensures Follows(rule.then_, from, Withdrawn(rule.then_, from), f, b, Led(o, skip, c))
    ensures Ends(e, rule, at, from, f, b, Led(o, skip, c), was, a)
  {
    var n := Withdrawn(rule.then_, from);
    FollowsLed(rule.then_, from, n, f, b, o, skip, c);
    if n == |rule.then_| {
      AnswersLed(e, rule, at, from, n, f, b, o, skip, c, was, mid, a.hit);
    }
  }

  ghost predicate Starts(c: Course, o: State, skip: int) {
    c.organs != [] && c.skips != [] && c.organs[0] == o && c.skips[0] == skip
  }

  /** The course of a rule's actions from one of them on, and how it ends. */
  lemma {:induction false} ActsFollow(e: Scene, rule: Rule, at: int, f: Facts, b: Bound, i: nat, o: State, skip: int,
                                      hit: Option<Hit>) returns (c: Course)
    requires i <= |rule.then_| && ActsFrom(e, rule, at, f, b, i, o, skip, hit).Success?
    ensures Starts(c, o, skip) && Follows(rule.then_, i, Withdrawn(rule.then_, i), f, b, c)
    ensures Ends(e, rule, at, i, f, b, c, hit, ActsFrom(e, rule, at, f, b, i, o, skip, hit).value)
    decreases |rule.then_| - i
  {
    var a := ActsFrom(e, rule, at, f, b, i, o, skip, hit).value;
    if i == |rule.then_| || rule.then_[i].Refuse? || rule.then_[i].Abstain? {
      c := Course([o], [skip]);
    } else {
      var act := rule.then_[i];
      var o' := Written(act, o, f, b).value;
      var skip' := if act.Skip? then skip + Eval(act.v, o, f, b).value else skip;
      var mid := if act.Emit? then Some(Answered(e, rule.name, act.symbol, act.extent, at, skip, o, f, b).value)
                 else hit;
      if act.Emit? {
        AnsweredMakes(e, rule, act, at, skip, o, f, b);
      }
      var d := ActsFollow(e, rule, at, f, b, i + 1, o', skip', mid);
      EndsLed(e, rule, at, i, f, b, o, skip, d, hit, mid, a);
      c := Led(o, skip, d);
    }
  }

  /** A rule's actions are taken in order up to the first that withdraws: the organs are as the
      last of them left them; a withdrawal answers nothing; and otherwise the answer is the last
      emit's, after the skips before it. */
  lemma {:induction false} RuleIsItsActions(e: Scene, rule: Rule, at: int, o: State, b: Bound)
    requires Applied(e, rule, at, o, b).Success?
    ensures FactsAt(e.text, at, e.book.tab).Success?
    ensures var f := FactsAt(e.text, at, e.book.tab).value;
            exists c :: Starts(c, o, 0) && Follows(rule.then_, 0, Withdrawn(rule.then_, 0), f, b, c)
                        && Ends(e, rule, at, 0, f, b, c, None, Applied(e, rule, at, o, b).value)
  {
    var c := ActsFollow(e, rule, at, FactsAt(e.text, at, e.book.tab).value, b, 0, o, 0, None);
  }
}
