/** What the tests of a guard ask, one against another. */
module Scoring {
  import opened Wrappers
  import opened Books
  import opened Texts
  import opened Guards
  import opened Steps
  import opened Scanning
  import opened Guarding
  import opened Reading

  /** A verdict's answer, and nothing of what it bound. */
  predicate Passes(v: Verdict) {
    v.Success? && v.value.Some?
  }

  predicate Fails(v: Verdict) {
    v.Success? && v.value.None?
  }

  /** Every verdict is one of three. */
  predicate Opposite(v: Verdict, u: Verdict) {
    (Passes(v) <==> Fails(u)) && (Fails(v) <==> Passes(u))
  }

  /** Tests that are each other's negation. */
  lemma {:induction false} OppositeTests(e: Scene, p: string, line: Line, at: int, o: State, f: Facts, anew: bool,
                                         b: Bound)
    ensures Opposite(Holds(e, Probe(p), at, o, f, anew, b), Holds(e, NoProbe(p), at, o, f, anew, b))
    ensures Opposite(Holds(e, Is(line), at, o, f, anew, b), Holds(e, IsNot(line), at, o, f, anew, b))
    ensures Passes(Holds(e, Granted, at, o, f, anew, b)) && Fails(Holds(e, Withheld, at, o, f, anew, b))
    ensures Passes(Holds(e, Fresh, at, o, f, true, b)) && Fails(Holds(e, Fresh, at, o, f, false, b))
  {
  }

  // ---- what is eaten is eaten once

  /** Value expressions that do not read the width eaten. */
  predicate Unmeasured(v: Value) {
    match v
    case Width => false
    case FramesAtWidth(at) => Unmeasured(at)
    case Bin(_, a, b) => Unmeasured(a) && Unmeasured(b)
    case _ => true
  }

  lemma {:induction false} UnmeasuredEvaluates(v: Value, o: State, f: Facts, b: Bound, eaten: int)
    requires Unmeasured(v)
    ensures Eval(v, o, f, b.(eaten := eaten)) == Eval(v, o, f, b)
    decreases v
  {
    match v
    case FramesAtWidth(at) => UnmeasuredEvaluates(at, o, f, b, eaten);
    case Bin(_, x, y) =>
      UnmeasuredEvaluates(x, o, f, b, eaten);
      UnmeasuredEvaluates(y, o, f, b, eaten);
    case _ =>
  }

  /** Tests that read the text past what is eaten. */
  predicate ReadsOn(t: Test) {
    match t
    case Probe(_) => true
    case NoProbe(_) => true
    case Nest(_, _) => true
    case Soak(to, _, from) => (to.Some? ==> Unmeasured(to.value)) && (from.Some? ==> Unmeasured(from.value))
    case _ => false
  }

  /** A verdict with so much more eaten. */
  function More(v: Verdict, eaten: int): Verdict {
    match v
    case Fault => Fault
    case Success(x) => Success(if x.Some? then Some(x.value.(eaten := x.value.eaten + eaten)) else None)
  }

  /** A test that reads on asks of the text past what is eaten just what it would ask there with
      nothing eaten, and adds what it eats. */
  lemma {:induction false} ReadsPastEaten(e: Scene, t: Test, at: int, o: State, f: Facts, anew: bool, b: Bound)
    requires ReadsOn(t)
    ensures Holds(e, t, at, o, f, anew, b)
         == More(Holds(e, t, at + b.eaten, o, f, anew, b.(eaten := 0)), b.eaten)
  {
    match t
    case Soak(to, _, from) =>
      if to.Some? { UnmeasuredEvaluates(to.value, o, f, b, 0); }
      if from.Some? { UnmeasuredEvaluates(from.value, o, f, b, 0); }
    case _ =>
  }

  /** A probe eats its match, and keeps it unless one was kept before; a nest never fails. */
  lemma {:induction false} ProbeEatsItsMatch(e: Scene, p: string, open: string, close: string, at: int, o: State,
                                             f: Facts, anew: bool, b: Bound)
    ensures var m := e.env.probe(p, e.text, at + b.eaten);
            var v := Holds(e, Probe(p), at, o, f, anew, b);
            && (Passes(v) <==> m.Some?) && v.Success?
            && (Passes(v) ==> v.value.value.eaten - b.eaten == m.value.end - m.value.start
                              && v.value.value.first == (if b.first.None? then m else b.first)
                              && v.value.value.(eaten := b.eaten, first := b.first) == b)
    ensures !Fails(Holds(e, Nest(open, close), at, o, f, anew, b))
    ensures var v := Holds(e, Nest(open, close), at, o, f, anew, b);
            Passes(v) ==> Nested(e, open, close, at + b.eaten, 1).Success?
                          && at + v.value.value.eaten == Nested(e, open, close, at + b.eaten, 1).value.0
                          && v.value.value.(eaten := b.eaten) == b
  {
  }

  // ---- tests and values of the same name

  /** The value a comparing test compares, and with what; and whether there is anything to. */
  function Compares(t: Test, o: State): Option<(Value, Cmp, Value)> {
    match t
    case LeadIs(op, v) => Some((Lead, op, v))
    case FramesDepthIs(op, v) => Some((FramesDepth, op, v))
    case MarksDepthIs(op, v) => Some((MarksDepth, op, v))
    case RegIs(r, op, v) => Some((Reg(r), op, v))
    case FramesTopWidthIs(op, v) => if o.frames == [] then None else Some((FramesTopWidth, op, v))
    case MarksTopCountIs(op, v) => if o.marks == [] then None else Some((MarksTopCount, op, v))
    case _ => None
  }

  predicate Comparing(t: Test) {
    t.LeadIs? || t.FramesDepthIs? || t.MarksDepthIs? || t.RegIs? || t.FramesTopWidthIs? || t.MarksTopCountIs?
  }

  /** A comparing test means by its name what the value of that name means, and with no frame or
      mark to compare it fails. */
  lemma {:induction false} TestsReadTheirValues(e: Scene, t: Test, at: int, o: State, f: Facts, anew: bool, b: Bound)
    requires Comparing(t)
    ensures var v := Holds(e, t, at, o, f, anew, b);
            match Compares(t, o)
            case None => Fails(v)
            case Some((x, op, y)) =>
              if Eval(x, o, f, b).Fault? || Eval(y, o, f, b).Fault? then v.Fault?
              else v == Success(if Compare(Eval(x, o, f, b).value, op, Eval(y, o, f, b).value) then Some(b) else None)
  {
  }

  /** And the width of a frame by its place, where there is one. */
  lemma {:induction false} FrameTestReadsItsFrame(e: Scene, i: Value, op: Cmp, v: Value, at: int, o: State, f: Facts,
                                                  anew: bool, b: Bound)
    requires Eval(i, o, f, b).Success? && Eval(v, o, f, b).Success?
    ensures var there := 0 <= Eval(i, o, f, b).value < |o.frames|;
            Holds(e, FrameAtWidthIs(i, op, v), at, o, f, anew, b)
            == Success(if there && Compare(Eval(FramesAtWidth(i), o, f, b).value, op, Eval(v, o, f, b).value)
                       then Some(b) else None)
  {
  }

  // ---- kinds

  lemma {:induction false} KindAt(e: Scene, i: nat, kind: int, at: int, o: State, f: Facts, anew: bool, b: Bound)
    ensures Passes(Holds(e, FramesAtKind(Num(i), {kind}), at, o, f, anew, b))
       <==> i < |o.frames| && o.frames[i].kind == kind
  {
    assert Eval(Num(i), o, f, b) == Success(i);
  }

  /** Having a kind is being of it at some place. */
  lemma {:induction false} HasIsSomewhere(e: Scene, kind: int, at: int, o: State, f: Facts, anew: bool, b: Bound)
    ensures Passes(Holds(e, FramesHas(kind), at, o, f, anew, b))
       <==> exists i: nat :: Passes(Holds(e, FramesAtKind(Num(i), {kind}), at, o, f, anew, b))
  {
    forall i: nat
      ensures Passes(Holds(e, FramesAtKind(Num(i), {kind}), at, o, f, anew, b))
         <==> i < |o.frames| && o.frames[i].kind == kind
    {
      KindAt(e, i, kind, at, o, f, anew, b);
    }
    if i: nat :| i < |o.frames| && o.frames[i].kind == kind {
      assert Passes(Holds(e, FramesAtKind(Num(i), {kind}), at, o, f, anew, b));
    }
  }

  /** The top's kind is the kind at the last place. */
  lemma {:induction false} TopKindIsLast(e: Scene, kinds: set<int>, at: int, o: State, f: Facts, anew: bool, b: Bound)
    ensures Holds(e, FramesTopKind(kinds), at, o, f, anew, b)
         == Holds(e, FramesAtKind(Bin(Minus, FramesDepth, Num(1)), kinds), at, o, f, anew, b)
  {
    assert Eval(Num(1), o, f, b) == Success(1);
    assert Eval(Bin(Minus, FramesDepth, Num(1)), o, f, b) == Success(|o.frames| - 1);
  }

  /** What was pushed is what the top is, and what is had is that or what was had before. */
  lemma {:induction false} PushedFrameIsSeen(e: Scene, o: State, width: int, pushed: int, kind: int, kinds: set<int>,
                                             at: int, f: Facts, anew: bool, b: Bound)
    ensures var o' := o.(frames := o.frames + [Frame(width, pushed)]);
            && (Passes(Holds(e, FramesTopKind(kinds), at, o', f, anew, b)) <==> pushed in kinds)
            && (Passes(Holds(e, FramesHas(kind), at, o', f, anew, b))
                <==> pushed == kind || Passes(Holds(e, FramesHas(kind), at, o, f, anew, b)))
  {
    var frames := o.frames + [Frame(width, pushed)];
    assert frames[|o.frames|].kind == pushed;
    if i :| 0 <= i < |o.frames| && o.frames[i].kind == kind {
      assert frames[i].kind == kind;
    }
  }

  lemma {:induction false} PushedMarkIsSeen(e: Scene, o: State, count: int, tag: Option<string>, pushed: int,
                                            kind: int, kinds: set<int>, at: int, f: Facts, anew: bool, b: Bound)
    ensures var o' := o.(marks := o.marks + [Mark(pushed, count, tag)]);
            && (Passes(Holds(e, MarksTopKind(kinds), at, o', f, anew, b)) <==> pushed in kinds)
            && (Passes(Holds(e, MarksHas(kind), at, o', f, anew, b))
                <==> pushed == kind || Passes(Holds(e, MarksHas(kind), at, o, f, anew, b)))
  {
    var marks := o.marks + [Mark(pushed, count, tag)];
    assert marks[|o.marks|].kind == pushed;
    if i :| 0 <= i < |o.marks| && o.marks[i].kind == kind {
      assert marks[i].kind == kind;
    }
  }

  /** With nothing on a stack it has no kind. */
  lemma {:induction false} NothingIsSeen(e: Scene, o: State, kind: int, kinds: set<int>, at: int, f: Facts, anew: bool,
                                         b: Bound)
    ensures o.frames == [] ==> Fails(Holds(e, FramesTopKind(kinds), at, o, f, anew, b))
                               && Fails(Holds(e, FramesHas(kind), at, o, f, anew, b))
    ensures o.marks == [] ==> Fails(Holds(e, MarksTopKind(kinds), at, o, f, anew, b))
                              && Fails(Holds(e, MarksHas(kind), at, o, f, anew, b))
  {
  }

  // ---- remembered tags

  /** Some mark from here on has the tag that stands here, or was caught, and none before it is
      without a tag. */
  predicate Recognised(e: Scene, at: int, caught: Option<string>, folded: bool, reach: seq<Mark>) {
    exists i :: 0 <= i < |reach| && Tagged(e, at, caught, folded, reach, i)
  }

  predicate Tagged(e: Scene, at: int, caught: Option<string>, folded: bool, reach: seq<Mark>, i: nat)
    requires i < |reach|
  {
    && (forall j :: 0 <= j <= i ==> reach[j].tag.Some?)
    && var tag := reach[i].tag.value;
       match caught
       case Some(got) => |got| == |tag| && SameText(e.env, got, tag, folded)
       case None => SameText(e.env, Cut(e.text, at, at + |tag|), tag, folded)
  }

  predicate SameText(env: Env, a: string, b: string, folded: bool) {
    if folded then env.upper(a) == env.upper(b) else a == b
  }

  lemma {:induction false} TagAmongIsRecognised(e: Scene, at: int, caught: Option<string>, folded: bool,
                                                reach: seq<Mark>)
    ensures TagAmong(e, at, caught, folded, reach) == Success(true) <==> Recognised(e, at, caught, folded, reach)
    ensures TagAmong(e, at, caught, folded, reach) == Success(false) ==>
              forall i :: 0 <= i < |reach| ==> reach[i].tag.Some?
    decreases |reach|
  {
    if reach != [] && reach[0].tag.Some? {
      var rest := reach[1..];
      TagAmongIsRecognised(e, at, caught, folded, rest);
      var tag := reach[0].tag.value;
      var got := if caught.Some? then caught.value else Cut(e.text, at, at + |tag|);
      assert TagFits(e.env, got, tag, caught.Some?, folded) <==> Tagged(e, at, caught, folded, reach, 0);
      if i :| 0 <= i < |rest| && Tagged(e, at, caught, folded, rest, i) {
        TaggedLater(e, at, caught, folded, reach, i);
      }
      if i :| 0 <= i < |reach| && Tagged(e, at, caught, folded, reach, i) && i > 0 {
        TaggedLater(e, at, caught, folded, reach, i - 1);
      }
    }
  }

  lemma {:induction false} TaggedLater(e: Scene, at: int, caught: Option<string>, folded: bool, reach: seq<Mark>,
                                       i: nat)
    requires i + 1 < |reach| && reach[0].tag.Some?
    ensures Tagged(e, at, caught, folded, reach[1..], i) <==> Tagged(e, at, caught, folded, reach, i + 1)
  {
    var rest := reach[1..];
    if Tagged(e, at, caught, folded, rest, i) {
      forall j | 0 <= j <= i + 1 ensures reach[j].tag.Some? {
        assert j > 0 ==> rest[j - 1] == reach[j];
      }
    }
    if Tagged(e, at, caught, folded, reach, i + 1) {
      forall j | 0 <= j <= i ensures rest[j].tag.Some? {
        assert rest[j] == reach[j + 1];
      }
    }
  }

  /** What a tag test looks for: what was caught, or `None` for the text that stands there. */
  function Sought(group: Option<int>, b: Bound): Option<string>
    requires group.Some? ==> Caught(b.first, group.value).Success?
  {
    if group.None? then None else Some(Caught(b.first, group.value).value.GetOr(""))
  }

  /** Which marks it looks among: all of them, or the innermost. */
  function Searched(any: bool, o: State): seq<Mark> {
    if any || o.marks == [] then o.marks else [o.marks[|o.marks| - 1]]
  }

  /** The innermost mark, or any, is asked for the text that stands here or was caught. */
  lemma {:induction false} TagTestRecognises(e: Scene, any: bool, folded: bool, group: Option<int>, at: int, o: State,
                                             f: Facts, anew: bool, b: Bound)
    requires group.Some? ==> Caught(b.first, group.value).Success?
    ensures Holds(e, MarksTag(any, folded, group), at, o, f, anew, b) == Success(Some(b))
       <==> Recognised(e, at, Sought(group, b), folded, Searched(any, o))
  {
    TagAmongIsRecognised(e, at, Sought(group, b), folded, Searched(any, o));
    TagTestSearches(e, any, folded, group, at, o, f, anew, b);
  }

  lemma {:induction false} TagTestSearches(e: Scene, any: bool, folded: bool, group: Option<int>, at: int, o: State,
                                           f: Facts, anew: bool, b: Bound)
    requires group.Some? ==> Caught(b.first, group.value).Success?
    ensures Holds(e, MarksTag(any, folded, group), at, o, f, anew, b) == Success(Some(b))
       <==> TagAmong(e, at, Sought(group, b), folded, Searched(any, o)) == Success(true)
  {
    if o.marks != [] {
      assert o.marks[|o.marks| - 1..] == [o.marks[|o.marks| - 1]];
    }
  }

  /** A tag remembered from a match is recognised by the same match. */
  lemma {:induction false} RememberedTagIsRecognised(e: Scene, o: State, kind: int, count: Value, group: int,
                                                     folded: bool, at: int, f: Facts, anew: bool, b: Bound)
    requires b.first.Some? && Caught(b.first, group).Success? && Caught(b.first, group).value.Some?
    ensures var pushed := Written(PushMark(kind, count, Some(Group(group))), o, f, b);
            pushed.Success? ==>
              Passes(Holds(e, MarksTag(false, folded, Some(group)), at, pushed.value, f, anew, b))
    ensures Sliced(Some(Whole), b) == Sliced(Some(Group(0)), b) && Sliced(None, b) == Success(Some(""))
    ensures forall s :: Sliced(Some(Literal(s)), b) == Success(Some(s))
  {
    var pushed := Written(PushMark(kind, count, Some(Group(group))), o, f, b);
    if pushed.Success? {
      var marks := pushed.value.marks;
      var top := [marks[|marks| - 1]];
      TagTestRecognises(e, false, folded, Some(group), at, pushed.value, f, anew, b);
      assert Tagged(e, at, Caught(b.first, group).value, folded, top, 0);
    }
  }

  // ---- what a line is

  /** Where an offset stands on its line. */
  lemma {:induction false} PlaceTestsReadTheText(e: Scene, at: nat, o: State, f: Facts, anew: bool, b: Bound)
    requires at <= |e.text| && e.book.tab > 0 && FactsAt(e.text, at, e.book.tab) == Success(f)
    ensures Passes(Holds(e, Is(Bol), at, o, f, anew, b)) <==> at == LineStart(e.text, at)
    ensures Passes(Holds(e, Is(Eof), at, o, f, anew, b)) <==> at == |e.text|
    ensures Eval(Column, o, f, b) == Success(at - LineStart(e.text, at))
  {
    FactsAreOfTheText(e.text, at, e.book.tab);
  }

  /** What its line and the line before are, and whether the gap before it was broken. */
  lemma {:induction false} LineTestsReadTheText(e: Scene, at: nat, o: State, f: Facts, anew: bool, b: Bound,
                                                broke: bool)
    requires at <= |e.text| && e.book.tab > 0 && FactsAt(e.text, at, e.book.tab) == Success(f)
    ensures var s := LineStart(e.text, at);
            && (Passes(Holds(e, Is(Blank), at, o, f, anew, b)) <==> BlankLine(e.text, s, LineEnd(e.text, at)))
            && (Passes(Holds(e, Is(Lull), at, o, f, anew, b))
                <==> s > 0 && BlankLine(e.text, LineStart(e.text, s - 1), s - 1))
    ensures Passes(Holds(e, Is(Broke), at, o, f.(broke := broke), anew, b)) <==> broke
  {
    FactsAreOfTheText(e.text, at, e.book.tab);
  }

  // ---- soaking

  /** A soak passes blanks only, stops for a reason, and its column is the lead from then on. */
  lemma {:induction false} SoakTestStops(e: Scene, to: Option<Value>, one: bool, from: Option<Value>, at: int,
                                         o: State, f: Facts, anew: bool, b: Bound)
    requires Passes(Holds(e, Soak(to, one, from), at, o, f, anew, b))
    ensures var b' := Holds(e, Soak(to, one, from), at, o, f, anew, b).value.value;
            var end := at + b'.eaten;
            && 0 <= at + b.eaten <= end && b'.lead.Some?
            && (forall i :: at + b.eaten <= i < end && i < |e.text| ==> IsBlank(e.text[i]))
            && (one ==> end <= at + b.eaten + 1)
            && Eval(Lead, o, f, b') == Success(b'.lead.value)
            && b'.(eaten := b.eaten, lead := b.lead) == b
  {
    var want := EvalOr(to, 0x4000_0000, o, f, b).value;
    var col := SoakBase(e, o, f, b, from).value;
    BoundedSoakStops(e.text, at + b.eaten, e.book.tab, col, want, if one then 1 else 0x4000_0000, 0);
    SoakedToLimit(e.text, at + b.eaten, e.book.tab, col, want, if one then 1 else 0x4000_0000, 0);
  }

  lemma {:induction false} SoakedToLimit(text: string, off: nat, tab: int, col: int, want: int, limit: int, ate: nat)
    requires tab > 0 && ate <= limit
    ensures SoakedTo(text, off, tab, col, want, limit, ate).0 <= off + (limit - ate)
    decreases |text| - off
  {
    if off < |text| && IsBlank(text[off]) && col < want && ate < limit {
      SoakedToLimit(text, off + 1, tab, Advance(text[off], tab, col), want, limit, ate + 1);
    }
  }

  /** Where no blank stands the lead is what a soak starts from: the value stated, or else what was
      soaked before, or else the carried indentation, or else the line's. */
  lemma {:induction false} SoakOfNothing(e: Scene, to: Option<Value>, one: bool, from: Option<Value>, at: int,
                                         o: State, f: Facts, anew: bool, b: Bound)
    requires Passes(Holds(e, Soak(to, one, from), at, o, f, anew, b))
    requires at + b.eaten < |e.text| ==> !IsBlank(e.text[at + b.eaten])
    ensures var b' := Holds(e, Soak(to, one, from), at, o, f, anew, b).value.value;
            && b'.eaten == b.eaten
            && (from.Some? ==> Success(b'.lead.value) == Eval(from.value, o, f, b))
            && (from.None? && b.lead.Some? ==> b'.lead == b.lead)
            && (from.None? && b.lead.None? && e.book.budget.Some? ==>
                  Success(b'.lead.value) == At(o.regs, e.book.budget.value))
            && (from.None? && b.lead.None? && e.book.budget.None? ==> b'.lead == Some(f.lead))
  {
  }

  /** Soaking to a column and then to one further on is soaking to the further one. */
  lemma {:induction false} SoaksCompose(text: string, off: nat, tab: int, col: int, near: int, far: int, limit: int,
                                        ate: nat)
    requires tab > 0 && near <= far && off <= |text| && ate + |text| - off <= limit
    ensures var (mid, part) := SoakedTo(text, off, tab, col, near, limit, ate);
            SoakedTo(text, mid, tab, part, far, limit, 0) == SoakedTo(text, off, tab, col, far, limit, ate)
    decreases |text| - off
  {
    if off < |text| && IsBlank(text[off]) && col < near {
      SoaksCompose(text, off + 1, tab, Advance(text[off], tab, col), near, far, limit, ate + 1);
    } else {
      AteIsFree(text, off, tab, col, far, limit, 0, ate);
    }
  }

  lemma {:induction false} AteIsFree(text: string, off: nat, tab: int, col: int, want: int, limit: int, a: nat, b: nat)
    requires tab > 0 && off <= |text| && a + |text| - off <= limit && b + |text| - off <= limit
    ensures SoakedTo(text, off, tab, col, want, limit, a) == SoakedTo(text, off, tab, col, want, limit, b)
    decreases |text| - off
  {
    if off < |text| && IsBlank(text[off]) && col < want {
      AteIsFree(text, off + 1, tab, Advance(text[off], tab, col), want, limit, a + 1, b + 1);
    }
  }

  /** So two soaks of one guard, the second further, are the second alone. */
  lemma {:induction false} SoakTestsCompose(e: Scene, near: int, far: int, at: int, o: State, f: Facts, anew: bool,
                                            b: Bound)
    requires near <= far && at + b.eaten <= |e.text| && |e.text| <= 0x4000_0000
    requires Passes(Holds(e, Soak(Some(Num(near)), false, None), at, o, f, anew, b))
    ensures var b' := Holds(e, Soak(Some(Num(near)), false, None), at, o, f, anew, b).value.value;
            Holds(e, Soak(Some(Num(far)), false, None), at, o, f, anew, b')
            == Holds(e, Soak(Some(Num(far)), false, None), at, o, f, anew, b)
  {
    var col := SoakBase(e, o, f, b, None).value;
    SoaksCompose(e.text, at + b.eaten, e.book.tab, col, near, far, 0x4000_0000, 0);
    NumbersAreThemselves(near, far, o, f, b);
    var b' := Holds(e, Soak(Some(Num(near)), false, None), at, o, f, anew, b).value.value;
    NumbersAreThemselves(near, far, o, f, b');
  }

  lemma {:induction false} NumbersAreThemselves(m: int, n: int, o: State, f: Facts, b: Bound)
    ensures Eval(Num(m), o, f, b) == Success(m) && Eval(Num(n), o, f, b) == Success(n)
  {
  }
}
