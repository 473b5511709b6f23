/** What scoring a guard can and cannot do. */
module Guarding {
  import opened Wrappers
  import opened Books
  import opened Guards
  import opened Steps

  /** `no_fires` is exactly the negation of `fires`: wherever one of them has an answer the
      other has the opposite one, and they fault together. */
  lemma {:induction false} NoFiresIsNegation(e: Scene, group: string, anchor: Anchor, at: int, o: State, f: Facts,
                                             anew: bool, b: Bound)
    ensures var yes := Holds(e, Fires(group, anchor), at, o, f, anew, b);
            var no := Holds(e, NoFires(group, anchor), at, o, f, anew, b);
            && (yes.Fault? <==> no.Fault?)
            && (yes.Success? ==> (yes.value.Some? <==> no.value.None?))
            && (yes.Success? && yes.value.Some? ==> yes.value.value == b)
            && (no.Success? && no.value.Some? ==> no.value.value == b)
  {
  }

  /** A rule whose guard turns it away leaves the rest of its phase as if it were not there. */
  lemma {:induction false} TurnedAwayHasNoEffect(e: Scene, phase: Phase, r: nat, at: int, f: Facts,
                                                 sealed: Option<string>,
                                                 o: State, anew: bool, spent: set<string>)
    requires r < |e.book.rules|
    requires GuardFrom(e, e.book.rules[r].when, 0, at, o, f, anew, UNBOUND) == Success(None)
    ensures RulesFrom(e, phase, r, at, f, sealed, o, anew, spent)
         == RulesFrom(e, phase, r + 1, at, f, sealed, o, anew, spent)
  {
  }

  // ---- what a guard has eaten

  lemma {:induction false} NestStaysInside(e: Scene, open: string, close: string, off: int, depth: nat)
    requires Sound(e.env) && 0 <= off <= |e.text|
    ensures var r := Nested(e, open, close, off, depth); r.Success? ==> off <= r.value.0 <= |e.text|
    decreases |e.text| - off, depth
  {
    if off < |e.text| && depth > 0 && Nested(e, open, close, off, depth).Success? {
      var c := e.env.probe(close, e.text, off);
      var o := e.env.probe(open, e.text, off);
      if c.Some? {
        NestStaysInside(e, open, close, c.value.end, depth - 1);
      } else if o.Some? {
        NestStaysInside(e, open, close, o.value.end, depth + 1);
      } else {
        NestStaysInside(e, open, close, off + 1, depth);
      }
    }
  }

  /** The tests that bind something. */
  predicate Binds(t: Test) {
    t.Probe? || t.Nest? || t.Soak? || t.Pass?
  }

  lemma {:induction false} OnlyBindersBind(e: Scene, t: Test, at: int, o: State, f: Facts, anew: bool, b: Bound)
    requires !Binds(t)
    ensures var v := Holds(e, t, at, o, f, anew, b); v.Success? && v.value.Some? ==> v.value.value == b
  {
  }

  /** What is bound has been eaten from inside the text. */
  predicate EatenInside(e: Scene, at: int, b: Bound) {
    0 <= at && 0 <= b.eaten && at + b.eaten <= |e.text|
  }

  /** A test that holds gives nothing back of what was eaten before it, and eats nothing past
      the end of the text. */
  lemma {:induction false} TestEatsForward(e: Scene, t: Test, at: int, o: State, f: Facts, anew: bool, b: Bound)
    requires Sound(e.env) && EatenInside(e, at, b)
    ensures var v := Holds(e, t, at, o, f, anew, b);
            v.Success? && v.value.Some? ==> b.eaten <= v.value.value.eaten && EatenInside(e, at, v.value.value)
  {
    if t.Nest? {
      NestStaysInside(e, t.open, t.close, at + b.eaten, 1);
    } else if !Binds(t) {
      OnlyBindersBind(e, t, at, o, f, anew, b);
    }
  }

  /** Nor does a whole guard. */
  lemma {:induction false} GuardEatsForward(e: Scene, when: seq<Test>, i: nat, at: int, o: State, f: Facts, anew: bool,
                                            b: Bound)
    requires Sound(e.env) && EatenInside(e, at, b) && i <= |when|
    ensures var v := GuardFrom(e, when, i, at, o, f, anew, b);
            v.Success? && v.value.Some? ==> b.eaten <= v.value.value.eaten && EatenInside(e, at, v.value.value)
    decreases |when| - i
  {
    if i < |when| {
      TestEatsForward(e, when[i], at, o, f, anew, b);
      var v := Holds(e, when[i], at, o, f, anew, b);
      if v.Success? && v.value.Some? {
        GuardEatsForward(e, when, i + 1, at, o, f, anew, v.value.value);
      }
    }
  }

  // ---- when a score is the guard

  predicate ReadsBound(v: Value) {
    match v
    case Lead | Width | Cursor | Span(_) | Number(_) | OfPass(_) => true
    case FramesAtWidth(at) => ReadsBound(at)
    case Bin(_, a, b) => ReadsBound(a) || ReadsBound(b)
    case _ => false
  }

  /** A test that neither binds anything nor reads what another test bound. */
  predicate Blind(t: Test) {
    match t
    case Is(_) | IsNot(_) | Fresh | Granted | Withheld => true
    case FramesTopKind(_) | MarksTopKind(_) | FramesHas(_) | MarksHas(_) => true
    case FramesDepthIs(_, v) => !ReadsBound(v)
    case MarksDepthIs(_, v) => !ReadsBound(v)
    case FramesAtKind(v, _) => !ReadsBound(v)
    case FrameAtWidthIs(i, _, v) => !ReadsBound(i) && !ReadsBound(v)
    case FramesTopWidthIs(_, v) => !ReadsBound(v)
    case MarksTopCountIs(_, v) => !ReadsBound(v)
    case MarksTag(_, _, caught) => caught.None?
    case RegIs(_, _, v) => !ReadsBound(v)
    case _ => false
  }

  lemma {:induction false} BlindEvaluates(v: Value, o: State, f: Facts, b: Bound)
    requires !ReadsBound(v)
    ensures Eval(v, o, f, b) == Eval(v, o, f, UNBOUND)
    decreases v
  {
    match v
    case FramesAtWidth(at) => BlindEvaluates(at, o, f, b);
    case Bin(_, x, y) =>
      BlindEvaluates(x, o, f, b);
      BlindEvaluates(y, o, f, b);
    case _ =>
  }

  /** Held or not, a blind test hands on what was bound before it. */
  function Rebound(v: Verdict, b: Bound): Verdict {
    match v
    case Fault => Fault
    case Success(x) => Success(if x.Some? then Some(b) else None)
  }

  lemma {:induction false} BlindHolds(e: Scene, t: Test, at: int, o: State, f: Facts, anew: bool, b: Bound)
    requires Blind(t)
    ensures Holds(e, t, at, o, f, anew, b) == Rebound(HoldsPass(e, t, at, o, f, anew, UNBOUND), b)
  {
    match t
    case FramesDepthIs(_, v) => BlindEvaluates(v, o, f, b);
    case MarksDepthIs(_, v) => BlindEvaluates(v, o, f, b);
    case FramesAtKind(v, _) => BlindEvaluates(v, o, f, b);
    case FrameAtWidthIs(i, _, v) =>
      BlindEvaluates(i, o, f, b);
      BlindEvaluates(v, o, f, b);
    case FramesTopWidthIs(_, v) => BlindEvaluates(v, o, f, b);
    case MarksTopCountIs(_, v) => BlindEvaluates(v, o, f, b);
    case RegIs(_, _, v) => BlindEvaluates(v, o, f, b);
    case _ =>
  }

  /** From `i` on, nothing that stands after a binding test binds or reads what is bound. */
  predicate BindsLast(when: seq<Test>, i: nat) {
    forall k, l :: i <= k < l < |when| && Binds(when[k]) ==> Blind(when[l])
  }

  /** Whether a guard holds, and nothing of what it bound. */
  function Settled(v: Verdict): Result<bool> {
    match v
    case Fault => Fault
    case Success(x) => Success(x.Some?)
  }

  /** Where nothing after a binding test binds or reads what is bound, and no test scores
      another group, scoring a rule answers just what its guard would. */
  lemma {:induction false} ScoreIsTheGuard(e: Scene, when: seq<Test>, i: nat, at: int, o: State, f: Facts, anew: bool,
                                           b: Bound)
    requires i <= |when| && forall k :: 0 <= k < |when| ==> !Unscored(when[k])
    requires BindsLast(when, i) && (b != UNBOUND ==> forall l :: i <= l < |when| ==> Blind(when[l]))
    ensures ScoresFrom(e, when, i, at, o, f, anew) == Settled(GuardFrom(e, when, i, at, o, f, anew, b))
    decreases |when| - i
  {
    if i < |when| {
      var t := when[i];
      assert !Unscored(t);
      if Blind(t) {
        BlindHolds(e, t, at, o, f, anew, b);
        ScoreIsTheGuard(e, when, i + 1, at, o, f, anew, b);
      } else {
        var v := Holds(e, t, at, o, f, anew, b);
        if v.Success? && v.value.Some? {
          if !Binds(t) {
            OnlyBindersBind(e, t, at, o, f, anew, b);
          }
          ScoreIsTheGuard(e, when, i + 1, at, o, f, anew, v.value.value);
        }
      }
    }
  }

  /** With a probe after a probe it need not: one for `a` and then one for `b` hold over `ab`
      in turn, but scored apart both are asked at the start. */
  lemma {:induction false} ScoreIsNotTheGuard(book: Book, o: State, f: Facts)
    ensures var env := Env((p: string, text: string, off: int) =>
                             if 0 <= off < |text| && p == [text[off]] then Some(Match(off, off + 1, [])) else None,
                           (s: string) => s, (t: string, s: string) => None);
            var e := Scene(book, env, "ab");
            var when := [Probe("a"), Probe("b")];
            && Sound(env) && Settled(GuardFrom(e, when, 0, 0, o, f, true, UNBOUND)) == Success(true)
            && ScoresFrom(e, when, 0, 0, o, f, true) == Success(false)
  {
    var env := Env((p: string, text: string, off: int) =>
                     if 0 <= off < |text| && p == [text[off]] then Some(Match(off, off + 1, [])) else None,
                   (s: string) => s, (t: string, s: string) => None);
    var e := Scene(book, env, "ab");
    var when := [Probe("a"), Probe("b")];
    var after := UNBOUND.(eaten := 1, first := Some(Match(0, 1, [])));
    assert HoldsPlain(e, when[0], 0, o, f, true, UNBOUND) == Success(Some(after));
    assert GuardFrom(e, when, 2, 0, o, f, true, after.(eaten := 2)).Success?;
    assert HoldsPlain(e, when[1], 0, o, f, true, after) == Success(Some(after.(eaten := 2)));
    assert HoldsPlain(e, when[1], 0, o, f, true, UNBOUND) == Success(None);
    assert ScoresFrom(e, when, 1, 0, o, f, true) == Success(false);
  }
}
