/** A walk cut at the offsets it arrived at composes back to the whole walk. */
module Composition {
  import opened Wrappers
  import opened Books
  import opened Steps
  import opened Walks

  /** A run that finished needs no more turns than it took. */
  lemma {:induction false} RunKeepsFuel(w: Walker, hi: int, fuel: nat, more: nat, p: Point)
    requires Run(w, hi, fuel, p).end.Done? && Run(w, hi, fuel, p).steps <= more
    ensures Run(w, hi, more, p) == Run(w, hi, fuel, p)
    decreases fuel
  {
    if Open(w, hi, p.at) && Turn(w, p).On? {
      RunKeepsFuel(w, hi, fuel - 1, more - 1, Turn(w, p).p);
    }
  }

  /** A whole run is the run to any earlier stop, and then the rest. */
  lemma {:induction false} RunSplits(w: Walker, hi: int, fuel: nat, p: Point)
    requires hi < |w.text| && Run(w, |w.text|, fuel, p).end.Done?
    ensures var a := Run(w, hi, fuel, p);
            && a.end.Done? && a.steps <= fuel
            && Run(w, |w.text|, fuel, p) == Joined(a, Run(w, |w.text|, fuel - a.steps, a.last))
    decreases fuel
  {
    if Open(w, hi, p.at) && Turn(w, p).On? {
      var q := Turn(w, p).p;
      RunSplits(w, hi, fuel - 1, q);
      var a := Run(w, hi, fuel - 1, q);
      LedJoins(Listed(Turn(w, p).hit), Noted(Turn(w, p).moved, q), a, Run(w, |w.text|, fuel - 1 - a.steps, a.last));
    } else {
      JoinedToNothing(p, Run(w, |w.text|, fuel, p));
    }
  }

  lemma {:induction false} LedJoins(hit: seq<Hit>, note: seq<(int, State)>, a: Walked, b: Walked)
    ensures Joined(Led(hit, note, a), b) == Led(hit, note, Joined(a, b))
  {
    assert hit + (a.hits + b.hits) == hit + a.hits + b.hits;
    assert note + (a.journal + b.journal) == note + a.journal + b.journal;
  }

  lemma {:induction false} JoinedToNothing(p: Point, b: Walked)
    ensures Joined(Walked(Done, [], [], p, 0), b) == b
  {
    assert [] + b.hits == b.hits;
    assert [] + b.journal == b.journal;
  }

  /** The run to an offset ends there with these organs, nothing spent and nothing held,
      having journalled so many points. */
  ghost predicate Arrives(w: Walker, fuel: nat, p: Point, cut: (int, State), points: nat) {
    var a := Run(w, cut.0, fuel, p);
    p.at < cut.0 && a.end.Done? && a.last == Arriving(cut.0, cut.1) && |a.journal| == points
  }

  lemma {:induction false} ArrivesNow(w: Walker, fuel: nat, p: Point)
    requires Forward(w) && w.asked.None? && p.lent.None? && p.held <= STALL && p.at <= |w.text|
    requires fuel > 0 && Turn(w, p).On? && Turn(w, p).moved && Turn(w, p).p.at < |w.text|
    ensures var q := Turn(w, p).p; Arrives(w, fuel, p, (q.at, q.organs), 1)
  {
    var m := Turn(w, p);
    TurnGoesForward(w, p);
    assert Run(w, m.p.at, fuel - 1, m.p) == Walked(Done, [], [], m.p, 0);
  }

  lemma {:induction false} ArrivesLater(w: Walker, fuel: nat, p: Point, cut: (int, State), points: nat)
    requires fuel > 0 && p.at < cut.0 && Turn(w, p).On? && Arrives(w, fuel - 1, Turn(w, p).p, cut, points)
    ensures Arrives(w, fuel, p, cut, points + if Turn(w, p).moved then 1 else 0)
  {
  }

  lemma {:induction false} NotedThenRest(moved: bool, q: Point, rest: seq<(int, State)>, i: nat)
    requires i < |Noted(moved, q) + rest|
    ensures (Noted(moved, q) + rest)[i]
         == if !moved then rest[i] else if i == 0 then (q.at, q.organs) else rest[i - 1]
  {
  }

  /** The run to an offset the whole run journalled arrives there, with exactly the
      journalled organs. */
  lemma {:induction false} CutArrives(w: Walker, fuel: nat, p: Point, i: nat)
    requires Forward(w) && w.asked.None? && p.lent.None? && p.held <= STALL && p.at <= |w.text|
    requires var whole := Run(w, |w.text|, fuel, p);
             whole.end.Done? && i < |whole.journal| && whole.journal[i].0 < |w.text|
    ensures Arrives(w, fuel, p, Run(w, |w.text|, fuel, p).journal[i], i + 1)
    decreases fuel
  {
    var m := Turn(w, p);
    var rest := Run(w, |w.text|, fuel - 1, m.p);
    TurnGoesForward(w, p);
    NotedThenRest(m.moved, m.p, rest.journal, i);
    if m.moved && i == 0 {
      ArrivesNow(w, fuel, p);
    } else {
      var before := if m.moved then i - 1 else i;
      CutArrives(w, fuel - 1, m.p, before);
      ArrivesLater(w, fuel, p, rest.journal[before], before + 1);
    }
  }

  /** Cut at any offset the whole run journalled: the whole is the first part, and then a
      walk of its own from the cut. */
  lemma {:induction false} CutComposes(w: Walker, lo: int, o: State, fuel: nat, i: nat)
    requires Forward(w) && w.asked.None? && lo <= |w.text|
    requires var whole := Run(w, |w.text|, fuel, Arriving(lo, o));
             whole.end.Done? && i < |whole.journal| && whole.journal[i].0 < |w.text|
    ensures var whole := Run(w, |w.text|, fuel, Arriving(lo, o));
            var (hi, k) := whole.journal[i];
            var b := Run(w, |w.text|, fuel, Arriving(hi, k));
            b.end.Done? && whole == Joined(Run(w, hi, fuel, Arriving(lo, o)), b)
  {
    var p := Arriving(lo, o);
    var (hi, k) := Run(w, |w.text|, fuel, p).journal[i];
    CutArrives(w, fuel, p, i);
    RunSplits(w, hi, fuel, p);
    var a := Run(w, hi, fuel, p);
    RunKeepsFuel(w, |w.text|, fuel - a.steps, fuel, a.last);
  }

  // ---- a schedule of cuts

  /** Segment after segment from one offset, the organs threaded through. */
  function Product(w: Walker, at: int, o: State, stops: seq<int>, limit: nat): Walked
    requires stops != []
    decreases |stops|
  {
    var a := Run(w, stops[0], limit, Arriving(at, o));
    if |stops| == 1 || !a.end.Done? then a
    else Joined(a, Product(w, stops[0], a.last.organs, stops[1..], limit))
  }

  /** Cuts picked from a journal, in order. */
  ghost predicate Picked(picks: seq<int>, w: Walker, j: seq<(int, State)>, cuts: seq<int>) {
    && |picks| == |cuts|
    && (forall i :: 0 <= i < |picks| ==> 0 <= picks[i] < |j| && j[picks[i]].0 == cuts[i] < |w.text|)
    && (forall i, k :: 0 <= i < k < |picks| ==> picks[i] < picks[k])
  }

  /** Any schedule of journalled cuts multiplies back to the whole walk: the same hits,
      the same journal, the same organs. */
  lemma {:induction false} ScheduleComposes(w: Walker, lo: int, o: State, limit: nat, picks: seq<int>, cuts: seq<int>)
    requires Forward(w) && w.asked.None? && lo <= |w.text|
    requires var whole := Run(w, |w.text|, limit, Arriving(lo, o));
             whole.end.Done? && Picked(picks, w, whole.journal, cuts)
    ensures Product(w, lo, o, cuts + [|w.text|], limit) == Run(w, |w.text|, limit, Arriving(lo, o))
    decreases |cuts|
  {
    var n := |w.text|;
    var whole := Run(w, n, limit, Arriving(lo, o));
    if cuts == [] {
    } else {
      CutArrives(w, limit, Arriving(lo, o), picks[0]);
      CutComposes(w, lo, o, limit, picks[0]);
      var (hi, k) := whole.journal[picks[0]];
      var a := Run(w, hi, limit, Arriving(lo, o));
      var b := Run(w, n, limit, Arriving(hi, k));
      ScheduleComposes(w, hi, k, limit, Later(picks), cuts[1..]) by {
        LaterIsPicked(picks, w, a.journal, b.journal, cuts);
      }
      assert (cuts + [n])[1..] == cuts[1..] + [n];
    }
  }

  /** The picks after the first, counted from just past it. */
  function Later(picks: seq<int>): seq<int>
    requires picks != []
  {
    seq(|picks| - 1, i requires 0 <= i < |picks| - 1 => picks[i + 1] - picks[0] - 1)
  }

  lemma {:induction false} LaterIsPicked(picks: seq<int>, w: Walker, a: seq<(int, State)>, b: seq<(int, State)>,
                                         cuts: seq<int>)
    requires picks != [] && Picked(picks, w, a + b, cuts) && |a| == picks[0] + 1
    ensures Picked(Later(picks), w, b, cuts[1..])
  {
    forall i | 0 <= i < |cuts| - 1
      ensures 0 <= Later(picks)[i] < |b| && b[Later(picks)[i]].0 == cuts[1..][i] < |w.text|
    {
      assert (a + b)[picks[i + 1]] == b[Later(picks)[i]];
    }
  }

  /** The organs each segment hands to the next. */
  function Checkpoints(w: Walker, at: int, o: State, stops: seq<int>, limit: nat): seq<State>
    decreases |stops|
  {
    if stops == [] then [] else
    var a := Run(w, stops[0], limit, Arriving(at, o)).last.organs;
    [a] + Checkpoints(w, stops[0], a, stops[1..], limit)
  }

  /** One checkpoint a cut, each the organs journalled there, and the final organs last. */
  ghost predicate Handed(c: seq<State>, whole: Walked, picks: seq<int>) {
    && |c| == |picks| + 1 && c[|picks|] == whole.last.organs
    && forall i :: 0 <= i < |picks| ==> 0 <= picks[i] < |whole.journal| && c[i] == whole.journal[picks[i]].1
  }

  lemma {:induction false} HandedOn(k: State, c: seq<State>, a: Walked, b: Walked, picks: seq<int>)
    requires picks != [] && 0 <= picks[0] && |a.journal| == picks[0] + 1 && a.journal[picks[0]].1 == k
    requires Handed(c, b, Later(picks))
    ensures Handed([k] + c, Joined(a, b), picks)
  {
    var whole := Joined(a, b);
    forall i | 1 <= i < |picks|
      ensures 0 <= picks[i] < |whole.journal| && ([k] + c)[i] == whole.journal[picks[i]].1
    {
      assert Later(picks)[i - 1] == picks[i] - picks[0] - 1;
      assert ([k] + c)[i] == c[i - 1];
    }
  }

  /** At every cut the product holds exactly the organs the whole walk journalled there,
      and at the end exactly the organs it ended with. */
  lemma {:induction false} CheckpointsAgree(w: Walker, lo: int, o: State, limit: nat, picks: seq<int>, cuts: seq<int>)
    requires Forward(w) && w.asked.None? && lo <= |w.text|
    requires var whole := Run(w, |w.text|, limit, Arriving(lo, o));
             whole.end.Done? && Picked(picks, w, whole.journal, cuts)
    ensures Handed(Checkpoints(w, lo, o, cuts + [|w.text|], limit), Run(w, |w.text|, limit, Arriving(lo, o)), picks)
    decreases |cuts|
  {
    var n := |w.text|;
    var whole := Run(w, n, limit, Arriving(lo, o));
    if cuts == [] {
      assert Checkpoints(w, lo, o, [n], limit) == [whole.last.organs];
    } else {
      CutArrives(w, limit, Arriving(lo, o), picks[0]);
      CutComposes(w, lo, o, limit, picks[0]);
      var (hi, k) := whole.journal[picks[0]];
      var a := Run(w, hi, limit, Arriving(lo, o));
      var b := Run(w, n, limit, Arriving(hi, k));
      LaterIsPicked(picks, w, a.journal, b.journal, cuts);
      CheckpointsAgree(w, hi, k, limit, Later(picks), cuts[1..]);
      HandedOn(k, Checkpoints(w, hi, k, cuts[1..] + [n], limit), a, b, picks);
      assert (cuts + [n])[1..] == cuts[1..] + [n];
    }
  }
}
