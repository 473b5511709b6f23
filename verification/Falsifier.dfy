/** Rung 1b: cut a file, multiply the segments' effects, compare at every cut. */
module Falsifier {
  import opened Wrappers
  import opened Books
  import opened Guards
  import opened Steps
  import opened Walks
  import opened Composition
  import opened Scanning
  import opened Engine

  /** One segment's effect on a copy of one entry state. */
  method Effect(engine: Interpreter, text: string, lo: nat, hi: nat, entry: Organs, limit: nat)
    returns (end: Ending, left: Organs)
    requires hi <= |text|
    ensures var r := Run(Walking(engine.On(text), None), hi, limit, Arriving(lo, entry.Key()));
            end == r.end && fresh(left) && (end != Raised ==> left.Key() == r.last.organs)
  {
    var copy := entry.Copy();
    var hits, journal;
    end, hits, journal, left := engine.Walk(text, copy, None, lo, hi, limit);
    if end == Raised {
      left := copy;
    }
  }

  /** No segment's walk raises. */
  predicate Unraised(w: Walker, at: int, o: State, stops: seq<int>, limit: nat)
    decreases |stops|
  {
    stops == [] ||
    var r := Run(w, stops[0], limit, Arriving(at, o));
    r.end != Raised && Unraised(w, stops[0], r.last.organs, stops[1..], limit)
  }

  lemma {:induction false} OneStopMore(w: Walker, at: int, o: State, stops: seq<int>, limit: nat, before: seq<State>)
    requires stops != []
    ensures var r := Run(w, stops[0], limit, Arriving(at, o));
            && before + Checkpoints(w, at, o, stops, limit)
               == before + [r.last.organs] + Checkpoints(w, stops[0], r.last.organs, stops[1..], limit)
            && (Unraised(w, at, o, stops, limit)
                <==> r.end != Raised && Unraised(w, stops[0], r.last.organs, stops[1..], limit))
  {
  }

  /** The product at every stop, the organs threaded from segment to segment. */
  method Multiply(engine: Interpreter, text: string, stops: seq<nat>, limit: nat)
    returns (ok: bool, products: seq<State>)
    requires forall i :: 0 <= i < |stops| ==> stops[i] <= |text|
    ensures ok <==> Unraised(Walking(engine.On(text), None), 0, START, stops, limit)
    ensures ok ==> products == Checkpoints(Walking(engine.On(text), None), 0, START, stops, limit)
  {
    var product := new Organs(START);
    ghost var w := Walking(engine.On(text), None);
    var at, i := 0, 0;
    ok, products := true, [];
    while i < |stops|
      invariant 0 <= i <= |stops| && fresh(product)
      invariant products + Checkpoints(w, at, product.Key(), stops[i..], limit)
             == Checkpoints(w, 0, START, stops, limit)
      invariant Unraised(w, at, product.Key(), stops[i..], limit) <==> Unraised(w, 0, START, stops, limit)
    {
      assert stops[i..][1..] == stops[i + 1..];
      OneStopMore(w, at, product.Key(), stops[i..], limit, products);
      var end, left := Effect(engine, text, at, stops[i], product, limit);
      if end == Raised {
        return false, [];
      }
      product := left;
      products := products + [product.Key()];
      at, i := stops[i], i + 1;
    }
  }

  /** For any book whose skips cannot go back, over any text its walk completes: cutting at
      any schedule of journalled offsets gives the whole walk's hits and journal, and the
      product agrees with the journal at every cut and with the whole at the end. */
  lemma {:induction false} BookComposes(e: Scene, picks: seq<int>, cuts: seq<int>, limit: nat)
    requires Sound(e.env) && BookSkipsForward(e.book)
    requires var w := Walking(e, None);
             var whole := Run(w, |e.text|, limit, Arriving(0, START));
             whole.end.Done? && Picked(picks, w, whole.journal, cuts)
    ensures var w := Walking(e, None);
            var whole := Run(w, |e.text|, limit, Arriving(0, START));
            var c := Checkpoints(w, 0, START, cuts + [|e.text|], limit);
            && Product(w, 0, START, cuts + [|e.text|], limit) == whole
            && |c| == |cuts| + 1 && c[|cuts|] == whole.last.organs
            && forall i :: 0 <= i < |cuts| ==> c[i] == whole.journal[picks[i]].1
  {
    var w := Walking(e, None);
    BookIsForward(e, None);
    ScheduleComposes(w, 0, START, limit, picks, cuts);
    CheckpointsAgree(w, 0, START, limit, picks, cuts);
  }

  /** A text of up to 8175 bytes is walked to its end, unless a rule raises or stalls. */
  lemma {:induction false} ShortTextsComplete(e: Scene)
    requires Sound(e.env) && BookSkipsForward(e.book) && |e.text| <= 8175
    ensures !Run(Walking(e, None), |e.text|, LIMIT, Arriving(0, START)).end.Exhausted?
  {
    BookIsForward(e, None);
    RunIsBounded(Walking(e, None), |e.text|, LIMIT, Arriving(0, START));
  }

  /** What any walk of such a book gives back: hits in order, at most `STALL + 1` zero-width
      ones at an offset, and every one admitted. */
  lemma {:induction false} BookWalks(e: Scene, asked: Option<Hit -> bool>, lo: nat, hi: nat, o: State, limit: nat,
                                     x: int)
    requires Sound(e.env) && BookSkipsForward(e.book) && lo <= |e.text| && hi <= |e.text|
    ensures var r := Run(Walking(e, asked), hi, limit, Arriving(lo, o));
            && InOrder(lo, r.hits) && Stacked(r.hits, x) <= STALL + 1
            && (asked.Some? ==> forall h :: h in r.hits ==> asked.value(h))
  {
    var w := Walking(e, asked);
    BookIsForward(e, asked);
    RunGoesForward(w, hi, limit, Arriving(lo, o));
    StackedIsBounded(w, hi, limit, Arriving(lo, o), x);
    if asked.Some? {
      RunIsAdmitted(w, hi, limit, Arriving(lo, o));
    }
  }

  /** Without an envelope the text alone bounds the turns. */
  lemma {:induction false} BookWalkIsBounded(e: Scene, lo: nat, hi: nat, o: State, limit: nat)
    requires Sound(e.env) && BookSkipsForward(e.book) && lo <= |e.text| && hi <= |e.text|
    ensures Run(Walking(e, None), hi, limit, Arriving(lo, o)).steps <= (|e.text| - lo + 1) * (STALL + 1)
  {
    BookIsForward(e, None);
    RunIsBounded(Walking(e, None), hi, limit, Arriving(lo, o));
  }

  /** With a book of single, unclassified emits even an enveloped walk ends by itself. */
  lemma {:induction false} PlainBookEnds(e: Scene, asked: Option<Hit -> bool>, lo: nat, hi: nat, o: State, limit: nat)
    requires Sound(e.env) && BookSkipsForward(e.book) && BookIsPlain(e.book) && lo <= |e.text| && hi <= |e.text|
    ensures var n := |Terminals(e.book.rules)|;
            Run(Walking(e, asked), hi, limit, Arriving(lo, o)).steps
              <= (|e.text| - lo + 1) * (STALL + 1) * (n + 1) + n
  {
    var names := Terminals(e.book.rules);
    BookIsForward(e, asked);
    BookIsNovel(e, asked);
    EnvelopedRunIsBounded(Walking(e, asked), names, hi, limit, Arriving(lo, o));
    assert names - {} == names;
    assert Turns(|e.text|, lo, 0) == (|e.text| - lo + 1) * (STALL + 1);
  }
}
