/** A walk: every answer over a text, in order. Nothing here looks inside an ask. */
module Walks {
  import opened Wrappers
  import opened Books
  import opened Guards
  import opened Steps
  import opened Texts

  /** Zero-width answers allowed to stack where the cursor stands. */
  const STALL: nat := 512

  const LIMIT: nat := 0x40_0000

  /** What answers at an offset, what admits an answer, and where a decline goes next. */
  datatype Walker = Walker(
    ask: (int, State, set<string>) -> Result<Answer>,
    asked: Option<Hit -> bool>,
    text: string,
    lines: bool)

  function Asking(e: Scene): (int, State, set<string>) -> Result<Answer> {
    (at: int, o: State, spent: set<string>) => Stepped(e, at, o, true, spent)
  }

  /** The walker a book makes over a text. */
  function Walking(e: Scene, asked: Option<Hit -> bool>): Walker {
    Walker(Asking(e), asked, e.text, e.book.lines)
  }

  /** `lent` is what the caller's own organs were left holding once an answer was voided. */
  datatype Point = Point(at: int, spent: set<string>, held: nat, organs: State, lent: Option<State>)

  function Arriving(at: int, o: State): Point {
    Point(at, {}, 0, o, None)
  }

  /** Where a declined ask moves the cursor: the next byte, or the line's end and then its start. */
  function Next(text: string, lines: bool, at: nat): (r: nat)
    requires at < |text|
    ensures at < r <= |text|
  {
    if !lines then at + 1 else
    var stop := LineEnd(text, at);
    if at < stop then stop else stop + 1
  }

  datatype Move =
    | Stop(organs: State)
    | Raise
    | On(p: Point, hit: Option<Hit>, moved: bool)

  /** One turn of the loop. */
  function Turn(w: Walker, p: Point): Move {
    if p.at < 0 then Raise else
    match w.ask(p.at, p.organs, p.spent)
    case Fault => Raise
    case Success(a) =>
      if a.hit.Some? then
        var h := a.hit.value;
        if w.asked.Some? && !w.asked.value(h) then
          On(p.(spent := p.spent + {h.symbol},
                lent := if p.lent.None? then Some(a.organs) else p.lent), None, false)
        else if h.length == 0 && h.start == p.at then
          if p.held + 1 > STALL then Raise
          else On(p.(spent := if a.organs != p.organs then {} else p.spent + {h.symbol},
                     held := p.held + 1, organs := a.organs), a.hit, false)
        else On(p.(at := h.start + h.length, spent := {}, held := 0, organs := a.organs), a.hit, true)
      else if p.at >= |w.text| then Stop(a.organs)
      else On(p.(at := Next(w.text, w.lines, p.at), spent := {}, held := 0, organs := a.organs), None, true)
  }

  datatype Ending = Done | Exhausted | Raised

  datatype Walked = Walked(end: Ending, hits: seq<Hit>, journal: seq<(int, State)>, last: Point, steps: nat)

  /** The true end of the text is asked at; the end of a segment is not. */
  predicate Open(w: Walker, hi: int, at: int) {
    at < hi || at == hi == |w.text|
  }

  function Listed(h: Option<Hit>): seq<Hit> {
    if h.Some? then [h.value] else []
  }

  function Noted(moved: bool, p: Point): seq<(int, State)> {
    if moved then [(p.at, p.organs)] else []
  }

  function Run(w: Walker, hi: int, fuel: nat, p: Point): (r: Walked)
    ensures r.steps <= fuel
    decreases fuel
  {
    if !Open(w, hi, p.at) then Walked(Done, [], [], p, 0)
    else if fuel == 0 then Walked(Exhausted, [], [], p, 0)
    else
      match Turn(w, p)
      case Stop(o) => Walked(Done, [], [], p.(organs := o), 1)
      case Raise => Walked(Raised, [], [], p, 1)
      case On(q, hit, moved) =>
        Led(Listed(hit), Noted(moved, q), Run(w, hi, fuel - 1, q))
  }

  /** One turn, and then the rest of its run. */
  function Led(hit: seq<Hit>, note: seq<(int, State)>, r: Walked): Walked {
    Walked(r.end, hit + r.hits, note + r.journal, r.last, r.steps + 1)
  }

  /** A run of which these hits and this journal were made, and the rest is still to come. */
  ghost predicate Rests(whole: Walked, hits: seq<Hit>, journal: seq<(int, State)>, rest: Walked) {
    && whole.end == rest.end && whole.last == rest.last
    && whole.hits == hits + rest.hits && whole.journal == journal + rest.journal
  }

  /** The last turn of a run under way. */
  lemma {:induction false} RunEnds(w: Walker, hi: int, fuel: nat, p: Point, whole: Walked, hits: seq<Hit>,
                                   journal: seq<(int, State)>)
    requires Open(w, hi, p.at) && fuel > 0 && Rests(whole, hits, journal, Run(w, hi, fuel, p)) && !Turn(w, p).On?
    ensures match Turn(w, p)
            case Stop(o) =>
              whole.end == Done && whole.hits == hits && whole.journal == journal && whole.last == p.(organs := o)
            case _ => whole.end == Raised
  {
    assert hits + [] == hits && journal + [] == journal;
  }

  /** One more turn of a run under way. */
  lemma {:induction false} RunTurns(w: Walker, hi: int, fuel: nat, p: Point, whole: Walked, hits: seq<Hit>,
                                    journal: seq<(int, State)>)
    requires Open(w, hi, p.at) && fuel > 0 && Rests(whole, hits, journal, Run(w, hi, fuel, p)) && Turn(w, p).On?
    ensures var m := Turn(w, p);
            Rests(whole, hits + Listed(m.hit), journal + Noted(m.moved, m.p), Run(w, hi, fuel - 1, m.p))
  {
    var m := Turn(w, p);
    var r := Run(w, hi, fuel - 1, m.p);
    assert hits + (Listed(m.hit) + r.hits) == hits + Listed(m.hit) + r.hits;
    assert journal + (Noted(m.moved, m.p) + r.journal) == journal + Noted(m.moved, m.p) + r.journal;
  }

  /** What the next turn makes of a run under way. */
  lemma {:induction false} RunGoesOn(w: Walker, hi: int, fuel: nat, p: Point, whole: Walked, hits: seq<Hit>,
                                     journal: seq<(int, State)>)
    requires Open(w, hi, p.at) && fuel > 0 && Rests(whole, hits, journal, Run(w, hi, fuel, p))
    ensures match Turn(w, p)
            case Stop(o) =>
              whole.end == Done && whole.hits == hits && whole.journal == journal && whole.last == p.(organs := o)
            case Raise => whole.end == Raised
            case On(q, hit, moved) =>
              Rests(whole, hits + Listed(hit), journal + Noted(moved, q), Run(w, hi, fuel - 1, q))
  {
    if Turn(w, p).On? {
      RunTurns(w, hi, fuel, p, whole, hits, journal);
    } else {
      RunEnds(w, hi, fuel, p, whole, hits, journal);
    }
  }

  /** One run after another. */
  function Joined(a: Walked, b: Walked): Walked {
    Walked(b.end, a.hits + b.hits, a.journal + b.journal, b.last, a.steps + b.steps)
  }

  // ---- the shape of a run

  /** No ask answers behind itself. */
  ghost predicate Forward(w: Walker) {
    forall at: int, o: State, spent: set<string> {:trigger w.ask(at, o, spent)} ::
      0 <= at <= |w.text| && w.ask(at, o, spent).Success? && w.ask(at, o, spent).value.hit.Some? ==>
        w.ask(at, o, spent).value.hit.value.start >= at && w.ask(at, o, spent).value.hit.value.length >= 0
  }

  /** Every hit starts at or after the end of the one before it. */
  predicate InOrder(from: int, hits: seq<Hit>)
    decreases |hits|
  {
    hits == [] || (from <= hits[0].start && 0 <= hits[0].length && InOrder(hits[0].start + hits[0].length, hits[1..]))
  }

  predicate Ascending(from: int, journal: seq<(int, State)>)
    decreases |journal|
  {
    journal == [] || (from < journal[0].0 && Ascending(journal[0].0, journal[1..]))
  }

  /** What one turn does to the cursor. */
  lemma {:induction false} TurnGoesForward(w: Walker, p: Point)
    requires Forward(w) && p.at <= |w.text| && Turn(w, p).On? && p.held <= STALL
    ensures var m := Turn(w, p);
            && p.at <= m.p.at && m.p.held <= STALL
            && (m.moved ==> p.at < m.p.at && m.p.held == 0)
            && (!m.moved ==> m.p.at == p.at)
            && (m.hit.Some? ==> p.at <= m.hit.value.start && 0 <= m.hit.value.length
                                && m.hit.value.start + m.hit.value.length == m.p.at)
            && (!m.moved && m.hit.Some? ==> m.hit.value.length == 0 && m.p.held == p.held + 1)
            && (!m.moved && m.hit.None? ==> m.p.held == p.held && w.asked.Some?)
  {
  }

  /** A run's hits and journal only go forward. */
  lemma {:induction false} RunGoesForward(w: Walker, hi: int, fuel: nat, p: Point)
    requires Forward(w) && hi <= |w.text| && p.held <= STALL
    ensures InOrder(p.at, Run(w, hi, fuel, p).hits)
    ensures Ascending(p.at, Run(w, hi, fuel, p).journal)
    decreases fuel
  {
    if Open(w, hi, p.at) && fuel > 0 && Turn(w, p).On? {
      var m := Turn(w, p);
      TurnGoesForward(w, p);
      RunGoesForward(w, hi, fuel - 1, m.p);
      var r := Run(w, hi, fuel - 1, m.p);
      HitComesFirst(p.at, m.hit, m.p.at, r.hits);
      NoteComesFirst(p.at, m.moved, m.p, r.journal);
    }
  }

  lemma {:induction false} HitComesFirst(from: int, hit: Option<Hit>, then_: int, hits: seq<Hit>)
    requires from <= then_ && InOrder(then_, hits)
    requires hit.Some? ==> from <= hit.value.start && 0 <= hit.value.length
    requires hit.Some? ==> hit.value.start + hit.value.length == then_
    ensures InOrder(from, Listed(hit) + hits)
  {
    if hit.Some? {
      assert (Listed(hit) + hits)[1..] == hits;
    } else {
      assert Listed(hit) + hits == hits;
      Sooner(from, then_, hits);
    }
  }

  lemma {:induction false} NoteComesFirst(from: int, moved: bool, q: Point, journal: seq<(int, State)>)
    requires if moved then from < q.at else from == q.at
    requires Ascending(q.at, journal)
    ensures Ascending(from, Noted(moved, q) + journal)
  {
    if moved {
      assert (Noted(moved, q) + journal)[1..] == journal;
    } else {
      assert Noted(moved, q) + journal == journal;
    }
  }

  lemma {:induction false} Sooner(from: int, later: int, hits: seq<Hit>)
    requires from <= later && InOrder(later, hits)
    ensures InOrder(from, hits)
  {
  }

  /** In a list in order, no two hits overlap. */
  lemma {:induction false} InOrderIsDisjoint(from: int, hits: seq<Hit>, i: nat, j: nat)
    requires InOrder(from, hits) && i < j < |hits|
    ensures from <= hits[i].start <= hits[i].start + hits[i].length <= hits[j].start
    decreases j
  {
    if i > 0 {
      InOrderIsDisjoint(hits[0].start + hits[0].length, hits[1..], i - 1, j - 1);
    } else if j > 1 {
      InOrderIsDisjoint(hits[0].start + hits[0].length, hits[1..], 0, j - 1);
    }
  }

  /** Zero-width answers at one offset. */
  function Stacked(hits: seq<Hit>, x: int): nat {
    if hits == [] then 0
    else (if hits[0].start == x && hits[0].length == 0 then 1 else 0) + Stacked(hits[1..], x)
  }

  lemma {:induction false} StackedLed(hit: Option<Hit>, hits: seq<Hit>, x: int)
    ensures Stacked(Listed(hit) + hits, x)
         == (if hit.Some? && hit.value.start == x && hit.value.length == 0 then 1 else 0) + Stacked(hits, x)
  {
    if hit.Some? {
      assert (Listed(hit) + hits)[1..] == hits;
    } else {
      assert Listed(hit) + hits == hits;
    }
  }

  /** Zero-width answers at an offset, by the turn that gave them: leaned over to from
      further back, or given where the cursor stood. */
  function Split(w: Walker, hi: int, fuel: nat, p: Point, x: int): (nat, nat)
    decreases fuel
  {
    if !Open(w, hi, p.at) || fuel == 0 then (0, 0) else
    match Turn(w, p)
    case On(q, hit, _) =>
      var (leant, stood) := Split(w, hi, fuel - 1, q, x);
      if hit.None? || hit.value.start != x || hit.value.length != 0 then (leant, stood)
      else if p.at == x then (leant, stood + 1)
      else (leant + 1, stood)
    case _ => (0, 0)
  }

  lemma {:induction false} StackedIsSplit(w: Walker, hi: int, fuel: nat, p: Point, x: int)
    ensures var (leant, stood) := Split(w, hi, fuel, p, x);
            Stacked(Run(w, hi, fuel, p).hits, x) == leant + stood
    decreases fuel
  {
    if Open(w, hi, p.at) && fuel > 0 && Turn(w, p).On? {
      var m := Turn(w, p);
      StackedIsSplit(w, hi, fuel - 1, m.p, x);
      StackedLed(m.hit, Run(w, hi, fuel - 1, m.p).hits, x);
    }
  }

  /** An offset is leaned over to at most once, and at most `STALL` answers are given
      where the cursor stands. */
  lemma {:induction false} SplitIsBounded(w: Walker, hi: int, fuel: nat, p: Point, x: int)
    requires Forward(w) && hi <= |w.text| && p.held <= STALL
    ensures var (leant, stood) := Split(w, hi, fuel, p, x);
            && leant <= (if p.at < x then 1 else 0)
            && stood <= if p.at < x then STALL else if p.at == x then STALL - p.held else 0
    decreases fuel
  {
    if Open(w, hi, p.at) && fuel > 0 && Turn(w, p).On? {
      var m := Turn(w, p);
      TurnGoesForward(w, p);
      SplitIsBounded(w, hi, fuel - 1, m.p, x);
    }
  }

  /** At most `STALL` zero-width answers are given where the cursor stands; an offset
      reached by a zero-width answer given further back carries that one as well. */
  lemma {:induction false} StackedIsBounded(w: Walker, hi: int, fuel: nat, p: Point, x: int)
    requires Forward(w) && hi <= |w.text| && p.held <= STALL
    ensures var n := Stacked(Run(w, hi, fuel, p).hits, x);
            n <= if x < p.at then 0 else if x == p.at then STALL - p.held else STALL + 1
  {
    StackedIsSplit(w, hi, fuel, p, x);
    SplitIsBounded(w, hi, fuel, p, x);
  }

  /** More than `STALL` stand at an offset exactly when it was leaned over to and then every
      repeat allowed was used up. */
  lemma {:induction false} StackedPassesStall(w: Walker, hi: int, fuel: nat, p: Point, x: int)
    requires Forward(w) && hi <= |w.text| && p.held <= STALL
    ensures Stacked(Run(w, hi, fuel, p).hits, x) > STALL <==> Split(w, hi, fuel, p, x) == (1, STALL)
  {
    StackedIsSplit(w, hi, fuel, p, x);
    SplitIsBounded(w, hi, fuel, p, x);
  }

  /** No ask of this text is answered zero-width at an offset it does not stand at. */
  ghost predicate StandsStillAt(w: Walker, x: int) {
    forall at: int, o: State, spent: set<string> {:trigger w.ask(at, o, spent)} ::
      0 <= at <= |w.text| && w.ask(at, o, spent).Success? && w.ask(at, o, spent).value.hit.Some? ==>
        var h := w.ask(at, o, spent).value.hit.value;
        h.length == 0 && h.start == x ==> at == x
  }

  lemma {:induction false} NoneLeans(w: Walker, hi: int, fuel: nat, p: Point, x: int)
    requires StandsStillAt(w, x) && hi <= |w.text|
    ensures Split(w, hi, fuel, p, x).0 == 0
    decreases fuel
  {
    if Open(w, hi, p.at) && fuel > 0 && Turn(w, p).On? {
      NoneLeans(w, hi, fuel - 1, Turn(w, p).p, x);
    }
  }

  /** Where no zero-width answer leans over to an offset, `STALL` is its bound. */
  lemma {:induction false} StackedStandingStill(w: Walker, hi: int, fuel: nat, p: Point, x: int)
    requires Forward(w) && StandsStillAt(w, x) && hi <= |w.text| && p.held <= STALL
    ensures Stacked(Run(w, hi, fuel, p).hits, x) <= STALL
  {
    StackedIsSplit(w, hi, fuel, p, x);
    SplitIsBounded(w, hi, fuel, p, x);
    NoneLeans(w, hi, fuel, p, x);
  }

  /** Turns left before the cursor passes the end, counting every allowed repeat. */
  function Turns(n: nat, at: int, held: nat): int {
    (n - at) * (STALL + 1) + STALL + 1 - held
  }

  lemma {:induction false} TurnsDrop(n: nat, at: int, at': int, held: nat)
    requires at < at' && held <= STALL
    ensures Turns(n, at', 0) < Turns(n, at, held)
  {
  }

  /** Without an envelope the repeats alone bound the turns: the step limit is not needed. */
  lemma {:induction false} RunIsBounded(w: Walker, hi: int, fuel: nat, p: Point)
    requires Forward(w) && w.asked.None? && hi <= |w.text| && p.held <= STALL
    requires p.at <= |w.text|
    ensures Run(w, hi, fuel, p).steps <= Turns(|w.text|, p.at, p.held)
    ensures fuel >= Turns(|w.text|, p.at, p.held) ==> !Run(w, hi, fuel, p).end.Exhausted?
    decreases fuel
  {
    if Open(w, hi, p.at) && fuel > 0 {
      match Turn(w, p)
      case On(q, _, _) =>
        if q.at > p.at {
          TurnsDrop(|w.text|, p.at, q.at, p.held);
        }
        if q.at <= |w.text| {
          RunIsBounded(w, hi, fuel - 1, q);
        }
      case _ =>
    }
  }

  /** Every answer names one of a finite set of terminals, and never a spent one. */
  ghost predicate Novel(w: Walker, names: set<string>) {
    forall at: int, o: State, spent: set<string> {:trigger w.ask(at, o, spent)} ::
      w.ask(at, o, spent).Success? && w.ask(at, o, spent).value.hit.Some? ==>
        w.ask(at, o, spent).value.hit.value.symbol in names - spent
  }

  function Measure(w: Walker, names: set<string>, p: Point): int {
    Turns(|w.text|, p.at, p.held) * (|names| + 1) + |names - p.spent|
  }

  lemma {:induction false} FewerTurns(k: int, k': int, m: nat)
    requires k' < k
    ensures k' * (m + 1) + m < k * (m + 1)
  {
    assert k * (m + 1) == (k - 1) * (m + 1) + m + 1;
    assert k' * (m + 1) <= (k - 1) * (m + 1);
  }

  /** With an envelope, voided answers repeat at one offset only until the terminals run out. */
  lemma {:induction false} EnvelopedRunIsBounded(w: Walker, names: set<string>, hi: int, fuel: nat, p: Point)
    requires Forward(w) && Novel(w, names) && hi <= |w.text| && p.held <= STALL
    requires p.at <= |w.text|
    ensures Run(w, hi, fuel, p).steps <= Measure(w, names, p)
    ensures fuel >= Measure(w, names, p) ==> !Run(w, hi, fuel, p).end.Exhausted?
    decreases fuel
  {
    MeasureIsPositive(w, names, p);
    if Open(w, hi, p.at) && fuel > 0 && Turn(w, p).On? {
      var q := Turn(w, p).p;
      TurnGoesForward(w, p);
      TurnShrinksMeasure(w, names, p);
      if q.at <= |w.text| {
        EnvelopedRunIsBounded(w, names, hi, fuel - 1, q);
      }
    }
  }

  lemma {:induction false} MeasureIsPositive(w: Walker, names: set<string>, p: Point)
    requires p.held <= STALL && p.at <= |w.text|
    ensures Measure(w, names, p) >= 1
  {
    FewerTurns(Turns(|w.text|, p.at, p.held), 0, |names|);
  }

  lemma {:induction false} TurnShrinksMeasure(w: Walker, names: set<string>, p: Point)
    requires Forward(w) && Novel(w, names) && p.held <= STALL
    requires p.at <= |w.text| && Turn(w, p).On?
    ensures Measure(w, names, Turn(w, p).p) < Measure(w, names, p)
  {
    var q := Turn(w, p).p;
    TurnGoesForward(w, p);
    if q.at == p.at && q.held == p.held {
      var a := w.ask(p.at, p.organs, p.spent).value;
      assert names - q.spent == (names - p.spent) - {a.hit.value.symbol};
    } else {
      if q.at > p.at { TurnsDrop(|w.text|, p.at, q.at, p.held); }
      FewerTurns(Turns(|w.text|, p.at, p.held), Turns(|w.text|, q.at, q.held), |names|);
      Fewer(names - q.spent, names);
    }
  }

  lemma {:induction false} Fewer<T>(a: set<T>, b: set<T>)
    requires a <= b
    ensures |a| <= |b|
  {
    assert b == a + (b - a);
  }

  /** Every answer a run gives back was admitted. */
  lemma {:induction false} RunIsAdmitted(w: Walker, hi: int, fuel: nat, p: Point)
    requires w.asked.Some?
    ensures forall h :: h in Run(w, hi, fuel, p).hits ==> w.asked.value(h)
    decreases fuel
  {
    if Open(w, hi, p.at) && fuel > 0 {
      match Turn(w, p)
      case On(q, _, _) => RunIsAdmitted(w, hi, fuel - 1, q);
      case _ =>
    }
  }

  /** Every answer to an ask inside the text has some property. */
  ghost predicate Gives(w: Walker, good: Hit -> bool) {
    forall at: int, o: State, spent: set<string> {:trigger w.ask(at, o, spent)} ::
      0 <= at <= |w.text| && w.ask(at, o, spent).Success? && w.ask(at, o, spent).value.hit.Some? ==>
        good(w.ask(at, o, spent).value.hit.value)
  }

  /** Then so has every answer a run gives back, wherever the answers lead it. */
  lemma {:induction false} RunGives(w: Walker, good: Hit -> bool, hi: int, fuel: nat, p: Point)
    requires Gives(w, good) && hi <= |w.text|
    ensures forall h :: h in Run(w, hi, fuel, p).hits ==> good(h)
    decreases fuel
  {
    if Open(w, hi, p.at) && fuel > 0 && Turn(w, p).On? {
      RunGives(w, good, hi, fuel - 1, Turn(w, p).p);
    }
  }

  // ---- a terminal answered is not answered again where it stands

  /** Every ask inside the text has an answer. */
  ghost predicate Answering(w: Walker) {
    forall at: int, o: State, spent: set<string> {:trigger w.ask(at, o, spent)} ::
      0 <= at <= |w.text| ==> w.ask(at, o, spent).Success?
  }

  /** No zero-width answer given where it was asked changes the organs. */
  ghost predicate Still(w: Walker) {
    forall at: int, o: State, spent: set<string> {:trigger w.ask(at, o, spent)} ::
      0 <= at <= |w.text| && w.ask(at, o, spent).Success? && w.ask(at, o, spent).value.hit.Some? ==>
        var a := w.ask(at, o, spent).value;
        a.hit.value.length == 0 && a.hit.value.start == at ==> a.organs == o
  }

  /** At a stand no more answers have been given than terminals are spent. */
  predicate Paid(names: set<string>, p: Point) {
    p.spent <= names && p.held <= |p.spent|
  }

  lemma {:induction false} OneMoreSpent(names: set<string>, spent: set<string>, symbol: string)
    requires spent <= names && symbol in names - spent
    ensures spent + {symbol} <= names && |spent + {symbol}| == |spent| + 1 <= |names|
  {
    Fewer(spent + {symbol}, names);
  }

  lemma {:induction false} TurnStaysPaid(w: Walker, names: set<string>, p: Point)
    requires Novel(w, names) && Still(w) && |names| <= STALL && Paid(names, p) && 0 <= p.at <= |w.text|
    ensures match Turn(w, p)
            case Raise => w.ask(p.at, p.organs, p.spent).Fault?
            case Stop(_) => true
            case On(q, hit, moved) =>
              && Paid(names, q) && (moved ==> q.spent == {})
              && (!moved ==> q.at == p.at && |q.spent| == |p.spent| + 1)
  {
    var a := w.ask(p.at, p.organs, p.spent);
    if a.Success? && a.value.hit.Some? {
      OneMoreSpent(names, p.spent, a.value.hit.value.symbol);
    }
  }

  /** Where zero-width answers leave the organs alone, each terminal is answered at most once
      at a stand. */
  lemma {:induction false} StoodNamesDiffer(w: Walker, names: set<string>, hi: int, fuel: nat, p: Point, x: int)
    requires Forward(w) && Novel(w, names) && Still(w) && |names| <= STALL
    requires Paid(names, p) && 0 <= p.at && hi <= |w.text|
    ensures Split(w, hi, fuel, p, x).1 <= if x < p.at then 0 else if x == p.at then |names| - |p.spent| else |names|
    decreases fuel
  {
    Fewer(p.spent, names);
    if Open(w, hi, p.at) && fuel > 0 {
      TurnStaysPaid(w, names, p);
      if Turn(w, p).On? {
        TurnGoesOn(w, p);
        StoodNamesDiffer(w, names, hi, fuel - 1, Turn(w, p).p, x);
      }
    }
  }

  lemma {:induction false} TurnGoesOn(w: Walker, p: Point)
    requires Forward(w) && 0 <= p.at <= |w.text| && Turn(w, p).On?
    ensures var m := Turn(w, p); p.at <= m.p.at && (m.moved ==> p.at < m.p.at)
  {
  }

  /** And the repeat limit is never what ends the run. */
  lemma {:induction false} RunDoesNotStall(w: Walker, names: set<string>, hi: int, fuel: nat, p: Point)
    requires Forward(w) && Novel(w, names) && Still(w) && |names| <= STALL
    requires Paid(names, p) && 0 <= p.at && hi <= |w.text| && Answering(w)
    ensures Run(w, hi, fuel, p).end != Raised
    decreases fuel
  {
    if Open(w, hi, p.at) && fuel > 0 {
      TurnStaysPaid(w, names, p);
      if Turn(w, p).On? {
        TurnGoesOn(w, p);
        RunDoesNotStall(w, names, hi, fuel - 1, Turn(w, p).p);
      }
    }
  }

  lemma {:induction false} MeasureOnArrival(w: Walker, names: set<string>, lo: nat, o: State)
    requires lo <= |w.text|
    ensures Measure(w, names, Arriving(lo, o)) == (|w.text| - lo + 1) * (STALL + 1) * (|names| + 1) + |names|
  {
    assert names - {} == names;
    assert Turns(|w.text|, lo, 0) == (|w.text| - lo + 1) * (STALL + 1);
  }

  lemma {:induction false} StillStacks(w: Walker, names: set<string>, hi: int, fuel: nat, p: Point, x: int)
    requires Forward(w) && Novel(w, names) && Still(w) && |names| <= STALL
    requires Paid(names, p) && 0 <= p.at && hi <= |w.text| && p.held <= STALL
    ensures Stacked(Run(w, hi, fuel, p).hits, x) <= |names| + 1
  {
    StackedIsSplit(w, hi, fuel, p, x);
    SplitIsBounded(w, hi, fuel, p, x);
    StoodNamesDiffer(w, names, hi, fuel, p, x);
  }

  /** The walk does not raise, holds at no offset more empty answers than there are terminals but
      for one, and is done if the limit leaves every terminal every repeat at every offset. */
  predicate WalkFinishes(w: Walker, names: nat, lo: nat, hi: int, o: State, limit: nat, x: int) {
    var r := Run(w, hi, limit, Arriving(lo, o));
    && r.end != Raised && Stacked(r.hits, x) <= names + 1
    && (limit >= (|w.text| - lo + 1) * (STALL + 1) * (names + 1) + names ==> r.end.Done?)
  }

  /** So a walk all of whose asks have an answer ends by itself, and not by the limits. */
  lemma {:induction false} StillWalkFinishes(w: Walker, names: set<string>, lo: nat, hi: int, o: State, limit: nat,
                                             x: int)
    requires Forward(w) && Novel(w, names) && Still(w) && |names| <= STALL && Answering(w)
    requires lo <= |w.text| && hi <= |w.text|
    ensures WalkFinishes(w, |names|, lo, hi, o, limit, x)
  {
    var p := Arriving(lo, o);
    RunDoesNotStall(w, names, hi, limit, p);
    StillStacks(w, names, hi, limit, p, x);
    EnvelopedRunIsBounded(w, names, hi, limit, p);
    MeasureOnArrival(w, names, lo, o);
  }

  /** The terminals answered from a point on where the cursor stands, up to and with the first
      answer that changes the organs. */
  function Stand(w: Walker, fuel: nat, p: Point): seq<string>
    decreases fuel
  {
    if fuel == 0 then [] else
    match Turn(w, p)
    case On(q, Some(h), false) =>
      [h.symbol] + if q.organs == p.organs then Stand(w, fuel - 1, q) else []
    case On(q, None, false) => Stand(w, fuel - 1, q)
    case _ => []
  }

  /** Different terminals, none of them spent. */
  predicate AllNew(names: set<string>, spent: set<string>, s: seq<string>) {
    (forall i :: 0 <= i < |s| ==> s[i] in names && s[i] !in spent) && forall i, j :: 0 <= i < j < |s| ==> s[i] != s[j]
  }

  /** Between two changes of the organs no terminal is answered twice at one stand, and none
      that was refused there is answered at all: whatever the book and the limit. */
  lemma {:induction false} StandNamesDiffer(w: Walker, names: set<string>, fuel: nat, p: Point)
    requires Novel(w, names)
    ensures AllNew(names, p.spent, Stand(w, fuel, p))
    decreases fuel
  {
    if fuel > 0 && Turn(w, p).On? && !Turn(w, p).moved {
      var m := Turn(w, p);
      StandNamesDiffer(w, names, fuel - 1, m.p);
      assert w.ask(p.at, p.organs, p.spent).value.hit.value.symbol in names - p.spent;
    }
  }

  // ---- what one ask leaves is what the next finds

  /** The asks of a run: where, with what organs, and with what spent. */
  function Asks(w: Walker, hi: int, fuel: nat, p: Point): seq<(int, State, set<string>)>
    decreases fuel
  {
    if !Open(w, hi, p.at) || fuel == 0 then [] else
    [(p.at, p.organs, p.spent)] + match Turn(w, p) case On(q, _, _) => Asks(w, hi, fuel - 1, q) case _ => []
  }

  /** An answer the envelope refuses. */
  predicate Refused(w: Walker, a: Answer) {
    a.hit.Some? && w.asked.Some? && !w.asked.value(a.hit.value)
  }

  /** What an ask leaves to the one after it: what it wrote, or, refused, what it found. */
  predicate Leaves(w: Walker, k: (int, State, set<string>), o: State) {
    var a := w.ask(k.0, k.1, k.2);
    a.Success? && o == if Refused(w, a.value) then k.1 else a.value.organs
  }

  /** The organs go from ask to ask, whether it answered, declined or was refused, and what the last
      ask left is what the run ends with. */
  lemma {:induction false} OrgansGoFromAskToAsk(w: Walker, hi: int, fuel: nat, p: Point)
    ensures var asks, r := Asks(w, hi, fuel, p), Run(w, hi, fuel, p);
            && |asks| == r.steps
            && (forall k :: 0 <= k < |asks| - 1 ==> Leaves(w, asks[k], asks[k + 1].1))
            && (asks == [] ==> r.last == p) && (asks != [] ==> asks[0] == (p.at, p.organs, p.spent))
            && (asks != [] && r.end != Raised ==> Leaves(w, asks[|asks| - 1], r.last.organs))
    decreases fuel
  {
    if Open(w, hi, p.at) && fuel > 0 && Turn(w, p).On? {
      var q := Turn(w, p).p;
      OrgansGoFromAskToAsk(w, hi, fuel - 1, q);
      var rest := Asks(w, hi, fuel - 1, q);
      assert Leaves(w, (p.at, p.organs, p.spent), q.organs);
      forall k | 0 <= k < |rest| ensures Leaves(w, Asks(w, hi, fuel, p)[k], (Asks(w, hi, fuel, p))[k + 1].1) {
        if k > 0 {
          assert Leaves(w, rest[k - 1], rest[k].1);
        }
      }
    }
  }
}
