/** A book whose class table renames an answer, and a walk of it that no limit lets finish. */
module Renaming {
  import opened Wrappers
  import opened Books
  import opened Guards
  import opened Steps
  import opened Walks
  import opened Scanning

  /** Proposes `a`, and answers with what a table makes of the empty text. */
  function Renames(): Rule {
    Rule("renames", Inside, [], [Emit("a", Classified("t"))], {}, None, None)
  }

  predicate Renamed(e: Scene) {
    && e.book.rules == [Renames()] && e.book.tab > 0 && e.book.budget.None? && e.book.trivia.None?
    && e.env.renamed("t", "") == Some("b")
  }

  /** Such a book over any text, with no probes at all. */
  function RenamedScene(text: string): (e: Scene)
    ensures Renamed(e) && Sound(e.env) && e.text == text
  {
    Scene(Book([Renames()], 8, None, false, [], None),
          Env((p: string, text: string, off: int) => None, (s: string) => s, (t: string, s: string) => Some("b")), text)
  }

  /** The answer the table makes. */
  function Answers(at: int): Hit {
    Hit("b", at, 0, "renames")
  }

  lemma {:induction false} RenamesTries(e: Scene, at: int, o: State, f: Facts)
    requires Renamed(e) && 0 <= at <= |e.text|
    ensures Tried(e, Renames(), at, o, f, true) == Success(Attempted(Some(Answers(at)), o, false))
  {
    var g := FactsAt(e.text, at, e.book.tab).value;
    assert Cut(e.text, at, at) == "";
    assert Answered(e, "renames", "a", Classified("t"), at, 0, o, g, UNBOUND) == Success(Answers(at));
    assert ActsFrom(e, Renames(), at, g, UNBOUND, 1, o, 0, Some(Answers(at)))
        == Success(Attempted(Some(Answers(at)), o, false));
  }

  lemma {:induction false} RenamesIsUnspent(spent: set<string>)
    requires "a" !in spent
    ensures !Spent(Renames(), spent)
  {
    assert "a" in Emits(Renames().then_);
  }

  lemma {:induction false} RenamedSteps(e: Scene, at: int, o: State, spent: set<string>)
    requires Renamed(e) && 0 <= at <= |e.text| && "a" !in spent
    ensures Stepped(e, at, o, true, spent) == Success(Answer(Some(Answers(at)), o))
  {
    var f := Stood(e, Inside, at, o).value.1.(broke := false);
    RenamesTries(e, at, o, f);
    RenamesIsUnspent(spent);
    assert RulesFrom(e, Inside, 0, at, f, Sealed(e.book, o), o, true, spent)
        == Success(Attempted(Some(Answers(at)), o, false));
    assert Entered(e, Inside, at, o, true, false, spent) == Success(Attempted(Some(Answers(at)), o, false));
  }

  /** Once refused, an answer whose name is not what proposed it is given again, and refused
      again, for as long as there are turns. */
  lemma {:induction false} RefusedRepeats(w: Walker, h: Hit, after: State, hi: int, fuel: nat, p: Point)
    requires Open(w, hi, p.at) && p.at >= 0 && p.spent <= {h.symbol}
    requires w.asked.Some? && !w.asked.value(h)
    requires forall spent: set<string> {:trigger w.ask(p.at, p.organs, spent)} ::
               spent <= {h.symbol} ==> w.ask(p.at, p.organs, spent) == Success(Answer(Some(h), after))
    ensures var r := Run(w, hi, fuel, p); r.end.Exhausted? && r.hits == [] && r.steps == fuel
    decreases fuel
  {
    assert w.ask(p.at, p.organs, p.spent) == Success(Answer(Some(h), after));
    if fuel > 0 {
      RefusedRepeats(w, h, after, hi, fuel - 1, Turn(w, p).p);
    }
  }

  /** A book of single emits whose skips cannot go back, all of one rule, which is classified:
      under an envelope that refuses its answer no limit is enough, over any text. */
  lemma {:induction false} ClassifiedBookNeedNotEnd(e: Scene, asked: Hit -> bool, lo: nat, o: State, limit: nat)
    requires Renamed(e) && lo <= |e.text| && !asked(Answers(lo))
    ensures BookSkipsForward(e.book) && |Emits(Renames().then_)| == 1 && !BookIsPlain(e.book)
    ensures var r := Run(Walking(e, Some(asked)), |e.text|, limit, Arriving(lo, o));
            r.end.Exhausted? && r.hits == [] && r.steps == limit
  {
    var w := Walking(e, Some(asked));
    forall spent: set<string> {:trigger w.ask(lo, o, spent)} | spent <= {"b"}
      ensures w.ask(lo, o, spent) == Success(Answer(Some(Answers(lo)), o))
    {
      RenamedSteps(e, lo, o, spent);
    }
    RefusedRepeats(w, Answers(lo), o, |e.text|, limit, Arriving(lo, o));
    assert !Plain(e.book.rules[0]);
  }
}
