/** What the verdict on a byte means of the two trees over it. */
module Verdicts {
  import opened Wrappers
  import opened Trees
  import opened Spans
  import opened Paint
  import opened Dispute

  /** The deepest node of a tree over a byte, or none where the tree does not reach. */
  ghost predicate Innermost(t: Tree, x: int, n: Option<Leaf>) {
    var nodes, depths := Flatten(t), Depths(t, 0);
    && |nodes| == |depths|
    && match n
       case None => forall i :: 0 <= i < |nodes| ==> !Holds(nodes[i], x)
       case Some(n) =>
         exists i :: 0 <= i < |nodes| && nodes[i] == n && Holds(n, x)
                     && forall j :: 0 <= j < |nodes| && j != i && Holds(nodes[j], x) ==> depths[j] < depths[i]
  }

  lemma {:induction false} NodeOverIsInnermost(t: Tree, x: int)
    requires Nested(t)
    ensures Innermost(t, x, NodeOver(Flatten(t), x))
  {
    FlattenPaintsDeepest(t, 0, x);
  }

  /** There is one deepest node, or none. */
  lemma {:induction false} InnermostIsOne(t: Tree, x: int, n: Option<Leaf>, m: Option<Leaf>)
    requires Innermost(t, x, n) && Innermost(t, x, m)
    ensures n == m
  {
  }

  // ---- the six verdicts

  /** Where the oracle has nothing to say: it does not reach, or is recovering from an error. */
  predicate Speechless(t: Option<Leaf>) {
    t.None? || "ERROR" <= t.value.name || "MISSING" <= t.value.name
  }

  /** Where it has a token of the grammar. */
  predicate Token(c: Case, t: Option<Leaf>) {
    t.Some? && !Speechless(t) && t.value.leaf && t.value.name in c.terminals
  }

  predicate SameKind(o: Option<Leaf>, t: Option<Leaf>) {
    o.Some? && t.Some? && o.value.name == t.value.name && o.value.named == t.value.named
  }

  predicate SameExtent(o: Option<Leaf>, t: Option<Leaf>) {
    o.Some? && t.Some? && o.value.start == t.value.start && o.value.end == t.value.end
  }

  predicate Renaming(c: Case, o: Option<Leaf>, t: Option<Leaf>) {
    o.Some? && t.Some? && {o.value.name, t.value.name} in c.renames
  }

  /** What each verdict says of the deepest node of ours and of theirs. */
  predicate Means(c: Case, v: Verdict, o: Option<Leaf>, t: Option<Leaf>) {
    match v
    case Silent => Speechless(t)
    case Interstice => !Speechless(t) && !Token(c, t)
    case Agree => Token(c, t) && SameKind(o, t)
    case Renamed => Token(c, t) && !SameKind(o, t) && SameExtent(o, t) && Renaming(c, o, t)
    case Relabelled => Token(c, t) && !SameKind(o, t) && SameExtent(o, t) && !Renaming(c, o, t)
    case Regrouped => Token(c, t) && !SameKind(o, t) && !SameExtent(o, t)
  }

  /** A byte's verdict is what the deepest nodes over it in the two trees make it. */
  lemma {:induction false} VerdictIsOfTrees(c: Case, us: Tree, them: Tree, x: int, o: Option<Leaf>, t: Option<Leaf>,
                                            v: Verdict)
    requires c.us == Flatten(us) && c.them == Flatten(them) && Nested(us) && Nested(them)
    requires Innermost(us, x, o) && Innermost(them, x, t)
    ensures At(c, x) == v <==> Means(c, v, o, t)
  {
    NodeOverIsInnermost(us, x);
    NodeOverIsInnermost(them, x);
    InnermostIsOne(us, x, o, NodeOver(c.us, x));
    InnermostIsOne(them, x, t, NodeOver(c.them, x));
    MeansIsJudged(c, v, o, t);
  }

  lemma {:induction false} MeansIsJudged(c: Case, v: Verdict, o: Option<Leaf>, t: Option<Leaf>)
    ensures Judged(c, o, t) == v <==> Means(c, v, o, t)
  {
  }

  /** A byte is in dispute exactly where the oracle has a token and ours is neither of its kind nor
      an allowed renaming with its extent. */
  lemma {:induction false} DisputedMeans(c: Case, x: int)
    ensures var o, t := NodeOver(c.us, x), NodeOver(c.them, x);
            Disputed(c, x) <==> Token(c, t) && !SameKind(o, t) && !(SameExtent(o, t) && Renaming(c, o, t))
  {
  }

  /** A tree judged against itself is never in dispute. */
  lemma {:induction false} SelfIsUndisputed(c: Case, lo: int, hi: int)
    requires c.us == c.them
    ensures RunsTo(c, lo, hi) == []
    decreases hi - lo
  {
    if lo < hi {
      SelfIsUndisputed(c, lo, hi - 1);
      DisputedMeans(c, hi - 1);
    }
  }

  // ---- what a disagreement is called

  /** A named node by its name, an anonymous one in quotes, and a dash where there is none. */
  function LabelOf(n: Option<Leaf>): string {
    match n
    case None => "\U{2014}"
    case Some(n) => if n.named then n.name else ['"'] + n.name + ['"']
  }

  /** Every run's row names ours by our deepest node over the run's first byte, and theirs by
      theirs. */
  lemma {:induction false} RowNamesBothSides(c: Case, us: Tree, them: Tree, pairs: seq<Pair>, runs: seq<Span>, i: nat,
                                             o: Option<Leaf>, t: Option<Leaf>)
    requires c.us == Flatten(us) && c.them == Flatten(them) && Nested(us) && Nested(them)
    requires PairsOf(c, pairs, runs) && i < |runs| && Innermost(us, runs[i].0, o) && Innermost(them, runs[i].0, t)
    ensures exists k :: 0 <= k < |pairs| && pairs[k].ours == LabelOf(o) && pairs[k].theirs == LabelOf(t)
  {
    var x := runs[i].0;
    NodeOverIsInnermost(us, x);
    NodeOverIsInnermost(them, x);
    InnermostIsOne(us, x, o, NodeOver(c.us, x));
    InnermostIsOne(them, x, t, NodeOver(c.them, x));
    assert HasPair(c, runs[i], pairs);
    var k :| 0 <= k < |pairs| && Wears(c, runs[i], pairs[k]);
    assert pairs[k].ours == LabelOf(o) && pairs[k].theirs == LabelOf(t);
  }
}
