/** What the findings of a comparison say, and of which nodes. */
module Findings {
  import opened Wrappers
  import opened Trees
  import opened Align
  import opened Compare

  // ---- the place a path leads to

  /** What stands at a place: a node of each tree, or of one of them only. */
  type Spot = (Option<Tree>, Option<Tree>)

  /** Down one step: the pair at an ordinal, which goes by the label of ours, or of theirs where
      ours has nothing. */
  predicate GoesBy(p: Pair, q: Quote) {
    match p
    case (Some(a), _) => q == Labelled(a)
    case (None, Some(b)) => q == Labelled(b)
    case (None, None) => false
  }

  /** Where a path leads from two nodes. It goes on only under two nodes of one name. */
  function Led(ours: Tree, theirs: Tree, path: Path): Option<Spot>
    decreases |path|
  {
    if path == [] then Some((Some(ours), Some(theirs)))
    else if ours.name != theirs.name || ours.named != theirs.named then None
    else
      var pairs, i := Aligned(ours.kids, theirs.kids), path[0].1;
      if i >= |pairs| || !GoesBy(pairs[i], path[0].0) then None
      else
        match pairs[i]
        case (Some(a), Some(b)) => Led(a, b, path[1..])
        case _ => if |path| == 1 then Some(pairs[i]) else None
  }

  /** What a finding may say of a spot. */
  predicate Says(at: Spot, f: Finding) {
    match at
    case (None, Some(b)) => f.kind == Absent && f.ours == Dash && f.theirs == Labelled(b)
    case (Some(a), None) => f.kind == Surplus && f.ours == Labelled(a) && f.theirs == Dash
    case (None, None) => false
    case (Some(a), Some(b)) =>
      if a.name != b.name || a.named != b.named then
        f.kind == Name && f.ours == Labelled(a) && f.theirs == Labelled(b)
      else
        || (a.field != b.field && f.kind == Field && f.ours == FieldOf(a.field) && f.theirs == FieldOf(b.field))
        || ((a.start, a.end) != (b.start, b.end) && f.kind == Span
            && f.ours == Extent(a.start, a.end) && f.theirs == Extent(b.start, b.end))
  }

  /** Whom a finding is blamed on, from what it quotes and whether it is about the roots. */
  predicate Earned(judge: Judge, top: bool, f: Finding) {
    && (f.owner == Extras <==> f.kind == Absent && f.theirs.Label? && f.theirs.name in judge.extras)
    && (f.owner == Recovery <==>
          && f.kind == Absent && f.theirs.Label? && f.theirs.name !in judge.extras
          && (f.theirs.name == "ERROR" || "MISSING " <= f.theirs.name))
    && (f.owner == RootExtent <==>
          && top && f.kind == Span && f.ours.Extent? && f.theirs.Extent?
          && f.ours.start == f.theirs.start && f.theirs.end == judge.size)
    && (f.owner == Partial <==>
          && top && judge.orphan
          && ((f.kind == Field && f.ours == FieldOf(None))
              || (f.kind == Name && f.theirs.Label? && f.theirs.name in judge.aliases)))
  }

  /** A finding at a path that leads somewhere says what is there, and is blamed as it should be. */
  predicate Reported(ours: Tree, theirs: Tree, path: Path, judge: Judge, root: bool, f: Finding) {
    var at := Led(ours, theirs, path);
    at.Some? && Says(at.value, f) && Earned(judge, root && path == [], f)
  }

  lemma {:induction false} ShellIsReported(ours: Tree, theirs: Tree, where: Path, judge: Judge, root: bool, f: Finding)
    requires ours.name == theirs.name && ours.named == theirs.named
    ensures f in Shell(ours, theirs, where, judge, root)
       <==> f.where == where && Reported(ours, theirs, [], judge, root, f)
  {
    var field, span := Noted(Field, ours, theirs, where, judge, root), Noted(Span, ours, theirs, where, judge, root);
    var fields, spans := ours.field != theirs.field, (ours.start, ours.end) != (theirs.start, theirs.end);
    assert f in Shell(ours, theirs, where, judge, root) <==> (fields && f == field) || (spans && f == span);
  }

  lemma {:induction false} NameIsReported(ours: Tree, theirs: Tree, where: Path, judge: Judge, root: bool, f: Finding)
    requires ours.name != theirs.name || ours.named != theirs.named
    ensures f == Noted(Name, ours, theirs, where, judge, root)
       <==> f.where == where && Reported(ours, theirs, [], judge, root, f)
  {
  }

  /** A finding is among a list's exactly when it is among one pair's. */
  lemma {:induction false} AmongPairs(ours: Tree, pairs: seq<Pair>, i: nat, where: Path, judge: Judge, f: Finding)
    requires i <= |pairs| && forall k :: 0 <= k < |pairs| && pairs[k].0.Some? ==> pairs[k].0.value in ours.kids
    ensures f in ComparedFrom(ours, pairs, i, where, judge)
       <==> exists k :: i <= k < |pairs| && AtPair(ours, pairs, k, where, judge, f)
    decreases |pairs| - i
  {
    if i < |pairs| {
      AmongPairs(ours, pairs, i + 1, where, judge, f);
      var one, rest := ComparedPair(ours, pairs[i], i, where, judge), ComparedFrom(ours, pairs, i + 1, where, judge);
      assert f in one + rest <==> f in one || f in rest;
      assert f in one <==> AtPair(ours, pairs, i, where, judge, f);
    }
  }

  predicate AtPair(ours: Tree, pairs: seq<Pair>, k: nat, where: Path, judge: Judge, f: Finding)
    requires k < |pairs| && (pairs[k].0.Some? ==> pairs[k].0.value in ours.kids)
  {
    f in ComparedPair(ours, pairs[k], k, where, judge)
  }

  /** The path from one place to a finding under it. */
  function From(where: Path, f: Finding): Path {
    if |where| <= |f.where| then f.where[|where|..] else []
  }

  /** The findings are exactly what is to be said: each says what stands where its path leads,
      and whatever stands anywhere that can be said is said. */
  lemma {:induction false} FindingsAreExact(ours: Tree, theirs: Tree, where: Path, judge: Judge, root: bool, f: Finding)
    ensures f in Compared(ours, theirs, where, judge, root)
       <==> where <= f.where && Reported(ours, theirs, From(where, f), judge, root, f)
    decreases ours, 1
  {
    if ours.name != theirs.name || ours.named != theirs.named {
      NameIsReported(ours, theirs, where, judge, root, f);
      PathIsEmpty(where, f);
    } else {
      var pairs := Aligned(ours.kids, theirs.kids);
      AlignedIsLossless(ours.kids, theirs.kids);
      LeftsHold(pairs);
      ShellIsReported(ours, theirs, where, judge, root, f);
      AmongPairs(ours, pairs, 0, where, judge, f);
      forall k | 0 <= k < |pairs|
        ensures AtPair(ours, pairs, k, where, judge, f) <==> StepsTo(pairs[k], k, where, judge, f)
      {
        PairIsExact(ours, pairs[k], k, where, judge, f);
      }
      LevelIsReported(ours, theirs, where, judge, root, f);
    }
  }

  lemma {:induction false} PathIsEmpty(where: Path, f: Finding)
    ensures where <= f.where && From(where, f) == [] <==> f.where == where
  {
  }

  /** What a finding under one pair says. */
  predicate StepsTo(p: Pair, i: nat, where: Path, judge: Judge, f: Finding) {
    && |where| < |f.where| && where <= f.where
    && var path := f.where[|where|..];
       && path[0].1 == i && GoesBy(p, path[0].0)
       && match p
          case (Some(a), Some(b)) => Reported(a, b, path[1..], judge, false, f)
          case _ => |path| == 1 && Says(p, f) && Earned(judge, false, f)
  }

  lemma {:induction false} PairIsExact(ours: Tree, p: Pair, i: nat, where: Path, judge: Judge, f: Finding)
    requires p.0.Some? ==> p.0.value in ours.kids
    ensures f in ComparedPair(ours, p, i, where, judge) <==> StepsTo(p, i, where, judge, f)
    decreases ours, 0
  {
    match p
    case (Some(a), Some(b)) =>
      var below := where + [(Labelled(a), i)];
      FindingsAreExact(a, b, below, judge, false, f);
      StepIsPrefix(where, (Labelled(a), i), f);
    case (None, Some(b)) => StepIsPath(where, (Labelled(b), i), f);
    case (Some(a), None) => StepIsPath(where, (Labelled(a), i), f);
    case (None, None) =>
  }

  lemma {:induction false} StepIsPrefix(where: Path, step: (Quote, nat), f: Finding)
    ensures where + [step] <= f.where <==> |where| < |f.where| && where <= f.where && f.where[|where|..][0] == step
    ensures where + [step] <= f.where ==> From(where + [step], f) == f.where[|where|..][1..]
  {
    if |where| < |f.where| {
      assert f.where[|where|..][0] == f.where[|where|];
      assert f.where[..|where| + 1] == f.where[..|where|] + [f.where[|where|]];
    }
  }

  lemma {:induction false} StepIsPath(where: Path, step: (Quote, nat), f: Finding)
    ensures f.where == where + [step]
       <==> |where| < |f.where| && where <= f.where && f.where[|where|..] == [step]
  {
    if |where| < |f.where| && where <= f.where && f.where[|where|..] == [step] {
      assert f.where == f.where[..|where|] + f.where[|where|..];
    }
  }

  predicate StepsUnder(pairs: seq<Pair>, where: Path, judge: Judge, f: Finding) {
    exists k :: 0 <= k < |pairs| && StepsTo(pairs[k], k, where, judge, f)
  }

  lemma {:induction false} LevelIsReported(ours: Tree, theirs: Tree, where: Path, judge: Judge, root: bool, f: Finding)
    requires ours.name == theirs.name && ours.named == theirs.named
    ensures where <= f.where && Reported(ours, theirs, From(where, f), judge, root, f)
       <==> || (f.where == where && Reported(ours, theirs, [], judge, root, f))
            || StepsUnder(Aligned(ours.kids, theirs.kids), where, judge, f)
  {
    var pairs := Aligned(ours.kids, theirs.kids);
    if where <= f.where && |where| < |f.where| {
      var path := f.where[|where|..];
      var k := path[0].1;
      assert path != [] && From(where, f) == path;
      if k < |pairs| {
        assert Reported(ours, theirs, path, judge, root, f) <==> StepsTo(pairs[k], k, where, judge, f);
      }
    } else if where <= f.where {
      assert f.where == where;
    }
  }

  // ---- which side a finding speaks of

  /** A node of a tree, the root itself or one below it. */
  predicate Within(t: Tree, n: Tree)
    decreases t
  {
    n == t || exists k :: 0 <= k < |t.kids| && Within(t.kids[k], n)
  }

  lemma {:induction false} PairsHoldKids(a: seq<Tree>, b: seq<Tree>, k: nat)
    requires k < |Aligned(a, b)|
    ensures var p := Aligned(a, b)[k]; (p.0.Some? ==> p.0.value in a) && (p.1.Some? ==> p.1.value in b)
  {
    AlignedIsLossless(a, b);
    LeftsHold(Aligned(a, b));
    RightsHold(Aligned(a, b));
  }

  lemma {:induction false} RightsHold(p: seq<Pair>)
    ensures forall k :: 0 <= k < |p| && p[k].1.Some? ==> p[k].1.value in Rights(p)
    decreases |p|
  {
    if p != [] {
      RightsHold(p[1..]);
      forall k | 0 <= k < |p| && p[k].1.Some? ensures p[k].1.value in Rights(p) {
        if k > 0 {
          assert p[1..][k - 1] == p[k];
        }
      }
    }
  }

  /** A path leads into the two trees, each side of the spot into its own. */
  lemma {:induction false} LedStaysWithin(ours: Tree, theirs: Tree, path: Path)
    requires Led(ours, theirs, path).Some?
    ensures var at := Led(ours, theirs, path).value;
            (at.0.Some? ==> Within(ours, at.0.value)) && (at.1.Some? ==> Within(theirs, at.1.value))
    decreases |path|
  {
    if path != [] {
      var k := path[0].1;
      PairsHoldKids(ours.kids, theirs.kids, k);
      var p := Aligned(ours.kids, theirs.kids)[k];
      if p.0.Some? && p.1.Some? {
        LedStaysWithin(p.0.value, p.1.value, path[1..]);
      }
    }
  }

  /** What a finding quotes is of a node of the tree it quotes it from. */
  ghost predicate Quotes(ours: Tree, theirs: Tree, f: Finding) {
    match f.kind
    case Absent => f.ours == Dash && exists b :: Within(theirs, b) && f.theirs == Labelled(b)
    case Surplus => f.theirs == Dash && exists a :: Within(ours, a) && f.ours == Labelled(a)
    case Name =>
      exists a, b :: Within(ours, a) && Within(theirs, b) && f.ours == Labelled(a) && f.theirs == Labelled(b)
                     && (a.name, a.named) != (b.name, b.named)
    case Field =>
      exists a, b :: Within(ours, a) && Within(theirs, b) && f.ours == FieldOf(a.field) && f.theirs == FieldOf(b.field)
                     && a.field != b.field
    case Span =>
      exists a, b :: Within(ours, a) && Within(theirs, b) && f.ours == Extent(a.start, a.end)
                     && f.theirs == Extent(b.start, b.end) && (a.start, a.end) != (b.start, b.end)
  }

  lemma {:induction false} FindingsQuoteTheirSides(ours: Tree, theirs: Tree, where: Path, judge: Judge, root: bool,
                                                   f: Finding)
    requires f in Compared(ours, theirs, where, judge, root)
    ensures Quotes(ours, theirs, f)
  {
    FindingsAreExact(ours, theirs, where, judge, root, f);
    LedStaysWithin(ours, theirs, From(where, f));
    SpotIsQuoted(ours, theirs, Led(ours, theirs, From(where, f)).value, f);
  }

  lemma {:induction false} SpotIsQuoted(ours: Tree, theirs: Tree, at: Spot, f: Finding)
    requires (at.0.Some? ==> Within(ours, at.0.value)) && (at.1.Some? ==> Within(theirs, at.1.value)) && Says(at, f)
    ensures Quotes(ours, theirs, f)
  {
    match f.kind
    case Absent => assert f.theirs == Labelled(at.1.value);
    case Surplus => assert f.ours == Labelled(at.0.value);
    case Name => assert f.ours == Labelled(at.0.value) && f.theirs == Labelled(at.1.value);
    case Field => assert f.ours == FieldOf(at.0.value.field) && f.theirs == FieldOf(at.1.value.field);
    case Span =>
      var a, b := at.0.value, at.1.value;
      assert f.ours == Extent(a.start, a.end) && f.theirs == Extent(b.start, b.end);
  }

  /** Under two nodes of one name, the absent and the surplus one step down are exactly the
      children the alignment leaves unpaired, each on its own side and at its own ordinal. */
  lemma {:induction false} UnpairedAreFound(ours: Tree, theirs: Tree, where: Path, judge: Judge, root: bool, k: nat)
    requires ours.name == theirs.name && ours.named == theirs.named && k < |Aligned(ours.kids, theirs.kids)|
    ensures var p, found := Aligned(ours.kids, theirs.kids)[k], Compared(ours, theirs, where, judge, root);
            && (p.0.None? && p.1.Some? <==>
                  exists f :: f in found && f.where == where + [(f.theirs, k)] && f.kind == Absent)
            && (p.0.Some? && p.1.None? <==>
                  exists f :: f in found && f.where == where + [(f.ours, k)] && f.kind == Surplus)
  {
    var p, found := Aligned(ours.kids, theirs.kids)[k], Compared(ours, theirs, where, judge, root);
    if p.0.None? && p.1.Some? {
      var b := p.1.value;
      var f := Finding(where + [(Labelled(b), k)], Absent, Dash, Labelled(b), judge.BlameAbsent(b));
      OneStepDown(ours, theirs, where, judge, root, f, k);
      assert f in found;
    }
    if p.0.Some? && p.1.None? {
      var a := p.0.value;
      var f := Finding(where + [(Labelled(a), k)], Surplus, Labelled(a), Dash, Unexplained);
      OneStepDown(ours, theirs, where, judge, root, f, k);
      assert f in found;
    }
    forall f | f in found && |f.where| == |where| + 1 && f.where[|where|].1 == k
      ensures (f.kind == Absent ==> p.0.None? && p.1.Some?) && (f.kind == Surplus ==> p.0.Some? && p.1.None?)
    {
      OneStepDown(ours, theirs, where, judge, root, f, k);
    }
  }

  predicate SaysBelow(p: Pair, q: Quote, judge: Judge, f: Finding) {
    GoesBy(p, q) && Says(p, f) && Earned(judge, false, f)
  }

  lemma {:induction false} OneStepDown(ours: Tree, theirs: Tree, where: Path, judge: Judge, root: bool, f: Finding,
                                       k: nat)
    requires ours.name == theirs.name && ours.named == theirs.named && k < |Aligned(ours.kids, theirs.kids)|
    requires |f.where| == |where| + 1 && f.where[|where|].1 == k
    ensures f in Compared(ours, theirs, where, judge, root)
       <==> where <= f.where && SaysBelow(Aligned(ours.kids, theirs.kids)[k], f.where[|where|].0, judge, f)
  {
    FindingsAreExact(ours, theirs, where, judge, root, f);
    var p := Aligned(ours.kids, theirs.kids)[k];
    if where <= f.where {
      var path := From(where, f);
      assert path == [f.where[|where|]] && path[1..] == [];
      if p.0.Some? && p.1.Some? {
        assert Led(p.0.value, p.1.value, path[1..]) == Some(p);
      }
    }
  }
}
