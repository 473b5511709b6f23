/** Two trees compared node by node. */
module Compare {
  import opened Wrappers
  import opened Trees
  import opened Align

  predicate Same(a: Tree, b: Tree)
    decreases a
  {
    && Key(a) == Key(b) && a.start == b.start && a.end == b.end
    && |a.kids| == |b.kids| && forall i :: 0 <= i < |a.kids| ==> Same(a.kids[i], b.kids[i])
  }

  datatype Kind = Name | Field | Span | Absent | Surplus

  datatype Owner = Extras | Recovery | RootExtent | Partial | Unexplained

  /** What a finding quotes from one side. */
  datatype Quote =
    | Dash
    | Label(field: Option<string>, name: string, named: bool)
    | FieldOf(f: Option<string>)
    | Extent(start: int, end: int)

  function Labelled(t: Tree): Quote {
    Label(t.field, t.name, t.named)
  }

  /** Where a finding is: the label and the ordinal of every step down. */
  type Path = seq<(Quote, nat)>

  datatype Finding = Finding(where: Path, kind: Kind, ours: Quote, theirs: Quote, owner: Owner)

  /** What a difference at a spot can be blamed on. */
  datatype Judge = Judge(extras: set<string>, aliases: set<string>, size: int, orphan: bool) {
    function BlameAbsent(theirs: Tree): Owner {
      if theirs.name in extras then Extras
      else if theirs.name == "ERROR" || "MISSING " <= theirs.name then Recovery
      else Unexplained
    }

    function BlameRoot(kind: Kind, ours: Tree, theirs: Tree): Owner {
      if kind.Span? && ours.start == theirs.start && theirs.end == size then RootExtent
      else if orphan && kind.Field? && ours.field.None? then Partial
      else if orphan && kind.Name? && theirs.name in aliases then Partial
      else Unexplained
    }
  }

  function Noted(kind: Kind, ours: Tree, theirs: Tree, where: Path, judge: Judge, root: bool): Finding {
    var owner := if root then judge.BlameRoot(kind, ours, theirs) else Unexplained;
    match kind
    case Field => Finding(where, kind, FieldOf(ours.field), FieldOf(theirs.field), owner)
    case Span => Finding(where, kind, Extent(ours.start, ours.end), Extent(theirs.start, theirs.end), owner)
    case _ => Finding(where, kind, Labelled(ours), Labelled(theirs), owner)
  }

  function Compared(ours: Tree, theirs: Tree, where: Path, judge: Judge, root: bool): seq<Finding>
    decreases ours, 1, 0
  {
    if ours.name != theirs.name || ours.named != theirs.named
    then [Noted(Name, ours, theirs, where, judge, root)]
    else
      AlignedIsLossless(ours.kids, theirs.kids);
      LeftsHold(Aligned(ours.kids, theirs.kids));
      Shell(ours, theirs, where, judge, root)
      + ComparedFrom(ours, Aligned(ours.kids, theirs.kids), 0, where, judge)
  }

  /** What the two nodes themselves differ in, their names agreeing. */
  function Shell(ours: Tree, theirs: Tree, where: Path, judge: Judge, root: bool): seq<Finding> {
    (if ours.field != theirs.field then [Noted(Field, ours, theirs, where, judge, root)] else [])
    + (if (ours.start, ours.end) != (theirs.start, theirs.end)
       then [Noted(Span, ours, theirs, where, judge, root)] else [])
  }

  function ComparedFrom(ours: Tree, pairs: seq<Pair>, i: nat, where: Path, judge: Judge): seq<Finding>
    requires i <= |pairs|
    requires forall k :: 0 <= k < |pairs| && pairs[k].0.Some? ==> pairs[k].0.value in ours.kids
    decreases ours, 0, |pairs| - i
  {
    if i == |pairs| then []
    else ComparedPair(ours, pairs[i], i, where, judge) + ComparedFrom(ours, pairs, i + 1, where, judge)
  }

  function ComparedPair(ours: Tree, p: Pair, i: nat, where: Path, judge: Judge): seq<Finding>
    requires p.0.Some? ==> p.0.value in ours.kids
    decreases ours, 0, 0
  {
    match p
    case (Some(a), Some(b)) => Compared(a, b, where + [(Labelled(a), i)], judge, false)
    case (None, Some(b)) => [Finding(where + [(Labelled(b), i)], Absent, Dash, Labelled(b), judge.BlameAbsent(b))]
    case (Some(a), None) => [Finding(where + [(Labelled(a), i)], Surplus, Labelled(a), Dash, Unexplained)]
    case (None, None) => []
  }

  lemma {:induction false} LeftsHold(p: seq<Pair>)
    ensures forall k :: 0 <= k < |p| && p[k].0.Some? ==> p[k].0.value in Lefts(p)
    decreases |p|
  {
    if p != [] {
      LeftsHold(p[1..]);
      forall k | 0 <= k < |p| && p[k].0.Some? ensures p[k].0.value in Lefts(p) {
        if k > 0 {
          assert p[1..][k - 1] == p[k];
        }
      }
    }
  }

  /** The findings appended to a list, as the walk over both trees makes them. */
  method CompareInto(ours: Tree, theirs: Tree, where: Path, out: seq<Finding>, judge: Judge, root: bool)
    returns (all: seq<Finding>)
    ensures all == out + Compared(ours, theirs, where, judge, root)
    decreases ours, 1
  {
    if ours.name != theirs.name || ours.named != theirs.named {
      return out + [Noted(Name, ours, theirs, where, judge, root)];
    }
    all := out;
    if ours.field != theirs.field {
      all := all + [Noted(Field, ours, theirs, where, judge, root)];
    }
    if (ours.start, ours.end) != (theirs.start, theirs.end) {
      all := all + [Noted(Span, ours, theirs, where, judge, root)];
    }
    ghost var shell, kids := Shell(ours, theirs, where, judge, root), Aligned(ours.kids, theirs.kids);
    assert all == out + shell;
    AlignedIsLossless(ours.kids, theirs.kids);
    LeftsHold(kids);
    assert out + (shell + ComparedFrom(ours, kids, 0, where, judge)) == all + ComparedFrom(ours, kids, 0, where, judge);
    var pairs := AlignChildren(ours.kids, theirs.kids);
    all := CompareKids(ours, pairs, where, all, judge);
  }

  method CompareKids(ours: Tree, pairs: seq<Pair>, where: Path, out: seq<Finding>, judge: Judge)
    returns (all: seq<Finding>)
    requires forall k :: 0 <= k < |pairs| && pairs[k].0.Some? ==> pairs[k].0.value in ours.kids
    ensures all == out + ComparedFrom(ours, pairs, 0, where, judge)
    decreases ours, 0
  {
    all := out;
    var i := 0;
    while i < |pairs|
      invariant 0 <= i <= |pairs|
      invariant all + ComparedFrom(ours, pairs, i, where, judge) == out + ComparedFrom(ours, pairs, 0, where, judge)
    {
      ghost var one := ComparedPair(ours, pairs[i], i, where, judge);
      ghost var rest := ComparedFrom(ours, pairs, i + 1, where, judge);
      assert all + (one + rest) == all + one + rest;
      var (a, b) := pairs[i];
      if a.None? {
        if b.Some? {
          var at := where + [(Labelled(b.value), i)];
          all := all + [Finding(at, Absent, Dash, Labelled(b.value), judge.BlameAbsent(b.value))];
        }
      } else if b.None? {
        all := all + [Finding(where + [(Labelled(a.value), i)], Surplus, Labelled(a.value), Dash, Unexplained)];
      } else {
        all := CompareInto(a.value, b.value, where + [(Labelled(a.value), i)], all, judge, false);
      }
      i := i + 1;
    }
  }

  // ---- no findings, exactly when the trees are the same

  /** Both lists in step: what an alignment of equal lists is. */
  function Zipped(a: seq<Tree>, b: seq<Tree>): (r: seq<Pair>)
    requires |a| == |b|
    ensures |r| == |a| && forall k :: 0 <= k < |r| ==> r[k] == (Some(a[k]), Some(b[k]))
  {
    seq(|a|, k requires 0 <= k < |a| => (Some(a[k]), Some(b[k])))
  }

  lemma {:induction false} TracedInStep(a: seq<Tree>, b: seq<Tree>, i: nat)
    requires |a| == |b| && i <= |a| && forall k :: 0 <= k < |a| ==> Key(a[k]) == Key(b[k])
    ensures Traced(a, b, i, i) == Zipped(a, b)[i..]
    decreases |a| - i
  {
    if i < |a| {
      TracedInStep(a, b, i + 1);
    }
  }

  lemma {:induction false} AlignedInStep(a: seq<Tree>, b: seq<Tree>)
    requires |a| == |b| && forall k :: 0 <= k < |a| ==> Key(a[k]) == Key(b[k])
    ensures Aligned(a, b) == Zipped(a, b)
  {
    TracedInStep(a, b, 0);
  }

  /** A gapless alignment is both lists in step. */
  lemma {:induction false} GaplessIsInStep(p: seq<Pair>)
    requires forall k :: 0 <= k < |p| ==> p[k].0.Some? && p[k].1.Some?
    ensures |Lefts(p)| == |p| == |Rights(p)|
    ensures forall k :: 0 <= k < |p| ==> p[k] == (Some(Lefts(p)[k]), Some(Rights(p)[k]))
    decreases |p|
  {
    if p != [] {
      GaplessIsInStep(p[1..]);
      forall k | 0 <= k < |p| ensures p[k] == (Some(Lefts(p)[k]), Some(Rights(p)[k])) {
        if k > 0 {
          assert p[k] == p[1..][k - 1];
        }
      }
    }
  }

  lemma {:induction false} ComparedFromIsEmpty(ours: Tree, pairs: seq<Pair>, i: nat, where: Path, judge: Judge)
    requires i <= |pairs|
    requires forall k :: 0 <= k < |pairs| && pairs[k].0.Some? ==> pairs[k].0.value in ours.kids
    ensures ComparedFrom(ours, pairs, i, where, judge) == []
       <==> forall k :: i <= k < |pairs| ==> ComparedPair(ours, pairs[k], k, where, judge) == []
    decreases |pairs| - i
  {
    if i < |pairs| {
      ComparedFromIsEmpty(ours, pairs, i + 1, where, judge);
    }
  }

  lemma {:induction false} NoPairIsBlank(a: seq<Tree>, b: seq<Tree>, k: nat)
    requires k < |Aligned(a, b)|
    ensures Aligned(a, b)[k] != (None, None)
  {
    if |a| * |b| <= FAN_OUT {
      TracedHasNoBlank(a, b, 0, 0, k);
    }
  }

  lemma {:induction false} TracedHasNoBlank(a: seq<Tree>, b: seq<Tree>, i: nat, j: nat, k: nat)
    requires i <= |a| && j <= |b| && k < |Traced(a, b, i, j)|
    ensures Traced(a, b, i, j)[k] != (None, None)
    decreases |a| - i + |b| - j
  {
    if i < |a| && j < |b| && k > 0 {
      if Key(a[i]) == Key(b[j]) {
        TracedHasNoBlank(a, b, i + 1, j + 1, k - 1);
      } else if Lcs(a, b, i + 1, j) >= Lcs(a, b, i, j + 1) {
        TracedHasNoBlank(a, b, i + 1, j, k - 1);
      } else {
        TracedHasNoBlank(a, b, i, j + 1, k - 1);
      }
    }
  }

  /** `compare` says nothing exactly when `same` holds, in either branch of the
      alignment, whoever is judging. */
  lemma {:induction false} NoFindingsIffSame(ours: Tree, theirs: Tree, where: Path, judge: Judge, root: bool)
    ensures Compared(ours, theirs, where, judge, root) == [] <==> Same(ours, theirs)
    decreases ours
  {
    if Same(ours, theirs) {
      SameHasNoFindings(ours, theirs, where, judge, root);
    }
    if Compared(ours, theirs, where, judge, root) == [] {
      SilentIsSame(ours, theirs, where, judge, root);
    }
  }

  lemma {:induction false} SameHasNoFindings(ours: Tree, theirs: Tree, where: Path, judge: Judge, root: bool)
    requires Same(ours, theirs)
    ensures Compared(ours, theirs, where, judge, root) == []
    decreases ours, 1
  {
    var a, b := ours.kids, theirs.kids;
    forall k | 0 <= k < |a| ensures Key(a[k]) == Key(b[k]) {
      assert Same(a[k], b[k]);
    }
    AlignedInStep(a, b);
    var pairs := Zipped(a, b);
    forall k | 0 <= k < |pairs| ensures ComparedPair(ours, pairs[k], k, where, judge) == [] {
      assert Same(a[k], b[k]);
      SameHasNoFindings(a[k], b[k], where + [(Labelled(a[k]), k)], judge, false);
    }
    ComparedFromIsEmpty(ours, pairs, 0, where, judge);
  }

  lemma {:induction false} SilentIsSame(ours: Tree, theirs: Tree, where: Path, judge: Judge, root: bool)
    requires Compared(ours, theirs, where, judge, root) == []
    ensures Same(ours, theirs)
    decreases ours, 1
  {
    var a, b := ours.kids, theirs.kids;
    var pairs := Aligned(a, b);
    AlignedIsLossless(a, b);
    LeftsHold(pairs);
    ComparedFromIsEmpty(ours, pairs, 0, where, judge);
    forall k | 0 <= k < |pairs| ensures pairs[k].0.Some? && pairs[k].1.Some? {
      NoPairIsBlank(a, b, k);
      assert ComparedPair(ours, pairs[k], k, where, judge) == [];
    }
    GaplessIsInStep(pairs);
    forall k | 0 <= k < |a| ensures Same(a[k], b[k]) {
      assert ComparedPair(ours, pairs[k], k, where, judge) == [];
      SilentIsSame(a[k], b[k], where + [(Labelled(a[k]), k)], judge, false);
    }
  }

  // ---- who is blamed changes nothing else

  function Unowned(f: seq<Finding>): (r: seq<Finding>)
    ensures |r| == |f|
  {
    seq(|f|, k requires 0 <= k < |f| => f[k].(owner := Unexplained))
  }

  /** The judge and the root flag decide owners and nothing else. */
  lemma {:induction false} JudgeOnlyBlames(ours: Tree, theirs: Tree, where: Path, j: Judge, j': Judge, root: bool,
                                           root': bool)
    ensures Unowned(Compared(ours, theirs, where, j, root)) == Unowned(Compared(ours, theirs, where, j', root'))
    decreases ours, 1, 0
  {
    if ours.name == theirs.name && ours.named == theirs.named {
      var pairs := Aligned(ours.kids, theirs.kids);
      AlignedIsLossless(ours.kids, theirs.kids);
      LeftsHold(pairs);
      JudgeOnlyBlamesFrom(ours, pairs, 0, where, j, j');
      UnownedConcat(Shell(ours, theirs, where, j, root), ComparedFrom(ours, pairs, 0, where, j));
      UnownedConcat(Shell(ours, theirs, where, j', root'), ComparedFrom(ours, pairs, 0, where, j'));
    }
  }

  lemma {:induction false} UnownedConcat(a: seq<Finding>, b: seq<Finding>)
    ensures Unowned(a + b) == Unowned(a) + Unowned(b)
  {
  }

  lemma {:induction false} JudgeOnlyBlamesFrom(ours: Tree, pairs: seq<Pair>, i: nat, where: Path, j: Judge, j': Judge)
    requires i <= |pairs|
    requires forall k :: 0 <= k < |pairs| && pairs[k].0.Some? ==> pairs[k].0.value in ours.kids
    ensures Unowned(ComparedFrom(ours, pairs, i, where, j)) == Unowned(ComparedFrom(ours, pairs, i, where, j'))
    decreases ours, 0, |pairs| - i
  {
    if i < |pairs| {
      var (a, b) := pairs[i];
      if a.Some? && b.Some? {
        JudgeOnlyBlames(a.value, b.value, where + [(Labelled(a.value), i)], j, j', false, false);
      }
      JudgeOnlyBlamesFrom(ours, pairs, i + 1, where, j, j');
      UnownedConcat(ComparedPair(ours, pairs[i], i, where, j), ComparedFrom(ours, pairs, i + 1, where, j));
      UnownedConcat(ComparedPair(ours, pairs[i], i, where, j'), ComparedFrom(ours, pairs, i + 1, where, j'));
    }
  }
}
