/** Byte by byte, the deepest node over a byte, by overwriting in preorder. */
module Paint {
  import opened Wrappers
  import opened Trees

  datatype Leaf = Leaf(name: string, named: bool, start: int, end: int, leaf: bool)

  predicate Holds(n: Leaf, x: int) {
    n.start <= x < n.end
  }

  /** The last node of a list over a byte, or -1. */
  function LastOver(nodes: seq<Leaf>, x: int): (r: int)
    ensures -1 <= r < |nodes|
    ensures r >= 0 ==> Holds(nodes[r], x)
    ensures forall i :: r < i < |nodes| ==> !Holds(nodes[i], x)
  {
    if nodes == [] then -1
    else if Holds(nodes[|nodes| - 1], x) then |nodes| - 1
    else LastOver(nodes[..|nodes| - 1], x)
  }

  method Painted(nodes: seq<Leaf>, size: nat) returns (who: array<int>)
    ensures fresh(who) && who.Length == size
    ensures forall x :: 0 <= x < size ==> who[x] == LastOver(nodes, x)
  {
    who := new int[size](_ => -1);
    var i := 0;
    while i < |nodes|
      invariant 0 <= i <= |nodes|
      invariant forall x :: 0 <= x < size ==> who[x] == LastOver(nodes[..i], x)
    {
      var a := if nodes[i].start > 0 then nodes[i].start else 0;
      var b := if nodes[i].end < size then nodes[i].end else size;
      assert nodes[..i + 1][..i] == nodes[..i];
      if b > a {
        forall x | a <= x < b {
          who[x] := i;
        }
      }
      i := i + 1;
    }
    assert nodes[..|nodes|] == nodes;
  }

  // ---- the tree a list was flattened from

  function Bare(t: Tree): Leaf {
    Leaf(t.name, t.named, t.start, t.end, t.kids == [])
  }

  function Flatten(t: Tree): seq<Leaf>
    decreases t, 1
  {
    [Bare(t)] + FlattenAll(t.kids)
  }

  function FlattenAll(ts: seq<Tree>): seq<Leaf>
    decreases ts, 0
  {
    if ts == [] then [] else Flatten(ts[0]) + FlattenAll(ts[1..])
  }

  /** The depth of each node of a flattened tree. */
  function Depths(t: Tree, d: nat): seq<nat>
    decreases t, 1
  {
    [d] + DepthsAll(t.kids, d + 1)
  }

  function DepthsAll(ts: seq<Tree>, d: nat): seq<nat>
    decreases ts, 0
  {
    if ts == [] then [] else Depths(ts[0], d) + DepthsAll(ts[1..], d)
  }

  /** Children lie inside their parent and do not overlap one another. */
  predicate Nested(t: Tree)
    decreases t, 1
  {
    && (forall i :: 0 <= i < |t.kids| ==> t.start <= t.kids[i].start && t.kids[i].end <= t.end)
    && NestedAll(t.kids)
  }

  predicate NestedAll(ts: seq<Tree>)
    decreases ts, 0
  {
    ts == [] || (
      && Nested(ts[0]) && NestedAll(ts[1..])
      && (forall i :: 1 <= i < |ts| ==> ts[0].end <= ts[i].start || ts[i].end <= ts[0].start))
  }

  /** Whatever a flattened tree holds lies inside its root, and inside its root only. */
  lemma {:induction false} FlattenStaysInside(t: Tree, i: nat, x: int)
    requires Nested(t) && i < |Flatten(t)| && Holds(Flatten(t)[i], x)
    ensures Over(t, x)
    decreases t, 1
  {
    if i > 0 {
      FlattenAllStaysInside(t.kids, i - 1, x);
    }
  }

  lemma {:induction false} FlattenAllStaysInside(ts: seq<Tree>, i: nat, x: int)
    requires NestedAll(ts) && i < |FlattenAll(ts)| && Holds(FlattenAll(ts)[i], x)
    ensures exists k :: 0 <= k < |ts| && Over(ts[k], x)
    decreases ts, 0
  {
    var n := |Flatten(ts[0])|;
    if i < n {
      FlattenStaysInside(ts[0], i, x);
    } else {
      FlattenAllStaysInside(ts[1..], i - n, x);
      var k :| 0 <= k < |ts[1..]| && Over(ts[1..][k], x);
      assert Over(ts[k + 1], x);
    }
  }

  /** The painted node is the deepest over its byte, and the only one at its depth. */
  ghost predicate Deepest(nodes: seq<Leaf>, depths: seq<nat>, x: int) {
    && |nodes| == |depths|
    && var last := LastOver(nodes, x);
       forall i :: 0 <= i < |nodes| && i != last && Holds(nodes[i], x) ==> depths[i] < depths[last]
  }

  lemma {:induction false} LastOverIs(s: seq<Leaf>, x: int, r: int)
    requires -1 <= r < |s| && (r >= 0 ==> Holds(s[r], x)) && forall i :: r < i < |s| ==> !Holds(s[i], x)
    ensures LastOver(s, x) == r
  {
  }

  lemma {:induction false} LastOverConcat(a: seq<Leaf>, b: seq<Leaf>, x: int)
    ensures LastOver(a + b, x) == if LastOver(b, x) >= 0 then |a| + LastOver(b, x) else LastOver(a, x)
  {
    var r := if LastOver(b, x) >= 0 then |a| + LastOver(b, x) else LastOver(a, x);
    forall i | 0 <= i < |a + b| ensures (a + b)[i] == if i < |a| then a[i] else b[i - |a|] {
    }
    LastOverIs(a + b, x, r);
  }

  /** A node painted before what lies inside it. */
  lemma {:induction false} DeepestUnder(root: Leaf, all: seq<Leaf>, d: nat, ds: seq<nat>, x: int)
    requires Deepest(all, ds, x) && (LastOver(all, x) >= 0 ==> Holds(root, x))
    requires forall i :: 0 <= i < |ds| ==> d + 1 <= ds[i]
    ensures Deepest([root] + all, [d] + ds, x)
    ensures LastOver([root] + all, x) >= 0 <==> Holds(root, x)
  {
    LastOverConcat([root], all, x);
    LastOverIs([root], x, if Holds(root, x) then 0 else -1);
    var nodes, last := [root] + all, LastOver([root] + all, x);
    forall i | 0 <= i < |nodes| && i != last && Holds(nodes[i], x) ensures ([d] + ds)[i] < ([d] + ds)[last] {
      if i > 0 {
        assert Holds(all[i - 1], x);
      }
    }
  }

  /** Two lists of which at most one lies over the byte. */
  lemma {:induction false} DeepestBeside(a: seq<Leaf>, da: seq<nat>, b: seq<Leaf>, db: seq<nat>, x: int)
    requires Deepest(a, da, x) && Deepest(b, db, x)
    requires LastOver(b, x) >= 0 ==> forall i :: 0 <= i < |a| ==> !Holds(a[i], x)
    ensures Deepest(a + b, da + db, x)
  {
    LastOverConcat(a, b, x);
    var last := LastOver(a + b, x);
    forall i | 0 <= i < |a + b| && i != last && Holds((a + b)[i], x) ensures (da + db)[i] < (da + db)[last] {
      if i >= |a| {
        assert Holds(b[i - |a|], x);
      }
    }
  }

  lemma {:induction false} FlattenPaintsDeepest(t: Tree, d: nat, x: int)
    requires Nested(t)
    ensures Deepest(Flatten(t), Depths(t, d), x)
    ensures LastOver(Flatten(t), x) >= 0 <==> Over(t, x)
    ensures forall i :: 0 <= i < |Depths(t, d)| ==> d <= Depths(t, d)[i]
    decreases t, 1
  {
    FlattenAllPaintsDeepest(t.kids, d + 1, x);
    var all := FlattenAll(t.kids);
    if LastOver(all, x) >= 0 {
      FlattenAllStaysInside(t.kids, LastOver(all, x), x);
    }
    DeepestUnder(Bare(t), all, d, DepthsAll(t.kids, d + 1), x);
  }

  lemma {:induction false} FlattenAllPaintsDeepest(ts: seq<Tree>, d: nat, x: int)
    requires NestedAll(ts)
    ensures Deepest(FlattenAll(ts), DepthsAll(ts, d), x)
    ensures forall i :: 0 <= i < |DepthsAll(ts, d)| ==> d <= DepthsAll(ts, d)[i]
    decreases ts, 0
  {
    if ts != [] {
      FlattenPaintsDeepest(ts[0], d, x);
      FlattenAllPaintsDeepest(ts[1..], d, x);
      var a, b := Flatten(ts[0]), FlattenAll(ts[1..]);
      if LastOver(b, x) >= 0 {
        FlattenAllStaysInside(ts[1..], LastOver(b, x), x);
        NoneOverFirst(ts, x);
      }
      DeepestBeside(a, Depths(ts[0], d), b, DepthsAll(ts[1..], d), x);
    }
  }

  lemma {:induction false} NoneOverFirst(ts: seq<Tree>, x: int)
    requires ts != [] && NestedAll(ts) && exists k :: 0 <= k < |ts[1..]| && Over(ts[1..][k], x)
    ensures forall i :: 0 <= i < |Flatten(ts[0])| ==> !Holds(Flatten(ts[0])[i], x)
  {
    var k :| 0 <= k < |ts[1..]| && Over(ts[1..][k], x);
    assert Over(ts[k + 1], x) && !Over(ts[0], x);
    forall i | 0 <= i < |Flatten(ts[0])| ensures !Holds(Flatten(ts[0])[i], x) {
      if Holds(Flatten(ts[0])[i], x) {
        FlattenStaysInside(ts[0], i, x);
      }
    }
  }
}
