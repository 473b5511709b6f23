/** Where no caller could have asked, and what the caller was inside of. */
module Envelope {
  import opened Wrappers
  import opened Trees
  import opened Paint

  // ---- the difference array

  /** The byte lies inside a leaf, not at its front. */
  predicate Interior(n: Leaf, x: int) {
    n.leaf && n.end - n.start > 1 && n.start < x < n.end
  }

  function Sum(a: seq<int>, n: nat): int
    requires n <= |a|
  {
    if n == 0 then 0 else Sum(a, n - 1) + a[n - 1]
  }

  lemma {:induction false} SumUpdate(a: seq<int>, j: nat, d: int, n: nat)
    requires j < |a| && n <= |a|
    ensures Sum(a[j := a[j] + d], n) == Sum(a, n) + (if j < n then d else 0)
    decreases n
  {
    if n > 0 {
      SumUpdate(a, j, d, n - 1);
    }
  }

  /** How many leaves have an offset in their interior. */
  function Count(nodes: seq<Leaf>, x: int): nat {
    if nodes == [] then 0
    else Count(nodes[..|nodes| - 1], x) + (if Interior(nodes[|nodes| - 1], x) then 1 else 0)
  }

  lemma {:induction false} CountIsSome(nodes: seq<Leaf>, x: int)
    ensures Count(nodes, x) > 0 <==> exists i :: 0 <= i < |nodes| && Interior(nodes[i], x)
    decreases |nodes|
  {
    if nodes != [] {
      var n := |nodes| - 1;
      CountIsSome(nodes[..n], x);
      if exists i :: 0 <= i < n && Interior(nodes[..n][i], x) {
        var i :| 0 <= i < n && Interior(nodes[..n][i], x);
        assert Interior(nodes[i], x);
      }
      if exists i :: 0 <= i < |nodes| && Interior(nodes[i], x) {
        var i :| 0 <= i < |nodes| && Interior(nodes[i], x);
        if i < n {
          assert Interior(nodes[..n][i], x);
        }
      }
    }
  }

  lemma {:induction false} SumOfZeros(a: seq<int>, n: nat)
    requires n <= |a| && forall i :: 0 <= i < |a| ==> a[i] == 0
    ensures forall m :: 0 <= m <= n ==> Sum(a, m) == 0
    decreases n
  {
    if n > 0 {
      SumOfZeros(a, n - 1);
    }
  }

  /** One past the end of everything, and one more. */
  function Reach(nodes: seq<Leaf>): (r: int)
    ensures r >= 2 && forall i :: 0 <= i < |nodes| ==> nodes[i].end <= r - 2
  {
    if nodes == [] then 2 else
    var r := Reach(nodes[..|nodes| - 1]);
    assert forall i :: 0 <= i < |nodes| - 1 ==> nodes[..|nodes| - 1][i] == nodes[i];
    if nodes[|nodes| - 1].end + 2 > r then nodes[|nodes| - 1].end + 2 else r
  }

  /** The two edges a leaf's interior puts into the array. */
  method Mark(edge: array<int>, n: Leaf)
    requires Interior(n, n.start + 1) && 0 <= n.start && n.end < edge.Length
    modifies edge
    ensures forall x :: 0 <= x < edge.Length ==>
              Sum(edge[..], x + 1) == Sum(old(edge[..]), x + 1) + (if Interior(n, x) then 1 else 0)
  {
    ghost var was := edge[..];
    edge[n.start + 1] := edge[n.start + 1] + 1;
    ghost var up := edge[..];
    assert up == was[n.start + 1 := was[n.start + 1] + 1];
    edge[n.end] := edge[n.end] - 1;
    assert edge[..] == up[n.end := up[n.end] - 1];
    forall x | 0 <= x < edge.Length
      ensures Sum(edge[..], x + 1) == Sum(was, x + 1) + (if Interior(n, x) then 1 else 0)
    {
      SumUpdate(was, n.start + 1, 1, x + 1);
      SumUpdate(up, n.end, -1, x + 1);
    }
  }

  /** Every leaf's edges in one array: its running sum counts the leaves around an offset. */
  method Edges(nodes: seq<Leaf>) returns (edge: array<int>)
    requires forall i :: 0 <= i < |nodes| ==> 0 <= nodes[i].start
    ensures fresh(edge) && edge.Length == Reach(nodes)
    ensures forall x :: 0 <= x < edge.Length ==> Sum(edge[..], x + 1) == Count(nodes, x)
  {
    edge := new int[Reach(nodes)](_ => 0);
    SumOfZeros(edge[..], edge.Length);
    var i := 0;
    while i < |nodes|
      invariant 0 <= i <= |nodes|
      invariant forall x :: 0 <= x < edge.Length ==> Sum(edge[..], x + 1) == Count(nodes[..i], x)
    {
      assert nodes[..i + 1][..i] == nodes[..i];
      if nodes[i].leaf && nodes[i].end - nodes[i].start > 1 {
        Mark(edge, nodes[i]);
      }
      i := i + 1;
    }
    assert nodes[..|nodes|] == nodes;
  }

  /** The array marks an offset exactly when some leaf wider than a byte strictly contains it. */
  method Voided(nodes: seq<Leaf>) returns (void: array<bool>)
    requires forall i :: 0 <= i < |nodes| ==> 0 <= nodes[i].start
    ensures void.Length == Reach(nodes)
    ensures forall x :: 0 <= x < void.Length ==>
              (void[x] <==> exists i :: 0 <= i < |nodes| && nodes[i].leaf && nodes[i].end - nodes[i].start > 1
                                        && nodes[i].start < x < nodes[i].end)
  {
    var edge := Edges(nodes);
    ghost var e := edge[..];
    void := new bool[edge.Length](_ => false);
    var run, x := 0, 0;
    while x < edge.Length
      invariant 0 <= x <= edge.Length && edge[..] == e
      invariant run == Sum(e, x)
      invariant forall y :: 0 <= y < x ==> (void[y] <==> Count(nodes, y) > 0)
    {
      run := run + edge[x];
      void[x] := run > 0;
      x := x + 1;
    }
    forall y | 0 <= y < void.Length
      ensures void[y] <==> exists i :: 0 <= i < |nodes| && nodes[i].leaf && nodes[i].end - nodes[i].start > 1
                                       && nodes[i].start < y < nodes[i].end
    {
      CountIsSome(nodes, y);
      if i :| 0 <= i < |nodes| && Interior(nodes[i], y) {
        assert nodes[i].leaf;
      }
      if i :| 0 <= i < |nodes| && nodes[i].leaf && nodes[i].end - nodes[i].start > 1
              && nodes[i].start < y < nodes[i].end {
        assert Interior(nodes[i], y);
      }
    }
  }

  // ---- the seat

  /** A node without its front offset: strictly inside is inside this. */
  function Shrunk(n: Leaf): Leaf {
    n.(start := n.start + 1)
  }

  function ShrunkAll(nodes: seq<Leaf>): (r: seq<Leaf>)
    ensures |r| == |nodes| && forall i :: 0 <= i < |r| ==> r[i] == Shrunk(nodes[i])
  {
    seq(|nodes|, i requires 0 <= i < |nodes| => Shrunk(nodes[i]))
  }

  function Extent(n: Leaf): int {
    n.end - n.start
  }

  /** Widest first, and nodes as wide kept in the order they came. */
  function Insert(x: Leaf, s: seq<Leaf>): seq<Leaf> {
    if s == [] || Extent(x) >= Extent(s[0]) then [x] + s else [s[0]] + Insert(x, s[1..])
  }

  function WidestFirst(nodes: seq<Leaf>): seq<Leaf> {
    if nodes == [] then [] else Insert(nodes[0], WidestFirst(nodes[1..]))
  }

  predicate Narrowing(s: seq<Leaf>) {
    forall i, j :: 0 <= i < j < |s| ==> Extent(s[i]) >= Extent(s[j])
  }

  /** The nodes of a list over a byte, in order. */
  function Holders(s: seq<Leaf>, x: int): (r: seq<Leaf>)
    ensures forall n :: n in r ==> n in s
  {
    if s == [] then [] else (if Holds(s[0], x) then [s[0]] else []) + Holders(s[1..], x)
  }

  lemma {:induction false} InsertHolds(n: Leaf, s: seq<Leaf>)
    requires Narrowing(s)
    ensures Narrowing(Insert(n, s)) && forall m :: m in Insert(n, s) <==> m in s || m == n
    decreases |s|
  {
    if s != [] && Extent(n) < Extent(s[0]) {
      InsertHolds(n, s[1..]);
      forall k | 0 <= k < |Insert(n, s[1..])| ensures Extent(s[0]) >= Extent(Insert(n, s[1..])[k]) {
        assert Insert(n, s[1..])[k] in Insert(n, s[1..]);
      }
    }
  }

  lemma {:induction false} SortHolds(s: seq<Leaf>)
    ensures Narrowing(WidestFirst(s)) && forall m :: m in WidestFirst(s) <==> m in s
    decreases |s|
  {
    if s != [] {
      SortHolds(s[1..]);
      InsertHolds(s[0], WidestFirst(s[1..]));
    }
  }

  lemma {:induction false} HoldersFirst(n: Leaf, s: seq<Leaf>, x: int)
    ensures Holders([n] + s, x) == (if Holds(n, x) then [n] else []) + Holders(s, x)
  {
    assert ([n] + s)[1..] == s;
  }

  lemma {:induction false} InsertAmongHolders(n: Leaf, s: seq<Leaf>, x: int)
    requires Narrowing(s)
    requires Holds(n, x) ==> forall m :: m in Holders(s, x) ==> Extent(n) >= Extent(m)
    ensures Holders(Insert(n, s), x) == (if Holds(n, x) then [n] else []) + Holders(s, x)
    decreases |s|
  {
    if s == [] || Extent(n) >= Extent(s[0]) {
      HoldersFirst(n, s, x);
    } else {
      InsertAmongHolders(n, s[1..], x);
      HoldersFirst(s[0], Insert(n, s[1..]), x);
      HoldersFirst(s[0], s[1..], x);
      assert [s[0]] + s[1..] == s;
      assert Holds(s[0], x) ==> Holders(s, x)[0] == s[0];
    }
  }

  /** Sorting widest first leaves the nodes over a byte in their own order, if they were
      already nested in that order. */
  lemma {:induction false} SortKeepsHolders(s: seq<Leaf>, x: int)
    requires Narrowing(Holders(s, x))
    ensures Holders(WidestFirst(s), x) == Holders(s, x)
    decreases |s|
  {
    if s != [] {
      var rest := Holders(s[1..], x);
      assert Holders(s, x) == (if Holds(s[0], x) then [s[0]] else []) + rest;
      assert Narrowing(rest) by {
        var k := if Holds(s[0], x) then 1 else 0;
        assert forall i :: 0 <= i < |rest| ==> rest[i] == Holders(s, x)[i + k];
      }
      SortKeepsHolders(s[1..], x);
      SortHolds(s[1..]);
      if Holds(s[0], x) {
        forall m | m in rest ensures Extent(s[0]) >= Extent(m) {
          var i :| 0 <= i < |rest| && rest[i] == m;
          assert Holders(s, x)[i + 1] == m && Holders(s, x)[0] == s[0];
        }
      }
      InsertAmongHolders(s[0], WidestFirst(s[1..]), x);
    }
  }

  lemma {:induction false} LastHolder(s: seq<Leaf>, x: int)
    ensures LastOver(s, x) >= 0 <==> Holders(s, x) != []
    ensures LastOver(s, x) >= 0 ==> s[LastOver(s, x)] == Holders(s, x)[|Holders(s, x)| - 1]
    decreases |s|
  {
    if s != [] {
      LastHolder(s[1..], x);
      LastOverRest(s, x);
    }
  }

  lemma {:induction false} LastOverRest(s: seq<Leaf>, x: int)
    requires s != []
    ensures var rest := LastOver(s[1..], x);
            LastOver(s, x) == if rest >= 0 then rest + 1 else if Holds(s[0], x) then 0 else -1
  {
    LastOverConcat([s[0]], s[1..], x);
    assert s == [s[0]] + s[1..];
    LastOverIs([s[0]], x, if Holds(s[0], x) then 0 else -1);
  }

  // ---- on a tree

  function ShrunkTree(t: Tree): Tree
    decreases t, 1
  {
    Node(t.name, t.named, t.field, t.start + 1, t.end, ShrunkTrees(t.kids))
  }

  function ShrunkTrees(ts: seq<Tree>): (r: seq<Tree>)
    ensures |r| == |ts| && forall i :: 0 <= i < |r| ==> r[i] == ShrunkTree(ts[i])
    decreases ts, 0
  {
    if ts == [] then [] else [ShrunkTree(ts[0])] + ShrunkTrees(ts[1..])
  }

  lemma {:induction false} ShrunkFlattens(t: Tree)
    ensures Flatten(ShrunkTree(t)) == ShrunkAll(Flatten(t))
    ensures Nested(t) ==> Nested(ShrunkTree(t))
    decreases t, 1
  {
    ShrunkFlattensAll(t.kids);
  }

  lemma {:induction false} ShrunkFlattensAll(ts: seq<Tree>)
    ensures FlattenAll(ShrunkTrees(ts)) == ShrunkAll(FlattenAll(ts))
    ensures NestedAll(ts) ==> NestedAll(ShrunkTrees(ts))
    decreases ts, 0
  {
    if ts != [] {
      ShrunkFlattens(ts[0]);
      ShrunkFlattensAll(ts[1..]);
      assert ShrunkTrees(ts)[1..] == ShrunkTrees(ts[1..]);
    }
  }

  lemma {:induction false} HoldersConcat(a: seq<Leaf>, b: seq<Leaf>, x: int)
    ensures Holders(a + b, x) == Holders(a, x) + Holders(b, x)
    decreases |a|
  {
    if a == [] {
      assert a + b == b;
    } else {
      HoldersConcat(a[1..], b, x);
      HoldersFirst(a[0], a[1..] + b, x);
      assert [a[0]] + (a[1..] + b) == a + b;
      assert (if Holds(a[0], x) then [a[0]] else []) + (Holders(a[1..], x) + Holders(b, x))
          == Holders(a, x) + Holders(b, x);
    }
  }

  lemma {:induction false} NoHolders(s: seq<Leaf>, x: int)
    requires forall i :: 0 <= i < |s| ==> !Holds(s[i], x)
    ensures Holders(s, x) == []
    decreases |s|
  {
    if s != [] {
      NoHolders(s[1..], x);
    }
  }

  /** Everything in a flattened tree is at most as wide as its root. */
  lemma {:induction false} RootIsWidest(t: Tree, i: nat)
    requires Nested(t) && i < |Flatten(t)|
    ensures t.start <= Flatten(t)[i].start && Flatten(t)[i].end <= t.end
    decreases t, 1
  {
    if i > 0 {
      RootsAreWidest(t.kids, i - 1, t.start, t.end);
    }
  }

  lemma {:induction false} RootsAreWidest(ts: seq<Tree>, i: nat, lo: int, hi: int)
    requires NestedAll(ts) && i < |FlattenAll(ts)| && forall k :: 0 <= k < |ts| ==> lo <= ts[k].start && ts[k].end <= hi
    ensures lo <= FlattenAll(ts)[i].start && FlattenAll(ts)[i].end <= hi
    decreases ts, 0
  {
    var n := |Flatten(ts[0])|;
    if i < n {
      RootIsWidest(ts[0], i);
    } else {
      RootsAreWidest(ts[1..], i - n, lo, hi);
    }
  }

  lemma {:induction false} NoneInside(ts: seq<Tree>, i: nat, x: int)
    requires NestedAll(ts) && i < |FlattenAll(ts)| && forall k :: 0 <= k < |ts| ==> !Over(ts[k], x)
    ensures !Holds(FlattenAll(ts)[i], x)
  {
    if Holds(FlattenAll(ts)[i], x) {
      FlattenAllStaysInside(ts, i, x);
    }
  }

  /** The nodes over a byte of a nested tree narrow as preorder goes down. */
  lemma {:induction false} HoldersNarrow(t: Tree, x: int)
    requires Nested(t)
    ensures Narrowing(Holders(Flatten(t), x))
    decreases t, 1
  {
    HoldersNarrowAll(t.kids, x);
    var kids := FlattenAll(t.kids);
    assert Flatten(t)[1..] == kids;
    forall m | m in Holders(kids, x) ensures Extent(Bare(t)) >= Extent(m) {
      var i :| 0 <= i < |kids| && kids[i] == m;
      assert Flatten(t)[i + 1] == m;
      RootIsWidest(t, i + 1);
    }
  }

  lemma {:induction false} HoldersNarrowAll(ts: seq<Tree>, x: int)
    requires NestedAll(ts)
    ensures Narrowing(Holders(FlattenAll(ts), x))
    decreases ts, 0
  {
    if ts != [] {
      var a, b := Flatten(ts[0]), FlattenAll(ts[1..]);
      HoldersNarrow(ts[0], x);
      HoldersNarrowAll(ts[1..], x);
      HoldersConcat(a, b, x);
      if Over(ts[0], x) {
        forall k | 0 <= k < |ts| - 1 ensures !Over(ts[1..][k], x) {
          assert ts[1..][k] == ts[k + 1];
        }
        forall i | 0 <= i < |b| ensures !Holds(b[i], x) {
          NoneInside(ts[1..], i, x);
        }
        NoHolders(b, x);
      } else {
        forall i | 0 <= i < |a| ensures !Holds(a[i], x) {
          if Holds(a[i], x) {
            FlattenStaysInside(ts[0], i, x);
          }
        }
        NoHolders(a, x);
      }
    }
  }

  /** The seat of an offset, painted widest first, is the deepest node strictly containing
      it: the same node preorder overwriting would leave there. */
  lemma {:induction false} SeatIsDeepest(t: Tree, x: int)
    requires Nested(t)
    ensures var nodes := ShrunkAll(Flatten(t));
            var sorted := WidestFirst(nodes);
            && (LastOver(sorted, x) >= 0 <==> t.start < x < t.end)
            && (LastOver(sorted, x) >= 0 ==>
                  LastOver(nodes, x) >= 0 && sorted[LastOver(sorted, x)] == nodes[LastOver(nodes, x)])
            && Deepest(nodes, Depths(t, 0), x)
  {
    var s := ShrunkTree(t);
    var nodes := ShrunkAll(Flatten(t));
    ShrunkFlattens(t);
    HoldersNarrow(s, x);
    SortKeepsHolders(nodes, x);
    LastHolder(nodes, x);
    LastHolder(WidestFirst(nodes), x);
    FlattenPaintsDeepest(s, 0, x);
    ShrunkDepths(t, 0);
  }

  lemma {:induction false} ShrunkDepths(t: Tree, d: nat)
    ensures Depths(ShrunkTree(t), d) == Depths(t, d)
    decreases t, 1
  {
    ShrunkDepthsAll(t.kids, d + 1);
  }

  lemma {:induction false} ShrunkDepthsAll(ts: seq<Tree>, d: nat)
    ensures DepthsAll(ShrunkTrees(ts), d) == DepthsAll(ts, d)
    decreases ts, 0
  {
    if ts != [] {
      ShrunkDepths(ts[0], d);
      ShrunkDepthsAll(ts[1..], d);
      assert ShrunkTrees(ts)[1..] == ShrunkTrees(ts[1..]);
    }
  }

  /** Which node each offset sits in, widest node painted first. */
  method Seats(nodes: seq<Leaf>, size: nat) returns (home: array<int>)
    ensures home.Length == size
    ensures forall x :: 0 <= x < size ==> home[x] == LastOver(WidestFirst(ShrunkAll(nodes)), x)
  {
    home := Painted(WidestFirst(ShrunkAll(nodes)), size);
  }
}
