/** The stack that rebuilds a tree, over nodes whose children lists grow in place. Nodes are
    named by the order they were made in, so that one node can sit on the stack and in its
    parent's list at once. */
module Grove {
  import opened Wrappers
  import opened Trees
  import opened Forest

  /** Every node made so far: its item, and the nodes hung under it. */
  datatype Nodes = Nodes(items: seq<Item>, kids: seq<seq<nat>>)

  /** Children are made after their parent. */
  predicate Ordered(g: Nodes) {
    |g.items| == |g.kids| &&
    forall i, k :: 0 <= i < |g.kids| && 0 <= k < |g.kids[i]| ==> i < g.kids[i][k] < |g.kids|
  }

  predicate Made(g: Nodes, ids: seq<nat>, from: int) {
    forall k :: 0 <= k < |ids| ==> from < ids[k] < |g.kids|
  }

  function TreeAt(g: Nodes, i: nat): Deep
    requires Ordered(g) && i < |g.kids|
    decreases |g.kids| - i, 0
  {
    Deep(g.items[i].depth, g.items[i].face, TreesAt(g, g.kids[i], i))
  }

  function TreesAt(g: Nodes, ids: seq<nat>, from: int): seq<Deep>
    requires Ordered(g) && -1 <= from < |g.kids| && Made(g, ids, from)
    decreases |g.kids| - from - 1, |ids| + 1
  {
    if ids == [] then [] else TreesAt(g, ids[..|ids| - 1], from) + [TreeAt(g, ids[|ids| - 1])]
  }

  /** Nothing made in `[lo, hi)` has a child at or past `hi`. */
  predicate Closed(g: Nodes, lo: nat, hi: nat) {
    lo <= hi <= |g.kids| &&
    forall i, k :: lo <= i < hi && 0 <= k < |g.kids[i]| ==> g.kids[i][k] < hi
  }

  /** The siblings at one level of the right edge. */
  function Level(g: Nodes, roots: seq<nat>, stack: seq<(int, nat)>, h: nat): seq<nat>
    requires h <= |stack| && (h > 0 ==> stack[h - 1].1 < |g.kids|)
  {
    if h == 0 then roots else g.kids[stack[h - 1].1]
  }

  function Above(stack: seq<(int, nat)>, h: nat): int
    requires h <= |stack|
  {
    if h == 0 then -1 else stack[h - 1].1
  }

  /** Shallow to deep, and older to newer. */
  predicate Rising(g: Nodes, stack: seq<(int, nat)>) {
    && |g.items| == |g.kids|
    && (forall s :: 0 <= s < |stack| ==> stack[s].1 < |g.kids| && stack[s].0 == g.items[stack[s].1].depth)
    && (forall s, t :: 0 <= s < t < |stack| ==> stack[s].0 < stack[t].0 && stack[s].1 < stack[t].1)
  }

  /** The last of a list of siblings, with everything under the earlier ones older than it. */
  predicate EndsAt(g: Nodes, ids: seq<nat>, last: nat) {
    && ids != [] && ids[|ids| - 1] == last
    && forall m :: 0 <= m < |ids| - 1 ==> ids[m] < last && Closed(g, ids[m], last)
  }

  /** The stack is the right edge of the forest. */
  ghost predicate Edge(g: Nodes, roots: seq<nat>, stack: seq<(int, nat)>) {
    && Ordered(g) && Made(g, roots, -1) && Rising(g, stack)
    && (forall h {:trigger Level(g, roots, stack, h)} ::
          0 <= h < |stack| ==> EndsAt(g, Level(g, roots, stack, h), stack[h].1))
    && Level(g, roots, stack, |stack|) == []
  }

  /** One node more, hung under `top`, or a root of its own. */
  function Hanging(g: Nodes, top: int, x: Item): (r: Nodes)
    requires -1 <= top < |g.kids| == |g.items|
    ensures |r.kids| == |r.items| == |g.kids| + 1
    ensures r.items == g.items + [x] && r.kids[|g.kids|] == []
    ensures forall i :: 0 <= i < |g.kids| && i != top ==> r.kids[i] == g.kids[i]
    ensures top >= 0 ==> r.kids[top] == g.kids[top] + [|g.kids|]
  {
    Nodes(g.items + [x], (if top < 0 then g.kids else g.kids[top := g.kids[top] + [|g.kids|]]) + [[]])
  }

  function Rooted(g: Nodes, roots: seq<nat>, top: int): seq<nat> {
    if top < 0 then roots + [|g.kids|] else roots
  }

  /** How far the stack is cut back: to the entries shallower than `d`. */
  function Cut(stack: seq<(int, nat)>, d: int): (h: nat)
    ensures h <= |stack|
    ensures h > 0 ==> stack[h - 1].0 < d
    ensures forall s :: h <= s < |stack| ==> stack[s].0 >= d
  {
    if stack != [] && stack[|stack| - 1].0 >= d then Cut(stack[..|stack| - 1], d) else |stack|
  }

  // ---- what a new node leaves alone

  lemma {:induction false} HangingIsOrdered(g: Nodes, top: int, x: Item)
    requires Ordered(g) && -1 <= top < |g.kids|
    ensures Ordered(Hanging(g, top, x))
  {
    var r, n := Hanging(g, top, x), |g.kids|;
    forall i, k | 0 <= i < |r.kids| && 0 <= k < |r.kids[i]| ensures i < r.kids[i][k] < |r.kids| {
      if i < n && i != top {
        assert r.kids[i][k] == g.kids[i][k];
      } else if i == top && k < |g.kids[i]| {
        assert r.kids[i][k] == g.kids[i][k];
      }
    }
  }

  /** Trees of nodes newer than the one hung under. */
  lemma {:induction false} NewerKept(g: Nodes, top: int, x: Item, ids: seq<nat>, from: int)
    requires Ordered(g) && -1 <= top <= from < |g.kids| && Made(g, ids, from)
    ensures Ordered(Hanging(g, top, x))
    ensures TreesAt(Hanging(g, top, x), ids, from) == TreesAt(g, ids, from)
    decreases |g.kids| - from - 1, |ids| + 1
  {
    HangingIsOrdered(g, top, x);
    if ids != [] {
      var last := ids[|ids| - 1];
      NewerKept(g, top, x, ids[..|ids| - 1], from);
      NewerKept(g, top, x, g.kids[last], last);
    }
  }

  /** Trees finished before the one hung under was made. */
  lemma {:induction false} OlderKept(g: Nodes, top: nat, x: Item, ids: seq<nat>, from: int, end: nat)
    requires Ordered(g) && end <= top < |g.kids| && -1 <= from < |g.kids| && Made(g, ids, from)
    requires forall m :: 0 <= m < |ids| ==> ids[m] < end && Closed(g, ids[m], end)
    ensures Ordered(Hanging(g, top, x))
    ensures TreesAt(Hanging(g, top, x), ids, from) == TreesAt(g, ids, from)
    decreases |g.kids| - from - 1, |ids| + 1
  {
    HangingIsOrdered(g, top, x);
    if ids != [] {
      var last := ids[|ids| - 1];
      OlderKept(g, top, x, ids[..|ids| - 1], from, end);
      forall m | 0 <= m < |g.kids[last]| ensures g.kids[last][m] < end && Closed(g, g.kids[last][m], end) {
        assert last < g.kids[last][m];
      }
      OlderKept(g, top, x, g.kids[last], last, end);
    }
  }

  // ---- one item more

  lemma {:induction false} TreesAtLength(g: Nodes, ids: seq<nat>, from: int)
    requires Ordered(g) && -1 <= from < |g.kids| && Made(g, ids, from)
    ensures |TreesAt(g, ids, from)| == |ids|
    ensures forall k :: 0 <= k < |ids| ==> TreesAt(g, ids, from)[k] == TreeAt(g, ids[k])
    decreases |ids|
  {
    if ids != [] {
      TreesAtLength(g, ids[..|ids| - 1], from);
    }
  }

  /** At the cut, the new node stands after the siblings already there. */
  lemma {:induction false} CutHangs(g: Nodes, ids: seq<nat>, from: int, x: Item)
    requires Ordered(g) && -1 <= from < |g.kids| && Made(g, ids, from)
    requires ids != [] ==> g.items[ids[|ids| - 1]].depth >= x.depth
    ensures var g' := Hanging(g, from, x);
            && Ordered(g') && Made(g', ids + [|g.kids|], from)
            && TreesAt(g', ids + [|g.kids|], from) == Hung(TreesAt(g, ids, from), x)
  {
    var n := |g.kids|;
    var g' := Hanging(g, from, x);
    NewerKept(g, from, x, ids, from);
    TreesAtLength(g, ids, from);
    assert (ids + [n])[..|ids|] == ids;
    assert TreeAt(g', n) == Deep(x.depth, x.face, []);
  }

  /** A level above the cut: only the last sibling's children change. */
  lemma {:induction false} LevelHangs(g: Nodes, top: nat, x: Item, ids: seq<nat>, from: int, last: nat)
    requires Ordered(g) && -1 <= from < |g.kids| && Made(g, ids, from) && EndsAt(g, ids, last)
    requires last <= top < |g.kids| && g.items[last].depth < x.depth && Ordered(Hanging(g, top, x))
    requires TreesAt(Hanging(g, top, x), Hanging(g, top, x).kids[last], last) == Hung(TreesAt(g, g.kids[last], last), x)
    requires Made(Hanging(g, top, x), ids, from)
    ensures TreesAt(Hanging(g, top, x), ids, from) == Hung(TreesAt(g, ids, from), x)
  {
    var g' := Hanging(g, top, x);
    var early := ids[..|ids| - 1];
    OlderKept(g, top, x, early, from, last);
    var f := TreesAt(g, ids, from);
    assert f == TreesAt(g, early, from) + [TreeAt(g, last)];
    assert TreeAt(g', last) == Deep(g.items[last].depth, g.items[last].face, Hung(TreeAt(g, last).kids, x));
  }

  /** One level of the right edge, once an item is hung where the stack is cut. */
  ghost predicate HangsAt(g: Nodes, roots: seq<nat>, stack: seq<(int, nat)>, x: Item, j: nat)
    requires Edge(g, roots, stack) && j <= Cut(stack, x.depth) && Made(g, Level(g, roots, stack, j), Above(stack, j))
  {
    var top := Above(stack, Cut(stack, x.depth));
    var g' := Hanging(g, top, x);
    var ids' := Level(g', Rooted(g, roots, top), stack, j);
    && Ordered(g') && Made(g', ids', Above(stack, j))
    && TreesAt(g', ids', Above(stack, j)) == Hung(TreesAt(g, Level(g, roots, stack, j), Above(stack, j)), x)
  }

  lemma {:induction false} HangsAtCut(g: Nodes, roots: seq<nat>, stack: seq<(int, nat)>, x: Item)
    requires Edge(g, roots, stack)
    ensures HangsAt(g, roots, stack, x, Cut(stack, x.depth))
  {
    var h := Cut(stack, x.depth);
    var ids := Level(g, roots, stack, h);
    if h < |stack| {
      assert EndsAt(g, ids, stack[h].1);
    }
    CutHangs(g, ids, Above(stack, h), x);
  }

  lemma {:induction false} HangsAbove(g: Nodes, roots: seq<nat>, stack: seq<(int, nat)>, x: Item, j: nat)
    requires Edge(g, roots, stack) && j < Cut(stack, x.depth) && HangsAt(g, roots, stack, x, j + 1)
    ensures HangsAt(g, roots, stack, x, j)
  {
    var top := Above(stack, Cut(stack, x.depth));
    var ids := Level(g, roots, stack, j);
    assert EndsAt(g, ids, stack[j].1);
    assert stack[j].0 < x.depth && stack[j].1 <= top;
    assert Level(Hanging(g, top, x), Rooted(g, roots, top), stack, j) == ids;
    LevelHangs(g, top, x, ids, Above(stack, j), stack[j].1);
  }

  /** Level by level, from the cut up to the roots, the forest becomes itself with the item hung. */
  lemma {:induction false} EdgeHangs(g: Nodes, roots: seq<nat>, stack: seq<(int, nat)>, x: Item, j: nat)
    requires Edge(g, roots, stack) && j <= Cut(stack, x.depth)
    ensures HangsAt(g, roots, stack, x, j)
    decreases Cut(stack, x.depth) - j
  {
    if j == Cut(stack, x.depth) {
      HangsAtCut(g, roots, stack, x);
    } else {
      EdgeHangs(g, roots, stack, x, j + 1);
      HangsAbove(g, roots, stack, x, j);
    }
  }

  lemma {:induction false} EndKept(g: Nodes, top: int, x: Item, ids: seq<nat>, last: nat)
    requires Ordered(g) && -1 <= top < |g.kids| && EndsAt(g, ids, last) && last <= top
    ensures EndsAt(Hanging(g, top, x), ids, last)
  {
    var r := Hanging(g, top, x);
    forall m | 0 <= m < |ids| - 1 ensures Closed(r, ids[m], last) {
      forall i, k | ids[m] <= i < last && 0 <= k < |r.kids[i]| ensures r.kids[i][k] < last {
        assert Closed(g, ids[m], last) && r.kids[i] == g.kids[i];
      }
    }
  }

  lemma {:induction false} EndGrows(g: Nodes, top: int, x: Item, ids: seq<nat>)
    requires Ordered(g) && -1 <= top < |g.kids| && Made(g, ids, top)
    ensures EndsAt(Hanging(g, top, x), ids + [|g.kids|], |g.kids|)
  {
    var r, n := Hanging(g, top, x), |g.kids|;
    forall m | 0 <= m < |ids| ensures Closed(r, (ids + [n])[m], n) {
      forall i, k | ids[m] <= i < n && 0 <= k < |r.kids[i]| ensures r.kids[i][k] < n {
        assert r.kids[i] == g.kids[i];
      }
    }
  }

  function Pushed(g: Nodes, stack: seq<(int, nat)>, x: Item): seq<(int, nat)> {
    stack[..Cut(stack, x.depth)] + [(x.depth, |g.kids|)]
  }

  lemma {:induction false} RisingKept(g: Nodes, roots: seq<nat>, stack: seq<(int, nat)>, x: Item)
    requires Edge(g, roots, stack)
    ensures Rising(Hanging(g, Above(stack, Cut(stack, x.depth)), x), Pushed(g, stack, x))
  {
    var h := Cut(stack, x.depth);
    forall s | 0 <= s < h ensures stack[s].0 < x.depth {
      if s < h - 1 {
        assert stack[s].0 < stack[h - 1].0;
      }
    }
  }

  lemma {:induction false} LevelKept(g: Nodes, roots: seq<nat>, stack: seq<(int, nat)>, x: Item, l: nat)
    requires Edge(g, roots, stack) && l <= Cut(stack, x.depth)
    ensures var top := Above(stack, Cut(stack, x.depth));
            var pushed := Pushed(g, stack, x);
            && (l > 0 ==> pushed[l - 1] == stack[l - 1])
            && EndsAt(Hanging(g, top, x), Level(Hanging(g, top, x), Rooted(g, roots, top), pushed, l), pushed[l].1)
  {
    var h := Cut(stack, x.depth);
    var top := Above(stack, h);
    var ids := Level(g, roots, stack, l);
    if l < h {
      EndKept(g, top, x, ids, stack[l].1);
    } else {
      EndGrows(g, top, x, ids);
    }
  }

  /** The edge is kept: the stack cut back, with the new node on top. */
  lemma {:induction false} EdgeKept(g: Nodes, roots: seq<nat>, stack: seq<(int, nat)>, x: Item)
    requires Edge(g, roots, stack)
    ensures var top := Above(stack, Cut(stack, x.depth));
            Edge(Hanging(g, top, x), Rooted(g, roots, top), Pushed(g, stack, x))
  {
    var top := Above(stack, Cut(stack, x.depth));
    var g', roots', stack' := Hanging(g, top, x), Rooted(g, roots, top), Pushed(g, stack, x);
    HangingIsOrdered(g, top, x);
    RisingKept(g, roots, stack, x);
    forall l {:trigger Level(g', roots', stack', l)} | 0 <= l < |stack'|
      ensures EndsAt(g', Level(g', roots', stack', l), stack'[l].1)
    {
      LevelKept(g, roots, stack, x, l);
    }
    assert Level(g', roots', stack', |stack'|) == [];
  }

  // ---- the reader's state

  class Reader {
    var nodes: Nodes
    var roots: seq<nat>
    var stack: seq<(int, nat)>

    constructor ()
      ensures Valid() && Forest() == [] && stack == []
    {
      nodes, roots, stack := Nodes([], []), [], [];
    }

    ghost predicate Valid()
      reads this
    {
      Edge(nodes, roots, stack)
    }

    /** The trees rebuilt so far. */
    function Forest(): seq<Deep>
      requires Valid()
      reads this
    {
      TreesAt(nodes, roots, -1)
    }

    /** Pop everything as deep as the item, hang it under what is left, and push it. */
    method Read(x: Item)
      requires Valid()
      modifies this
      ensures Valid()
      ensures Forest() == Hung(old(Forest()), x)
      ensures stack == Pushed(old(nodes), old(stack), x)
    {
      ghost var was := stack;
      ghost var h := Cut(stack, x.depth);
      EdgeKept(nodes, roots, stack, x);
      EdgeHangs(nodes, roots, stack, x, 0);
      while stack != [] && stack[|stack| - 1].0 >= x.depth
        invariant h <= |stack| <= |was| && stack == was[..|stack|]
        invariant nodes == old(nodes) && roots == old(roots)
        decreases |stack|
      {
        stack := stack[..|stack| - 1];
      }
      assert |stack| == h && stack == was[..h];
      var n := |nodes.kids|;
      if stack == [] {
        roots := roots + [n];
        nodes := Nodes(nodes.items + [x], nodes.kids + [[]]);
      } else {
        var top := stack[|stack| - 1].1;
        nodes := Nodes(nodes.items + [x], nodes.kids[top := nodes.kids[top] + [n]] + [[]]);
      }
      stack := stack + [(x.depth, n)];
    }
  }
}
