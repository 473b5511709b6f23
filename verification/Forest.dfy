/** Trees rebuilt from a preorder listing of depths, by a stack. */
module Forest {
  import opened Wrappers
  import opened Trees

  datatype Face = Face(name: string, named: bool, field: Option<string>, start: int, end: int)

  datatype Item = Item(depth: int, face: Face)

  /** A tree that remembers the depth each node was listed at. */
  datatype Deep = Deep(depth: int, face: Face, kids: seq<Deep>)

  /** How many items from `k` on lie deeper than `d`, one after another. */
  function Under(items: seq<Item>, d: int, k: nat): (r: nat)
    requires k <= |items|
    ensures k <= r <= |items|
    ensures forall i :: k <= i < r ==> items[i].depth > d
    ensures r < |items| ==> items[r].depth <= d
    decreases |items| - k
  {
    if k < |items| && items[k].depth > d then Under(items, d, k + 1) else k
  }

  /** What a listing means: each item owns the deeper items that follow it. */
  function Built(items: seq<Item>): seq<Deep>
    decreases |items|
  {
    if items == [] then [] else
    var k := Under(items, items[0].depth, 1);
    [Deep(items[0].depth, items[0].face, Built(items[1..k]))] + Built(items[k..])
  }

  // ---- a listed tree is rebuilt

  function FaceOf(t: Tree): Face {
    Face(t.name, t.named, t.field, t.start, t.end)
  }

  function Listing(t: Tree, d: int): seq<Item>
    decreases t, 1
  {
    [Item(d, FaceOf(t))] + ListingAll(t.kids, d + 1)
  }

  function ListingAll(ts: seq<Tree>, d: int): seq<Item>
    decreases ts, 0
  {
    if ts == [] then [] else Listing(ts[0], d) + ListingAll(ts[1..], d)
  }

  /** The tree without its depths. */
  function Plain(t: Deep): Tree
    decreases t, 1
  {
    Node(t.face.name, t.face.named, t.face.field, t.face.start, t.face.end, PlainAll(t.kids))
  }

  function PlainAll(ts: seq<Deep>): seq<Tree>
    decreases ts, 0
  {
    if ts == [] then [] else [Plain(ts[0])] + PlainAll(ts[1..])
  }

  lemma {:induction false} ListingIsDeep(t: Tree, d: int)
    ensures forall i :: 0 <= i < |Listing(t, d)| ==> Listing(t, d)[i].depth >= d
    decreases t, 1
  {
    ListingAllIsDeep(t.kids, d + 1);
  }

  lemma {:induction false} ListingAllIsDeep(ts: seq<Tree>, d: int)
    ensures forall i :: 0 <= i < |ListingAll(ts, d)| ==> ListingAll(ts, d)[i].depth >= d
    decreases ts, 0
  {
    if ts != [] {
      ListingIsDeep(ts[0], d);
      ListingAllIsDeep(ts[1..], d);
    }
  }

  lemma {:induction false} UnderEnds(items: seq<Item>, d: int, k: nat, end: nat)
    requires k <= end <= |items| && (forall i :: k <= i < end ==> items[i].depth > d)
    requires end < |items| ==> items[end].depth <= d
    ensures Under(items, d, k) == end
    decreases end - k
  {
    if k < end {
      UnderEnds(items, d, k + 1, end);
    }
  }

  lemma {:induction false} ListingRebuilds(t: Tree, d: int, rest: seq<Item>)
    requires rest != [] ==> rest[0].depth <= d
    ensures PlainAll(Built(Listing(t, d) + rest)) == [t] + PlainAll(Built(rest))
    decreases t, 1
  {
    var all, kids := Listing(t, d) + rest, ListingAll(t.kids, d + 1);
    ListingAllIsDeep(t.kids, d + 1);
    ListingAllRebuilds(t.kids, d + 1, []);
    assert kids + [] == kids && t.kids + [] == t.kids;
    var k := |kids| + 1;
    forall i | 1 <= i < k ensures all[i].depth > d {
      assert all[i] == kids[i - 1];
    }
    UnderEnds(all, d, 1, k);
    assert all[1..k] == kids && all[k..] == rest;
    var root := Deep(d, FaceOf(t), Built(kids));
    PlainAllConcat([root], Built(rest));
    assert PlainAll([root]) == [Plain(root)] + PlainAll([]);
    assert Plain(root) == t;
  }

  lemma {:induction false} ListingAllRebuilds(ts: seq<Tree>, d: int, rest: seq<Item>)
    requires rest != [] ==> rest[0].depth <= d
    ensures PlainAll(Built(ListingAll(ts, d) + rest)) == ts + PlainAll(Built(rest))
    decreases ts, 0
  {
    if ts == [] {
      assert [] + rest == rest;
    } else {
      var later := ListingAll(ts[1..], d) + rest;
      ListingAllRebuilds(ts[1..], d, rest);
      LaterStartsAt(ts[1..], d, rest);
      ListingRebuilds(ts[0], d, later);
      FirstThenLater(ts, d, rest, later, PlainAll(Built(rest)));
    }
  }

  lemma {:induction false} FirstThenLater(ts: seq<Tree>, d: int, rest: seq<Item>, later: seq<Item>, after: seq<Tree>)
    requires ts != [] && later == ListingAll(ts[1..], d) + rest
    ensures ListingAll(ts, d) + rest == Listing(ts[0], d) + later
    ensures [ts[0]] + (ts[1..] + after) == ts + after
  {
    var first, mid := Listing(ts[0], d), ListingAll(ts[1..], d);
    assert first + (mid + rest) == first + mid + rest;
    assert ts == [ts[0]] + ts[1..];
  }

  lemma {:induction false} LaterStartsAt(ts: seq<Tree>, d: int, rest: seq<Item>)
    requires rest != [] ==> rest[0].depth <= d
    ensures ListingAll(ts, d) + rest != [] ==> (ListingAll(ts, d) + rest)[0].depth <= d
  {
    if ts != [] {
      assert Listing(ts[0], d)[0] == Item(d, FaceOf(ts[0]));
    }
  }

  lemma {:induction false} PlainAllConcat(a: seq<Deep>, b: seq<Deep>)
    ensures PlainAll(a + b) == PlainAll(a) + PlainAll(b)
    decreases |a|
  {
    if a == [] {
      assert a + b == b;
    } else {
      PlainAllConcat(a[1..], b);
      assert (a + b)[1..] == a[1..] + b;
    }
  }

  /** Any tree's preorder listing is rebuilt into that tree. */
  lemma {:induction false} ListedTreeIsRebuilt(t: Tree, d: int)
    ensures PlainAll(Built(Listing(t, d))) == [t]
  {
    ListingRebuilds(t, d, []);
    assert Listing(t, d) + [] == Listing(t, d);
    assert [t] + [] == [t];
  }

  // ---- one more item

  /** An item hung on the right edge, under the nearest shallower node. */
  function Hung(f: seq<Deep>, x: Item): seq<Deep>
    decreases f
  {
    if f == [] || f[|f| - 1].depth >= x.depth then f + [Deep(x.depth, x.face, [])]
    else
      var last := f[|f| - 1];
      f[..|f| - 1] + [Deep(last.depth, last.face, Hung(last.kids, x))]
  }

  lemma {:induction false} BuiltGrows(items: seq<Item>, x: Item)
    ensures Built(items + [x]) == Hung(Built(items), x)
    decreases |items|
  {
    if items == [] {
      assert [] + [x] == [x];
      assert [x][1..1] == [] && [x][1..] == [];
      assert Built([x]) == [Deep(x.depth, x.face, [])] + [];
    } else {
      var d := items[0].depth;
      var k := Under(items, d, 1);
      var k' := Under(items + [x], d, 1);
      UnderGrows(items, x, d, 1);
      if k < |items| || x.depth <= d {
        BuiltGrows(items[k..], x);
        GrowsPastFirst(items, x, k);
      } else {
        BuiltGrows(items[1..], x);
        GrowsInsideFirst(items, x);
      }
    }
  }

  lemma {:induction false} BuiltUnfolds(items: seq<Item>, k: nat, kids: seq<Item>, rest: seq<Item>)
    requires items != [] && k == Under(items, items[0].depth, 1) && kids == items[1..k] && rest == items[k..]
    ensures Built(items) == [Deep(items[0].depth, items[0].face, Built(kids))] + Built(rest)
  {
  }

  lemma {:induction false} AppendUnfolds(items: seq<Item>, x: Item, k: nat)
    requires items != [] && k == Under(items, items[0].depth, 1) && (k < |items| || x.depth <= items[0].depth)
    ensures Built(items + [x]) == [Deep(items[0].depth, items[0].face, Built(items[1..k]))] + Built(items[k..] + [x])
  {
    UnderGrows(items, x, items[0].depth, 1);
    assert (items + [x])[1..k] == items[1..k] && (items + [x])[k..] == items[k..] + [x];
    BuiltUnfolds(items + [x], k, items[1..k], items[k..] + [x]);
  }

  lemma {:induction false} GrowsPastFirst(items: seq<Item>, x: Item, k: nat)
    requires items != [] && k == Under(items, items[0].depth, 1) && (k < |items| || x.depth <= items[0].depth)
    requires Built(items[k..] + [x]) == Hung(Built(items[k..]), x)
    ensures Built(items + [x]) == Hung(Built(items), x)
  {
    var kids, rest := items[1..k], items[k..];
    BuiltUnfolds(items, k, kids, rest);
    AppendUnfolds(items, x, k);
    HungPastFirst(Deep(items[0].depth, items[0].face, Built(kids)), Built(rest), x);
  }

  lemma {:induction false} GrowsInsideFirst(items: seq<Item>, x: Item)
    requires items != [] && Under(items, items[0].depth, 1) == |items| && x.depth > items[0].depth
    requires Built(items[1..] + [x]) == Hung(Built(items[1..]), x)
    ensures Built(items + [x]) == Hung(Built(items), x)
  {
    UnderGrows(items, x, items[0].depth, 1);
    BuiltUnfolds(items, |items|, items[1..], []);
    assert (items + [x])[1..|items| + 1] == items[1..] + [x];
    BuiltUnfolds(items + [x], |items| + 1, items[1..] + [x], []);
  }

  lemma {:induction false} UnderGrows(items: seq<Item>, x: Item, d: int, k: nat)
    requires k <= |items|
    ensures Under(items + [x], d, k)
         == if Under(items, d, k) == |items| && x.depth > d then |items| + 1 else Under(items, d, k)
    decreases |items| - k
  {
    if k < |items| && items[k].depth > d {
      UnderGrows(items, x, d, k + 1);
    }
  }

  lemma {:induction false} HungPastFirst(first: Deep, f: seq<Deep>, x: Item)
    requires f == [] ==> first.depth >= x.depth
    ensures Hung([first] + f, x) == [first] + Hung(f, x)
  {
    if f == [] {
      assert [first] + [] == [first];
    } else {
      assert ([first] + f)[|f|] == f[|f| - 1];
      assert ([first] + f)[..|f|] == [first] + f[..|f| - 1];
    }
  }
}
