/** A rendered tree read back: rows to depths, depths to a tree. */
module CstReader {
  import opened Wrappers
  import opened Trees
  import opened Lines
  import opened Rows
  import opened Forest
  import opened Grove

  const MISSING := "MISSING "

  /** The node a row stands for. */
  function FaceIn(b: Body, blob: string, r: Row): Face
    requires b.Names?
  {
    Face(if b.missing then MISSING + b.name else b.name, b.named || b.missing, b.field,
         Off(blob, r.srow, r.scol), Off(blob, r.erow, r.ecol))
  }

  /** The items the node rows make, continuation rows left out. */
  function ItemsFrom(rows: seq<Row>, indents: seq<int>, blob: string): seq<Item>
    requires |rows| == |indents|
  {
    if rows == [] then [] else
    var n := |rows| - 1;
    ItemsFrom(rows[..n], indents[..n], blob) + ItemsIn(rows[n], indents[n], blob)
  }

  function ItemsIn(row: Row, indent: int, blob: string): seq<Item> {
    if row.body.Text? then [] else [Item(indent / 2, FaceIn(row.body, blob, row))]
  }

  predicate HurtBy(row: Row) {
    row.body.bullet || (row.body.Names? && row.body.missing)
  }

  predicate Hurt(rows: seq<Row>) {
    exists i :: 0 <= i < |rows| && HurtBy(rows[i])
  }

  /** One more item read. */
  method ReadOne(reader: Reader, x: Item, ghost items: seq<Item>)
    requires reader.Valid() && reader.Forest() == Built(items)
    modifies reader
    ensures reader.Valid() && reader.Forest() == Built(items + [x])
    ensures reader.stack == Pushed(old(reader.nodes), old(reader.stack), x)
  {
    reader.Read(x);
    BuiltGrows(items, x);
  }

  lemma {:induction false} ItemsGrow(rows: seq<Row>, indents: seq<int>, blob: string, i: nat)
    requires |rows| == |indents| && i < |rows|
    ensures ItemsFrom(rows[..i + 1], indents[..i + 1], blob)
         == ItemsFrom(rows[..i], indents[..i], blob)
            + ItemsIn(rows[i], indents[i], blob)
  {
    assert rows[..i + 1][..i] == rows[..i] && indents[..i + 1][..i] == indents[..i];
  }

  /** One row: a continuation row makes no node. */
  method ReadRow(reader: Reader, row: Row, indent: int, blob: string, ghost items: seq<Item>) returns (hurt: bool)
    requires reader.Valid() && reader.Forest() == Built(items)
    modifies reader
    ensures reader.Valid() && reader.Forest() == Built(items + ItemsIn(row, indent, blob))
    ensures hurt == HurtBy(row)
  {
    hurt := row.body.bullet;
    if row.body.Names? {
      hurt := hurt || row.body.missing;
      ReadOne(reader, Item(indent / 2, FaceIn(row.body, blob, row)), items);
    } else {
      assert items + [] == items;
    }
  }

  /** Every row in order. */
  method ReadRows(reader: Reader, rows: seq<Row>, indents: seq<int>, blob: string) returns (hurt: bool)
    requires reader.Valid() && reader.Forest() == [] && |rows| == |indents|
    modifies reader
    ensures reader.Valid() && reader.Forest() == Built(ItemsFrom(rows, indents, blob))
    ensures hurt == Hurt(rows)
  {
    hurt := false;
    ghost var items := [];
    var i := 0;
    while i < |rows|
      invariant 0 <= i <= |rows| && reader.Valid()
      invariant hurt == Hurt(rows[..i])
      invariant items == ItemsFrom(rows[..i], indents[..i], blob)
      invariant reader.Forest() == Built(items)
    {
      HurtGrows(rows, i);
      ItemsGrow(rows, indents, blob, i);
      var h := ReadRow(reader, rows[i], indents[i], blob, items);
      items := ItemsFrom(rows[..i + 1], indents[..i + 1], blob);
      hurt := hurt || h;
      i := i + 1;
    }
    assert rows[..|rows|] == rows && indents[..|rows|] == indents;
  }

  /** `--cst` read into a tree; anything but one root raises. */
  method CstTree(rows: seq<Row>, blob: string) returns (r: Result<Tree>, hurt: bool)
    ensures hurt == Hurt(rows)
    ensures var f := Built(ItemsFrom(rows, Indents(rows), blob));
            r == if |f| == 1 then Success(Plain(f[0])) else Fault
  {
    var reader := new Reader();
    hurt := ReadRows(reader, rows, Indents(rows), blob);
    var f := reader.Forest();
    r := if |f| == 1 then Success(Plain(f[0])) else Fault;
  }

  lemma {:induction false} HurtGrows(rows: seq<Row>, i: nat)
    requires i < |rows|
    ensures Hurt(rows[..i + 1]) <==> Hurt(rows[..i]) || HurtBy(rows[i])
  {
    var more := rows[..i + 1];
    if Hurt(rows[..i]) {
      var k :| 0 <= k < i && HurtBy(rows[..i][k]);
      assert more[k] == rows[..i][k];
    }
    if Hurt(more) {
      var k :| 0 <= k < |more| && HurtBy(more[k]);
      if k < i {
        assert rows[..i][k] == more[k];
      }
    }
    assert more[i] == rows[i];
  }

  /** Every entry of the stack stands at its own depth. */
  predicate Positioned(stack: seq<(int, nat)>) {
    forall s :: 0 <= s < |stack| ==> stack[s].0 == s
  }

  /** One row, its stack cut to the row's depth. */
  method ReadAtDepth(reader: Reader, depth: nat, face: Face, ghost items: seq<Item>) returns (deep: nat)
    requires reader.Valid() && reader.Forest() == Built(items) && Positioned(reader.stack)
    modifies reader
    ensures deep == if depth < |old(reader.stack)| then depth else |old(reader.stack)|
    ensures reader.Valid() && reader.Forest() == Built(items + [Item(deep, face)])
    ensures Positioned(reader.stack) && |reader.stack| == deep + 1
  {
    deep := if depth < |reader.stack| then depth else |reader.stack|;
    PushedAtPosition(reader.nodes, reader.stack, Item(deep, face));
    ReadOne(reader, Item(deep, face), items);
  }

  /** `joints parse --ranges --all`: the stack is cut to the depth, not popped by it. */
  method OursTree(depths: seq<nat>, faces: seq<Face>) returns (roots: seq<Tree>)
    requires |depths| == |faces|
    ensures roots == PlainAll(Built(ClampedFrom(depths, faces)))
  {
    var reader := new Reader();
    ghost var items := [];
    var i := 0;
    while i < |depths|
      invariant 0 <= i <= |depths| && fresh(reader) && reader.Valid()
      invariant |reader.stack| == Reach(depths[..i]) && Positioned(reader.stack)
      invariant items == ClampedFrom(depths[..i], faces[..i])
      invariant reader.Forest() == Built(items)
    {
      assert depths[..i + 1][..i] == depths[..i] && faces[..i + 1][..i] == faces[..i];
      var deep := ReadAtDepth(reader, depths[i], faces[i], items);
      items := items + [Item(deep, faces[i])];
      i := i + 1;
    }
    assert depths[..|depths|] == depths && faces[..|faces|] == faces;
    roots := PlainAll(reader.Forest());
  }

  /** How long the stack is after a listing: a row can only go one deeper than the last. */
  function Reach(depths: seq<nat>): nat {
    if depths == [] then 0 else
    var n := |depths| - 1;
    (if depths[n] < Reach(depths[..n]) then depths[n] else Reach(depths[..n])) + 1
  }

  /** The items a listing makes, each depth clamped to one past the row before. */
  function ClampedFrom(depths: seq<nat>, faces: seq<Face>): seq<Item>
    requires |depths| == |faces|
  {
    if depths == [] then [] else
    var n := |depths| - 1;
    ClampedFrom(depths[..n], faces[..n])
    + [Item(if depths[n] < Reach(depths[..n]) then depths[n] else Reach(depths[..n]), faces[n])]
  }

  /** Each row stands at its own depth, or one past the row before where that is less. */
  lemma {:induction false} ClampedToOneDeeper(depths: seq<nat>, faces: seq<Face>)
    requires |depths| == |faces|
    ensures var items := ClampedFrom(depths, faces);
            && |items| == |depths|
            && (forall i :: 0 <= i < |items| ==> items[i].face == faces[i])
            && (items != [] ==> items[0].depth == 0)
            && (forall i :: 0 < i < |items| ==>
                  items[i].depth == if depths[i] <= items[i - 1].depth then depths[i] else items[i - 1].depth + 1)
    ensures Reach(depths) == if depths == [] then 0 else ClampedFrom(depths, faces)[|depths| - 1].depth + 1
    decreases |depths|
  {
    if depths != [] {
      var n := |depths| - 1;
      ClampedToOneDeeper(depths[..n], faces[..n]);
    }
  }

  lemma {:induction false} PushedAtPosition(g: Nodes, stack: seq<(int, nat)>, x: Item)
    requires Positioned(stack) && 0 <= x.depth <= |stack|
    ensures Positioned(Pushed(g, stack, x)) && |Pushed(g, stack, x)| == x.depth + 1
  {
    CutAtPosition(stack, x.depth);
  }

  lemma {:induction false} CutAtPosition(stack: seq<(int, nat)>, d: nat)
    requires d <= |stack| && Positioned(stack)
    ensures Cut(stack, d) == d
    decreases |stack|
  {
    if d < |stack| {
      CutAtPosition(stack[..|stack| - 1], d);
    }
  }

  // ---- a printed tree is read back

  /** One row to print: a node of the tree, or a piece of the text of the node above. */
  datatype Line =
    | NodeLine(item: Item, lean: nat, bullet: bool, spelled: bool)
    | TextLine(place: Place, bullet: bool)

  /** The node's own body; a `MISSING` node is printed with its name shortened, and
      whether it was named is not printed. */
  function BodyOf(f: Face, bullet: bool, spelled: bool): Body {
    if f.named && MISSING <= f.name then Names(bullet, true, f.field, f.name[|MISSING|..], spelled)
    else Names(bullet, false, f.field, f.name, f.named)
  }

  /** Where a line is printed: a node's range, two spaces a level, and the odd space of a
      clean node inside an error. */
  function Placed(l: Line, blob: string): Place
    requires l.NodeLine? ==> l.item.depth >= 0 && 0 <= l.item.face.start <= |blob| && 0 <= l.item.face.end <= |blob|
  {
    match l
    case TextLine(p, bullet) => p.(body := Text(bullet))
    case NodeLine(x, lean, bullet, spelled) =>
      Place(RowOf(blob, x.face.start), ColOf(blob, x.face.start), RowOf(blob, x.face.end), ColOf(blob, x.face.end),
            2 * x.depth + lean, BodyOf(x.face, bullet, spelled))
  }

  /** Lines that can be printed: positions inside the text, at most one odd space. */
  ghost predicate Printable(lines: seq<Line>, blob: string) {
    forall i :: 0 <= i < |lines| && lines[i].NodeLine? ==>
      && lines[i].item.depth >= 0 && lines[i].lean <= 1
      && 0 <= lines[i].item.face.start <= |blob| && 0 <= lines[i].item.face.end <= |blob|
  }

  function PlacedAll(lines: seq<Line>, blob: string): (r: seq<Place>)
    requires Printable(lines, blob)
    ensures |r| == |lines| && forall i :: 0 <= i < |r| ==> r[i] == Placed(lines[i], blob)
  {
    seq(|lines|, i requires 0 <= i < |lines| => Placed(lines[i], blob))
  }

  /** The node lines, in order. */
  function NodesOf(lines: seq<Line>): seq<Item> {
    if lines == [] then [] else
    var n := |lines| - 1;
    NodesOf(lines[..n]) + (if lines[n].NodeLine? then [lines[n].item] else [])
  }

  lemma {:induction false} FaceIsRead(l: Line, blob: string, width: int)
    requires l.NodeLine? && l.item.depth >= 0 && l.lean <= 1
    requires 0 <= l.item.face.start <= |blob| && 0 <= l.item.face.end <= |blob|
    ensures var r := Printed(Placed(l, blob), width);
            r.body.Names? && FaceIn(r.body, blob, r) == l.item.face
  {
    OffInvertsPosition(blob, l.item.face.start);
    OffInvertsPosition(blob, l.item.face.end);
    var f := l.item.face;
    if MISSING <= f.name {
      assert MISSING + f.name[|MISSING|..] == f.name;
    }
  }

  lemma {:induction false} ItemsAreRead(lines: seq<Line>, rows: seq<Row>, indents: seq<int>, blob: string, width: int)
    requires Printable(lines, blob) && |rows| == |lines| == |indents|
    requires forall i :: 0 <= i < |lines| ==> rows[i] == Printed(Placed(lines[i], blob), width)
    requires forall i :: 0 <= i < |lines| ==> indents[i] == Placed(lines[i], blob).indent
    ensures ItemsFrom(rows, indents, blob) == NodesOf(lines)
    decreases |lines|
  {
    if lines != [] {
      var n := |lines| - 1;
      ItemsAreRead(lines[..n], rows[..n], indents[..n], blob, width);
      LineIsRead(lines[n], blob, width);
      assert rows[n] == Printed(Placed(lines[n], blob), width);
    }
  }

  lemma {:induction false} LineIsRead(l: Line, blob: string, width: int)
    requires l.NodeLine? ==> l.item.depth >= 0 && l.lean <= 1
    requires l.NodeLine? ==> 0 <= l.item.face.start <= |blob| && 0 <= l.item.face.end <= |blob|
    ensures ItemsIn(Printed(Placed(l, blob), width), Placed(l, blob).indent, blob)
         == if l.NodeLine? then [l.item] else []
  {
    if l.NodeLine? {
      FaceIsRead(l, blob, width);
    }
  }

  /** A tree printed in preorder, at any width, with an odd space or a bullet on any row and
      continuation rows anywhere between, is read back whole, whenever the columns can be
      read at all. */
  lemma {:induction false} PrintedTreeIsRead(t: Tree, lines: seq<Line>, blob: string, width: int)
    requires Printable(lines, blob) && NodesOf(lines) == Listing(t, 0)
    requires Unclamped(PlacedAll(lines, blob), width) || NarrowStarts(PlacedAll(lines, blob))
    ensures var rows := PrintedAll(PlacedAll(lines, blob), width);
            var f := Built(ItemsFrom(rows, Indents(rows), blob));
            |f| == 1 && Plain(f[0]) == t
  {
    var places := PlacedAll(lines, blob);
    var rows := PrintedAll(places, width);
    IndentsAreRecovered(places, width);
    ItemsAreRead(lines, rows, Indents(rows), blob, width);
    ListedTreeIsRebuilt(t, 0);
    PlainAllLength(Built(Listing(t, 0)));
  }

  /** A printed line is hurt where it was printed with a bullet, or for a node that is missing. */
  predicate HurtLine(l: Line) {
    l.bullet || (l.NodeLine? && l.item.face.named && MISSING <= l.item.face.name)
  }

  /** And the tree read back is hurt exactly when one of its lines was. */
  lemma {:induction false} PrintedHurtIsRead(lines: seq<Line>, blob: string, width: int)
    requires Printable(lines, blob)
    ensures Hurt(PrintedAll(PlacedAll(lines, blob), width)) <==> exists i :: 0 <= i < |lines| && HurtLine(lines[i])
  {
    var rows := PrintedAll(PlacedAll(lines, blob), width);
    forall i | 0 <= i < |lines| ensures HurtBy(rows[i]) <==> HurtLine(lines[i]) {
      assert rows[i] == Printed(Placed(lines[i], blob), width);
    }
    if i :| 0 <= i < |lines| && HurtLine(lines[i]) {
      assert HurtBy(rows[i]);
    }
  }

  lemma {:induction false} PlainAllLength(f: seq<Deep>)
    ensures |PlainAll(f)| == |f| && (f != [] ==> PlainAll(f)[0] == Plain(f[0]))
    decreases |f|
  {
    if f != [] {
      PlainAllLength(f[1..]);
    }
  }

  // ---- joints's own listing

  function DepthsOf(items: seq<Item>): (r: seq<nat>)
    requires forall i :: 0 <= i < |items| ==> items[i].depth >= 0
    ensures |r| == |items|
  {
    seq(|items|, i requires 0 <= i < |items| => items[i].depth)
  }

  function FacesOf(items: seq<Item>): (r: seq<Face>)
    ensures |r| == |items|
  {
    seq(|items|, i requires 0 <= i < |items| => items[i].face)
  }

  /** No row goes more than one deeper than the row before it. */
  predicate StepsFrom(items: seq<Item>, last: int) {
    items == [] || (
      var n := |items| - 1;
      && StepsFrom(items[..n], last)
      && 0 <= items[n].depth <= if n == 0 then last + 1 else items[n - 1].depth + 1)
  }

  lemma {:induction false} StepsAreNatural(items: seq<Item>, last: int)
    requires StepsFrom(items, last)
    ensures forall i :: 0 <= i < |items| ==> items[i].depth >= 0
    decreases |items|
  {
    if items != [] {
      StepsAreNatural(items[..|items| - 1], last);
    }
  }

  lemma {:induction false} StepsConcat(a: seq<Item>, b: seq<Item>, last: int)
    requires StepsFrom(a, last) && StepsFrom(b, if a == [] then last else a[|a| - 1].depth)
    ensures StepsFrom(a + b, last)
    decreases |b|
  {
    if b == [] {
      assert a + b == a;
    } else {
      StepsConcat(a, b[..|b| - 1], last);
      assert (a + b)[..|a + b| - 1] == a + b[..|b| - 1];
    }
  }

  /** A listing that steps from a root is not clamped at all. */
  lemma {:induction false} SteppedIsUnclamped(items: seq<Item>)
    requires StepsFrom(items, -1) && forall i :: 0 <= i < |items| ==> items[i].depth >= 0
    ensures ClampedFrom(DepthsOf(items), FacesOf(items)) == items
    ensures Reach(DepthsOf(items)) == if items == [] then 0 else items[|items| - 1].depth + 1
    decreases |items|
  {
    if items != [] {
      var n := |items| - 1;
      SteppedIsUnclamped(items[..n]);
      assert DepthsOf(items)[..n] == DepthsOf(items[..n]) && FacesOf(items)[..n] == FacesOf(items[..n]);
      assert items == items[..n] + [items[n]];
    }
  }

  /** A listing that ends no higher than a depth. */
  predicate EndsAt(items: seq<Item>, d: int) {
    items != [] && items[|items| - 1].depth >= d
  }

  lemma {:induction false} ListingSteps(t: Tree, d: nat)
    ensures StepsFrom(Listing(t, d), d - 1) && EndsAt(Listing(t, d), d)
    decreases t, 1
  {
    ListingAllSteps(t.kids, d + 1, d);
    var root := Item(d, FaceOf(t));
    assert [root][..0] == [];
    StepsConcat([root], ListingAll(t.kids, d + 1), d - 1);
  }

  lemma {:induction false} ListingAllSteps(ts: seq<Tree>, d: nat, last: int)
    requires last >= d - 1
    ensures StepsFrom(ListingAll(ts, d), last)
    ensures ListingAll(ts, d) == [] || EndsAt(ListingAll(ts, d), d)
    decreases ts, 0
  {
    if ts != [] {
      var a, b := Listing(ts[0], d), ListingAll(ts[1..], d);
      ListingSteps(ts[0], d);
      ListingAllSteps(ts[1..], d, a[|a| - 1].depth);
      SiblingsStep(a, b, d, last);
    }
  }

  /** One subtree's listing and then its later siblings'. */
  lemma {:induction false} SiblingsStep(a: seq<Item>, b: seq<Item>, d: nat, last: int)
    requires last >= d - 1 && StepsFrom(a, d - 1) && EndsAt(a, d)
    requires StepsFrom(b, a[|a| - 1].depth) && (b == [] || EndsAt(b, d))
    ensures StepsFrom(a + b, last) && EndsAt(a + b, d)
  {
    StepsFromDeeper(a, d - 1, last);
    StepsConcat(a, b, last);
  }

  lemma {:induction false} StepsFromDeeper(items: seq<Item>, last: int, deeper: int)
    requires last <= deeper && StepsFrom(items, last)
    ensures StepsFrom(items, deeper)
    decreases |items|
  {
    if items != [] {
      StepsFromDeeper(items[..|items| - 1], last, deeper);
    }
  }

  /** Any tree's depth listing is read back by cutting the stack. */
  lemma {:induction false} OursListingIsRead(t: Tree)
    ensures var items := Listing(t, 0);
            && (forall i :: 0 <= i < |items| ==> items[i].depth >= 0)
            && PlainAll(Built(ClampedFrom(DepthsOf(items), FacesOf(items)))) == [t]
  {
    ListingSteps(t, 0);
    StepsAreNatural(Listing(t, 0), -1);
    SteppedIsUnclamped(Listing(t, 0));
    ListedTreeIsRebuilt(t, 0);
  }
}
