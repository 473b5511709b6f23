/** Fields the printers drop, put back from a query, all or nothing. */
module Graft {
  import opened Wrappers

  /** A node of the oracle's tree. Grafting writes `field` and nothing else. */
  class Cell {
    const name: string
    const named: bool
    const start: int
    const end: int
    const kids: seq<Cell>
    ghost const height: nat
    var field: Option<string>

    constructor (name: string, named: bool, field: Option<string>, start: int, end: int, kids: seq<Cell>,
                 ghost height: nat)
      ensures this.name == name && this.named == named && this.field == field
      ensures this.start == start && this.end == end && this.kids == kids && this.height == height
    {
      this.name, this.named, this.field := name, named, field;
      this.start, this.end, this.kids, this.height := start, end, kids, height;
    }

    /** Nothing is its own descendant. */
    ghost predicate Tree()
      decreases height
    {
      forall k :: k in kids ==> k.height < height && k.Tree()
    }
  }

  /** What tells one parent-child edge from another: both extents, and the child's type. */
  datatype Edge = Edge(pstart: int, pend: int, name: string, named: bool, start: int, end: int)

  function EdgeTo(node: Cell, kid: Cell): Edge {
    Edge(node.start, node.end, kid.name, kid.named, kid.start, kid.end)
  }

  /** Every edge under a node, in preorder. */
  ghost function Edges(node: Cell): seq<(Edge, Cell)>
    requires node.Tree()
    decreases node.height, |node.kids| + 1
  {
    EdgesFrom(node, 0)
  }

  ghost function EdgesFrom(node: Cell, i: nat): seq<(Edge, Cell)>
    requires node.Tree() && i <= |node.kids|
    decreases node.height, |node.kids| - i
  {
    if i == |node.kids| then [] else
    [(EdgeTo(node, node.kids[i]), node.kids[i])] + Edges(node.kids[i]) + EdgesFrom(node, i + 1)
  }

  method Inventory(node: Cell) returns (edges: seq<(Edge, Cell)>)
    requires node.Tree()
    ensures edges == Edges(node)
    decreases node.height
  {
    edges := [];
    var i := 0;
    while i < |node.kids|
      invariant 0 <= i <= |node.kids|
      invariant edges + EdgesFrom(node, i) == Edges(node)
    {
      var kid := node.kids[i];
      var under := Inventory(kid);
      ghost var one, rest := [(EdgeTo(node, kid), kid)] + under, EdgesFrom(node, i + 1);
      assert edges + (one + rest) == edges + one + rest;
      edges := edges + ([(EdgeTo(node, kid), kid)] + under);
      i := i + 1;
    }
  }

  /** Every node an edge leads to. */
  function Targets(edges: seq<(Edge, Cell)>): set<Cell> {
    set i | 0 <= i < |edges| :: edges[i].1
  }

  function Matching(edges: seq<(Edge, Cell)>, e: Edge): seq<Cell> {
    if edges == [] then []
    else Matching(edges[..|edges| - 1], e) + (if edges[|edges| - 1].0 == e then [edges[|edges| - 1].1] else [])
  }

  /** One pattern of the query: a field, and the type of child it is asked of. */
  datatype Spec = Spec(field: string, child: string, named: bool)

  /** One line of the answer. */
  datatype Line = Pattern(index: nat) | Capture(name: string, start: int, end: int)

  type Hit = map<string, (int, int)>

  type Table = map<Cell, string>

  datatype Scan = Scan(spec: Option<Spec>, hit: Hit, table: Table)

  /** A pattern's captures resolved against the edges; an ambiguous named edge is let be. */
  function Finished(edges: seq<(Edge, Cell)>, s: Scan): Result<Table> {
    if s.spec.None? then Success(s.table)
    else if s.hit.Keys != {"parent", "child"} then Fault
    else
      var spec := s.spec.value;
      var p, c := s.hit["parent"], s.hit["child"];
      var found := Matching(edges, Edge(p.0, p.1, spec.child, spec.named, c.0, c.1));
      if |found| > 1 && spec.named then Success(s.table)
      else if |found| != 1 then Fault
      else if found[0] in s.table && s.table[found[0]] != spec.field then Fault
      else Success(s.table[found[0] := spec.field])
  }

  function Scanned(edges: seq<(Edge, Cell)>, selected: seq<Spec>, s: Scan, line: Line): Result<Scan> {
    match line
    case Pattern(index) =>
      var table :- Finished(edges, s);
      if index >= |selected| then Fault else Success(Scan(Some(selected[index]), map[], table))
    case Capture(name, start, end) =>
      if s.spec.None? then Success(s)
      else if name !in {"parent", "child"} || name in s.hit then Fault
      else Success(s.(hit := s.hit[name := (start, end)]))
  }

  function ScannedFrom(edges: seq<(Edge, Cell)>, selected: seq<Spec>, s: Scan, lines: seq<Line>): Result<Scan>
    decreases |lines|
  {
    if lines == [] then Success(s) else
    var next :- Scanned(edges, selected, s, lines[0]);
    ScannedFrom(edges, selected, next, lines[1..])
  }

  /** Which child the answer gives which field. */
  function Tabled(edges: seq<(Edge, Cell)>, selected: seq<Spec>, lines: seq<Line>): Result<Table> {
    var s :- ScannedFrom(edges, selected, Scan(None, map[], map[]), lines);
    Finished(edges, s)
  }

  type Fields = map<Cell, Option<string>>

  /** No field a printer gave, and no named child, is contradicted. */
  predicate Accepted(table: Table, fields: Fields)
    requires table.Keys <= fields.Keys
  {
    forall c :: c in table && (c.named || fields[c].Some?) ==> fields[c] == Some(table[c])
  }

  function Grafted(table: Table, fields: Fields): Fields {
    map c | c in fields :: if c in table && !c.named then Some(table[c]) else fields[c]
  }

  ghost function FieldsOf(cells: set<Cell>): Fields
    reads cells
  {
    map c | c in cells :: c.field
  }

  lemma {:induction false} MatchingIsAmong(edges: seq<(Edge, Cell)>, e: Edge)
    ensures forall c :: c in Matching(edges, e) ==> c in Targets(edges)
  {
    forall c | c in Matching(edges, e) ensures c in Targets(edges) {
      MatchingHasEdge(edges, e, c);
    }
  }

  lemma {:induction false} MatchingHasEdge(edges: seq<(Edge, Cell)>, e: Edge, c: Cell)
    requires c in Matching(edges, e)
    ensures exists i :: 0 <= i < |edges| && edges[i] == (e, c)
    decreases |edges|
  {
    var n := |edges| - 1;
    if c in Matching(edges[..n], e) {
      MatchingHasEdge(edges[..n], e, c);
      var i :| 0 <= i < n && edges[..n][i] == (e, c);
      assert edges[i] == (e, c);
    } else {
      assert edges[n] == (e, c);
    }
  }

  /** A child the table names is the only one its typed edge leads to, and the field is one
      that was asked of its type. */
  ghost predicate Identified(edges: seq<(Edge, Cell)>, selected: seq<Spec>, c: Cell, field: string) {
    Spec(field, c.name, c.named) in selected && exists e :: Matching(edges, e) == [c]
  }

  ghost predicate Sound(edges: seq<(Edge, Cell)>, selected: seq<Spec>, table: Table) {
    forall c :: c in table ==> Identified(edges, selected, c, table[c])
  }

  /** Every edge carries its own child's type. */
  ghost predicate Typed(edges: seq<(Edge, Cell)>) {
    forall i :: 0 <= i < |edges| ==> edges[i].0.name == edges[i].1.name && edges[i].0.named == edges[i].1.named
  }

  lemma {:induction false} EdgesAreTyped(node: Cell, i: nat)
    requires node.Tree() && i <= |node.kids|
    ensures Typed(EdgesFrom(node, i))
    decreases node.height, |node.kids| - i
  {
    if i < |node.kids| {
      EdgesAreTyped(node.kids[i], 0);
      EdgesAreTyped(node, i + 1);
    }
  }

  lemma {:induction false} FinishedIsSound(edges: seq<(Edge, Cell)>, selected: seq<Spec>, s: Scan)
    requires Typed(edges) && Sound(edges, selected, s.table) && (s.spec.Some? ==> s.spec.value in selected)
    requires Finished(edges, s).Success?
    ensures Sound(edges, selected, Finished(edges, s).value)
  {
    if s.spec.Some? {
      var spec := s.spec.value;
      var p, c := s.hit["parent"], s.hit["child"];
      var e := Edge(p.0, p.1, spec.child, spec.named, c.0, c.1);
      var found := Matching(edges, e);
      if |found| == 1 {
        assert found == [found[0]];
        MatchingHasEdge(edges, e, found[0]);
        assert Identified(edges, selected, found[0], spec.field);
      }
    }
  }

  lemma {:induction false} ScannedIsSound(edges: seq<(Edge, Cell)>, selected: seq<Spec>, s: Scan, lines: seq<Line>)
    requires Typed(edges) && Sound(edges, selected, s.table) && (s.spec.Some? ==> s.spec.value in selected)
    requires ScannedFrom(edges, selected, s, lines).Success?
    ensures var r := ScannedFrom(edges, selected, s, lines).value;
            Sound(edges, selected, r.table) && (r.spec.Some? ==> r.spec.value in selected)
    decreases |lines|
  {
    if lines != [] {
      if lines[0].Pattern? {
        FinishedIsSound(edges, selected, s);
      }
      ScannedIsSound(edges, selected, Scanned(edges, selected, s, lines[0]).value, lines[1..]);
    }
  }

  /** Whatever the query answers: every child given a field is identified by one edge. */
  lemma {:induction false} TableIsSound(root: Cell, selected: seq<Spec>, lines: seq<Line>)
    requires root.Tree() && Tabled(Edges(root), selected, lines).Success?
    ensures var table := Tabled(Edges(root), selected, lines).value;
            Sound(Edges(root), selected, table) && table.Keys <= Targets(Edges(root))
  {
    var edges := Edges(root);
    EdgesAreTyped(root, 0);
    var s := ScannedFrom(edges, selected, Scan(None, map[], map[]), lines).value;
    ScannedIsSound(edges, selected, Scan(None, map[], map[]), lines);
    FinishedIsSound(edges, selected, s);
    var table := Finished(edges, s).value;
    forall c | c in table ensures c in Targets(edges) {
      assert Identified(edges, selected, c, table[c]);
      var e :| Matching(edges, e) == [c];
      MatchingIsAmong(edges, e);
      assert c in Matching(edges, e);
    }
  }

  /** A field already printed is never rewritten, and grafting the same answer again is
      accepted and changes nothing. */
  lemma {:induction false} GraftIsIdempotent(table: Table, fields: Fields)
    requires table.Keys <= fields.Keys && Accepted(table, fields)
    ensures forall c :: c in fields && fields[c].Some? ==> Grafted(table, fields)[c] == fields[c]
    ensures Accepted(table, Grafted(table, fields))
    ensures Grafted(table, Grafted(table, fields)) == Grafted(table, fields)
  {
  }

  /** Scan the answer, check every child it names, and only then write. */
  method GraftFields(root: Cell, selected: seq<Spec>, lines: seq<Line>, ghost cells: set<Cell>) returns (ok: bool)
    requires root.Tree() && Targets(Edges(root)) <= cells
    modifies cells
    ensures var t := Tabled(Edges(root), selected, lines);
            ok <==> t.Success? && t.value.Keys <= cells && Accepted(t.value, old(FieldsOf(cells)))
    ensures FieldsOf(cells) == if ok then Grafted(Tabled(Edges(root), selected, lines).value, old(FieldsOf(cells)))
                               else old(FieldsOf(cells))
  {
    var edges := Inventory(root);
    var table := ScanAll(edges, selected, lines);
    if table.Fault? {
      return false;
    }
    TableIsSound(root, selected, lines);
    ok := Check(table.value);
    if ok {
      Write(table.value, cells);
    }
  }

  method ScanAll(edges: seq<(Edge, Cell)>, selected: seq<Spec>, lines: seq<Line>) returns (r: Result<Table>)
    ensures r == Tabled(edges, selected, lines)
  {
    var s := Scan(None, map[], map[]);
    var i := 0;
    while i < |lines|
      invariant 0 <= i <= |lines|
      invariant ScannedFrom(edges, selected, s, lines[i..])
             == ScannedFrom(edges, selected, Scan(None, map[], map[]), lines)
    {
      assert lines[i..][1..] == lines[i + 1..];
      var next := Scanned(edges, selected, s, lines[i]);
      if next.Fault? {
        return Fault;
      }
      s := next.value;
      i := i + 1;
    }
    r := Finished(edges, s);
  }

  method Check(table: Table) returns (ok: bool)
    ensures ok <==> forall c :: c in table && (c.named || c.field.Some?) ==> c.field == Some(table[c])
  {
    var todo := table.Keys;
    while todo != {}
      invariant todo <= table.Keys
      invariant forall c :: c in table && c !in todo && (c.named || c.field.Some?) ==> c.field == Some(table[c])
      decreases todo
    {
      var c :| c in todo;
      if (c.named || c.field.Some?) && c.field != Some(table[c]) {
        return false;
      }
      todo := todo - {c};
    }
    ok := true;
  }

  method Write(table: Table, ghost cells: set<Cell>)
    requires table.Keys <= cells
    modifies cells
    ensures FieldsOf(cells) == Grafted(table, old(FieldsOf(cells)))
  {
    var todo := table.Keys;
    while todo != {}
      invariant todo <= table.Keys
      invariant forall c :: c in cells ==>
                  c.field == if c in table && c !in todo && !c.named then Some(table[c]) else old(c.field)
      decreases todo
    {
      var c :| c in todo;
      if !c.named {
        c.field := Some(table[c]);
      }
      todo := todo - {c};
    }
  }
}
