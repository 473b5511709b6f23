/** One node of either tree: a name, whether it is a named node's, the field its parent
    reached it through, the bytes it covers, and its children. */
module Trees {
  import opened Wrappers

  datatype Tree = Node(name: string, named: bool, field: Option<string>, start: int, end: int, kids: seq<Tree>)

  /** What makes two nodes the same node for alignment: never the span. */
  function Key(t: Tree): (Option<string>, string, bool) {
    (t.field, t.name, t.named)
  }

  predicate Over(t: Tree, x: int) {
    t.start <= x < t.end
  }
}
