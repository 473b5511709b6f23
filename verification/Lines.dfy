/** Row and column, in bytes, to a byte offset. */
module Lines {
  import opened Texts

  /** The offset each row starts at. */
  function Starts(blob: string): (r: seq<nat>)
    ensures r != []
  {
    if blob == [] then [0] else
    var n := |blob| - 1;
    Starts(blob[..n]) + (if blob[n] == '\n' then [n + 1] else [])
  }

  function Off(blob: string, row: nat, col: nat): (r: nat)
    ensures r <= |blob|
  {
    var base := if row < |Starts(blob)| then Starts(blob)[row] else |blob|;
    if base + col < |blob| then base + col else |blob|
  }

  /** The row an offset is on: the newlines before it. */
  function RowOf(blob: string, x: nat): nat
    requires x <= |blob|
  {
    if x == 0 then 0 else RowOf(blob, x - 1) + (if blob[x - 1] == '\n' then 1 else 0)
  }

  function ColOf(blob: string, x: nat): nat
    requires x <= |blob|
  {
    x - LineStart(blob, x)
  }

  lemma {:induction false} RowsOfPrefix(blob: string, n: nat, x: nat)
    requires x <= n <= |blob|
    ensures RowOf(blob[..n], x) == RowOf(blob, x) && LineStart(blob[..n], x) == LineStart(blob, x)
    decreases x
  {
    if x > 0 {
      RowsOfPrefix(blob, n, x - 1);
    }
  }

  lemma {:induction false} StartsCountRows(blob: string)
    ensures |Starts(blob)| == RowOf(blob, |blob|) + 1
    decreases |blob|
  {
    if blob != [] {
      var n := |blob| - 1;
      StartsCountRows(blob[..n]);
      RowsOfPrefix(blob, n, n);
    }
  }

  /** The row an offset is on starts at the head of its line. */
  lemma {:induction false} RowStartsAtLineStart(blob: string, x: nat)
    requires x <= |blob|
    ensures RowOf(blob, x) < |Starts(blob)| && Starts(blob)[RowOf(blob, x)] == LineStart(blob, x)
    decreases |blob|
  {
    if blob != [] {
      var n := |blob| - 1;
      if x <= n {
        RowStartsAtLineStart(blob[..n], x);
        RowsOfPrefix(blob, n, x);
      } else {
        StartsCountRows(blob[..n]);
        RowStartsAtLineStart(blob[..n], n);
        RowsOfPrefix(blob, n, n);
      }
    }
  }

  /** A row or a column past the end leads to the end. */
  lemma {:induction false} OffStopsAtEnd(blob: string, row: nat, col: nat)
    ensures row >= |Starts(blob)| ==> Off(blob, row, col) == |blob|
    ensures col >= |blob| ==> Off(blob, row, col) == |blob|
  {
  }

  /** An offset's row and column lead back to it. */
  lemma {:induction false} OffInvertsPosition(blob: string, x: nat)
    requires x <= |blob|
    ensures Off(blob, RowOf(blob, x), ColOf(blob, x)) == x
  {
    RowStartsAtLineStart(blob, x);
  }
}
