/** The column arithmetic of a CST row: a padded range, then the indent. */
module Rows {
  import opened Wrappers
  import opened Lines

  /** What a row says of its node: its text only, or a node. */
  datatype Body =
    | Text(bullet: bool)
    | Names(bullet: bool, missing: bool, field: Option<string>, name: string, named: bool)

  /** A range as printed, the indent it was printed at, and its body. */
  datatype Place = Place(srow: nat, scol: nat, erow: nat, ecol: nat, indent: nat, body: Body)

  /** A row as read: the two runs of spaces measured, nothing yet subtracted. */
  datatype Row = Row(srow: nat, scol: nat, pad: int, erow: nat, ecol: nat, gap: int, body: Body)

  /** One less than the decimal width, and 0 at zero. */
  function Digits(n: nat): nat {
    if n < 10 then 0 else Digits(n / 10) + 1
  }

  function Power(k: nat): nat {
    if k == 0 then 1 else 10 * Power(k - 1)
  }

  /** A number of `k` and one more decimal figures has `k` digits by that count. */
  lemma {:induction false} DigitsCountFigures(n: nat, k: nat)
    requires (k == 0 || Power(k) <= n) && n < Power(k + 1)
    ensures Digits(n) == k
    decreases k
  {
    if k == 0 {
      assert Power(1) == 10 * Power(0);
    } else {
      assert Power(k + 1) == 10 * Power(k) && Power(k) == 10 * Power(k - 1);
      PowerIsPositive(k - 1);
      DigitsCountFigures(n / 10, k - 1);
    }
  }

  lemma {:induction false} PowerIsPositive(k: nat)
    ensures Power(k) >= 1
  {
    if k > 0 {
      PowerIsPositive(k - 1);
    }
  }

  function Max(a: int, b: int): int {
    if a >= b then a else b
  }

  function StartDigits(p: Place): nat {
    Digits(p.srow) + Digits(p.scol)
  }

  function EndDigits(p: Place): nat {
    Digits(p.erow) + Digits(p.ecol)
  }

  /** How the CLI prints a row: both paddings clamped at one. */
  function Printed(p: Place, width: int): Row {
    Row(p.srow, p.scol, Max(1, width - StartDigits(p)), p.erow, p.ecol,
        Max(1, width - EndDigits(p)) + p.indent, p.body)
  }

  function PrintedAll(ps: seq<Place>, width: int): (r: seq<Row>)
    ensures |r| == |ps| && forall i :: 0 <= i < |r| ==> r[i] == Printed(ps[i], width)
  {
    seq(|ps|, i requires 0 <= i < |ps| => Printed(ps[i], width))
  }

  /** The width a row's first padding implies. */
  function Implied(r: Row): int {
    r.pad + Digits(r.srow) + Digits(r.scol)
  }

  /** The smallest width any row implies. */
  function Width(rows: seq<Row>): (w: int)
    ensures rows != [] ==> exists i :: 0 <= i < |rows| && Implied(rows[i]) == w
    ensures forall i :: 0 <= i < |rows| ==> w <= Implied(rows[i])
  {
    if rows == [] then 1
    else if |rows| == 1 then assert Implied(rows[0]) == Implied(rows[0]); Implied(rows[0])
    else
      var n := |rows| - 1;
      var w := Width(rows[..n]);
      assert forall i :: 0 <= i < n ==> rows[..n][i] == rows[i];
      if Implied(rows[n]) < w then Implied(rows[n]) else w
  }

  /** A row's second run of spaces, less the padding a width would put there. */
  function Unpadded(r: Row, width: int): int {
    r.gap - Max(1, width - Digits(r.erow) - Digits(r.ecol))
  }

  function Indents(rows: seq<Row>): (r: seq<int>)
    ensures |r| == |rows|
  {
    var width := Width(rows);
    seq(|rows|, i requires 0 <= i < |rows| => Unpadded(rows[i], width))
  }

  /** Some row's first padding is wide enough not to be clamped. */
  predicate Unclamped(ps: seq<Place>, width: int) {
    exists i :: 0 <= i < |ps| && StartDigits(ps[i]) < width
  }

  /** Some row starts in a position no wider than this. */
  predicate StartFits(ps: seq<Place>, digits: nat) {
    exists k :: 0 <= k < |ps| && StartDigits(ps[k]) <= digits
  }

  /** No row ends in a narrower position than every row starts in. */
  predicate NarrowStarts(ps: seq<Place>) {
    forall i :: 0 <= i < |ps| ==> StartFits(ps, EndDigits(ps[i]))
  }

  lemma {:induction false} WidthIsRecovered(ps: seq<Place>, width: int)
    requires Unclamped(ps, width)
    ensures Width(PrintedAll(ps, width)) == width
  {
    var i :| 0 <= i < |ps| && StartDigits(ps[i]) < width;
    assert Implied(PrintedAll(ps, width)[i]) == width;
  }

  lemma {:induction false} WidthIsOver(ps: seq<Place>, width: int)
    requires ps != [] && !Unclamped(ps, width)
    ensures var w := Width(PrintedAll(ps, width));
            && w > width
            && (forall i :: 0 <= i < |ps| ==> w <= StartDigits(ps[i]) + 1)
            && (exists i :: 0 <= i < |ps| && w == StartDigits(ps[i]) + 1)
  {
    var rows := PrintedAll(ps, width);
    forall i | 0 <= i < |ps| ensures Implied(rows[i]) == StartDigits(ps[i]) + 1 {
    }
    var i :| 0 <= i < |rows| && Implied(rows[i]) == Width(rows);
    assert Width(rows) == StartDigits(ps[i]) + 1;
  }

  lemma {:induction false} PrintedIsUnpadded(p: Place, width: int, w: int)
    ensures Unpadded(Printed(p, width), w) == p.indent + Max(1, width - EndDigits(p)) - Max(1, w - EndDigits(p))
  {
  }

  /** The indent read back is off by how much wider the row's second padding was taken for. */
  lemma {:induction false} IndentRead(ps: seq<Place>, width: int, i: nat)
    requires i < |ps|
    ensures var w := Width(PrintedAll(ps, width));
            Indents(PrintedAll(ps, width))[i]
            == ps[i].indent + Max(1, width - EndDigits(ps[i])) - Max(1, w - EndDigits(ps[i]))
  {
    var rows := PrintedAll(ps, width);
    assert Indents(rows)[i] == Unpadded(rows[i], Width(rows));
    PrintedIsUnpadded(ps[i], width, Width(rows));
  }

  /** The least width, taken over clamped rows, fits under a position exactly when some start does. */
  lemma {:induction false} LeastFits(ps: seq<Place>, w: int, digits: nat)
    requires forall i :: 0 <= i < |ps| ==> w <= StartDigits(ps[i]) + 1
    requires exists i :: 0 <= i < |ps| && w == StartDigits(ps[i]) + 1
    ensures w <= digits + 1 <==> StartFits(ps, digits)
  {
    var k :| 0 <= k < |ps| && w == StartDigits(ps[k]) + 1;
    if StartFits(ps, digits) {
      var m :| 0 <= m < |ps| && StartDigits(ps[m]) <= digits;
    }
  }

  /** With every first padding clamped, an indent is read back when some row starts no
      wider than this one ends. */
  lemma {:induction false} IndentIsRecovered(ps: seq<Place>, width: int, i: nat)
    requires i < |ps| && !Unclamped(ps, width)
    ensures Indents(PrintedAll(ps, width))[i] == ps[i].indent <==> StartFits(ps, EndDigits(ps[i]))
  {
    var w := Width(PrintedAll(ps, width));
    WidthIsOver(ps, width);
    IndentRead(ps, width, i);
    LeastFits(ps, w, EndDigits(ps[i]));
  }

  /** Every indent is read back, for every width, exactly when some first padding was not
      clamped or no row ends narrower than every row starts. */
  lemma {:induction false} IndentsAreRecovered(ps: seq<Place>, width: int)
    ensures (forall i :: 0 <= i < |ps| ==> Indents(PrintedAll(ps, width))[i] == ps[i].indent)
       <==> Unclamped(ps, width) || NarrowStarts(ps)
  {
    var read := Indents(PrintedAll(ps, width));
    if Unclamped(ps, width) {
      WidthIsRecovered(ps, width);
      forall i | 0 <= i < |ps| ensures read[i] == ps[i].indent {
        IndentRead(ps, width, i);
      }
    } else {
      forall i | 0 <= i < |ps| ensures read[i] == ps[i].indent <==> StartFits(ps, EndDigits(ps[i])) {
        IndentIsRecovered(ps, width, i);
      }
    }
  }

  /** One row alone, its first padding clamped, that ends narrower than it starts. */
  lemma {:induction false} LoneIndentIsLost(p: Place, width: int)
    requires width <= StartDigits(p) && EndDigits(p) < StartDigits(p)
    ensures Indents(PrintedAll([p], width))[0] != p.indent && !Unclamped([p], width) && !NarrowStarts([p])
  {
    assert [p][0] == p;
    assert !StartFits([p], EndDigits(p));
    IndentIsRecovered([p], width, 0);
  }

  lemma {:induction false} NarrowEnd(p: Place)
    requires (p.srow, p.scol, p.erow, p.ecol) == (0, 10, 1, 0)
    ensures StartDigits(p) == 1 && EndDigits(p) == 0
  {
  }

  /** Not every table meets that: a row from row 0, column 10 to row 1, column 0, printed as
      narrow as it can be, is not read back at its own indent. */
  lemma {:induction false} IndentCanBeLost(p: Place, width: int)
    requires (p.srow, p.scol, p.erow, p.ecol) == (0, 10, 1, 0) && width == 1
    ensures Indents(PrintedAll([p], width))[0] != p.indent && !Unclamped([p], width) && !NarrowStarts([p])
  {
    NarrowEnd(p);
    LoneIndentIsLost(p, width);
  }
}
