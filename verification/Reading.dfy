/** What the interpreter reads: lists and text, numbers, lines and columns. */
module Reading {
  import opened Wrappers
  import opened Books
  import opened Texts
  import opened Guards
  import opened Scanning
  import opened Walks

  // ---- lists, as they are indexed

  /** A negative index counts back from the end, and any other index reads the list or faults. */
  lemma {:induction false} NegativeCountsBack<T>(s: seq<T>, i: int)
    ensures -|s| <= i < 0 ==> At(s, i) == At(s, i + |s|)
    ensures At(s, i).Success? <==> -|s| <= i < |s|
    ensures 0 <= i < |s| ==> At(s, i) == Success(s[i])
  {
  }

  /** What is put at an index is what stands there, and everything else is as it was. */
  lemma {:induction false} PutIsRead<T>(s: seq<T>, i: int, v: T, j: int)
    ensures var r := Put(s, i, v);
            && (r.Success? <==> At(s, i).Success?)
            && (r.Success? ==> |r.value| == |s| && At(r.value, i) == Success(v))
            && (r.Success? && i != j && i != j + |s| && j != i + |s| ==> At(r.value, j) == At(s, j))
  {
  }

  /** A cut inside the list is the slice; a negative bound counts back from the end; and a list
      cut in two at any bound at all is the list. */
  lemma {:induction false} CutIsSlice<T>(s: seq<T>, a: int, b: int)
    ensures 0 <= a <= b <= |s| ==> Cut(s, a, b) == s[a..b]
    ensures -|s| <= a < 0 ==> Cut(s, a, b) == Cut(s, a + |s|, b)
    ensures -|s| <= b < 0 ==> Cut(s, a, b) == Cut(s, a, b + |s|)
    ensures Cut(s, 0, a) + Cut(s, a, |s|) == s
  {
    var k := Clamp(a, |s|);
    assert s[..k] + s[k..] == s;
  }

  // ---- values

  /** The four operations on values: a difference undoes a sum, and the larger and the smaller of
      two are the two. */
  lemma {:induction false} ArithmeticHolds(x: Value, y: Value, o: State, f: Facts, b: Bound)
    requires Eval(x, o, f, b).Success? && Eval(y, o, f, b).Success?
    ensures Eval(Bin(Minus, Bin(Plus, x, y), y), o, f, b) == Eval(x, o, f, b)
    ensures Eval(Bin(Plus, x, y), o, f, b) == Eval(Bin(Plus, y, x), o, f, b)
    ensures Eval(Bin(Plus, Bin(Max, x, y), Bin(Min, x, y)), o, f, b) == Eval(Bin(Plus, x, y), o, f, b)
    ensures Eval(Bin(Min, x, y), o, f, b).value <= Eval(x, o, f, b).value <= Eval(Bin(Max, x, y), o, f, b).value
    ensures Eval(Bin(Plus, x, Num(1)), o, f, b) == Success(Eval(x, o, f, b).value + 1)
  {
    assert Eval(Num(1), o, f, b) == Success(1);
  }

  /** The top of the frames is the frame at one less than their depth, and with none it is worth
      nothing. */
  lemma {:induction false} TopIsLast(o: State, f: Facts, b: Bound)
    ensures Eval(FramesTopWidth, o, f, b) == Eval(FramesAtWidth(Bin(Minus, FramesDepth, Num(1))), o, f, b)
    ensures o.frames == [] ==> Eval(FramesTopWidth, o, f, b) == Success(0)
    ensures o.marks == [] ==> Eval(MarksTopCount, o, f, b) == Success(0)
  {
    assert Eval(Num(1), o, f, b) == Success(1);
    assert Eval(Bin(Minus, FramesDepth, Num(1)), o, f, b) == Success(|o.frames| - 1);
  }

  /** A frame keeps its place from the bottom whatever is pushed over it. */
  lemma {:induction false} BelowIsKept(o: State, more: seq<Frame>, i: nat, f: Facts, b: Bound)
    requires i < |o.frames|
    ensures Eval(FramesAtWidth(Num(i)), o.(frames := o.frames + more), f, b)
         == Eval(FramesAtWidth(Num(i)), o, f, b) == Success(o.frames[i].width)
  {
  }

  /** Comparisons are those of numbers: one of less, equal and greater, and the others are their
      negations. */
  lemma {:induction false} ComparesAsNumbers(a: int, b: int)
    ensures Compare(a, Lt, b) <==> b - a > 0
    ensures Compare(a, Gt, b) <==> Compare(b, Lt, a)
    ensures Compare(a, Eq, b) <==> !Compare(a, Lt, b) && !Compare(b, Lt, a)
    ensures Compare(a, Ne, b) <==> !Compare(a, Eq, b)
    ensures Compare(a, Ge, b) <==> !Compare(a, Lt, b)
    ensures Compare(a, Le, b) <==> !Compare(a, Gt, b)
  {
  }

  // ---- numbers

  /** A number in decimal digits. */
  function Decimal(n: nat): string {
    if n < 10 then [Digit(n)] else Decimal(n / 10) + [Digit(n % 10)]
  }

  function Digit(n: nat): char
    requires n < 10
  {
    '0' + n as char
  }

  /** Figures are read from the left, each worth ten times the next. */
  lemma {:induction false} FiguresAreRead(s: string, d: nat, rest: string, n: nat)
    requires forall i :: 0 <= i < |s| ==> '0' <= s[i] <= '9'
    requires d < 10 && Figure(s, n) == Success(Value(s, n)) && (rest != "" ==> !IsDigit(rest[0]))
    ensures Figure(s + [Digit(d)] + rest, n) == Success(10 * Value(s, n) + d)
    decreases |s|
  {
    var all := s + [Digit(d)] + rest;
    if s == "" {
      assert all[1..] == rest;
      assert Figure(rest, 10 * n + d) == Success(10 * n + d);
    } else {
      var m := 10 * n + (s[0] as int - '0' as int);
      assert all[1..] == s[1..] + [Digit(d)] + rest;
      FigureIsValue(s[1..], m);
      FiguresAreRead(s[1..], d, rest, m);
    }
  }

  function Value(s: string, n: nat): nat
    requires forall i :: 0 <= i < |s| ==> '0' <= s[i] <= '9'
  {
    if s == "" then n else Value(s[1..], 10 * n + (s[0] as int - '0' as int))
  }

  lemma {:induction false} FigureIsValue(s: string, n: nat)
    requires forall i :: 0 <= i < |s| ==> '0' <= s[i] <= '9'
    ensures Figure(s, n) == Success(Value(s, n))
    decreases |s|
  {
    if s != "" {
      FigureIsValue(s[1..], 10 * n + (s[0] as int - '0' as int));
    }
  }

  lemma {:induction false} DecimalIsDigits(n: nat)
    ensures forall i :: 0 <= i < |Decimal(n)| ==> '0' <= Decimal(n)[i] <= '9'
    decreases n
  {
    if n >= 10 {
      DecimalIsDigits(n / 10);
    }
  }

  /** A number written out is read back, whatever that is no digit follows it. */
  lemma {:induction false} DecimalIsRead(n: nat, rest: string)
    requires rest != "" ==> !IsDigit(rest[0])
    ensures Figure(Decimal(n) + rest, 0) == Success(n)
    decreases n
  {
    var head := if n < 10 then "" else Decimal(n / 10);
    if n >= 10 {
      DecimalIsDigits(n / 10);
      DecimalIsRead(n / 10, "");
      assert head + "" == head;
    }
    FigureIsValue(head, 0);
    FiguresAreRead(head, n % 10, rest, 0);
    assert Decimal(n) == head + [Digit(n % 10)];
  }

  /** A figure that is no decimal one cannot be converted; anything else ends the number. */
  lemma {:induction false} NumberEnds(s: string, n: nat)
    ensures s != "" && s[0] in {'\U{b2}', '\U{b3}', '\U{b9}'} ==> Figure(s, n).Fault?
    ensures (s != "" ==> !('0' <= s[0] <= '9') && s[0] !in {'\U{b2}', '\U{b3}', '\U{b9}'}) ==>
              Figure(s, n) == Success(n)
  {
  }

  /** A captured number is the number written, up to the largest there is. */
  lemma {:induction false} CapturedNumberIsRead(m: Match, g: nat, n: nat, rest: string, o: State, f: Facts, b: Bound)
    requires g < |m.groups| && m.groups[g] == Some(Decimal(n) + rest) && b.first == Some(m)
    requires rest != "" ==> !IsDigit(rest[0])
    ensures Eval(Number(g), o, f, b) == Success(if n <= 65535 then n else 65535)
    ensures Eval(Span(g), o, f, b) == Success(|Decimal(n) + rest|)
  {
    DecimalIsRead(n, rest);
  }

  /** Each group is read for itself, a group that took no part is empty, and there is no other. */
  lemma {:induction false} GroupsAreRead(m: Match, g: int)
    ensures Caught(Some(m), g).Success? <==> 0 <= g < |m.groups|
    ensures 0 <= g < |m.groups| ==> Caught(Some(m), g).value == m.groups[g]
    ensures Caught(None, g) == Success(None)
  {
  }

  // ---- lines

  /** A line starts after a newline and ends before one, with none in between. */
  lemma {:induction false} LineStartsAfterNewline(text: string, at: nat)
    requires at <= |text|
    ensures var s := LineStart(text, at);
            (s == 0 || text[s - 1] == '\n') && forall i :: s <= i < at ==> text[i] != '\n'
    decreases at
  {
    if at > 0 && text[at - 1] != '\n' {
      LineStartsAfterNewline(text, at - 1);
    }
  }

  lemma {:induction false} LineEndsBeforeNewline(text: string, at: nat)
    requires at <= |text|
    ensures var r := LineEnd(text, at);
            (r == |text| || text[r] == '\n') && forall i :: at <= i < r ==> text[i] != '\n'
    decreases |text| - at
  {
    if at < |text| && text[at] != '\n' {
      LineEndsBeforeNewline(text, at + 1);
    }
  }

  /** Strictly earlier is earlier at the first place two texts differ. */
  lemma {:induction false} PrecedesAtFirstDifference(a: string, b: string)
    ensures Precedes(a, b) <==> exists k :: FirstDifference(a, b, k) && (k == |a| || (k < |b| && a[k] < b[k]))
    decreases |a|
  {
    if a == "" || b == "" || a[0] != b[0] {
      assert a != b ==> FirstDifference(a, b, 0);
      assert forall k :: FirstDifference(a, b, k) ==> k == 0;
      if a != "" && b != "" {
        assert a[0] != b[0];
      }
      PrecedesIsStrict(a, b);
    } else {
      PrecedesAtFirstDifference(a[1..], b[1..]);
      if k :| FirstDifference(a[1..], b[1..], k) && (k == |a[1..]| || (k < |b[1..]| && a[1..][k] < b[1..][k])) {
        DifferenceLater(a, b, k);
      }
      if k :| FirstDifference(a, b, k) && (k == |a| || (k < |b| && a[k] < b[k])) {
        DifferenceLater(a, b, k - 1);
      }
      PrecedesIsStrict(a, b);
    }
  }

  /** The first place where two different texts differ, or where one of them ends. */
  predicate FirstDifference(a: string, b: string, k: int) {
    && 0 <= k <= |a| && k <= |b| && a[..k] == b[..k] && a != b
    && (k < |a| && k < |b| ==> a[k] != b[k])
  }

  lemma {:induction false} DifferenceLater(a: string, b: string, k: int)
    requires a != "" && b != "" && a[0] == b[0] && k >= 0
    ensures FirstDifference(a, b, k + 1) <==> FirstDifference(a[1..], b[1..], k)
    ensures k < |a[1..]| ==> a[1..][k] == a[k + 1]
    ensures k < |b[1..]| ==> b[1..][k] == b[k + 1]
  {
    assert a == [a[0]] + a[1..] && b == [b[0]] + b[1..];
    if k + 1 <= |a| && k + 1 <= |b| {
      assert a[..k + 1] == [a[0]] + a[1..][..k] && b[..k + 1] == [b[0]] + b[1..][..k];
      assert a[1..][..k] == a[..k + 1][1..] && b[1..][..k] == b[..k + 1][1..];
    }
  }

  // ---- columns

  /** A tab goes on to the next stop, and any other blank one column. */
  lemma {:induction false} AdvanceReachesStop(c: char, tab: int, col: int)
    requires tab > 0
    ensures c == '\t' ==> Advance(c, tab, col) % tab == 0 && col < Advance(c, tab, col) <= col + tab
    ensures c != '\t' ==> Advance(c, tab, col) == col + 1
  {
    var q := col / tab;
    assert col == q * tab + col % tab;
    assert col + tab - col % tab == (q + 1) * tab;
    assert (q + 1) * tab % tab == 0 by {
      WholeStops(q + 1, tab);
    }
  }

  lemma {:induction false} WholeStops(q: int, tab: int)
    requires tab > 0
    ensures q * tab % tab == 0
  {
    EuclidIsUnique(q * tab, tab, q, 0);
  }

  /** A soak passes the blanks and stops before anything else; over spaces each is one column. */
  lemma {:induction false} SoakPassesBlanks(text: string, off: nat, tab: int, col: int)
    requires tab > 0 && off <= |text|
    ensures var (end, got) := Soaked(text, off, tab, col);
            && off <= end <= |text| && (forall i :: off <= i < end ==> text[i] == ' ' || text[i] == '\t')
            && (end < |text| ==> text[end] != ' ' && text[end] != '\t')
            && ((forall i :: off <= i < end ==> text[i] == ' ') ==> got == col + end - off)
            && col + end - off <= got
    decreases |text| - off
  {
    if off < |text| && IsBlank(text[off]) {
      var next := Advance(text[off], tab, col);
      AdvanceReachesStop(text[off], tab, col);
      SoakPassesBlanks(text, off + 1, tab, next);
    }
  }

  /** What is said of an offset is so of the text: whether a line starts there, whether its line
      and the line before are blank, how far along it is, and whether it is the end. */
  lemma {:induction false} FactsAreOfTheText(text: string, at: nat, tab: int)
    requires at <= |text| && tab > 0
    ensures FactsAt(text, at, tab).Success?
    ensures var f := FactsAt(text, at, tab).value;
            && (f.bol <==> at == 0 || text[at - 1] == '\n')
            && (f.bol <==> f.column == 0)
            && 0 <= f.column <= at && LineStart(text, at) == at - f.column
            && (f.blank <==> BlankLine(text, at - f.column, LineEnd(text, at)))
            && (f.lull <==> at - f.column > 0
                            && BlankLine(text, LineStart(text, at - f.column - 1), at - f.column - 1))
            && (f.eof <==> at == |text|) && !f.broke
            && f.lead == Soaked(text, at - f.column, tab, 0).1
  {
    var s := LineStart(text, at);
    LineStartsAfterNewline(text, at);
    LineEndsBeforeNewline(text, at);
    SoakPassesBlanks(text, s, tab, 0);
    SoakIsBlankLine(text, s, LineEnd(text, at), tab);
    if s > 0 {
      LineStartsAfterNewline(text, s - 1);
      SoakIsBlankLine(text, LineStart(text, s - 1), s - 1, tab);
    }
  }

  /** Nothing but blanks between two offsets. */
  predicate BlankLine(text: string, from: int, to: int) {
    forall i :: from <= i < to && 0 <= i < |text| ==> text[i] == ' ' || text[i] == '\t'
  }

  lemma {:induction false} SoakIsBlankLine(text: string, from: nat, to: nat, tab: int)
    requires tab > 0 && from <= to <= |text|
    ensures Soaked(text, from, tab, 0).0 >= to <==> BlankLine(text, from, to)
  {
    SoakPassesBlanks(text, from, tab, 0);
  }

  /** A declined ask goes on to the next byte; or, in a book that asks line by line, to the end of the
      line, and from there past it. */
  lemma {:induction false} DeclinedGoesOn(text: string, at: nat)
    requires at < |text|
    ensures Next(text, false, at) == at + 1
    ensures var r := Next(text, true, at);
            if text[at] == '\n' then r == at + 1
            else (r == |text| || text[r] == '\n') && forall i :: at <= i < r ==> text[i] != '\n'
  {
    LineEndsBeforeNewline(text, at);
  }
}
