/** Reading the text and scoring the tests that score no other rule. */
module Guards {
  import opened Wrappers
  import opened Books
  import opened Texts

  // ---- lists and text, as the scanner indexes them

  /** `s[i]`, negative indices counting from the end. */
  function At<T>(s: seq<T>, i: int): Result<T> {
    if 0 <= i < |s| then Success(s[i])
    else if -|s| <= i < 0 then Success(s[|s| + i])
    else Fault
  }

  function Put<T>(s: seq<T>, i: int, v: T): Result<seq<T>> {
    if 0 <= i < |s| then Success(s[i := v])
    else if -|s| <= i < 0 then Success(s[|s| + i := v])
    else Fault
  }

  function Clamp(i: int, n: nat): (r: nat)
    ensures r <= n
  {
    if i < 0 then (if i + n < 0 then 0 else i + n) else if i > n then n else i
  }

  /** `s[a:b]`, which never faults. */
  function Cut<T>(s: seq<T>, a: int, b: int): seq<T> {
    var lo, hi := Clamp(a, |s|), Clamp(b, |s|);
    if lo <= hi then s[lo..hi] else []
  }

  predicate IsBlank(c: char) {
    c == ' ' || c == '\t'
  }

  /** The column after one blank. */
  function Advance(c: char, tab: int, col: int): int
    requires tab > 0
  {
    if c == '\t' then col + tab - col % tab else col + 1
  }

  /** Blanks from `off`, as a new offset and the columns they are worth. */
  function Soaked(text: string, off: nat, tab: int, col: int): (r: (nat, int))
    requires tab > 0
    ensures off <= r.0 && (off <= |text| ==> r.0 <= |text|)
    decreases |text| - off
  {
    if off < |text| && IsBlank(text[off])
    then Soaked(text, off + 1, tab, Advance(text[off], tab, col))
    else (off, col)
  }

  /** The same run of blanks, stopped at a target column or after `limit` blanks. */
  function SoakedTo(text: string, off: nat, tab: int, col: int, want: int, limit: int, ate: nat): (r: (nat, int))
    requires tab > 0
    ensures off <= r.0 && (off <= |text| ==> r.0 <= |text|)
    decreases |text| - off
  {
    if off < |text| && IsBlank(text[off]) && col < want && ate < limit
    then SoakedTo(text, off + 1, tab, Advance(text[off], tab, col), want, limit, ate + 1)
    else (off, col)
  }

  function FactsAt(text: string, at: int, tab: int): Result<Facts> {
    if !(0 <= at <= |text|) || tab <= 0 then Fault else
    var start := LineStart(text, at);
    var (i, lead) := Soaked(text, start, tab, 0);
    var lull := start > 0 && Soaked(text, LineStart(text, start - 1), tab, 0).0 >= start - 1;
    Success(Facts(at == 0 || text[at - 1] == '\n', lead, i >= LineEnd(text, at), lull,
                  at - start, at >= |text|, false))
  }

  // ---- values

  /** One capture group's text, `None` where the group took no part in the match. */
  function Caught(m: Option<Match>, g: int): Result<Option<string>> {
    match m
    case None => Success(None)
    case Some(m) => if 0 <= g < |m.groups| then Success(m.groups[g]) else Fault
  }

  predicate IsDigit(c: char) {
    '0' <= c <= '9' || c == '\U{b2}' || c == '\U{b3}' || c == '\U{b9}'
  }

  /** The digits a text opens with, as a number; a superscript digit cannot be converted. */
  function Figure(s: string, n: nat): Result<int> {
    if s == [] || !IsDigit(s[0]) then Success(n)
    else if !('0' <= s[0] <= '9') then Fault
    else Figure(s[1..], 10 * n + (s[0] as int - '0' as int))
  }

  function Eval(v: Value, o: State, f: Facts, b: Bound): Result<int> {
    match v
    case Num(n) => Success(n)
    case Lead => Success(b.lead.GetOr(f.lead))
    case Column => Success(f.column)
    case Width => Success(b.eaten)
    case Cursor => Success(b.cursor)
    case Span(g) => var c :- Caught(b.first, g); Success(|c.GetOr("")|)
    case Number(g) =>
      var c :- Caught(b.first, g);
      var n :- Figure(c.GetOr(""), 0);
      Success(if n < 0xFFFF then n else 0xFFFF)
    case OfPass(field) =>
      if b.pass.None? then Fault else Success(Reported(b.pass.value, field))
    case FramesTopWidth => Success(if o.frames == [] then 0 else o.frames[|o.frames| - 1].width)
    case FramesDepth => Success(|o.frames|)
    case MarksDepth => Success(|o.marks|)
    case MarksTopCount => Success(if o.marks == [] then 0 else o.marks[|o.marks| - 1].count)
    case Reg(i) => At(o.regs, i)
    case FramesAtWidth(at) =>
      var i :- Eval(at, o, f, b);
      Success(if 0 <= i < |o.frames| then o.frames[i].width else 0)
    case Bin(op, x, y) =>
      var m :- Eval(x, o, f, b);
      var n :- Eval(y, o, f, b);
      Success(match op
              case Plus => m + n
              case Minus => m - n
              case Max => if m >= n then m else n
              case Min => if m <= n then m else n)
  }

  function Reported(p: PassResult, field: PassField): int {
    match field
    case Ran => p.ran
    case Reached => p.cursor
    case Budget => p.budget
    case Ate => p.eaten
    case Stopped => p.at
    case More => p.more
  }

  /** The carried indentation, where the book keeps one. */
  function Carried(book: Book, o: State): Result<Option<int>> {
    match book.budget
    case None => Success(None)
    case Some(i) => var c :- At(o.regs, i); Success(Some(c))
  }

  // ---- tests

  /** A test that holds binds; one that fails leaves nothing behind. */
  type Verdict = Result<Option<Bound>>

  function Check(c: bool, b: Bound): Verdict {
    Success(if c then Some(b) else None)
  }

  /** The balanced run a `nest` claims: where it ends and the depth it ends at. An
      opener that matches nothing would repeat at one offset forever: that is a fault. */
  function Nested(e: Scene, open: string, close: string, off: int, depth: nat): Result<(int, nat)>
    decreases |e.text| - off, depth
  {
    if off >= |e.text| || depth == 0 then Success((off, depth)) else
    var c := e.env.probe(close, e.text, off);
    if c.Some? then
      if c.value.end < off then Fault else Nested(e, open, close, c.value.end, depth - 1)
    else
      var o := e.env.probe(open, e.text, off);
      if o.Some? then
        if o.value.end <= off then Fault else Nested(e, open, close, o.value.end, depth + 1)
      else Nested(e, open, close, off + 1, depth)
  }

  function EvalOr(v: Option<Value>, default: int, o: State, f: Facts, b: Bound): Result<int> {
    match v
    case None => Success(default)
    case Some(v) => Eval(v, o, f, b)
  }

  function LineFact(f: Facts, line: Line): bool {
    match line
    case Bol => f.bol
    case Blank => f.blank
    case Lull => f.lull
    case Broke => f.broke
    case Eof => f.eof
  }

  predicate TagFits(env: Env, got: string, tag: string, whole: bool, folded: bool) {
    && (whole ==> |got| == |tag|)
    && (if folded then env.upper(got) == env.upper(tag) else got == tag)
  }

  /** Some remembered tag is what stands here; a tag that was never captured has no length. */
  function TagAmong(e: Scene, at: int, caught: Option<string>, folded: bool, reach: seq<Mark>): Result<bool> {
    if reach == [] then Success(false)
    else if reach[0].tag.None? then Fault
    else
      var tag := reach[0].tag.value;
      var got := if caught.Some? then caught.value else Cut(e.text, at, at + |tag|);
      if TagFits(e.env, got, tag, caught.Some?, folded) then Success(true)
      else TagAmong(e, at, caught, folded, reach[1..])
  }

  function SoakBase(e: Scene, o: State, f: Facts, b: Bound, from: Option<Value>): Result<int> {
    if from.Some? then Eval(from.value, o, f, b)
    else
      var carried :- Carried(e.book, o);
      Success(b.lead.GetOr(carried.GetOr(f.lead)))
  }

  /** The tests that score no other rule. */
  function HoldsPlain(e: Scene, t: Test, at: int, o: State, f: Facts, anew: bool, b: Bound): Verdict {
    match t
    case Probe(p) =>
      var m := e.env.probe(p, e.text, at + b.eaten);
      if m.None? then Success(None)
      else Success(Some(b.(eaten := b.eaten + m.value.end - m.value.start,
                           first := if b.first.Some? then b.first else m)))
    case NoProbe(p) => Check(e.env.probe(p, e.text, at + b.eaten).None?, b)
    case Nest(open, close) =>
      var end :- Nested(e, open, close, at + b.eaten, 1);
      Success(Some(b.(eaten := end.0 - at)))
    case Soak(to, one, from) =>
      var want :- EvalOr(to, 0x4000_0000, o, f, b);
      var col :- SoakBase(e, o, f, b, from);
      if at + b.eaten < 0 || e.book.tab <= 0 then Fault else
      var (off, got) := SoakedTo(e.text, at + b.eaten, e.book.tab, col, want,
                                 if one then 1 else 0x4000_0000, 0);
      Success(Some(b.(eaten := off - at, lead := Some(got))))
    case Is(line) => Check(LineFact(f, line), b)
    case IsNot(line) => Check(!LineFact(f, line), b)
    case Fresh => Check(anew, b)
    case Granted => Check(true, b)
    case Withheld => Check(false, b)
    case LeadIs(op, v) => var n :- Eval(v, o, f, b); Check(Compare(b.lead.GetOr(f.lead), op, n), b)
    case FramesDepthIs(op, v) => var n :- Eval(v, o, f, b); Check(Compare(|o.frames|, op, n), b)
    case MarksDepthIs(op, v) => var n :- Eval(v, o, f, b); Check(Compare(|o.marks|, op, n), b)
    case FramesTopKind(kinds) => Check(o.frames != [] && o.frames[|o.frames| - 1].kind in kinds, b)
    case MarksTopKind(kinds) => Check(o.marks != [] && o.marks[|o.marks| - 1].kind in kinds, b)
    case FramesAtKind(v, kinds) =>
      var i :- Eval(v, o, f, b);
      Check(0 <= i < |o.frames| && o.frames[i].kind in kinds, b)
    case FrameAtWidthIs(v, op, w) =>
      var i :- Eval(v, o, f, b);
      if !(0 <= i < |o.frames|) then Success(None) else
      var n :- Eval(w, o, f, b);
      Check(Compare(o.frames[i].width, op, n), b)
    case FramesTopWidthIs(op, v) =>
      if o.frames == [] then Success(None) else
      var n :- Eval(v, o, f, b);
      Check(Compare(o.frames[|o.frames| - 1].width, op, n), b)
    case MarksTopCountIs(op, v) =>
      if o.marks == [] then Success(None) else
      var n :- Eval(v, o, f, b);
      Check(Compare(o.marks[|o.marks| - 1].count, op, n), b)
    case MarksTag(any, folded, group) =>
      if o.marks == [] then Success(None) else
      var caught :- if group.None? then Success(None)
                    else var c :- Caught(b.first, group.value); Success(Some(c.GetOr("")));
      var fits :- TagAmong(e, at, caught, folded, if any then o.marks else o.marks[|o.marks| - 1..]);
      Check(fits, b)
    case FramesHas(kind) => Check(exists i :: 0 <= i < |o.frames| && o.frames[i].kind == kind, b)
    case MarksHas(kind) => Check(exists i :: 0 <= i < |o.marks| && o.marks[i].kind == kind, b)
    case RegIs(r, op, v) =>
      var x :- At(o.regs, r);
      var n :- Eval(v, o, f, b);
      Check(Compare(x, op, n), b)
    case Pass(_, _, _, _) => Fault
    case Fires(_, _) => Fault
    case NoFires(_, _) => Fault
  }

}
