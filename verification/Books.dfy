/** The program a customary is, and the state it runs over. */
module Books {
  import opened Wrappers

  datatype Cmp = Eq | Ne | Lt | Le | Gt | Ge

  function Compare(a: int, op: Cmp, b: int): bool {
    match op
    case Eq => a == b
    case Ne => a != b
    case Lt => a < b
    case Le => a <= b
    case Gt => a > b
    case Ge => a >= b
  }

  datatype Arith = Plus | Minus | Max | Min

  datatype PassField = Ran | Reached | Budget | Ate | Stopped | More

  datatype Value =
    | Num(n: int)
    | Lead
    | Column
    | Width
    | Cursor
    | Span(group: int)
    | Number(group: int)
    | OfPass(field: PassField)
    | FramesTopWidth
    | FramesDepth
    | MarksDepth
    | MarksTopCount
    | Reg(i: int)
    | FramesAtWidth(at: Value)
    | Bin(op: Arith, a: Value, b: Value)

  datatype Line = Bol | Blank | Lull | Broke | Eof

  /** Where a `fires` test scores its group. */
  datatype Anchor = Here | After | From(at: Value, lead: Option<Value>)

  datatype Test =
    | Probe(p: string)
    | NoProbe(p: string)
    | Nest(open: string, close: string)
    | Soak(to: Option<Value>, one: bool, from: Option<Value>)
    | Pass(start: Value, after: bool, until: Option<Value>, verdict: Option<(Cmp, Value)>)
    | Is(line: Line)
    | IsNot(line: Line)
    | Fresh
    | Granted    // wanted, named, sole, mending: the permission set, answered yes
    | Withheld   // not_wanted, not_named: answered no
    | LeadIs(op: Cmp, v: Value)
    | FramesDepthIs(op: Cmp, v: Value)
    | MarksDepthIs(op: Cmp, v: Value)
    | FramesTopKind(kinds: set<int>)
    | MarksTopKind(kinds: set<int>)
    | FramesAtKind(i: Value, kinds: set<int>)
    | FrameAtWidthIs(i: Value, op: Cmp, v: Value)
    | Fires(group: string, anchor: Anchor)
    | NoFires(group: string, anchor: Anchor)
    | FramesTopWidthIs(op: Cmp, v: Value)
    | MarksTopCountIs(op: Cmp, v: Value)
    | MarksTag(any: bool, folded: bool, caught: Option<int>)
    | FramesHas(kind: int)
    | MarksHas(kind: int)
    | RegIs(r: int, op: Cmp, v: Value)

  datatype Extent = Claimed | Classified(table: string) | Stated(v: Value)

  datatype Slice = Whole | Group(g: int) | Literal(s: string)

  datatype Action =
    | Refuse
    | Abstain
    | Emit(symbol: string, extent: Extent)
    | Skip(v: Value)
    | PushFrame(width: Value, kind: int)
    | PushMark(kind: int, count: Value, tag: Option<Slice>)
    | PopFrame
    | PopMark
    | PopFrames(until: int)
    | PopMarks(until: int)
    | Set(r: int, v: Value)

  datatype Phase =
    Inside | Matched | Layout | Commanded | Opening | Enclosing | Bounded | Ordered

  const PHASES: seq<Phase> :=
    [Inside, Matched, Layout, Commanded, Opening, Enclosing, Bounded, Ordered]

  datatype Rule = Rule(
    name: string, phase: Phase, when: seq<Test>, then_: seq<Action>,
    groups: set<string>, kind: Option<int>, closes: Option<string>)

  /** The terminals a rule can name, in the order its actions name them. */
  function Emits(acts: seq<Action>): (r: seq<string>) {
    if acts == [] then []
    else (if acts[0].Emit? then [acts[0].symbol] else []) + Emits(acts[1..])
  }

  datatype Book = Book(
    rules: seq<Rule>, tab: int, budget: Option<int>, lines: bool,
    opaque_: seq<(string, int)>, trivia: Option<string>)

  /** A regular-expression match: its extent and its capture groups, whole match first. */
  datatype Match = Match(start: int, end: int, groups: seq<Option<string>>)

  /** What the regular-expression engine supplies. */
  datatype Env = Env(
    probe: (string, string, int) -> Option<Match>,
    upper: string -> string,
    renamed: (string, string) -> Option<string>)

  /** A match starts where it was asked for and stays inside the text. */
  ghost predicate Sound(env: Env) {
    forall p: string, text: string, off: int {:trigger env.probe(p, text, off)} ::
      0 <= off <= |text| && env.probe(p, text, off).Some? ==>
        off == env.probe(p, text, off).value.start <= env.probe(p, text, off).value.end <= |text|
  }

  /** One book over one text: everything a guard may read besides the organs. */
  datatype Scene = Scene(book: Book, env: Env, text: string)

  datatype Frame = Frame(width: int, kind: int)

  datatype Mark = Mark(kind: int, count: int, tag: Option<string>)

  /** Two stacks, a register bank, and where the last answer with extent ended. */
  datatype State = State(frames: seq<Frame>, marks: seq<Mark>, regs: seq<int>, since: int)

  const START := State([], [], [0, 0, 0, 0, 0, 0, 0, 0], 0)

  datatype Hit = Hit(symbol: string, start: int, length: int, rule: string)

  datatype Facts = Facts(
    bol: bool, lead: int, blank: bool, lull: bool, column: int, eof: bool, broke: bool)

  /** What one pass of the open-frame matchers reports. */
  datatype PassResult = PassResult(
    ran: int, cursor: int, budget: int, eaten: int, at: int, more: int)

  /** What the tests of one guard have bound so far. */
  datatype Bound = Bound(
    eaten: int, lead: Option<int>, first: Option<Match>, cursor: int, pass: Option<PassResult>)

  const UNBOUND := Bound(0, None, None, 0, None)
}
