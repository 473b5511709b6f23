/** One grammar's directory shared by many processes: a re-entrant readers-writer lock
    around the build, the wait and the read, in every interleaving. */
module Locks {
  import opened Wrappers

  type Pid = nat
  type Name = string
  type Bytes = string

  /** `lang/<name>`: the grammar laid down, and the grammar its `parser.c` was made from. */
  datatype Files = Files(grammar: Option<Bytes>, parser: Option<Bytes>)

  predicate Consistent(f: Files) {
    f.parser.Some? ==> f.grammar == f.parser
  }

  /** An open `with alone(...)` block. The outer one of a name holds the descriptor. */
  datatype Context = Context(name: Name, outer: bool)

  /** Where a build stands: looking at the digest, about to copy, the old grammar cut and the
      new one not all written, copied but the old `parser.c` not yet gone, or about to see
      whether a `parser.c` is there. */
  datatype Phase = Look | Stale | Torn | Copied | Probe

  datatype Doing =
    | Idle
    | Granted(name: Name, writing: bool)   // `flock` answered, `_HELD` not yet written
    | Leaving(name: Name)                  // `_HELD` cleared, the descriptor not yet released
    | Building(name: Name, want: Bytes, phase: Phase)
    | Refreshing(name: Name)               // the scanner written, `parser.c` not yet gone

  /** `held` is `_HELD`: depth and mode. */
  datatype Proc = Proc(held: map<Name, (nat, bool)>, contexts: seq<Context>, doing: Doing)

  /** `grants` is what the operating system holds: exclusive or shared, by process and name. */
  datatype World = World(procs: map<Pid, Proc>, grants: map<(Pid, Name), bool>, files: map<Name, Files>)

  function FilesOf(s: World, name: Name): Files {
    if name in s.files then s.files[name] else Files(None, None)
  }

  datatype Event =
    | Spawn(p: Pid)
    | Enter(p: Pid, name: Name, writing: bool)
    | Register(p: Pid)
    | Leave(p: Pid)
    | Unlock(p: Pid)
    | Build(p: Pid, name: Name, want: Bytes)
    | Refresh(p: Pid, name: Name)
    | Advance(p: Pid, generated: bool)
    | Write(p: Pid, upto: nat)
    | Kill(p: Pid)

  datatype Answer = Ok | Refused | Waits | Disabled

  /** `flock` grants a fresh descriptor only beside shared holders, and exclusively only alone. */
  predicate Grantable(s: World, name: Name, writing: bool) {
    forall q :: q in s.procs && (q, name) in s.grants ==> !writing && !s.grants[(q, name)]
  }

  function With(s: World, p: Pid, pr: Proc): World {
    s.(procs := s.procs[p := pr])
  }

  function Entered(s: World, p: Pid, name: Name, writing: bool): (Answer, World)
    requires p in s.procs
  {
    var pr := s.procs[p];
    if name in pr.held then
      var (depth, mode) := pr.held[name];
      if writing && !mode then (Refused, s)
      else
        var contexts := pr.contexts + [Context(name, false)];
        (Ok, With(s, p, pr.(held := pr.held[name := (depth + 1, mode)], contexts := contexts)))
    else if !Grantable(s, name, writing) then (Waits, s)
    else (Ok, With(s, p, pr.(doing := Granted(name, writing))).(grants := s.grants[(p, name) := writing]))
  }

  function Left(s: World, p: Pid): (Answer, World)
    requires p in s.procs && s.procs[p].contexts != []
  {
    var pr := s.procs[p];
    var n := |pr.contexts| - 1;
    var c := pr.contexts[n];
    var rest := pr.contexts[..n];
    if c.outer then (Ok, With(s, p, Proc(pr.held - {c.name}, rest, Leaving(c.name))))
    else if c.name !in pr.held then (Disabled, s)
    else if pr.held[c.name].0 > 1 then
      (Ok, With(s, p, pr.(held := pr.held[c.name := (pr.held[c.name].0 - 1, pr.held[c.name].1)], contexts := rest)))
    else (Ok, With(s, p, pr.(held := pr.held - {c.name}, contexts := rest)))
  }

  /** One step of a build, in the order `oracle_build` takes them. */
  function Advanced(s: World, p: Pid, generated: bool): World
    requires p in s.procs && (s.procs[p].doing.Building? || s.procs[p].doing.Refreshing?)
  {
    var pr := s.procs[p];
    var name := pr.doing.name;
    var f := FilesOf(s, name);
    match pr.doing
    case Refreshing(_) =>
      With(s, p, pr.(doing := Idle)).(files := s.files[name := f.(parser := None)])
    case Building(_, want, Look) =>
      With(s, p, pr.(doing := Building(name, want, if f.grammar == Some(want) then Probe else Stale)))
    case Building(_, want, Stale) =>
      With(s, p, pr.(doing := Building(name, want, Torn))).(files := s.files[name := f.(grammar := Some(""))])
    case Building(_, want, Torn) =>
      With(s, p, pr.(doing := Building(name, want, Copied))).(files := s.files[name := f.(grammar := Some(want))])
    case Building(_, want, Copied) =>
      With(s, p, pr.(doing := Building(name, want, Probe))).(files := s.files[name := f.(parser := None)])
    case Building(_, _, Probe) =>
      if f.parser.Some? || !generated then With(s, p, pr.(doing := Idle))
      else With(s, p, pr.(doing := Idle)).(files := s.files[name := f.(parser := f.grammar)])
  }

  /** A copy under way, and more of it written. */
  predicate Writes(s: World, p: Pid, upto: nat)
    requires p in s.procs
  {
    var d := s.procs[p].doing;
    && d.Building? && d.phase.Torn? && upto <= |d.want|
    && FilesOf(s, d.name).grammar.Some? && |FilesOf(s, d.name).grammar.value| <= upto
  }

  function Wrote(s: World, p: Pid, upto: nat): World
    requires p in s.procs && Writes(s, p, upto)
  {
    var d := s.procs[p].doing;
    s.(files := s.files[d.name := FilesOf(s, d.name).(grammar := Some(d.want[..upto]))])
  }

  predicate Inside(pr: Proc, name: Name) {
    pr.contexts != [] && pr.contexts[|pr.contexts| - 1].name == name
  }

  /** What one event does. A build or a refresh is only ever begun directly inside a
      context of its grammar that the process entered to write. */
  function Do(s: World, e: Event): (Answer, World) {
    if e.Spawn? then
      if e.p in s.procs then (Disabled, s) else (Ok, With(s, e.p, Proc(map[], [], Idle)))
    else if e.p !in s.procs then (Disabled, s)
    else
      var pr := s.procs[e.p];
      match e
      case Kill(p) =>
        (Ok, World(s.procs - {p}, map g | g in s.grants && g.0 != p :: s.grants[g], s.files))
      case Enter(p, name, writing) =>
        if pr.doing.Idle? then Entered(s, p, name, writing) else (Disabled, s)
      case Register(p) =>
        if pr.doing.Granted? then
          var name := pr.doing.name;
          (Ok, With(s, p, Proc(pr.held[name := (1, pr.doing.writing)], pr.contexts + [Context(name, true)], Idle)))
        else (Disabled, s)
      case Leave(p) => if pr.doing.Idle? && pr.contexts != [] then Left(s, p) else (Disabled, s)
      case Unlock(p) =>
        if pr.doing.Leaving? then
          (Ok, With(s, p, pr.(doing := Idle)).(grants := s.grants - {(p, pr.doing.name)}))
        else (Disabled, s)
      case Build(p, name, want) =>
        if pr.doing.Idle? && Inside(pr, name) && name in pr.held && pr.held[name].1
        then (Ok, With(s, p, pr.(doing := Building(name, want, Look)))) else (Disabled, s)
      case Refresh(p, name) =>
        if pr.doing.Idle? && Inside(pr, name) && name in pr.held && pr.held[name].1
        then (Ok, With(s, p, pr.(doing := Refreshing(name)))) else (Disabled, s)
      case Advance(p, generated) =>
        if pr.doing.Building? || pr.doing.Refreshing? then (Ok, Advanced(s, p, generated)) else (Disabled, s)
      case Write(p, upto) => if Writes(s, p, upto) then (Ok, Wrote(s, p, upto)) else (Disabled, s)
      case Spawn(_) => (Disabled, s)
  }

  // ---- what every event keeps

  function Count(c: seq<Context>, name: Name): nat {
    if c == [] then 0 else Count(c[..|c| - 1], name) + (if c[|c| - 1].name == name then 1 else 0)
  }

  /** The outer context of a name is the first of that name, and only the first. */
  predicate Stacked(c: seq<Context>) {
    c == [] || (
      var n := |c| - 1;
      Stacked(c[..n]) && (c[n].outer <==> Count(c[..n], c[n].name) == 0))
  }

  /** What a process holds: the depth is the number of open contexts, and the mode is the
      one the operating system granted. */
  ghost predicate HeldOk(s: World, p: Pid, name: Name)
    requires p in s.procs
  {
    var pr := s.procs[p];
    if name in pr.held then
      && (p, name) in s.grants && s.grants[(p, name)] == pr.held[name].1
      && pr.held[name].0 == Count(pr.contexts, name) >= 1
    else
      && Count(pr.contexts, name) == 0
      && ((p, name) in s.grants ==> pr.doing == Granted(name, s.grants[(p, name)]) || pr.doing == Leaving(name))
  }

  ghost predicate DoingOk(s: World, p: Pid)
    requires p in s.procs
  {
    var pr := s.procs[p];
    match pr.doing
    case Idle => true
    case Granted(name, writing) => name !in pr.held && (p, name) in s.grants && s.grants[(p, name)] == writing
    case Leaving(name) => name !in pr.held && (p, name) in s.grants
    case Building(name, _, _) => name in pr.held && pr.held[name].1
    case Refreshing(name) => name in pr.held && pr.held[name].1
  }

  ghost predicate ProcOk(s: World, p: Pid)
    requires p in s.procs
  {
    Stacked(s.procs[p].contexts) && DoingOk(s, p) && forall name :: HeldOk(s, p, name)
  }

  /** An exclusive grant stands alone, and only living processes hold grants. */
  ghost predicate GrantsOk(s: World) {
    && (forall p, name {:trigger (p, name) in s.grants} :: (p, name) in s.grants ==> p in s.procs)
    && (forall p, q, name {:trigger (p, name) in s.grants, (q, name) in s.grants} ::
          (p, name) in s.grants && (q, name) in s.grants && p != q ==> !s.grants[(p, name)])
  }

  /** A process is between cutting the old grammar and the unlink of its parser. */
  predicate Copying(s: World, p: Pid, name: Name) {
    && p in s.procs && s.procs[p].doing.Building? && s.procs[p].doing.name == name
    && (s.procs[p].doing.phase.Torn? || s.procs[p].doing.phase.Copied?)
  }

  /** Some process is between cutting the old grammar and removing its parser. */
  ghost predicate Halfway(s: World, name: Name) {
    exists p :: Copying(s, p, name)
  }

  ghost predicate LocksOk(s: World) {
    GrantsOk(s) && forall p :: p in s.procs ==> ProcOk(s, p)
  }

  ghost predicate FilesOk(s: World) {
    forall name :: Consistent(FilesOf(s, name)) || Halfway(s, name)
  }

  const EMPTY := World(map[], map[], map[])

  lemma {:induction false} EmptyIsOk()
    ensures LocksOk(EMPTY) && FilesOk(EMPTY)
  {
  }

  lemma {:induction false} CountAppends(c: seq<Context>, x: Context, name: Name)
    ensures Count(c + [x], name) == Count(c, name) + (if x.name == name then 1 else 0)
  {
    assert (c + [x])[..|c|] == c;
  }

  /** Another process is untouched by an event that leaves its own record and grants alone. */
  lemma {:induction false} OtherProcOk(s: World, s': World, q: Pid)
    requires q in s.procs && q in s'.procs && s'.procs[q] == s.procs[q] && ProcOk(s, q)
    requires forall name :: (q, name) in s.grants <==> (q, name) in s'.grants
    requires forall name :: (q, name) in s.grants ==> s.grants[(q, name)] == s'.grants[(q, name)]
    ensures ProcOk(s', q)
  {
    forall name ensures HeldOk(s', q, name) {
      assert HeldOk(s, q, name);
    }
  }

  lemma {:induction false} EnterKeepsProc(s: World, p: Pid, name: Name, writing: bool)
    requires LocksOk(s) && p in s.procs && s.procs[p].doing.Idle?
    ensures p in Entered(s, p, name, writing).1.procs && ProcOk(Entered(s, p, name, writing).1, p)
  {
    var s' := Entered(s, p, name, writing).1;
    var pr := s.procs[p];
    forall other ensures HeldOk(s', p, other) {
      assert HeldOk(s, p, other);
      CountAppends(pr.contexts, Context(name, false), other);
    }
    assert HeldOk(s, p, name);
    assert (pr.contexts + [Context(name, false)])[..|pr.contexts|] == pr.contexts;
  }

  lemma {:induction false} StackedAppends(c: seq<Context>, x: Context)
    requires Stacked(c) && (x.outer <==> Count(c, x.name) == 0)
    ensures Stacked(c + [x])
  {
    assert (c + [x])[..|c|] == c;
  }

  lemma {:induction false} RegisterKeepsHeld(s: World, p: Pid, other: Name)
    requires p in s.procs && s.procs[p].doing.Granted? && DoingOk(s, p)
    requires HeldOk(s, p, other)
    ensures HeldOk(Do(s, Register(p)).1, p, other)
  {
    CountAppends(s.procs[p].contexts, Context(s.procs[p].doing.name, true), other);
  }

  lemma {:induction false} RegisterKeepsProc(s: World, p: Pid)
    requires LocksOk(s) && p in s.procs && s.procs[p].doing.Granted?
    ensures ProcOk(Do(s, Register(p)).1, p)
  {
    var name := s.procs[p].doing.name;
    assert HeldOk(s, p, name);
    StackedAppends(s.procs[p].contexts, Context(name, true));
    forall other ensures HeldOk(Do(s, Register(p)).1, p, other) {
      RegisterKeepsHeld(s, p, other);
    }
  }

  lemma {:induction false} LeaveKeepsProc(s: World, p: Pid)
    requires LocksOk(s) && p in s.procs && s.procs[p].doing.Idle? && s.procs[p].contexts != []
    ensures ProcOk(Left(s, p).1, p)
  {
    var pr := s.procs[p];
    var n := |pr.contexts| - 1;
    var c := pr.contexts[n];
    var s' := Left(s, p).1;
    assert pr.contexts == pr.contexts[..n] + [c];
    forall other ensures HeldOk(s', p, other) {
      assert HeldOk(s, p, other) && HeldOk(s, p, c.name);
      CountAppends(pr.contexts[..n], c, other);
      CountAppends(pr.contexts[..n], c, c.name);
    }
    assert HeldOk(s, p, c.name);
    CountAppends(pr.contexts[..n], c, c.name);
  }

  lemma {:induction false} UnlockKeepsProc(s: World, p: Pid)
    requires LocksOk(s) && p in s.procs
    ensures ProcOk(Do(s, Unlock(p)).1, p)
  {
    forall name ensures HeldOk(Do(s, Unlock(p)).1, p, name) {
      assert HeldOk(s, p, name);
    }
  }

  /** A step that moves only what a process is doing leaves what it holds in order. */
  lemma {:induction false} SameHoldOk(s: World, s': World, p: Pid)
    requires LocksOk(s) && p in s.procs && p in s'.procs && s'.grants == s.grants
    requires s'.procs[p].held == s.procs[p].held && s'.procs[p].contexts == s.procs[p].contexts
    requires s'.procs[p].doing == s.procs[p].doing || (!s.procs[p].doing.Granted? && !s.procs[p].doing.Leaving?)
    requires DoingOk(s', p)
    ensures ProcOk(s', p)
  {
    forall name ensures HeldOk(s', p, name) {
      assert HeldOk(s, p, name);
    }
  }

  lemma {:induction false} BeginKeepsProc(s: World, e: Event)
    requires LocksOk(s) && e.p in s.procs && (e.Spawn? || e.Build? || e.Refresh? || e.Write?)
    ensures ProcOk(Do(s, e).1, e.p)
  {
    assert DoingOk(s, e.p);
    SameHoldOk(s, Do(s, e).1, e.p);
  }

  lemma {:induction false} AdvancedHolds(s: World, p: Pid, generated: bool)
    requires p in s.procs && (s.procs[p].doing.Building? || s.procs[p].doing.Refreshing?) && DoingOk(s, p)
    ensures var s' := Advanced(s, p, generated);
            && p in s'.procs && s'.grants == s.grants
            && s'.procs[p].held == s.procs[p].held && s'.procs[p].contexts == s.procs[p].contexts && DoingOk(s', p)
  {
  }

  lemma {:induction false} AdvanceKeepsProc(s: World, p: Pid, generated: bool)
    requires LocksOk(s) && p in s.procs
    ensures ProcOk(Do(s, Advance(p, generated)).1, p)
  {
    assert DoingOk(s, p);
    if s.procs[p].doing.Building? || s.procs[p].doing.Refreshing? {
      AdvancedHolds(s, p, generated);
    }
    SameHoldOk(s, Do(s, Advance(p, generated)).1, p);
  }

  /** The actor's own record stays in order under every event it survives. */
  lemma {:induction false} ActorKeepsProc(s: World, e: Event)
    requires LocksOk(s) && !e.Kill? && e.p in Do(s, e).1.procs
    ensures ProcOk(Do(s, e).1, e.p)
  {
    var s' := Do(s, e).1;
    if e.p in s.procs {
      var pr := s.procs[e.p];
      match e
      case Enter(p, name, writing) => if pr.doing.Idle? { EnterKeepsProc(s, p, name, writing); }
      case Register(p) => if pr.doing.Granted? { RegisterKeepsProc(s, p); }
      case Leave(p) => if pr.doing.Idle? && pr.contexts != [] { LeaveKeepsProc(s, p); }
      case Unlock(p) => UnlockKeepsProc(s, p);
      case Advance(p, generated) => AdvanceKeepsProc(s, p, generated);
      case _ => BeginKeepsProc(s, e);
    } else if s' != s {
      forall name ensures HeldOk(s', e.p, name) {
        assert (e.p, name) !in s.grants;
      }
    }
  }

  lemma {:induction false} HoldersLive(s: World, e: Event)
    requires LocksOk(s)
    ensures var s' := Do(s, e).1;
            forall p, name {:trigger (p, name) in s'.grants} :: (p, name) in s'.grants ==> p in s'.procs
  {
  }

  lemma {:induction false} GrantsKept(s: World, e: Event)
    requires LocksOk(s)
    ensures GrantsOk(Do(s, e).1)
  {
    HoldersLive(s, e);
  }

  lemma {:induction false} OthersUntouched(s: World, e: Event, q: Pid)
    requires q != e.p && q in Do(s, e).1.procs
    ensures q in s.procs && Do(s, e).1.procs[q] == s.procs[q]
    ensures forall name :: (q, name) in s.grants <==> (q, name) in Do(s, e).1.grants
    ensures forall name :: (q, name) in s.grants ==> s.grants[(q, name)] == Do(s, e).1.grants[(q, name)]
  {
  }

  lemma {:induction false} OthersKept(s: World, e: Event, q: Pid)
    requires LocksOk(s) && q != e.p && q in Do(s, e).1.procs
    ensures ProcOk(Do(s, e).1, q)
  {
    OthersUntouched(s, e, q);
    OtherProcOk(s, Do(s, e).1, q);
  }

  /** Every event keeps the lock discipline. */
  lemma {:induction false} StepKeepsLocks(s: World, e: Event)
    requires LocksOk(s)
    ensures LocksOk(Do(s, e).1)
  {
    var s' := Do(s, e).1;
    GrantsKept(s, e);
    forall q | q in s'.procs ensures ProcOk(s', q) {
      if q == e.p {
        ActorKeepsProc(s, e);
      } else {
        OthersKept(s, e, q);
      }
    }
  }

  /** Every event but a kill between the copy and the unlink keeps every `parser.c` in step
      with its grammar, or a build under way. */
  lemma {:induction false} StepKeepsFiles(s: World, e: Event)
    requires LocksOk(s) && FilesOk(s) && (e.Kill? && e.p in s.procs ==> Safe(s, e.p))
    ensures FilesOk(Do(s, e).1)
  {
    var s' := Do(s, e).1;
    forall name ensures Consistent(FilesOf(s', name)) || Halfway(s', name) {
      assert Consistent(FilesOf(s, name)) || Halfway(s, name);
      if !Consistent(FilesOf(s', name)) {
        StepStaysHalfway(s, e, name);
      }
    }
  }

  /** Killing this process now leaves no parser made from another grammar. */
  predicate Safe(s: World, p: Pid)
    requires p in s.procs
  {
    var d := s.procs[p].doing;
    d.Building? && (d.phase.Torn? || d.phase.Copied?) ==> Consistent(FilesOf(s, d.name))
  }

  lemma {:induction false} CopyOpensHalfway(s: World, e: Event, name: Name)
    requires Consistent(FilesOf(s, name)) && !Consistent(FilesOf(Do(s, e).1, name))
    ensures Halfway(Do(s, e).1, name)
  {
    var s' := Do(s, e).1;
    assert FilesOf(s', name) != FilesOf(s, name);
    assert (e.Advance? || e.Write?) && Copying(s', e.p, name);
  }

  lemma {:induction false} CopierStays(s: World, e: Event, p: Pid, name: Name)
    requires Copying(s, p, name) && (e.Kill? && e.p == p ==> Safe(s, p)) && !Consistent(FilesOf(s, name))
    ensures Consistent(FilesOf(Do(s, e).1, name)) || Copying(Do(s, e).1, p, name)
  {
    var s' := Do(s, e).1;
    if p != e.p {
      assert s'.procs[p] == s.procs[p];
    } else if e.Advance? {
      assert s.procs[p].doing.phase.Copied? ==> FilesOf(s', name).parser.None?;
    } else {
      assert s'.procs[p].doing == s.procs[p].doing;
    }
  }

  lemma {:induction false} StepStaysHalfway(s: World, e: Event, name: Name)
    requires LocksOk(s) && (e.Kill? && e.p in s.procs ==> Safe(s, e.p))
    requires Consistent(FilesOf(s, name)) || Halfway(s, name)
    requires !Consistent(FilesOf(Do(s, e).1, name))
    ensures Halfway(Do(s, e).1, name)
  {
    if Consistent(FilesOf(s, name)) {
      CopyOpensHalfway(s, e, name);
    } else {
      var p :| Copying(s, p, name);
      CopierStays(s, e, p, name);
    }
  }

  // ---- runs

  function Ran(s: World, es: seq<Event>): World
    decreases |es|
  {
    if es == [] then s else Ran(Do(s, es[0]).1, es[1..])
  }

  /** No process is killed between cutting the old grammar and removing its parser. */
  predicate SafeRun(s: World, es: seq<Event>)
    decreases |es|
  {
    es == [] || (
      && (es[0].Kill? && es[0].p in s.procs ==> Safe(s, es[0].p))
      && SafeRun(Do(s, es[0]).1, es[1..]))
  }

  /** Whatever the interleaving, and whoever is killed, the lock discipline holds. */
  lemma {:induction false} RunKeepsLocks(s: World, es: seq<Event>)
    requires LocksOk(s)
    ensures LocksOk(Ran(s, es))
    decreases |es|
  {
    if es != [] {
      StepKeepsLocks(s, es[0]);
      RunKeepsLocks(Do(s, es[0]).1, es[1..]);
    }
  }

  lemma {:induction false} RunKeepsFiles(s: World, es: seq<Event>)
    requires LocksOk(s) && FilesOk(s) && SafeRun(s, es)
    ensures FilesOk(Ran(s, es))
    decreases |es|
  {
    if es != [] {
      StepKeepsLocks(s, es[0]);
      StepKeepsFiles(s, es[0]);
      RunKeepsFiles(Do(s, es[0]).1, es[1..]);
    }
  }

  predicate Holding(s: World, p: Pid, name: Name) {
    p in s.procs && name in s.procs[p].held
  }

  predicate Writing(s: World, p: Pid, name: Name) {
    Holding(s, p, name) && s.procs[p].held[name].1
  }

  /** From the empty world, in every interleaving of any number of processes: a writer
      excludes every other holder, and the depth is the number of open contexts. */
  lemma {:induction false} WritersExclude(es: seq<Event>, p: Pid, q: Pid, name: Name)
    ensures var s := Ran(EMPTY, es);
            && (Writing(s, p, name) && q != p ==> !Holding(s, q, name))
            && (Holding(s, p, name) ==> s.procs[p].held[name].0 == Count(s.procs[p].contexts, name))
            && (p in s.procs && !Holding(s, p, name) ==> Count(s.procs[p].contexts, name) == 0)
  {
    EmptyIsOk();
    RunKeepsLocks(EMPTY, es);
    var s := Ran(EMPTY, es);
    if p in s.procs { assert HeldOk(s, p, name); }
    if q in s.procs { assert HeldOk(s, q, name); }
  }

  /** In any reachable world an idle process that does not hold a grammar is let in to read it
      exactly when nobody holds it exclusively, and to write it exactly when nobody holds it at
      all; and otherwise it waits, with nothing changed. */
  lemma {:induction false} FirstEntry(es: seq<Event>, p: Pid, name: Name, writing: bool)
    requires var s := Ran(EMPTY, es); p in s.procs && s.procs[p].doing.Idle? && !Holding(s, p, name)
    ensures var s := Ran(EMPTY, es);
            var (answer, s') := Do(s, Enter(p, name, writing));
            && (answer == Ok || answer == Waits)
            && (answer == Ok <==> forall q :: (q, name) in s.grants ==> !writing && !s.grants[(q, name)])
            && (answer == Ok ==> s'.grants == s.grants[(p, name) := writing] && s'.files == s.files)
            && (answer == Waits ==> s' == s)
  {
    EmptyIsOk();
    RunKeepsLocks(EMPTY, es);
  }

  /** So two processes can hold one grammar to read at once. */
  lemma {:induction false} ReadersShare(name: Name)
    ensures var es := [Spawn(0), Spawn(1)] + [Enter(0, name, false), Register(0)]
                      + [Enter(1, name, false), Register(1)];
            var s := Ran(EMPTY, es);
            Holding(s, 0, name) && Holding(s, 1, name) && !Writing(s, 0, name) && !Writing(s, 1, name)
  {
    var two, a := [Spawn(0), Spawn(1)], [Enter(0, name, false), Register(0)];
    var b := [Enter(1, name, false), Register(1)];
    RanConcat(EMPTY, two + a, b);
    RanConcat(EMPTY, two, a);
    RanTwo(EMPTY, Spawn(0), Spawn(1));
    var s := Ran(EMPTY, two);
    TakesLock(s, 0, name, false);
    var t := Ran(s, a);
    RanTwo(t, Enter(1, name, false), Register(1));
    assert t.procs[1] == RESTING;
    assert [] + [Context(name, true)] == [Context(name, true)];
  }

  /** A writer inside a reader is refused, and nothing changes; any other nested entry is
      answered at once, whatever the rest of the world holds. */
  lemma {:induction false} NestedEntry(es: seq<Event>, p: Pid, name: Name, writing: bool)
    requires var s := Ran(EMPTY, es); Holding(s, p, name) && s.procs[p].doing.Idle?
    ensures var s := Ran(EMPTY, es);
            var (answer, s') := Do(s, Enter(p, name, writing));
            if writing && !Writing(s, p, name) then answer == Refused && s' == s
            else answer == Ok && s'.grants == s.grants && s'.files == s.files
                 && s'.procs[p].held[name] == (s.procs[p].held[name].0 + 1, s.procs[p].held[name].1)
  {
  }

  /** Whenever no process holds a grammar exclusively, a `parser.c` beside it was made from it. */
  lemma {:induction false} QuietParserIsCurrent(es: seq<Event>, name: Name)
    requires SafeRun(EMPTY, es)
    requires var s := Ran(EMPTY, es); forall p :: p in s.procs ==> !Writing(s, p, name)
    ensures Consistent(FilesOf(Ran(EMPTY, es), name))
  {
    EmptyIsOk();
    RunKeepsLocks(EMPTY, es);
    RunKeepsFiles(EMPTY, es);
    var s := Ran(EMPTY, es);
    if Halfway(s, name) {
      var p :| Copying(s, p, name);
      assert DoingOk(s, p);
      assert Writing(s, p, name);
    }
  }

  /** One event changes a grammar's files only from inside an exclusive hold of it. */
  lemma {:induction false} FilesChangeUnderWriter(s: World, e: Event, name: Name)
    requires LocksOk(s) && FilesOf(Do(s, e).1, name) != FilesOf(s, name)
    ensures Writing(s, e.p, name)
  {
    assert (e.Advance? || e.Write?) && e.p in s.procs && s.procs[e.p].doing.name == name;
    assert DoingOk(s, e.p);
  }

  /** The process holds the grammar to read it, all the way through. */
  predicate Reading(s: World, es: seq<Event>, p: Pid, name: Name)
    decreases |es|
  {
    && Holding(s, p, name) && !Writing(s, p, name)
    && (es == [] || Reading(Do(s, es[0]).1, es[1..], p, name))
  }

  lemma {:induction false} WriterIsAlone(s: World, p: Pid, q: Pid, name: Name)
    requires LocksOk(s) && Writing(s, p, name) && Holding(s, q, name)
    ensures p == q
  {
    assert HeldOk(s, p, name) && HeldOk(s, q, name);
  }

  /** Nothing a reader can see of a grammar changes while it holds it, whatever every
      process does, killed or not. */
  lemma {:induction false} ReaderSeesOneTree(s: World, es: seq<Event>, p: Pid, name: Name)
    requires LocksOk(s) && Reading(s, es, p, name)
    ensures FilesOf(Ran(s, es), name) == FilesOf(s, name)
    decreases |es|
  {
    if es != [] {
      var e := es[0];
      if FilesOf(Do(s, e).1, name) != FilesOf(s, name) {
        FilesChangeUnderWriter(s, e, name);
        WriterIsAlone(s, e.p, p, name);
      }
      StepKeepsLocks(s, e);
      ReaderSeesOneTree(Do(s, e).1, es[1..], p, name);
    }
  }

  /** So the three invocations of one measurement see one grammar and one parser, the parser
      made from that grammar. */
  lemma {:induction false} MeasurementIsConsistent(before: seq<Event>, during: seq<Event>, p: Pid, name: Name)
    requires SafeRun(EMPTY, before) && Reading(Ran(EMPTY, before), during, p, name)
    ensures FilesOf(Ran(Ran(EMPTY, before), during), name) == FilesOf(Ran(EMPTY, before), name)
    ensures Consistent(FilesOf(Ran(EMPTY, before), name))
  {
    EmptyIsOk();
    RunKeepsLocks(EMPTY, before);
    var s := Ran(EMPTY, before);
    ReaderSeesOneTree(s, during, p, name);
    forall q | q in s.procs ensures !Writing(s, q, name) {
      if Writing(s, q, name) {
        WriterIsAlone(s, q, p, name);
      }
    }
    QuietParserIsCurrent(before, name);
  }

  // ---- what is not promised

  /** One lane's build, from the lock to its release. */
  function Cycle(p: Pid, name: Name, want: Bytes): seq<Event> {
    [Enter(p, name, true), Register(p), Build(p, name, want), Advance(p, true), Advance(p, true), Advance(p, true),
     Advance(p, true), Advance(p, true), Leave(p), Unlock(p)]
  }

  const RESTING := Proc(map[], [], Idle)

  lemma {:induction false} RanConcat(s: World, a: seq<Event>, b: seq<Event>)
    ensures Ran(s, a + b) == Ran(Ran(s, a), b)
    decreases |a|
  {
    if a == [] {
      assert a + b == b;
    } else {
      assert (a + b)[1..] == a[1..] + b;
      RanConcat(Do(s, a[0]).1, a[1..], b);
    }
  }

  lemma {:induction false} RanTwo(s: World, a: Event, b: Event)
    ensures Ran(s, [a, b]) == Do(Do(s, a).1, b).1
  {
    assert [a, b][1..] == [b] && [b][1..] == [];
    assert Ran(Do(s, a).1, [b]) == Ran(Do(Do(s, a).1, b).1, []);
  }

  /** Alone at the lock, a resting process takes it. */
  lemma {:induction false} TakesLock(s: World, p: Pid, name: Name, writing: bool)
    requires p in s.procs && s.procs[p] == RESTING && forall q :: (q, name) !in s.grants
    ensures Ran(s, [Enter(p, name, writing), Register(p)])
         == With(s, p, Proc(map[name := (1, writing)], [Context(name, true)], Idle))
            .(grants := s.grants[(p, name) := writing])
  {
    RanTwo(s, Enter(p, name, writing), Register(p));
    assert [] + [Context(name, true)] == [Context(name, true)];
  }

  /** The first two steps of a build: the digest is looked at. */
  lemma {:induction false} Looks(s: World, p: Pid, name: Name, want: Bytes)
    requires p in s.procs && s.procs[p] == Proc(map[name := (1, true)], [Context(name, true)], Idle)
    ensures var phase := if FilesOf(s, name).grammar == Some(want) then Probe else Stale;
            Ran(s, [Build(p, name, want), Advance(p, true)])
            == With(s, p, s.procs[p].(doing := Building(name, want, phase)))
  {
    RanTwo(s, Build(p, name, want), Advance(p, true));
    assert Do(s, Build(p, name, want)).1 == With(s, p, s.procs[p].(doing := Building(name, want, Look)));
  }

  /** The rest of it, from either outcome of the look. */
  lemma {:induction false} Lays(s: World, p: Pid, name: Name, want: Bytes)
    requires p in s.procs && s.procs[p].doing.Building?
    requires s.procs[p].doing.name == name && s.procs[p].doing.want == want
    requires s.procs[p].doing.phase == if FilesOf(s, name).grammar == Some(want) then Probe else Stale
    requires Consistent(FilesOf(s, name))
    ensures var s' := Ran(s, [Advance(p, true), Advance(p, true)] + [Advance(p, true), Advance(p, true)]);
            && s'.procs == s.procs[p := s.procs[p].(doing := Idle)] && s'.grants == s.grants
            && FilesOf(s', name) == Files(Some(want), Some(want))
  {
    var go := Advance(p, true);
    RanConcat(s, [go, go], [go, go]);
    RanTwo(s, go, go);
    RanTwo(Ran(s, [go, go]), go, go);
  }

  /** From inside its lock, a build lays its grammar down and makes its parser. */
  lemma {:induction false} Builds(s: World, p: Pid, name: Name, want: Bytes)
    requires p in s.procs && Consistent(FilesOf(s, name))
    requires s.procs[p] == Proc(map[name := (1, true)], [Context(name, true)], Idle)
    ensures var s' := Ran(s, [Build(p, name, want), Advance(p, true)]
                            + ([Advance(p, true), Advance(p, true)] + [Advance(p, true), Advance(p, true)]));
            s'.procs == s.procs && s'.grants == s.grants && FilesOf(s', name) == Files(Some(want), Some(want))
  {
    var go := Advance(p, true);
    RanConcat(s, [Build(p, name, want), go], [go, go] + [go, go]);
    Looks(s, p, name, want);
    Lays(Ran(s, [Build(p, name, want), go]), p, name, want);
  }

  lemma {:induction false} GivesLockBack(s: World, p: Pid, name: Name, grants: map<(Pid, Name), bool>)
    requires p in s.procs && (p, name) !in grants && s.grants == grants[(p, name) := true]
    requires s.procs[p] == Proc(map[name := (1, true)], [Context(name, true)], Idle)
    ensures Ran(s, [Leave(p), Unlock(p)]) == With(s, p, RESTING).(grants := grants)
  {
    RanTwo(s, Leave(p), Unlock(p));
    assert [Context(name, true)][..0] == [];
    assert map[name := (1, true)] - {name} == map[];
    assert s.grants - {(p, name)} == grants;
  }

  /** A cycle is its three parts: the lock taken, the build, the lock given back. */
  lemma {:induction false} CycleRuns(s: World, p: Pid, name: Name, want: Bytes)
    ensures var go := Advance(p, true);
            var taken := Ran(s, [Enter(p, name, true), Register(p)]);
            var built := Ran(taken, [Build(p, name, want), go] + ([go, go] + [go, go]));
            Ran(s, Cycle(p, name, want)) == Ran(built, [Leave(p), Unlock(p)])
  {
    var go := Advance(p, true);
    var take, give := [Enter(p, name, true), Register(p)], [Leave(p), Unlock(p)];
    var build := [Build(p, name, want), go] + ([go, go] + [go, go]);
    assert Cycle(p, name, want) == take + build + give;
    RanConcat(s, take + build, give);
    RanConcat(s, take, build);
  }

  /** A lane that finds the lock free leaves its own grammar and parser, and the lock free. */
  lemma {:induction false} CycleBuilds(s: World, p: Pid, name: Name, want: Bytes)
    requires p in s.procs && s.procs[p] == RESTING && Consistent(FilesOf(s, name)) && forall q :: (q, name) !in s.grants
    ensures var s' := Ran(s, Cycle(p, name, want));
            s'.procs == s.procs && s'.grants == s.grants && FilesOf(s', name) == Files(Some(want), Some(want))
  {
    var go := Advance(p, true);
    var taken := Ran(s, [Enter(p, name, true), Register(p)]);
    var built := Ran(taken, [Build(p, name, want), go] + ([go, go] + [go, go]));
    CycleRuns(s, p, name, want);
    TakesLock(s, p, name, true);
    Builds(taken, p, name, want);
    GivesLockBack(built, p, name, s.grants);
    assert s.procs[p := RESTING] == s.procs;
  }

  lemma {:induction false} NoKillIsSafe(s: World, es: seq<Event>)
    requires forall e :: e in es ==> !e.Kill?
    ensures SafeRun(s, es)
    decreases |es|
  {
    if es != [] {
      NoKillIsSafe(Do(s, es[0]).1, es[1..]);
    }
  }

  /** `measure` builds under one hold and reads under another, and between them another lane
      may lay down its own: a reader is promised a consistent tree, not the one it built. */
  lemma {:induction false} ReaderMayFindAnothersGrammar(name: Name, mine: Bytes, theirs: Bytes)
    ensures var es := [Spawn(0), Spawn(1)] + Cycle(0, name, mine) + Cycle(1, name, theirs)
                      + [Enter(0, name, false), Register(0)];
            var s := Ran(EMPTY, es);
            && SafeRun(EMPTY, es) && Holding(s, 0, name) && !Writing(s, 0, name)
            && FilesOf(s, name) == Files(Some(theirs), Some(theirs))
  {
    var two, a, b := [Spawn(0), Spawn(1)], Cycle(0, name, mine), Cycle(1, name, theirs);
    var read := [Enter(0, name, false), Register(0)];
    NoKillIsSafe(EMPTY, two + a + b + read);
    RanConcat(EMPTY, two + a + b, read);
    RanConcat(EMPTY, two + a, b);
    RanConcat(EMPTY, two, a);
    RanTwo(EMPTY, Spawn(0), Spawn(1));
    var s := Ran(EMPTY, two);
    CycleBuilds(s, 0, name, mine);
    CycleBuilds(Ran(s, a), 1, name, theirs);
    TakesLock(Ran(Ran(s, a), b), 0, name, false);
  }

  lemma {:induction false} OneCopier(s: World, p: Pid, q: Pid, name: Name)
    requires LocksOk(s) && Copying(s, p, name) && Copying(s, q, name)
    ensures p == q
  {
    assert DoingOk(s, p) && DoingOk(s, q);
    assert HeldOk(s, p, name) && HeldOk(s, q, name);
  }

  /** A kill leaves every parser in step exactly when the process is not past cutting a
      grammar that a parser was made from. */
  lemma {:induction false} KillLeavesStaleParser(s: World, p: Pid)
    requires LocksOk(s) && FilesOk(s) && p in s.procs
    ensures FilesOk(Do(s, Kill(p)).1) <==> Safe(s, p)
  {
    var s' := Do(s, Kill(p)).1;
    if Safe(s, p) {
      StepKeepsFiles(s, Kill(p));
    } else {
      var name := s.procs[p].doing.name;
      forall q ensures !Copying(s', q, name) {
        if Copying(s, q, name) {
          OneCopier(s, p, q, name);
        }
      }
      assert !Consistent(FilesOf(s', name)) && !Halfway(s', name);
    }
  }

  /** A process that has just looked, its own new grammar in hand. */
  lemma {:induction false} CutsGrammar(s: World, p: Pid, name: Name, was: Bytes, want: Bytes)
    requires p in s.procs && s.procs[p] == Proc(map[name := (1, true)], [Context(name, true)], Idle)
    requires FilesOf(s, name) == Files(Some(was), Some(was)) && was != want
    ensures var es := [Build(p, name, want), Advance(p, true)] + [Advance(p, true)];
            var cut := Ran(s, es);
            && SafeRun(s, es) && FilesOf(cut, name) == Files(Some(""), Some(was)) && cut.procs.Keys == s.procs.Keys
            && cut.procs[p].doing == Building(name, want, Torn)
            && FilesOf(Do(cut, Advance(p, true)).1, name) == Files(Some(want), Some(was))
            && Do(cut, Advance(p, true)).1.procs[p].doing == Building(name, want, Copied)
  {
    var go := Advance(p, true);
    NoKillIsSafe(s, [Build(p, name, want), go] + [go]);
    RanConcat(s, [Build(p, name, want), go], [go]);
    Looks(s, p, name, want);
    var looked := Ran(s, [Build(p, name, want), go]);
    assert [go][1..] == [];
    assert Ran(looked, [go]) == Ran(Do(looked, go).1, []);
  }

  /** A process past the cut, with another grammar's parser still there, strands it if killed. */
  lemma {:induction false} StrandsParser(s: World, p: Pid, name: Name)
    requires LocksOk(s) && FilesOk(s) && Copying(s, p, name) && !Consistent(FilesOf(s, name))
    ensures var killed := Do(s, Kill(p)).1;
            !Safe(s, p) && FilesOf(killed, name) == FilesOf(s, name) && !FilesOk(killed)
  {
    KillLeavesStaleParser(s, p);
  }

  /** A lane lays one grammar down, and then begins to cut it to lay another. */
  function Replacing(p: Pid, name: Name, was: Bytes, want: Bytes): seq<Event> {
    Cycle(p, name, was) + [Enter(p, name, true), Register(p)]
    + ([Build(p, name, want), Advance(p, true)] + [Advance(p, true)])
  }

  lemma {:induction false} ReplacingCuts(s: World, p: Pid, name: Name, was: Bytes, want: Bytes)
    requires was != want
    requires p in s.procs && s.procs[p] == RESTING && Consistent(FilesOf(s, name)) && forall q :: (q, name) !in s.grants
    ensures var torn := Ran(s, Replacing(p, name, was, want));
            var copied := Do(torn, Advance(p, true)).1;
            && Copying(torn, p, name) && Copying(copied, p, name)
            && FilesOf(torn, name) == Files(Some(""), Some(was))
            && FilesOf(copied, name) == Files(Some(want), Some(was))
  {
    var a, take := Cycle(p, name, was), [Enter(p, name, true), Register(p)];
    var cut := [Build(p, name, want), Advance(p, true)] + [Advance(p, true)];
    RanConcat(s, a + take, cut);
    RanConcat(s, a, take);
    CycleBuilds(s, p, name, was);
    var laid := Ran(s, a);
    TakesLock(laid, p, name, true);
    CutsGrammar(Ran(laid, take), p, name, was, want);
  }

  lemma {:induction false} ReplacingKillsNobody(p: Pid, name: Name, was: Bytes, want: Bytes)
    ensures forall e :: e in Replacing(p, name, was, want) ==> !e.Kill?
  {
  }

  /** Both can happen: from the empty world, a lane that replaces one grammar by another and is
      killed inside its copy, or just after it, leaves the old parser beside what it wrote. */
  lemma {:induction false} KillCanStrandParser(name: Name, was: Bytes, want: Bytes)
    requires was != "" && was != want
    ensures var es := [Spawn(0)] + Replacing(0, name, was, want);
            var torn := Ran(EMPTY, es);
            var copied := Do(torn, Advance(0, true)).1;
            && SafeRun(EMPTY, es)
            && FilesOf(Do(torn, Kill(0)).1, name) == Files(Some(""), Some(was)) && !FilesOk(Do(torn, Kill(0)).1)
            && FilesOf(Do(copied, Kill(0)).1, name) == Files(Some(want), Some(was)) && !FilesOk(Do(copied, Kill(0)).1)
  {
    var s, rest := Do(EMPTY, Spawn(0)).1, Replacing(0, name, was, want);
    var es := [Spawn(0)] + rest;
    ReplacingKillsNobody(0, name, was, want);
    NoKillIsSafe(EMPTY, es);
    assert es[1..] == rest;
    ReplacingCuts(s, 0, name, was, want);
    EmptyIsOk();
    RunKeepsLocks(EMPTY, es);
    RunKeepsFiles(EMPTY, es);
    var torn := Ran(EMPTY, es);
    StepKeepsLocks(torn, Advance(0, true));
    StepKeepsFiles(torn, Advance(0, true));
    StrandsParser(torn, 0, name);
    StrandsParser(Do(torn, Advance(0, true)).1, 0, name);
  }

  // ---- when a measurement does see its own grammar

  /** What a build knows of its directory: about to copy, that the grammar there is not its
      own; once it has copied, or has seen no need to, that it is. */
  predicate Knows(s: World, q: Pid)
    requires q in s.procs && s.procs[q].doing.Building?
  {
    var d := s.procs[q].doing;
    var grammar := FilesOf(s, d.name).grammar;
    && (d.phase.Stale? ==> grammar != Some(d.want))
    && (d.phase.Copied? || d.phase.Probe? ==> grammar == Some(d.want))
  }

  ghost predicate BuildsOk(s: World) {
    forall q :: q in s.procs && s.procs[q].doing.Building? ==> Knows(s, q)
  }

  lemma {:induction false} AdvanceKnows(s: World, p: Pid, generated: bool)
    requires p in s.procs && s.procs[p].doing.Building? && Knows(s, p)
    ensures var s' := Advanced(s, p, generated);
            s'.procs[p].doing.Building? ==> Knows(s', p)
  {
  }

  lemma {:induction false} ActorKnows(s: World, e: Event)
    requires BuildsOk(s) && e.p in Do(s, e).1.procs && Do(s, e).1.procs[e.p].doing.Building?
    ensures Knows(Do(s, e).1, e.p)
  {
    if e.Advance? && s.procs[e.p].doing.Building? {
      AdvanceKnows(s, e.p, e.generated);
    }
  }

  lemma {:induction false} StepKeepsBuilds(s: World, e: Event)
    requires LocksOk(s) && BuildsOk(s)
    ensures BuildsOk(Do(s, e).1)
  {
    var s' := Do(s, e).1;
    forall q | q in s'.procs && s'.procs[q].doing.Building? ensures Knows(s', q) {
      if q == e.p {
        ActorKnows(s, e);
      } else {
        OthersUntouched(s, e, q);
        BuilderIsLeftAlone(s, e, q);
      }
    }
  }

  /** No other process touches the files a build is under way on. */
  lemma {:induction false} BuilderIsLeftAlone(s: World, e: Event, q: Pid)
    requires LocksOk(s) && q in s.procs && q != e.p && s.procs[q].doing.Building?
    ensures FilesOf(Do(s, e).1, s.procs[q].doing.name) == FilesOf(s, s.procs[q].doing.name)
  {
    var name := s.procs[q].doing.name;
    assert DoingOk(s, q);
    if FilesOf(Do(s, e).1, name) != FilesOf(s, name) {
      FilesChangeUnderWriter(s, e, name);
      WriterIsAlone(s, e.p, q, name);
    }
  }

  /** The grammar there is one lane's, and nobody is building another. */
  ghost predicate Mine(s: World, name: Name, mine: Bytes) {
    && FilesOf(s, name).grammar == Some(mine)
    && forall q :: q in s.procs && s.procs[q].doing.Building? && s.procs[q].doing.name == name ==>
         s.procs[q].doing.want == mine
  }

  /** Nobody begins to build another. */
  predicate OnlyMine(es: seq<Event>, name: Name, mine: Bytes) {
    forall e :: e in es && e.Build? && e.name == name ==> e.want == mine
  }

  lemma {:induction false} GrammarIsKept(s: World, e: Event, name: Name, mine: Bytes)
    requires BuildsOk(s) && Mine(s, name, mine)
    ensures FilesOf(Do(s, e).1, name).grammar == Some(mine)
  {
    assert mine[..|mine|] == mine;
  }

  lemma {:induction false} StepKeepsMine(s: World, e: Event, name: Name, mine: Bytes)
    requires BuildsOk(s) && Mine(s, name, mine) && (e.Build? && e.name == name ==> e.want == mine)
    ensures Mine(Do(s, e).1, name, mine)
  {
    var s' := Do(s, e).1;
    GrammarIsKept(s, e, name, mine);
    forall q | q in s'.procs && s'.procs[q].doing.Building? && s'.procs[q].doing.name == name
      ensures s'.procs[q].doing.want == mine
    {
      if q != e.p {
        OthersUntouched(s, e, q);
      }
    }
  }

  /** In any interleaving, with any kills, a grammar stays what it is until someone begins to
      build another. */
  lemma {:induction false} GrammarStaysMine(s: World, es: seq<Event>, name: Name, mine: Bytes)
    requires LocksOk(s) && BuildsOk(s) && Mine(s, name, mine) && OnlyMine(es, name, mine)
    ensures Mine(Ran(s, es), name, mine)
    decreases |es|
  {
    if es != [] {
      StepKeepsMine(s, es[0], name, mine);
      StepKeepsLocks(s, es[0]);
      StepKeepsBuilds(s, es[0]);
      GrammarStaysMine(Do(s, es[0]).1, es[1..], name, mine);
    }
  }

  lemma {:induction false} RunKeepsBuilds(s: World, es: seq<Event>)
    requires LocksOk(s) && BuildsOk(s)
    ensures BuildsOk(Ran(s, es))
    decreases |es|
  {
    if es != [] {
      StepKeepsLocks(s, es[0]);
      StepKeepsBuilds(s, es[0]);
      RunKeepsBuilds(Do(s, es[0]).1, es[1..]);
    }
  }

  /** Only one process builds a grammar at a time. */
  lemma {:induction false} OneBuilder(s: World, p: Pid, q: Pid)
    requires LocksOk(s) && p in s.procs && q in s.procs
    requires s.procs[p].doing.Building? && s.procs[q].doing.Building? && s.procs[p].doing.name == s.procs[q].doing.name
    ensures p == q
  {
    assert DoingOk(s, p) && DoingOk(s, q);
    WriterIsAlone(s, p, q, s.procs[p].doing.name);
  }

  /** A process has laid its grammar down, or found it there, and is to look for a parser. */
  predicate Laid(s: World, p: Pid, name: Name, mine: Bytes) {
    p in s.procs && s.procs[p].doing == Building(name, mine, Probe)
  }

  lemma {:induction false} LaidIsMine(s: World, p: Pid, name: Name, mine: Bytes)
    requires LocksOk(s) && BuildsOk(s) && Laid(s, p, name, mine)
    ensures Mine(s, name, mine)
  {
    assert Knows(s, p);
    forall q | q in s.procs && s.procs[q].doing.Building? && s.procs[q].doing.name == name
      ensures s.procs[q].doing.want == mine
    {
      OneBuilder(s, p, q);
    }
  }

  lemma {:induction false} ReachableIsOk(es: seq<Event>)
    ensures LocksOk(Ran(EMPTY, es)) && BuildsOk(Ran(EMPTY, es))
  {
    EmptyIsOk();
    RunKeepsLocks(EMPTY, es);
    RunKeepsBuilds(EMPTY, es);
  }

  /** However it came by its lock and whatever others did meanwhile, a build whose generator
      succeeds leaves its own grammar with the parser made from it. */
  lemma {:induction false} BuildLaysItsOwn(before: seq<Event>, p: Pid, name: Name, mine: Bytes)
    requires SafeRun(EMPTY, before) && Laid(Ran(EMPTY, before), p, name, mine)
    ensures FilesOf(Do(Ran(EMPTY, before), Advance(p, true)).1, name) == Files(Some(mine), Some(mine))
  {
    var s := Ran(EMPTY, before);
    ReachableIsOk(before);
    EmptyIsOk();
    RunKeepsFiles(EMPTY, before);
    LaidIsMine(s, p, name, mine);
    if Halfway(s, name) {
      var q :| Copying(s, q, name);
      OneBuilder(s, p, q);
    }
    assert Consistent(FilesOf(s, name));
  }

  /** A build whose generator fails leaves its own grammar, and no parser but one made from it. */
  lemma {:induction false} FailedBuildLeavesNoOther(before: seq<Event>, p: Pid, name: Name, mine: Bytes)
    requires SafeRun(EMPTY, before) && Laid(Ran(EMPTY, before), p, name, mine)
    ensures var f := FilesOf(Do(Ran(EMPTY, before), Advance(p, false)).1, name);
            f == FilesOf(Ran(EMPTY, before), name) && f.grammar == Some(mine)
            && (f.parser == None || f.parser == Some(mine))
  {
    var s := Ran(EMPTY, before);
    ReachableIsOk(before);
    EmptyIsOk();
    RunKeepsFiles(EMPTY, before);
    LaidIsMine(s, p, name, mine);
    if Halfway(s, name) {
      var q :| Copying(s, q, name);
      OneBuilder(s, p, q);
    }
    assert Consistent(FilesOf(s, name));
  }

  /** A build that finds its grammar in place looks no further than whether a parser is there: one
      that was stranded beside it stays. */
  lemma {:induction false} StrandedParserStays(s: World, p: Pid, name: Name, mine: Bytes, old_: Bytes, generated: bool)
    requires Laid(s, p, name, mine) && FilesOf(s, name) == Files(Some(mine), Some(old_))
    ensures FilesOf(Do(s, Advance(p, generated)).1, name) == Files(Some(mine), Some(old_))
    ensures Do(s, Advance(p, generated)).1.procs[p].doing == Idle
  {
  }

  /** A refresh leaves no parser, and the grammar as it was. */
  lemma {:induction false} RefreshDropsParser(es: seq<Event>, p: Pid, name: Name, generated: bool)
    requires var s := Ran(EMPTY, es); p in s.procs && s.procs[p].doing == Refreshing(name)
    ensures var s, s' := Ran(EMPTY, es), Do(Ran(EMPTY, es), Advance(p, generated)).1;
            && FilesOf(s', name) == Files(FilesOf(s, name).grammar, None) && s'.procs[p].doing == Idle
            && forall other :: other != name ==> FilesOf(s', other) == FilesOf(s, other)
  {
  }

  /** So a lane that builds under one hold and reads under another does see its own grammar,
      throughout its reading, whenever nobody began to build another in between: in any
      interleaving before, between and during, with any kills. */
  lemma {:induction false} MeasurementSeesItsOwn(before: seq<Event>, between: seq<Event>, during: seq<Event>,
                                                 p: Pid, name: Name, mine: Bytes)
    requires Laid(Ran(EMPTY, before), p, name, mine) && OnlyMine(between, name, mine)
    requires Reading(Ran(Ran(EMPTY, before), between), during, p, name)
    ensures FilesOf(Ran(Ran(Ran(EMPTY, before), between), during), name).grammar == Some(mine)
  {
    var s := Ran(EMPTY, before);
    ReachableIsOk(before);
    LaidIsMine(s, p, name, mine);
    GrammarStaysMine(s, between, name, mine);
    RunKeepsLocks(s, between);
    ReaderSeesOneTree(Ran(s, between), during, p, name);
  }

  /** And the parser it reads with was made from it, when no build was killed half-way. */
  lemma {:induction false} MeasurementUsesItsOwn(before: seq<Event>, between: seq<Event>, during: seq<Event>,
                                                 p: Pid, name: Name, mine: Bytes)
    requires SafeRun(EMPTY, before + between)
    requires Laid(Ran(EMPTY, before), p, name, mine) && OnlyMine(between, name, mine)
    requires Reading(Ran(Ran(EMPTY, before), between), during, p, name)
    ensures var f := FilesOf(Ran(Ran(Ran(EMPTY, before), between), during), name);
            f.grammar == Some(mine) && (f.parser == None || f.parser == Some(mine))
  {
    MeasurementSeesItsOwn(before, between, during, p, name, mine);
    RanConcat(EMPTY, before, between);
    MeasurementIsConsistent(before + between, during, p, name);
  }

  /** A cycle that finds the lock free and is not interrupted is one such build. */
  lemma {:induction false} CycleSeesItsOwn(before: seq<Event>, between: seq<Event>, during: seq<Event>,
                                           p: Pid, name: Name, mine: Bytes)
    requires SafeRun(EMPTY, before) && OnlyMine(between, name, mine)
    requires var s := Ran(EMPTY, before);
             && p in s.procs && s.procs[p] == RESTING && forall q :: (q, name) !in s.grants
    requires Reading(Ran(Ran(Ran(EMPTY, before), Cycle(p, name, mine)), between), during, p, name)
    ensures var read := Ran(Ran(Ran(Ran(EMPTY, before), Cycle(p, name, mine)), between), during);
            FilesOf(read, name).grammar == Some(mine)
  {
    var s := Ran(EMPTY, before);
    ReachableIsOk(before);
    NobodyWrites(s, name);
    QuietParserIsCurrent(before, name);
    CycleBuilds(s, p, name, mine);
    var built := Ran(s, Cycle(p, name, mine));
    RunKeepsLocks(s, Cycle(p, name, mine));
    RunKeepsBuilds(s, Cycle(p, name, mine));
    NobodyWrites(built, name);
    GrammarStaysMine(built, between, name, mine);
    RunKeepsLocks(built, between);
    ReaderSeesOneTree(Ran(built, between), during, p, name);
  }

  /** With the lock free, nobody holds the grammar and nobody builds it. */
  lemma {:induction false} NobodyWrites(s: World, name: Name)
    requires LocksOk(s) && forall q :: (q, name) !in s.grants
    ensures forall q :: q in s.procs ==> !Writing(s, q, name)
    ensures forall q :: q in s.procs ==> !(s.procs[q].doing.Building? && s.procs[q].doing.name == name)
  {
    forall q | q in s.procs
      ensures !Writing(s, q, name) && !(s.procs[q].doing.Building? && s.procs[q].doing.name == name)
    {
      assert HeldOk(s, q, name) && DoingOk(s, q);
    }
  }
}
