/** Every symbol a parse of a rule can contain: the closure of a grammar's references. */
module Reachable {

  type Symbols = set<string>

  type Table = map<string, Symbols>

  function Get(out: Table, k: string): Symbols {
    if k in out then out[k] else {}
  }

  /** What the symbols of a set reach, as the table stands. */
  function Kin(out: Table, got: Symbols): Symbols {
    set k, b | k in got && b in Get(out, k) :: b
  }

  // ---- reference, step by step

  /** A walk of one or more references. */
  predicate Walk(direct: Table, p: seq<string>)
    decreases |p|
  {
    |p| >= 2 && p[1] in Get(direct, p[0]) && (|p| == 2 || Walk(direct, p[1..]))
  }

  ghost predicate Reaches(direct: Table, a: string, b: string) {
    exists p: seq<string> :: Walk(direct, p) && p[0] == a && p[|p| - 1] == b
  }

  lemma {:induction false} DirectReaches(direct: Table, a: string, b: string)
    requires b in Get(direct, a)
    ensures Reaches(direct, a, b)
  {
    assert Walk(direct, [a, b]);
  }

  lemma {:induction false} ReachesOn(direct: Table, a: string, b: string, c: string)
    requires Reaches(direct, a, b) && Reaches(direct, b, c)
    ensures Reaches(direct, a, c)
  {
    var p: seq<string> :| Walk(direct, p) && p[0] == a && p[|p| - 1] == b;
    var q: seq<string> :| Walk(direct, q) && q[0] == b && q[|q| - 1] == c;
    WalkOn(direct, p, q);
    var r := p + q[1..];
    assert r[0] == a && r[|r| - 1] == c;
  }

  lemma {:induction false} WalkOn(direct: Table, p: seq<string>, q: seq<string>)
    requires Walk(direct, p) && Walk(direct, q) && p[|p| - 1] == q[0]
    ensures Walk(direct, p + q[1..])
    decreases |p|
  {
    var r := p + q[1..];
    if |p| == 2 {
      assert r[1..] == q;
    } else {
      WalkOn(direct, p[1..], q);
      assert r[1..] == p[1..] + q[1..];
    }
  }

  // ---- the closed table

  ghost predicate SoundTable(direct: Table, out: Table) {
    out.Keys == direct.Keys
    && (forall n :: n in direct ==> direct[n] <= out[n])
    && (forall n, b :: n in out && b in out[n] ==> Reaches(direct, n, b))
  }

  predicate ClosedAt(out: Table, n: string)
    requires n in out
  {
    Kin(out, out[n]) <= out[n]
  }

  /** A sound table closed everywhere holds everything reachable. */
  lemma {:induction false} ClosedIsComplete(direct: Table, out: Table, n: string, b: string)
    requires SoundTable(direct, out) && (forall m :: m in out ==> ClosedAt(out, m))
    requires Reaches(direct, n, b)
    ensures n in out && b in out[n]
  {
    var p: seq<string> :| Walk(direct, p) && p[0] == n && p[|p| - 1] == b;
    ClosedHoldsWalk(direct, out, p);
  }

  lemma {:induction false} ClosedHoldsWalk(direct: Table, out: Table, p: seq<string>)
    requires SoundTable(direct, out) && (forall m :: m in out ==> ClosedAt(out, m))
    requires Walk(direct, p)
    ensures p[0] in out && p[|p| - 1] in out[p[0]]
    decreases |p|
  {
    assert p[1] in direct[p[0]];
    if |p| > 2 {
      ClosedHoldsWalk(direct, out, p[1..]);
      assert p[1..][|p| - 2] == p[|p| - 1] && p[1..][0] == p[1];
      assert p[1] in out[p[0]] && p[|p| - 1] in Get(out, p[1]);
      assert p[|p| - 1] in Kin(out, out[p[0]]);
      assert ClosedAt(out, p[0]);
    }
  }

  lemma {:induction false} GrowingIsSound(direct: Table, out: Table, n: string)
    requires SoundTable(direct, out) && n in out
    ensures SoundTable(direct, out[n := out[n] + Kin(out, out[n])])
  {
    forall b | b in Kin(out, out[n]) ensures Reaches(direct, n, b) {
      var k :| k in out[n] && b in Get(out, k);
      ReachesOn(direct, n, k, b);
    }
  }

  // ---- the iteration

  function Universe(order: seq<string>, direct: Table): Symbols {
    if order == [] then {} else Get(direct, order[0]) + Universe(order[1..], direct)
  }

  lemma {:induction false} UniverseHolds(order: seq<string>, direct: Table, n: string)
    requires n in order
    ensures Get(direct, n) <= Universe(order, direct)
    decreases |order|
  {
    if n != order[0] {
      UniverseHolds(order[1..], direct, n);
    }
  }

  /** Room left for the table to grow. */
  function Room(order: seq<string>, all: Symbols, out: Table): nat {
    if order == [] then 0 else |all - Get(out, order[0])| + Room(order[1..], all, out)
  }

  lemma {:induction false} Smaller<T>(a: set<T>, b: set<T>)
    requires a <= b
    ensures |a| <= |b| && (a != b ==> |a| < |b|)
  {
    var rest := b - a;
    assert b == a + rest;
    if a != b {
      assert rest != {};
    }
  }

  lemma {:induction false} RoomShrinks(order: seq<string>, all: Symbols, out: Table, n: string, more: Symbols)
    requires n in out && out[n] <= more <= all
    ensures Room(order, all, out[n := more]) <= Room(order, all, out)
    ensures n in order && more != out[n] ==> Room(order, all, out[n := more]) < Room(order, all, out)
    decreases |order|
  {
    if order != [] {
      RoomShrinks(order[1..], all, out, n, more);
      if order[0] == n {
        Smaller(all - more, all - out[n]);
        if more != out[n] {
          var x :| x in more && x !in out[n];
          assert x in all - out[n] && x !in all - more;
        }
      }
    }
  }

  ghost predicate Bounded(all: Symbols, out: Table) {
    forall n :: n in out ==> out[n] <= all
  }

  lemma {:induction false} KinIsBounded(all: Symbols, out: Table, got: Symbols)
    requires Bounded(all, out)
    ensures Kin(out, got) <= all
  {
  }

  /** The fixpoint, in place and in the order the rules are declared: exactly the symbols
      reachable by one or more references, cycles and all. */
  method Close(order: seq<string>, direct: Table) returns (out: Table)
    requires forall n :: n in direct <==> n in order
    ensures out.Keys == direct.Keys
    ensures forall n, b :: n in out ==> (b in out[n] <==> Reaches(direct, n, b))
  {
    out := direct;
    ghost var all := Universe(order, direct);
    forall n | n in direct ensures direct[n] <= all {
      UniverseHolds(order, direct, n);
    }
    forall n, b | n in direct && b in direct[n] ensures Reaches(direct, n, b) {
      DirectReaches(direct, n, b);
    }
    var moved := true;
    while moved
      invariant Growing(order, direct, all, out)
      invariant !moved ==> forall k :: 0 <= k < |order| ==> ClosedAt(out, order[k])
      decreases Room(order, all, out), if moved then 1 else 0
    {
      out, moved := Sweep(order, direct, out, all);
    }
    forall n | n in out ensures ClosedAt(out, n) {
      var k :| 0 <= k < |order| && order[k] == n;
    }
    forall n, b | n in out && Reaches(direct, n, b) ensures b in out[n] {
      ClosedIsComplete(direct, out, n, b);
    }
  }

  ghost predicate Growing(order: seq<string>, direct: Table, all: Symbols, out: Table) {
    SoundTable(direct, out) && Bounded(all, out) && forall n :: n in out <==> n in order
  }

  function Grown(out: Table, n: string): Symbols
    requires n in out
  {
    out[n] + Kin(out, out[n])
  }

  lemma {:induction false} GrownIsBounded(all: Symbols, out: Table, n: string)
    requires Bounded(all, out) && n in out
    ensures Grown(out, n) <= all && Bounded(all, out[n := Grown(out, n)])
  {
    KinIsBounded(all, out, out[n]);
  }

  lemma {:induction false} GrowsFurther(order: seq<string>, direct: Table, all: Symbols, out: Table, n: string)
    requires Growing(order, direct, all, out) && n in order
    ensures Growing(order, direct, all, out[n := Grown(out, n)])
    ensures Grown(out, n) != out[n] ==> Room(order, all, out[n := Grown(out, n)]) < Room(order, all, out)
    ensures Grown(out, n) == out[n] ==> ClosedAt(out, n)
  {
    GrowingIsSound(direct, out, n);
    GrownIsBounded(all, out, n);
    RoomShrinks(order, all, out, n, Grown(out, n));
  }

  /** A pass under way: sound and bounded, and either nothing has moved and all so far are
      closed, or there is less room than there was. */
  ghost predicate Passing(order: seq<string>, direct: Table, all: Symbols, was: Table, out: Table, moved: bool, i: nat)
    requires i <= |order|
  {
    && Growing(order, direct, all, out)
    && (!moved ==> out == was && forall k :: 0 <= k < i ==> ClosedAt(out, order[k]))
    && (moved ==> Room(order, all, out) < Room(order, all, was))
  }

  lemma {:induction false} PassGoesOn(order: seq<string>, direct: Table, all: Symbols, was: Table, out: Table,
                                      moved: bool, i: nat)
    requires i < |order| && Passing(order, direct, all, was, out, moved, i)
    ensures order[i] in out
    ensures var grew := Grown(out, order[i]);
            if grew != out[order[i]] then Passing(order, direct, all, was, out[order[i] := grew], true, i + 1)
            else Passing(order, direct, all, was, out, moved, i + 1)
  {
    assert order[i] in order;
    GrowsFurther(order, direct, all, out, order[i]);
  }

  /** One pass over the rules, each seeing what the ones before it have grown to. */
  method Sweep(order: seq<string>, ghost direct: Table, was: Table, ghost all: Symbols)
    returns (out: Table, moved: bool)
    requires Growing(order, direct, all, was)
    ensures Passing(order, direct, all, was, out, moved, |order|)
  {
    out, moved := was, false;
    var i := 0;
    while i < |order|
      invariant 0 <= i <= |order| && Passing(order, direct, all, was, out, moved, i)
    {
      PassGoesOn(order, direct, all, was, out, moved, i);
      var grew := Grown(out, order[i]);
      if grew != out[order[i]] {
        out, moved := out[order[i] := grew], true;
      }
      i := i + 1;
    }
  }

  // ---- aliases

  /** One alias name takes in its contents and what they reach, as the table stands. */
  function Taken(out: Table, name: string, seeds: Symbols): Table {
    out[name := Get(out, name) + seeds + Kin(out, seeds)]
  }

  function Aliased(out: Table, aliases: seq<(string, Symbols)>): Table
    decreases |aliases|
  {
    if aliases == [] then out else Aliased(Taken(out, aliases[0].0, aliases[0].1), aliases[1..])
  }

  method TakeAliases(closed: Table, aliases: seq<(string, Symbols)>) returns (out: Table)
    ensures out == Aliased(closed, aliases)
  {
    out := closed;
    var i := 0;
    while i < |aliases|
      invariant 0 <= i <= |aliases|
      invariant Aliased(out, aliases[i..]) == Aliased(closed, aliases)
    {
      assert aliases[i..][1..] == aliases[i + 1..];
      var (name, seeds) := aliases[i];
      out := out[name := Get(out, name) + seeds + Kin(out, seeds)];
      i := i + 1;
    }
  }

  predicate Distinct(aliases: seq<(string, Symbols)>) {
    forall i, k :: 0 <= i < k < |aliases| ==> aliases[i].0 != aliases[k].0
  }

  /** What an alias name should come to: what it had, its contents, and their closure. */
  function Target(out: Table, alias: (string, Symbols)): Symbols {
    Get(out, alias.0) + alias.1 + Kin(out, alias.1)
  }

  /** The alias loop gives a name exactly that. */
  ghost predicate Exact(out: Table, aliases: seq<(string, Symbols)>, i: nat)
    requires i < |aliases|
  {
    Get(Aliased(out, aliases), aliases[i].0) == Target(out, aliases[i])
  }

  /** An alias whose contents name an earlier alias already reaches what that one comes to. */
  ghost predicate Settled(out: Table, aliases: seq<(string, Symbols)>, m: nat, i: nat)
    requires m < i < |aliases|
  {
    aliases[m].0 in aliases[i].1 ==> Target(out, aliases[m]) <= Target(out, aliases[i])
  }

  lemma {:induction false} AliasedSnoc(out: Table, aliases: seq<(string, Symbols)>)
    requires aliases != []
    ensures var n := |aliases| - 1;
            Aliased(out, aliases) == Taken(Aliased(out, aliases[..n]), aliases[n].0, aliases[n].1)
    decreases |aliases|
  {
    var n := |aliases| - 1;
    if n == 0 {
      assert aliases[1..] == [] && aliases[..0] == [];
    } else {
      AliasedSnoc(Taken(out, aliases[0].0, aliases[0].1), aliases[1..]);
      assert aliases[..n][1..] == aliases[1..][..n - 1];
    }
  }

  /** A name no alias has is left as it was. */
  lemma {:induction false} OthersAreLeft(out: Table, aliases: seq<(string, Symbols)>, n: string)
    requires forall i :: 0 <= i < |aliases| ==> aliases[i].0 != n
    ensures Get(Aliased(out, aliases), n) == Get(out, n)
    decreases |aliases|
  {
    if aliases != [] {
      AliasedSnoc(out, aliases);
      OthersAreLeft(out, aliases[..|aliases| - 1], n);
    }
  }

  /** A later alias changes no name but its own. */
  lemma {:induction false} AliasKeeps(out: Table, aliases: seq<(string, Symbols)>, i: nat, k: nat)
    requires Distinct(aliases) && i < k <= |aliases|
    ensures Get(Aliased(out, aliases[..k]), aliases[i].0) == Get(Aliased(out, aliases[..i + 1]), aliases[i].0)
    decreases k
  {
    if k > i + 1 {
      AliasedSnoc(out, aliases[..k]);
      assert aliases[..k][..k - 1] == aliases[..k - 1];
      AliasKeeps(out, aliases, i, k - 1);
    }
  }

  /** What the loop gives a name: its target, and what its contents' earlier aliases came to. */
  lemma {:induction false} AliasComesTo(out: Table, aliases: seq<(string, Symbols)>, i: nat)
    requires Distinct(aliases) && i < |aliases|
    ensures Get(Aliased(out, aliases), aliases[i].0)
         == Get(out, aliases[i].0) + aliases[i].1 + Kin(Aliased(out, aliases[..i]), aliases[i].1)
  {
    AliasKeeps(out, aliases, i, |aliases|);
    assert aliases[..|aliases|] == aliases;
    AliasedSnoc(out, aliases[..i + 1]);
    assert aliases[..i + 1][..i] == aliases[..i];
    OthersAreLeft(out, aliases[..i], aliases[i].0);
  }

  /** What an alias sees of one symbol: what an earlier alias of that name came to, or the table. */
  lemma {:induction false} AliasSees(out: Table, aliases: seq<(string, Symbols)>, i: nat, k: string)
    requires Distinct(aliases) && i < |aliases|
    requires forall m :: 0 <= m < i ==> Exact(out, aliases, m)
    ensures var seen := Get(Aliased(out, aliases[..i]), k);
            || seen == Get(out, k)
            || exists m :: 0 <= m < i && aliases[m].0 == k && seen == Target(out, aliases[m])
    ensures forall m :: 0 <= m < i && aliases[m].0 == k ==>
              Get(Aliased(out, aliases[..i]), k) == Target(out, aliases[m])
  {
    if m :| 0 <= m < i && aliases[m].0 == k {
      AliasKeeps(out, aliases, m, i);
      AliasKeeps(out, aliases, m, |aliases|);
      assert aliases[..|aliases|] == aliases && Exact(out, aliases, m);
    } else {
      OthersAreLeft(out, aliases[..i], k);
    }
  }

  /** Each alias name gains exactly its contents and their closure if and only if each one
      whose contents name an earlier alias already reaches what that alias comes to. */
  lemma {:induction false} AliasesAddClosures(out: Table, aliases: seq<(string, Symbols)>)
    requires Distinct(aliases)
    ensures (forall i :: 0 <= i < |aliases| ==> Exact(out, aliases, i))
       <==> (forall m, i :: 0 <= m < i < |aliases| ==> Settled(out, aliases, m, i))
  {
    if forall i :: 0 <= i < |aliases| ==> Exact(out, aliases, i) {
      forall m, i | 0 <= m < i < |aliases| ensures Settled(out, aliases, m, i) {
        ExactIsSettled(out, aliases, m, i);
      }
    }
    if forall m, i :: 0 <= m < i < |aliases| ==> Settled(out, aliases, m, i) {
      forall i | 0 <= i < |aliases| ensures Exact(out, aliases, i) {
        SettledIsExact(out, aliases, i);
      }
    }
  }

  lemma {:induction false} ExactIsSettled(out: Table, aliases: seq<(string, Symbols)>, m: nat, i: nat)
    requires Distinct(aliases) && m < i < |aliases|
    requires forall k :: 0 <= k < |aliases| ==> Exact(out, aliases, k)
    ensures Settled(out, aliases, m, i)
  {
    var n := aliases[m].0;
    if n in aliases[i].1 {
      AliasComesTo(out, aliases, i);
      AliasSees(out, aliases, i, n);
      assert Exact(out, aliases, i);
      forall b | b in Target(out, aliases[m]) ensures b in Target(out, aliases[i]) {
        assert b in Get(Aliased(out, aliases[..i]), n);
      }
    }
  }

  lemma {:induction false} SettledIsExact(out: Table, aliases: seq<(string, Symbols)>, i: nat)
    requires Distinct(aliases) && i < |aliases|
    requires forall m, k :: 0 <= m < k < |aliases| ==> Settled(out, aliases, m, k)
    ensures Exact(out, aliases, i)
    decreases i
  {
    forall m | 0 <= m < i ensures Exact(out, aliases, m) {
      SettledIsExact(out, aliases, m);
    }
    AliasComesTo(out, aliases, i);
    var (name, seeds) := aliases[i];
    var seen := Aliased(out, aliases[..i]);
    forall k, b | k in seeds && b in Get(seen, k) ensures b in Target(out, aliases[i]) {
      AliasSees(out, aliases, i, k);
      if Get(seen, k) != Get(out, k) {
        var m :| 0 <= m < i && aliases[m].0 == k && Get(seen, k) == Target(out, aliases[m]);
        assert Settled(out, aliases, m, i);
      }
    }
    forall k, b | k in seeds && b in Get(out, k) ensures b in Get(seen, k) {
      AliasSees(out, aliases, i, k);
    }
  }

  /** The closed table of a grammar whose rule `s` is `x` renamed `y` beside `y` renamed `z`, and
      whose rules `x` and `y` refer to nothing. */
  function RenamedTwice(): Table {
    map["s" := {"x", "y"}, "x" := {}, "y" := {}]
  }

  /** An instance: over that table `z` holds `x` or not by which alias the grammar spells first. */
  lemma {:induction false} AliasOrderMatters()
    ensures var out, y, z := RenamedTwice(), ("y", {"x"}), ("z", {"y"});
            && (forall n :: n in out ==> ClosedAt(out, n))
            && Get(Aliased(out, [z, y]), "z") == {"y"} == Target(out, z)
            && Get(Aliased(out, [y, z]), "z") == {"x", "y"} && !Settled(out, [y, z], 0, 1)
  {
    var out, y, z := RenamedTwice(), ("y", {"x"}), ("z", {"y"});
    AliasesOfTwo(out, y, z);
    AliasesOfTwo(out, z, y);
    var renamed := Taken(out, "y", {"x"});
    assert Get(renamed, "y") == {"x"};
    assert Kin(renamed, {"y"}) == {"x"} by {
      assert "x" in Get(renamed, "y");
    }
    assert Kin(out, {"x"}) == {} && Kin(out, {"y"}) == {};
  }

  lemma {:induction false} AliasesOfTwo(out: Table, a: (string, Symbols), b: (string, Symbols))
    ensures Aliased(out, [a, b]) == Taken(Taken(out, a.0, a.1), b.0, b.1)
  {
    assert [a, b][1..] == [b] && [b][1..] == [];
    assert Aliased(Taken(out, a.0, a.1), [b]) == Aliased(Taken(Taken(out, a.0, a.1), b.0, b.1), []);
  }
}
