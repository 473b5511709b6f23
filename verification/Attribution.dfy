/** Objects attributed to records by each record's rarest field. */
module Attribution {
  import opened Jsons
  import opened Texts

  datatype Record = Record(owner: string, fields: seq<string>, required: set<string>)

  // ---- the index

  /** How many records require a field. */
  function Common(recs: seq<Record>, f: string): nat {
    if recs == [] then 0
    else Common(recs[..|recs| - 1], f) + (if f in recs[|recs| - 1].required then 1 else 0)
  }

  /** Rarer, or as rare and earlier by name. */
  predicate Rarer(recs: seq<Record>, f: string, g: string) {
    Common(recs, f) < Common(recs, g) || (Common(recs, f) == Common(recs, g) && (f == g || Precedes(f, g)))
  }

  /** The field a record is indexed by. */
  ghost predicate Anchors(recs: seq<Record>, r: Record, f: string) {
    f in r.required && forall g :: g in r.required ==> Rarer(recs, f, g)
  }

  method Rarest(recs: seq<Record>, required: set<string>) returns (f: string)
    requires required != {}
    ensures f in required && forall g :: g in required ==> Rarer(recs, f, g)
    ensures forall g :: g in required ==>
              |Requiring(recs, f)| < |Requiring(recs, g)|
              || (|Requiring(recs, f)| == |Requiring(recs, g)| && !Precedes(g, f))
  {
    var todo := required;
    f :| f in todo;
    todo := todo - {f};
    while todo != {}
      invariant todo <= required && f in required && f !in todo
      invariant forall g :: g in required && g !in todo ==> Rarer(recs, f, g)
      decreases todo
    {
      var g :| g in todo;
      PrecedesOrder(f, g, f);
      if !Rarer(recs, f, g) {
        forall h | h in required && h !in todo ensures Rarer(recs, g, h) {
          PrecedesOrder(g, f, h);
        }
        f := g;
      }
      todo := todo - {g};
    }
    forall g | g in required
      ensures |Requiring(recs, f)| < |Requiring(recs, g)|
              || (|Requiring(recs, f)| == |Requiring(recs, g)| && !Precedes(g, f))
    {
      CommonCounts(recs, f);
      CommonCounts(recs, g);
      PrecedesIsStrict(f, g);
      assert Rarer(recs, f, g);
    }
  }

  /** Which records require a field. */
  function Requiring(recs: seq<Record>, f: string): set<nat> {
    set i | 0 <= i < |recs| && f in recs[i].required
  }

  lemma {:induction false} CommonCounts(recs: seq<Record>, f: string)
    ensures Common(recs, f) == |Requiring(recs, f)|
    decreases |recs|
  {
    if recs != [] {
      var n := |recs| - 1;
      CommonCounts(recs[..n], f);
      assert Requiring(recs, f)
          == if f in recs[n].required then Requiring(recs[..n], f) + {n} else Requiring(recs[..n], f);
    }
  }

  type Index = map<string, seq<Record>>

  function Get(index: Index, k: string): seq<Record> {
    if k in index then index[k] else []
  }

  /** The records with a required field, each filed under one anchor, in order. */
  function Filed(recs: seq<Record>, anchors: seq<string>, k: string): seq<Record>
    requires |anchors| == |recs|
  {
    if recs == [] then [] else
    var n := |recs| - 1;
    Filed(recs[..n], anchors[..n], k)
    + (if recs[n].required != {} && anchors[n] == k then [recs[n]] else [])
  }

  ghost predicate Indexed(all: seq<Record>, recs: seq<Record>, anchors: seq<string>, index: Index) {
    && |anchors| == |recs|
    && (forall i :: 0 <= i < |recs| && recs[i].required != {} ==> Anchors(all, recs[i], anchors[i]))
    && (forall k :: Get(index, k) == Filed(recs, anchors, k))
  }

  lemma {:induction false} FilesOne(all: seq<Record>, recs: seq<Record>, anchors: seq<string>, index: Index, r: Record,
                                    anchor: string)
    requires Indexed(all, recs, anchors, index) && (r.required != {} ==> Anchors(all, r, anchor))
    ensures Indexed(all, recs + [r], anchors + [anchor],
                    if r.required == {} then index else index[anchor := Get(index, anchor) + [r]])
  {
    var recs', anchors' := recs + [r], anchors + [anchor];
    var index' := if r.required == {} then index else index[anchor := Get(index, anchor) + [r]];
    assert recs'[..|recs|] == recs && anchors'[..|anchors|] == anchors;
    forall k ensures Get(index', k) == Filed(recs', anchors', k) {
      assert Get(index, k) == Filed(recs, anchors, k);
    }
    forall i | 0 <= i < |recs'| && recs'[i].required != {} ensures Anchors(all, recs'[i], anchors'[i]) {
    }
  }

  method Spot(recs: seq<Record>) returns (index: Index)
    ensures exists anchors: seq<string> :: Indexed(recs, recs, anchors, index)
  {
    index := map[];
    ghost var anchors := [];
    var i := 0;
    while i < |recs|
      invariant 0 <= i <= |recs|
      invariant Indexed(recs, recs[..i], anchors, index)
    {
      assert recs[..i + 1] == recs[..i] + [recs[i]];
      var anchor := "";
      if recs[i].required != {} {
        anchor := Rarest(recs, recs[i].required);
        FilesOne(recs, recs[..i], anchors, index, recs[i], anchor);
        index := index[anchor := Get(index, anchor) + [recs[i]]];
      } else {
        FilesOne(recs, recs[..i], anchors, index, recs[i], anchor);
      }
      anchors := anchors + [anchor];
      i := i + 1;
    }
    assert recs[..|recs|] == recs;
  }

  // ---- attribution

  /** What a scan of every record finds: the non-empty requirements an object meets. */
  function Scan(recs: seq<Record>, keys: set<string>): seq<Record> {
    if recs == [] then [] else
    var n := |recs| - 1;
    Scan(recs[..n], keys) + (if recs[n].required != {} && recs[n].required <= keys then [recs[n]] else [])
  }

  function Meeting(s: seq<Record>, keys: set<string>): seq<Record> {
    if s == [] then [] else
    var n := |s| - 1;
    Meeting(s[..n], keys) + (if s[n].required <= keys then [s[n]] else [])
  }

  /** What the index finds: the records filed under each key in turn. */
  function Looked(index: Index, order: seq<string>, keys: set<string>): seq<Record> {
    if order == [] then [] else
    var n := |order| - 1;
    Looked(index, order[..n], keys) + Meeting(Get(index, order[n]), keys)
  }

  lemma {:induction false} MeetingFiled(recs: seq<Record>, anchors: seq<string>, k: string, keys: set<string>)
    requires recs != [] && |anchors| == |recs|
    ensures var n := |recs| - 1;
            Meeting(Filed(recs, anchors, k), keys)
            == Meeting(Filed(recs[..n], anchors[..n], k), keys)
               + (if recs[n].required != {} && anchors[n] == k && recs[n].required <= keys then [recs[n]] else [])
  {
    var n := |recs| - 1;
    var was := Filed(recs[..n], anchors[..n], k);
    if recs[n].required != {} && anchors[n] == k {
      assert (was + [recs[n]])[..|was|] == was;
    } else {
      assert was + [] == was;
    }
  }

  /** The same lookup over the index as a function of records and anchors. */
  function LookedIn(recs: seq<Record>, anchors: seq<string>, order: seq<string>, keys: set<string>): seq<Record>
    requires |anchors| == |recs|
  {
    if order == [] then [] else
    var n := |order| - 1;
    LookedIn(recs, anchors, order[..n], keys) + Meeting(Filed(recs, anchors, order[n]), keys)
  }

  lemma {:induction false} LookedIsLookedIn(all: seq<Record>, recs: seq<Record>, anchors: seq<string>, index: Index,
                                            order: seq<string>, keys: set<string>)
    requires Indexed(all, recs, anchors, index)
    ensures Looked(index, order, keys) == LookedIn(recs, anchors, order, keys)
    decreases |order|
  {
    if order != [] {
      LookedIsLookedIn(all, recs, anchors, index, order[..|order| - 1], keys);
    }
  }

  /** What the last record adds to a lookup. */
  function LastAdds(recs: seq<Record>, anchors: seq<string>, among: bool, keys: set<string>): multiset<Record>
    requires recs != [] && |anchors| == |recs|
  {
    var n := |recs| - 1;
    if recs[n].required != {} && among && recs[n].required <= keys then multiset{recs[n]} else multiset{}
  }

  lemma {:induction false} LookedWithoutLast(recs: seq<Record>, anchors: seq<string>, order: seq<string>,
                                             keys: set<string>)
    requires recs != [] && |anchors| == |recs| && Distinct(order)
    ensures var n := |recs| - 1;
            multiset(LookedIn(recs, anchors, order, keys))
            == multiset(LookedIn(recs[..n], anchors[..n], order, keys))
               + LastAdds(recs, anchors, anchors[n] in order, keys)
    decreases |order|
  {
    if order != [] {
      var front, k := order[..|order| - 1], order[|order| - 1];
      LookedWithoutLast(recs, anchors, front, keys);
      MeetingFiled(recs, anchors, k, keys);
      LastIsNew(order, anchors[|recs| - 1]);
    }
  }

  lemma {:induction false} LastIsNew(order: seq<string>, a: string)
    requires order != [] && Distinct(order)
    ensures var front, k := order[..|order| - 1], order[|order| - 1];
            (a in order <==> a in front || a == k) && !(a in front && a == k)
  {
    assert order == order[..|order| - 1] + [order[|order| - 1]];
  }

  lemma {:induction false} NothingLooked(order: seq<string>, keys: set<string>)
    ensures LookedIn([], [], order, keys) == []
    decreases |order|
  {
    if order != [] {
      NothingLooked(order[..|order| - 1], keys);
    }
  }

  /** For every object the index finds exactly what a scan of all records would, each once. */
  lemma {:induction false} IndexAgreesWithScan(all: seq<Record>, recs: seq<Record>, anchors: seq<string>,
                                               order: seq<string>, keys: set<string>)
    requires |anchors| == |recs| && Distinct(order) && (forall k :: k in keys <==> k in order)
    requires forall i :: 0 <= i < |recs| && recs[i].required != {} ==> Anchors(all, recs[i], anchors[i])
    ensures multiset(LookedIn(recs, anchors, order, keys)) == multiset(Scan(recs, keys))
    decreases |recs|
  {
    if recs == [] {
      NothingLooked(order, keys);
    } else {
      var n := |recs| - 1;
      IndexAgreesWithScan(all, recs[..n], anchors[..n], order, keys);
      LookedWithoutLast(recs, anchors, order, keys);
      if recs[n].required != {} && recs[n].required <= keys {
        assert Anchors(all, recs[n], anchors[n]);
      }
    }
  }

  lemma {:induction false} ScanIsAmong(recs: seq<Record>, keys: set<string>)
    ensures forall r :: r in Scan(recs, keys) <==> r in recs && r.required != {} && r.required <= keys
    decreases |recs|
  {
    if recs != [] {
      var n := |recs| - 1;
      ScanIsAmong(recs[..n], keys);
      assert recs == recs[..n] + [recs[n]];
    }
  }

  // ---- the tightest fit

  function Tightest(s: seq<Record>): nat {
    if s == [] then 0 else
    var n := |s| - 1;
    var best := Tightest(s[..n]);
    if |s[n].required| > best then |s[n].required| else best
  }

  function AsTight(s: seq<Record>, best: nat): seq<Record> {
    if s == [] then [] else
    var n := |s| - 1;
    AsTight(s[..n], best) + (if |s[n].required| == best then [s[n]] else [])
  }

  datatype Verdict = Missed | Tied | Charged(r: Record)

  /** What is decided of an object the records `s` fit. */
  function Decided(s: seq<Record>): Verdict {
    if s == [] then Missed else
    var tight := AsTight(s, Tightest(s));
    if |tight| == 1 then Charged(tight[0]) else Tied
  }

  lemma {:induction false} TightestHolds(s: seq<Record>)
    ensures forall r :: r in s ==> |r.required| <= Tightest(s)
    ensures s != [] ==> exists r :: r in s && |r.required| == Tightest(s)
    decreases |s|
  {
    if s != [] {
      var n := |s| - 1;
      TightestHolds(s[..n]);
      assert s == s[..n] + [s[n]];
      if |s[n].required| <= Tightest(s[..n]) && n > 0 {
        var r :| r in s[..n] && |r.required| == Tightest(s[..n]);
        assert r in s;
      } else {
        assert s[n] in s;
      }
    }
  }

  lemma {:induction false} AsTightCounts(s: seq<Record>, best: nat, r: Record)
    ensures multiset(AsTight(s, best))[r] == if |r.required| == best then multiset(s)[r] else 0
    decreases |s|
  {
    if s != [] {
      var n := |s| - 1;
      AsTightCounts(s[..n], best, r);
      assert s == s[..n] + [s[n]];
    }
  }

  /** The decision is about which records fit, not the order they were found in. */
  lemma {:induction false} DecidedByBag(a: seq<Record>, b: seq<Record>)
    requires multiset(a) == multiset(b)
    ensures Decided(a) == Decided(b)
  {
    TightestHolds(a);
    TightestHolds(b);
    SameMembers(a, b);
    if a != [] {
      assert Tightest(a) == Tightest(b);
      TightAgree(a, b, Tightest(a));
    }
  }

  lemma {:induction false} TightBags(a: seq<Record>, b: seq<Record>, best: nat)
    requires multiset(a) == multiset(b)
    ensures multiset(AsTight(a, best)) == multiset(AsTight(b, best))
  {
    forall r: Record ensures multiset(AsTight(a, best))[r] == multiset(AsTight(b, best))[r] {
      AsTightCounts(a, best, r);
      AsTightCounts(b, best, r);
    }
  }

  lemma {:induction false} SingleMember(x: seq<Record>, y: seq<Record>)
    requires multiset(x) == multiset(y)
    ensures |x| == |y| && (|x| == 1 ==> x[0] == y[0])
  {
    SameMembers(x, y);
    if |x| == 1 {
      assert x[0] in x;
    }
  }

  lemma {:induction false} TightAgree(a: seq<Record>, b: seq<Record>, best: nat)
    requires multiset(a) == multiset(b)
    ensures var x, y := AsTight(a, best), AsTight(b, best);
            |x| == |y| && (|x| == 1 ==> x[0] == y[0])
  {
    TightBags(a, b, best);
    SingleMember(AsTight(a, best), AsTight(b, best));
  }

  lemma {:induction false} SameMembers(a: seq<Record>, b: seq<Record>)
    requires multiset(a) == multiset(b)
    ensures (forall r :: r in a <==> r in b) && |a| == |b|
  {
    forall r ensures r in a <==> r in b {
      assert r in a <==> r in multiset(a);
      assert r in b <==> r in multiset(b);
    }
    assert |a| == |multiset(a)|;
  }

  /** The one record charged is met by the object, and tighter than every other that is. */
  lemma {:induction false} ChargedIsTightest(recs: seq<Record>, keys: set<string>, r: Record)
    requires Decided(Scan(recs, keys)) == Charged(r)
    ensures r in Scan(recs, keys) && multiset(Scan(recs, keys))[r] == 1
    ensures forall q :: q in Scan(recs, keys) && q != r ==> |q.required| < |r.required|
  {
    var s := Scan(recs, keys);
    var tight := AsTight(s, Tightest(s));
    TightestHolds(s);
    AsTightCounts(s, Tightest(s), r);
    assert tight == [r];
    assert multiset(tight)[r] == 1;
    forall q | q in s && q != r ensures |q.required| < |r.required| {
      AsTightCounts(s, Tightest(s), q);
      assert q in multiset(s);
      assert multiset([r])[q] == 0;
    }
    assert r in multiset(s);
  }

  /** A record with requirements, all of them met. */
  predicate Met(r: Record, keys: set<string>) {
    r.required != {} && r.required <= keys
  }

  /** A met record that is listed once, and asks for more than any other met record does. */
  predicate TightestOf(recs: seq<Record>, keys: set<string>, r: Record) {
    && Met(r, keys) && multiset(recs)[r] == 1
    && forall q :: q in recs && q != r && Met(q, keys) ==> |q.required| < |r.required|
  }

  ghost predicate TightestFits(recs: seq<Record>, keys: set<string>) {
    exists r :: TightestOf(recs, keys, r)
  }

  /** What becomes of an object with these keys, by the records alone. */
  ghost predicate Decides(recs: seq<Record>, keys: set<string>, v: Verdict) {
    && (v.Missed? <==> forall r :: r in recs ==> !Met(r, keys))
    && (forall r :: v == Charged(r) <==> TightestOf(recs, keys, r))
    && (v.Charged? <==> TightestFits(recs, keys))
  }

  lemma {:induction false} ScanCounts(recs: seq<Record>, keys: set<string>, r: Record)
    ensures multiset(Scan(recs, keys))[r] == if Met(r, keys) then multiset(recs)[r] else 0
    decreases |recs|
  {
    if recs != [] {
      var n := |recs| - 1;
      ScanCounts(recs[..n], keys, r);
      assert recs == recs[..n] + [recs[n]];
    }
  }

  lemma {:induction false} OnlyTight(s: seq<Record>, r: Record)
    requires multiset(s)[r] == 1 && forall q :: q in s && q != r ==> |q.required| < |r.required|
    ensures AsTight(s, Tightest(s)) == [r]
  {
    var best := Tightest(s);
    var tight := AsTight(s, best);
    assert r in multiset(s);
    TightestHolds(s);
    forall q: Record ensures multiset(tight)[q] == multiset([r])[q] {
      AsTightCounts(s, best, q);
      assert multiset(s)[q] > 0 ==> q in multiset(s);
    }
    SingleMember(tight, [r]);
  }

  /** Missed exactly when no record is met; charged exactly to a met record that is listed once
      and asks for more than any other met record; and otherwise tied. */
  lemma {:induction false} DecisionIsExact(recs: seq<Record>, keys: set<string>)
    ensures Decides(recs, keys, Decided(Scan(recs, keys)))
  {
    var s := Scan(recs, keys);
    ScanIsAmong(recs, keys);
    forall r ensures Decided(s) == Charged(r) <==> TightestOf(recs, keys, r) {
      ScanCounts(recs, keys, r);
      if Decided(s) == Charged(r) {
        ChargedIsTightest(recs, keys, r);
        forall q | q in recs && q != r && Met(q, keys) ensures |q.required| < |r.required| {
          assert q in s;
        }
      }
      if TightestOf(recs, keys, r) {
        OnlyTight(s, r);
        assert r in multiset(s);
      }
    }
    if forall r :: r in recs ==> !Met(r, keys) {
      assert s != [] ==> s[0] in s;
    }
    if Decided(s).Missed? {
      forall r | r in recs ensures !Met(r, keys) {
        assert r !in s;
      }
    }
  }

  /** Every record filed under any of the keys, in key order, whose needs the keys meet. */
  method LookUp(index: Index, order: seq<string>, keys: set<string>) returns (fits: seq<Record>)
    ensures fits == Looked(index, order, keys)
  {
    fits := [];
    var i := 0;
    while i < |order|
      invariant 0 <= i <= |order|
      invariant fits == Looked(index, order[..i], keys)
    {
      assert order[..i + 1][..i] == order[..i];
      fits := fits + Meeting(Get(index, order[i]), keys);
      i := i + 1;
    }
    assert order[..|order|] == order;
  }
}
