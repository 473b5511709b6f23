/** What each column has been observed holding. */
module Tallies {
  import opened Wrappers
  import opened Jsons
  import opened Attribution

  /** How often each value, which of them were empty, how often any at all, how often none,
      and the documents read. */
  datatype Tally = Tally(values: multiset<string>, empties: set<string>, seen: nat, silent: nat, docs: set<string>)

  const FRESH := Tally(multiset{}, {}, 0, 0, {})

  type Column = (string, string)

  /** A value's identity, and whether it is empty. */
  type Token = Json -> (string, bool)

  /** One object charged to one record. */
  datatype Hit = Hit(r: Record, entries: seq<Entry>, doc: string)

  function TallyOf(tallies: map<Column, Tally>, c: Column): Tally {
    if c in tallies then tallies[c] else FRESH
  }

  function Counted(t: Tally): nat {
    t.seen + t.silent
  }

  /** One object's word on one column. */
  function Told(t: Tally, token: Token, h: Hit, name: string): Tally {
    match Spelled(h.entries, name)
    case None => t.(silent := t.silent + 1, docs := t.docs + {h.doc})
    case Some(value) =>
      var (key, empty) := token(value);
      Tally(t.values + multiset{key}, if empty then t.empties + {key} else t.empties,
            t.seen + 1, t.silent, t.docs + {h.doc})
  }

  /** One object's word, by way of a record's fields in turn. */
  function ToldBy(t: Tally, token: Token, h: Hit, fields: seq<string>, c: Column): Tally {
    if fields == [] then t else
    var n := |fields| - 1;
    var u := ToldBy(t, token, h, fields[..n], c);
    if c == (h.r.owner, fields[n]) then Told(u, token, h, fields[n]) else u
  }

  /** What one column comes to, from every object charged. */
  function Account(token: Token, hits: seq<Hit>, c: Column): Tally {
    if hits == [] then FRESH else
    var n := |hits| - 1;
    ToldBy(Account(token, hits[..n], c), token, hits[n], hits[n].r.fields, c)
  }

  /** No column of a record is missing from an object. */
  predicate Whole(entries: seq<Entry>, fields: seq<string>) {
    fields == [] || (
      var n := |fields| - 1;
      Whole(entries, fields[..n]) && Spelled(entries, fields[n]).Some?)
  }

  lemma {:induction false} WholeNamesAll(entries: seq<Entry>, fields: seq<string>)
    ensures Whole(entries, fields) <==> forall k :: 0 <= k < |fields| ==> Spelled(entries, fields[k]).Some?
    decreases |fields|
  {
    if fields != [] {
      var n := |fields| - 1;
      WholeNamesAll(entries, fields[..n]);
      if forall k :: 0 <= k < n ==> Spelled(entries, fields[..n][k]).Some? {
        forall k | 0 <= k < n ensures Spelled(entries, fields[k]).Some? {
          assert fields[..n][k] == fields[k];
        }
      }
    }
  }

  lemma {:induction false} WholeGrows(entries: seq<Entry>, fields: seq<string>, name: string)
    ensures Whole(entries, fields + [name]) <==> Whole(entries, fields) && Spelled(entries, name).Some?
  {
    assert (fields + [name])[..|fields|] == fields;
  }

  // ---- one object charged

  predicate ChargedAt(was: map<Column, Tally>, now: map<Column, Tally>, token: Token, h: Hit, fields: seq<string>,
                      c: Column) {
    TallyOf(now, c) == ToldBy(TallyOf(was, c), token, h, fields, c)
  }

  /** Every named column has one more object's word, and no other column changed. */
  ghost predicate ChargedFor(was: map<Column, Tally>, now: map<Column, Tally>, token: Token, h: Hit,
                             fields: seq<string>) {
    forall c: Column :: ChargedAt(was, now, token, h, fields, c)
  }

  lemma {:induction false} ChargesNothing(tallies: map<Column, Tally>, token: Token, h: Hit)
    ensures ChargedFor(tallies, tallies, token, h, [])
  {
    forall c: Column ensures ChargedAt(tallies, tallies, token, h, [], c) {
    }
  }

  lemma {:induction false} ToldByAfter(t: Tally, token: Token, h: Hit, fields: seq<string>, name: string, c: Column)
    ensures var u := ToldBy(t, token, h, fields, c);
            ToldBy(t, token, h, fields + [name], c) == if c == (h.r.owner, name) then Told(u, token, h, name) else u
  {
    assert (fields + [name])[..|fields|] == fields;
  }

  lemma {:induction false} ChargesOne(was: map<Column, Tally>, now: map<Column, Tally>, token: Token, h: Hit,
                                      fields: seq<string>, name: string)
    requires ChargedFor(was, now, token, h, fields)
    ensures var key := (h.r.owner, name);
            ChargedFor(was, now[key := Told(TallyOf(now, key), token, h, name)], token, h, fields + [name])
  {
    var key := (h.r.owner, name);
    var now' := now[key := Told(TallyOf(now, key), token, h, name)];
    forall c: Column ensures ChargedAt(was, now', token, h, fields + [name], c) {
      assert ChargedAt(was, now, token, h, fields, c);
      ToldByAfter(TallyOf(was, c), token, h, fields, name, c);
    }
  }

  // ---- the books

  predicate AccountedAt(tallies: map<Column, Tally>, token: Token, hits: seq<Hit>, c: Column) {
    TallyOf(tallies, c) == Account(token, hits, c)
  }

  /** Every column holds what the charged objects say of it. */
  ghost predicate Accounted(tallies: map<Column, Tally>, token: Token, hits: seq<Hit>) {
    forall c: Column :: AccountedAt(tallies, token, hits, c)
  }

  lemma {:induction false} NothingAccounted(token: Token)
    ensures Accounted(map[], token, [])
  {
    forall c: Column ensures AccountedAt(map[], token, [], c) {
    }
  }

  lemma {:induction false} AccountsOne(was: map<Column, Tally>, now: map<Column, Tally>, token: Token, hits: seq<Hit>,
                                       h: Hit)
    requires Accounted(was, token, hits) && ChargedFor(was, now, token, h, h.r.fields)
    ensures Accounted(now, token, hits + [h])
  {
    assert (hits + [h])[..|hits|] == hits;
    forall c: Column ensures AccountedAt(now, token, hits + [h], c) {
      assert AccountedAt(was, token, hits, c) && ChargedAt(was, now, token, h, h.r.fields, c);
    }
  }

  /** How many objects charged to an owner had every column. */
  function Wholes(hits: seq<Hit>, owner: string): nat {
    if hits == [] then 0 else
    var n := |hits| - 1;
    Wholes(hits[..n], owner) + (if hits[n].r.owner == owner && Whole(hits[n].entries, hits[n].r.fields) then 1 else 0)
  }

  function WholeOf(whole: map<string, nat>, owner: string): nat {
    if owner in whole then whole[owner] else 0
  }

  ghost predicate WholeCounted(whole: map<string, nat>, hits: seq<Hit>) {
    forall owner :: WholeOf(whole, owner) == Wholes(hits, owner)
  }

  lemma {:induction false} WholesOne(was: map<string, nat>, hits: seq<Hit>, h: Hit, full: bool)
    requires WholeCounted(was, hits) && (full <==> Whole(h.entries, h.r.fields))
    ensures WholeCounted(was[h.r.owner := WholeOf(was, h.r.owner) + (if full then 1 else 0)], hits + [h])
  {
    var now := was[h.r.owner := WholeOf(was, h.r.owner) + (if full then 1 else 0)];
    assert (hits + [h])[..|hits|] == hits;
    forall owner ensures WholeOf(now, owner) == Wholes(hits + [h], owner) {
      assert WholeOf(was, owner) == Wholes(hits, owner);
    }
  }

  predicate HitOk(recs: seq<Record>, h: Hit) {
    Decided(Scan(recs, KeySet(h.entries))) == Charged(h.r)
  }

  /** Every object was charged to the record a scan of them all decides on. */
  ghost predicate HitsOk(recs: seq<Record>, hits: seq<Hit>) {
    forall h :: h in hits ==> HitOk(recs, h)
  }

  /** The books say of the charged objects, and of nothing else, what they are. */
  ghost predicate Balanced(recs: seq<Record>, token: Token, tallies: map<Column, Tally>, whole: map<string, nat>,
                           hits: seq<Hit>) {
    HitsOk(recs, hits) && Accounted(tallies, token, hits) && WholeCounted(whole, hits)
  }

  lemma {:induction false} BalancesOne(recs: seq<Record>, token: Token, was: map<Column, Tally>,
                                       now: map<Column, Tally>, whole: map<string, nat>, hits: seq<Hit>, h: Hit,
                                       full: bool)
    requires Balanced(recs, token, was, whole, hits) && HitOk(recs, h)
    requires ChargedFor(was, now, token, h, h.r.fields) && (full <==> Whole(h.entries, h.r.fields))
    ensures var whole' := whole[h.r.owner := WholeOf(whole, h.r.owner) + (if full then 1 else 0)];
            Balanced(recs, token, now, whole', hits + [h])
  {
    AccountsOne(was, now, token, hits, h);
    WholesOne(whole, hits, h, full);
  }

  lemma {:induction false} HitIsAmong(recs: seq<Record>, h: Hit)
    requires HitOk(recs, h)
    ensures h.r in recs && h.r.required <= KeySet(h.entries)
  {
    ChargedIsTightest(recs, KeySet(h.entries), h.r);
    ScanIsAmong(recs, KeySet(h.entries));
  }

  // ---- what a column's count comes to

  /** How many times a list names a column. */
  function Times(fields: seq<string>, name: string): nat {
    if fields == [] then 0
    else Times(fields[..|fields| - 1], name) + (if fields[|fields| - 1] == name then 1 else 0)
  }

  /** How often one object's record asks it for a column, and how often it has an answer. */
  function AskedOf(h: Hit, c: Column): nat {
    if h.r.owner == c.0 then Times(h.r.fields, c.1) else 0
  }

  function SpeltBy(h: Hit, c: Column): nat {
    if Spelled(h.entries, c.1).Some? then AskedOf(h, c) else 0
  }

  /** How often a column is asked of the objects charged to its owner, whichever of the owner's
      records each was charged to, and how often of those that spell it. */
  function Asked(hits: seq<Hit>, c: Column): nat {
    if hits == [] then 0 else Asked(hits[..|hits| - 1], c) + AskedOf(hits[|hits| - 1], c)
  }

  function Spelling(hits: seq<Hit>, c: Column): nat {
    if hits == [] then 0 else Spelling(hits[..|hits| - 1], c) + SpeltBy(hits[|hits| - 1], c)
  }

  /** A tally with this many more objects, of which so many were seen, and a value for each. */
  predicate Grew(t: Tally, u: Tally, asked: nat, spelt: nat) {
    Counted(u) == Counted(t) + asked && u.seen == t.seen + spelt && |u.values| == |t.values| + spelt
  }

  lemma {:induction false} ToldByTimes(t: Tally, token: Token, h: Hit, fields: seq<string>, c: Column)
    ensures var n := if h.r.owner == c.0 then Times(fields, c.1) else 0;
            Grew(t, ToldBy(t, token, h, fields, c), n, if Spelled(h.entries, c.1).Some? then n else 0)
    decreases |fields|
  {
    if fields != [] {
      ToldByTimes(t, token, h, fields[..|fields| - 1], c);
    }
  }

  /** For every column, seen and silent together are the times it was asked of an object charged
      to its owner, seen the times the object spelled it, each with a value. */
  lemma {:induction false} ColumnsCountObjects(token: Token, hits: seq<Hit>, c: Column)
    ensures var t := Account(token, hits, c);
            Counted(t) == Asked(hits, c) && t.seen == Spelling(hits, c) && |t.values| == t.seen
    decreases |hits|
  {
    if hits != [] {
      var n := |hits| - 1;
      var before := Account(token, hits[..n], c);
      ColumnsCountObjects(token, hits[..n], c);
      ToldByTimes(before, token, hits[n], hits[n].r.fields, c);
      assert Grew(before, Account(token, hits, c), AskedOf(hits[n], c), SpeltBy(hits[n], c));
    }
  }

  /** How many objects were charged to one record. */
  function Charges(hits: seq<Hit>, r: Record): nat {
    if hits == [] then 0 else
    Charges(hits[..|hits| - 1], r) + (if hits[|hits| - 1].r == r then 1 else 0)
  }

  /** No other record charged has the owner of this one. */
  ghost predicate OwnsAlone(hits: seq<Hit>, r: Record) {
    forall h :: h in hits && h.r.owner == r.owner ==> h.r == r
  }

  /** Where a record owns its name alone and names a column once, that is the objects charged
      to it. */
  lemma {:induction false} AskedOnceEach(hits: seq<Hit>, r: Record, name: string)
    requires OwnsAlone(hits, r) && Times(r.fields, name) == 1
    ensures Asked(hits, (r.owner, name)) == Charges(hits, r)
    decreases |hits|
  {
    if hits != [] {
      var n := |hits| - 1;
      assert hits[n] in hits;
      AskedOnceEach(hits[..n], r, name);
    }
  }

  /** Seen and silent, summed over an owner's columns. */
  function Summed(token: Token, hits: seq<Hit>, owner: string, fields: seq<string>): nat {
    if fields == [] then 0
    else
      var n := |fields| - 1;
      Summed(token, hits, owner, fields[..n]) + Counted(Account(token, hits, (owner, fields[n])))
  }

  /** The fields of the record of each object charged to an owner. */
  function FieldsCharged(hits: seq<Hit>, owner: string): nat {
    if hits == [] then 0 else
    var h := hits[|hits| - 1];
    FieldsCharged(hits[..|hits| - 1], owner) + (if h.r.owner == owner then |h.r.fields| else 0)
  }

  /** The same sum, taken over what was asked. */
  function AskedOver(hits: seq<Hit>, owner: string, columns: seq<string>): nat {
    if columns == [] then 0
    else AskedOver(hits, owner, columns[..|columns| - 1]) + Asked(hits, (owner, columns[|columns| - 1]))
  }

  function TimesOver(fields: seq<string>, columns: seq<string>): nat {
    if columns == [] then 0
    else TimesOver(fields, columns[..|columns| - 1]) + Times(fields, columns[|columns| - 1])
  }

  lemma {:induction false} CountedIsAsked(token: Token, hits: seq<Hit>, owner: string, name: string)
    ensures Counted(Account(token, hits, (owner, name))) == Asked(hits, (owner, name))
  {
    ColumnsCountObjects(token, hits, (owner, name));
  }

  lemma {:induction false} OneColumnMore(token: Token, hits: seq<Hit>, owner: string, columns: seq<string>)
    requires columns != []
    ensures var n := |columns| - 1;
            && Summed(token, hits, owner, columns)
               == Summed(token, hits, owner, columns[..n]) + Counted(Account(token, hits, (owner, columns[n])))
            && AskedOver(hits, owner, columns)
               == AskedOver(hits, owner, columns[..n]) + Asked(hits, (owner, columns[n]))
  {
  }

  lemma {:induction false} SummedIsAsked(token: Token, hits: seq<Hit>, owner: string, columns: seq<string>)
    ensures Summed(token, hits, owner, columns) == AskedOver(hits, owner, columns)
    decreases |columns|
  {
    if columns != [] {
      SummedIsAsked(token, hits, owner, columns[..|columns| - 1]);
      CountedIsAsked(token, hits, owner, columns[|columns| - 1]);
      OneColumnMore(token, hits, owner, columns);
    }
  }

  lemma {:induction false} AskedOverNone(owner: string, columns: seq<string>)
    ensures AskedOver([], owner, columns) == 0
    decreases |columns|
  {
    if columns != [] {
      AskedOverNone(owner, columns[..|columns| - 1]);
    }
  }

  lemma {:induction false} AskedOverLast(hits: seq<Hit>, owner: string, columns: seq<string>)
    requires hits != []
    ensures var h := hits[|hits| - 1];
            AskedOver(hits, owner, columns)
            == AskedOver(hits[..|hits| - 1], owner, columns)
               + (if h.r.owner == owner then TimesOver(h.r.fields, columns) else 0)
    decreases |columns|
  {
    if columns != [] {
      AskedOverLast(hits, owner, columns[..|columns| - 1]);
    }
  }

  lemma {:induction false} TimesOverAfter(fields: seq<string>, columns: seq<string>)
    requires fields != [] && Distinct(columns)
    ensures var n := |fields| - 1;
            TimesOver(fields, columns) == TimesOver(fields[..n], columns) + (if fields[n] in columns then 1 else 0)
    decreases |columns|
  {
    if columns != [] {
      TimesOverAfter(fields, columns[..|columns| - 1]);
      LastIsNew(columns, fields[|fields| - 1]);
    }
  }

  lemma {:induction false} TimesOverNone(columns: seq<string>)
    ensures TimesOver([], columns) == 0
    decreases |columns|
  {
    if columns != [] {
      TimesOverNone(columns[..|columns| - 1]);
    }
  }

  /** Counted column by column, a list of fields is counted once each. */
  lemma {:induction false} TimesOverAll(fields: seq<string>, columns: seq<string>)
    requires Distinct(columns) && forall f :: f in fields ==> f in columns
    ensures TimesOver(fields, columns) == |fields|
    decreases |fields|
  {
    if fields == [] {
      TimesOverNone(columns);
    } else {
      TimesOverAll(fields[..|fields| - 1], columns);
      TimesOverAfter(fields, columns);
    }
  }

  /** The sum over an owner's columns counts each object once for every field of the record it
      was charged to, whatever records share the owner's name. */
  lemma {:induction false} OwnerSumsFields(token: Token, hits: seq<Hit>, owner: string, columns: seq<string>)
    requires Distinct(columns) && forall h, f :: h in hits && h.r.owner == owner && f in h.r.fields ==> f in columns
    ensures Summed(token, hits, owner, columns) == FieldsCharged(hits, owner)
    decreases |hits|
  {
    SummedIsAsked(token, hits, owner, columns);
    if hits == [] {
      AskedOverNone(owner, columns);
    } else {
      var n := |hits| - 1;
      assert hits[n] in hits;
      OwnerSumsFields(token, hits[..n], owner, columns);
      SummedIsAsked(token, hits[..n], owner, columns);
      AskedOverLast(hits, owner, columns);
      if hits[n].r.owner == owner {
        TimesOverAll(hits[n].r.fields, columns);
      }
    }
  }

  /** Where every column holds what the hits say of it, it holds one value or one silence for
      each object it was asked of. */
  lemma {:induction false} ColumnIsExplained(tallies: map<Column, Tally>, token: Token, hits: seq<Hit>, c: Column)
    requires Accounted(tallies, token, hits)
    ensures var t := TallyOf(tallies, c);
            Counted(t) == Asked(hits, c) && t.seen == Spelling(hits, c) && |t.values| == t.seen
  {
    assert AccountedAt(tallies, token, hits, c);
    ColumnsCountObjects(token, hits, c);
  }

  lemma {:induction false} OneMoreTime(n: nat, m: nat)
    ensures (n + 1) * m == n * m + m
  {
  }

  /** With a record that owns its name alone that is fields times objects, not objects. */
  lemma {:induction false} FieldsTimesObjects(hits: seq<Hit>, r: Record)
    requires OwnsAlone(hits, r)
    ensures FieldsCharged(hits, r.owner) == |r.fields| * Charges(hits, r)
    decreases |hits|
  {
    if hits != [] {
      var n := |hits| - 1;
      assert hits[n] in hits;
      FieldsTimesObjects(hits[..n], r);
      OneMoreTime(Charges(hits[..n], r), |r.fields|);
    }
  }
}
