/** Every object of every document, charged to the one record it fits tightest. */
module Harvest {
  import opened Wrappers
  import opened Jsons
  import opened Attribution
  import opened Tallies

  class Ledger {
    const recs: seq<Record>
    const token: Token
    const index: Index
    var tallies: map<Column, Tally>
    var whole: map<string, nat>
    var hit: nat
    var miss: nat
    var tied: nat
    ghost var hits: seq<Hit>
    ghost var seen: multiset<Json>

    constructor (recs: seq<Record>, token: Token)
      ensures IndexOk() && Valid() && this.recs == recs && this.token == token
      ensures hits == [] && hit == miss == tied == 0 && seen == multiset{}
    {
      var i := Spot(recs);
      NothingAccounted(token);
      this.recs, this.token, this.index := recs, token, i;
      tallies, whole, hit, miss, tied, hits, seen := map[], map[], 0, 0, 0, [], multiset{};
    }

    /** The index is the records'. */
    ghost predicate IndexOk() {
      exists anchors: seq<string> :: Indexed(recs, recs, anchors, index)
    }

    /** The books balance: every object seen is a hit, a miss or a tie; every hit was charged
        to the record it fits tightest; every column holds what the hits say of it. */
    ghost predicate Valid()
      reads this
    {
      && |seen| == hit + miss + tied && |hits| == hit
      && Balanced(recs, token, tallies, whole, hits)
    }

    /** Which record an object belongs to: what a scan of every record would decide, and so the
        met record that is listed once and asks for more than any other. */
    method Attribute(entries: seq<Entry>) returns (v: Verdict)
      requires IndexOk() && Distinct(Keys(entries))
      ensures v == Decided(Scan(recs, KeySet(entries))) && Decides(recs, KeySet(entries), v)
    {
      var keys, order := KeySet(entries), Keys(entries);
      var fits := LookUp(index, order, keys);
      ghost var anchors: seq<string> :| Indexed(recs, recs, anchors, index);
      KeysAreKeySet(entries);
      LookedIsLookedIn(recs, recs, anchors, index, order, keys);
      IndexAgreesWithScan(recs, recs, anchors, order, keys);
      DecidedByBag(fits, Scan(recs, keys));
      DecisionIsExact(recs, keys);
      v := Decided(fits);
    }

    /** One column of one charged object, under the first of its spellings to be there. */
    method Note(h: Hit, name: string) returns (gap: bool)
      modifies this`tallies
      ensures var key := (h.r.owner, name);
              tallies == old(tallies)[key := Told(TallyOf(old(tallies), key), token, h, name)]
      ensures gap <==> Spelled(h.entries, name).None?
    {
      var key := (h.r.owner, name);
      var t := TallyOf(tallies, key);
      var got := Spelled(h.entries, name);
      gap := got.None?;
      if gap {
        t := t.(silent := t.silent + 1, docs := t.docs + {h.doc});
      } else {
        var (value, empty) := token(got.value);
        t := t.(values := t.values + multiset{value}, seen := t.seen + 1, docs := t.docs + {h.doc});
        if empty {
          t := t.(empties := t.empties + {value});
        }
      }
      tallies := tallies[key := t];
    }

    /** One object charged to one record: each column seen or silent. */
    method Charge(h: Hit) returns (gaps: nat)
      modifies this`tallies
      ensures ChargedFor(old(tallies), tallies, token, h, h.r.fields)
      ensures gaps == 0 <==> Whole(h.entries, h.r.fields)
    {
      var fields := h.r.fields;
      gaps := 0;
      var i := 0;
      ghost var was := tallies;
      ChargesNothing(tallies, token, h);
      while i < |fields|
        invariant 0 <= i <= |fields|
        invariant ChargedFor(was, tallies, token, h, fields[..i])
        invariant gaps == 0 <==> Whole(h.entries, fields[..i])
      {
        ChargesOne(was, tallies, token, h, fields[..i], fields[i]);
        WholeGrows(h.entries, fields[..i], fields[i]);
        assert fields[..i + 1] == fields[..i] + [fields[i]];
        var gap := Note(h, fields[i]);
        gaps := gaps + (if gap then 1 else 0);
        i := i + 1;
      }
      assert fields[..|fields|] == fields;
    }

    /** One object charged, and counted whole where it left no gap. */
    method Keep(h: Hit)
      requires Balanced(recs, token, tallies, whole, hits) && HitOk(recs, h)
      modifies this`tallies, this`whole, this`hit, this`hits
      ensures Balanced(recs, token, tallies, whole, hits)
      ensures hits == old(hits) + [h] && hit == old(hit) + 1
    {
      ghost var was := tallies;
      var gaps := Charge(h);
      BalancesOne(recs, token, was, tallies, whole, hits, h, gaps == 0);
      hit := hit + 1;
      hits := hits + [h];
      whole := whole[h.r.owner := WholeOf(whole, h.r.owner) + (if gaps == 0 then 1 else 0)];
    }

    /** One object read: attributed, and charged if it belongs to exactly one record. */
    method See(entries: seq<Entry>, doc: string)
      requires IndexOk() && Valid() && Distinct(Keys(entries))
      modifies this
      ensures Valid() && seen == old(seen) + multiset{Object(entries)}
      ensures var v := Decided(Scan(recs, KeySet(entries)));
              Decides(recs, KeySet(entries), v) &&
              match v
              case Missed => miss == old(miss) + 1 && tied == old(tied) && hits == old(hits)
              case Tied => tied == old(tied) + 1 && miss == old(miss) && hits == old(hits)
              case Charged(r) => hits == old(hits) + [Hit(r, entries, doc)] && miss == old(miss) && tied == old(tied)
    {
      var v := Attribute(entries);
      seen := seen + multiset{Object(entries)};
      match v
      case Missed => miss := miss + 1;
      case Tied => tied := tied + 1;
      case Charged(r) =>
        Keep(Hit(r, entries, doc));
    }

    /** Every object of a document, by a worklist, whatever it is nested in. */
    method Read(top: Json, doc: string)
      requires IndexOk() && Valid() && WellKeyed(top)
      modifies this
      ensures Valid() && seen == old(seen) + Objects(top)
    {
      var stack := [top];
      assert [top][1..] == [];
      while stack != []
        invariant Valid() && WellKeyedAll(stack)
        invariant seen + ObjectsAll(stack) == old(seen) + Objects(top)
        decreases SizeAll(stack)
      {
        var n := |stack| - 1;
        var node := stack[n];
        assert WellKeyed(node);
        PoppedShrinks(stack);
        ghost var one: multiset<Json> := if node.Object? then multiset{node} else multiset{};
        SumsTrade(seen, ObjectsAll(stack[..n] + Under(node)), one);
        stack := stack[..n] + Under(node);
        if node.Object? {
          See(node.entries, doc);
        }
      }
    }

    /** Every column's seen and silent are the times it was asked of the objects charged to its
        owner, and summed over the owner's columns they are the fields of those objects' records. */
    lemma {:induction false} ColumnsAreExplained(owner: string, columns: seq<string>, name: string)
      requires Valid()
      requires Distinct(columns) && forall h, f :: h in hits && h.r.owner == owner && f in h.r.fields ==> f in columns
      ensures var t := TallyOf(tallies, (owner, name));
              && t.seen + t.silent == Asked(hits, (owner, name)) && t.seen == Spelling(hits, (owner, name))
              && |t.values| == t.seen
      ensures Summed(token, hits, owner, columns) == FieldsCharged(hits, owner)
    {
      ColumnIsExplained(tallies, token, hits, (owner, name));
      OwnerSumsFields(token, hits, owner, columns);
    }
  }

  /** Every document in turn; one that cannot be read is passed over. */
  method Harvested(docs: seq<(string, Option<Json>)>, recs: seq<Record>, token: Token) returns (l: Ledger)
    requires forall i :: 0 <= i < |docs| && docs[i].1.Some? ==> WellKeyed(docs[i].1.value)
    ensures l.IndexOk() && l.Valid() && l.recs == recs && l.seen == AllObjects(docs)
    ensures l.hit + l.miss + l.tied == |AllObjects(docs)|
  {
    l := new Ledger(recs, token);
    var i := 0;
    while i < |docs|
      invariant 0 <= i <= |docs| && fresh(l) && l.IndexOk() && l.Valid() && l.recs == recs
      invariant l.seen == AllObjects(docs[..i])
    {
      assert docs[..i + 1][..i] == docs[..i];
      if docs[i].1.Some? {
        l.Read(docs[i].1.value, docs[i].0);
      }
      i := i + 1;
    }
    assert docs[..|docs|] == docs;
  }

  function AllObjects(docs: seq<(string, Option<Json>)>): multiset<Json> {
    if docs == [] then multiset{} else
    var d := docs[|docs| - 1];
    AllObjects(docs[..|docs| - 1]) + (if d.1.Some? then Objects(d.1.value) else multiset{})
  }
}
