/** What a column holds: its values, its empty ones and its documents, by the objects charged. */
module Columns {
  import opened Wrappers
  import opened Jsons
  import opened Attribution
  import opened Tallies

  // ---- where a column is spelled

  lemma {:induction false} LookupFindsEntry(entries: seq<Entry>, k: string, v: Json)
    requires Distinct(Keys(entries))
    ensures Lookup(entries, k) == Some(v) <==> Entry(k, v) in entries
    decreases |entries|
  {
    if entries != [] {
      var rest := entries[1..];
      assert Keys(rest) == Keys(entries)[1..];
      LookupFindsEntry(rest, k, v);
      assert Entry(k, v) in entries <==> entries[0] == Entry(k, v) || Entry(k, v) in rest;
    }
  }

  lemma {:induction false} LookupIsSome(entries: seq<Entry>, k: string)
    ensures Lookup(entries, k).Some? <==> k in KeySet(entries)
    decreases |entries|
  {
    if entries != [] {
      LookupIsSome(entries[1..], k);
      if i :| 0 <= i < |entries| && entries[i].key == k && i > 0 {
        assert entries[1..][i - 1].key == k;
      }
      if k in KeySet(entries[1..]) {
        var i :| 0 <= i < |entries[1..]| && entries[1..][i].key == k;
        assert entries[i + 1].key == k;
      }
    }
  }

  /** A column is under its own name, or, where nothing is, under the name less the underscore it
      ends in. */
  lemma {:induction false} SpelledIsUnderItsName(entries: seq<Entry>, name: string, v: Json)
    requires Distinct(Keys(entries))
    ensures Spelled(entries, name) == Some(v)
       <==> || Entry(name, v) in entries
            || (name !in KeySet(entries) && Dodged(name).Some? && Entry(Dodged(name).value, v) in entries)
  {
    LookupFindsEntry(entries, name, v);
    LookupIsSome(entries, name);
    if Dodged(name).Some? {
      var plain := Dodged(name).value;
      assert name[..|name| - 1] == plain;
      LookupFindsEntry(entries, plain, v);
    }
    if Entry(name, v) in entries {
      var i :| 0 <= i < |entries| && entries[i] == Entry(name, v);
      assert entries[i].key == name;
    }
  }

  /** The name that an underscore at the end keeps from being a keyword. */
  function Dodged(name: string): Option<string> {
    if name != "" && name[|name| - 1] == '_' then Some(name[..|name| - 1]) else None
  }

  // ---- what the objects charged say of a column

  /** One object says this of a column: its record names it, and its value there is so. */
  predicate Says(token: Token, h: Hit, c: Column, key: string) {
    Spelled(h.entries, c.1).Some? && token(Spelled(h.entries, c.1).value).0 == key
  }

  /** How often the objects charged say so. */
  function Sayings(token: Token, hits: seq<Hit>, c: Column, key: string): nat {
    if hits == [] then 0 else
    var h := hits[|hits| - 1];
    Sayings(token, hits[..|hits| - 1], c, key) + (if Says(token, h, c, key) then AskedOf(h, c) else 0)
  }

  /** An object asked for a column. */
  predicate Asks(h: Hit, c: Column) {
    h.r.owner == c.0 && c.1 in h.r.fields
  }

  lemma {:induction false} TimesIsSome(fields: seq<string>, name: string)
    ensures Times(fields, name) > 0 <==> name in fields
    decreases |fields|
  {
    if fields != [] {
      TimesIsSome(fields[..|fields| - 1], name);
      assert fields == fields[..|fields| - 1] + [fields[|fields| - 1]];
    }
  }

  /** What one object adds to a column, by way of its record's fields. */
  lemma {:induction false} ToldByAdds(t: Tally, token: Token, h: Hit, fields: seq<string>, c: Column, key: string)
    ensures var u := ToldBy(t, token, h, fields, c);
            var n := if h.r.owner == c.0 then Times(fields, c.1) else 0;
            && u.values[key] == t.values[key] + (if Says(token, h, c, key) then n else 0)
            && u.docs == (if n > 0 then t.docs + {h.doc} else t.docs)
            && (key in u.empties <==>
                  key in t.empties || (n > 0 && Says(token, h, c, key) && token(Spelled(h.entries, c.1).value).1))
    decreases |fields|
  {
    if fields != [] {
      ToldByAdds(t, token, h, fields[..|fields| - 1], c, key);
    }
  }

  /** A column holds each value as often as an object asked for it said so. */
  lemma {:induction false} ColumnHoldsWhatIsSaid(token: Token, hits: seq<Hit>, c: Column, key: string)
    ensures Account(token, hits, c).values[key] == Sayings(token, hits, c, key)
    decreases |hits|
  {
    if hits != [] {
      var n := |hits| - 1;
      ColumnHoldsWhatIsSaid(token, hits[..n], c, key);
      ToldByAdds(Account(token, hits[..n], c), token, hits[n], hits[n].r.fields, c, key);
    }
  }

  /** Its documents are those of the objects asked for it. */
  lemma {:induction false} ColumnNamesItsDocuments(token: Token, hits: seq<Hit>, c: Column, doc: string)
    ensures doc in Account(token, hits, c).docs <==> exists h :: h in hits && Asks(h, c) && h.doc == doc
    decreases |hits|
  {
    if hits != [] {
      var n := |hits| - 1;
      ColumnNamesItsDocuments(token, hits[..n], c, doc);
      ToldByAdds(Account(token, hits[..n], c), token, hits[n], hits[n].r.fields, c, doc);
      TimesIsSome(hits[n].r.fields, c.1);
      assert hits == hits[..n] + [hits[n]];
    }
  }

  /** An object asked for a column whose value there is this one, and empty. */
  predicate SaysEmpty(token: Token, h: Hit, c: Column, key: string) {
    Asks(h, c) && Says(token, h, c, key) && token(Spelled(h.entries, c.1).value).1
  }

  /** And its empty values are those an object asked for it held and that were empty. */
  lemma {:induction false} ColumnNamesItsEmpties(token: Token, hits: seq<Hit>, c: Column, key: string)
    ensures key in Account(token, hits, c).empties <==> exists h :: h in hits && SaysEmpty(token, h, c, key)
    decreases |hits|
  {
    if hits != [] {
      var n := |hits| - 1;
      ColumnNamesItsEmpties(token, hits[..n], c, key);
      ToldByAdds(Account(token, hits[..n], c), token, hits[n], hits[n].r.fields, c, key);
      TimesIsSome(hits[n].r.fields, c.1);
      assert hits == hits[..n] + [hits[n]];
      assert key in Account(token, hits, c).empties
        <==> key in Account(token, hits[..n], c).empties || SaysEmpty(token, hits[n], c, key);
      if h :| h in hits && SaysEmpty(token, h, c, key) && h != hits[n] {
        assert h in hits[..n];
      }
    }
  }

  /** An owner's whole objects are those charged to it in which every field of their record is
      spelled. */
  lemma {:induction false} WholesAreSpelled(hits: seq<Hit>, owner: string)
    ensures Wholes(hits, owner) == |WholeOnes(hits, owner)|
    decreases |hits|
  {
    if hits != [] {
      var n := |hits| - 1;
      WholesAreSpelled(hits[..n], owner);
      WholeNamesAll(hits[n].entries, hits[n].r.fields);
      WholeOnesGrow(hits, owner);
    }
  }

  function WholeOnes(hits: seq<Hit>, owner: string): set<nat> {
    set i | 0 <= i < |hits| && WholeAt(hits, i, owner)
  }

  lemma {:induction false} WholeOnesGrow(hits: seq<Hit>, owner: string)
    requires hits != []
    ensures var n := |hits| - 1;
            |WholeOnes(hits, owner)| == |WholeOnes(hits[..n], owner)| + if WholeAt(hits, n, owner) then 1 else 0
  {
    var n := |hits| - 1;
    var before := WholeOnes(hits[..n], owner);
    assert WholeOnes(hits, owner) == if WholeAt(hits, n, owner) then before + {n} else before;
  }

  predicate WholeAt(hits: seq<Hit>, i: nat, owner: string)
    requires i < |hits|
  {
    var h := hits[i];
    h.r.owner == owner && forall k :: 0 <= k < |h.r.fields| ==> Spelled(h.entries, h.r.fields[k]).Some?
  }
}
