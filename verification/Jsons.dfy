/** Parsed documents, and the objects in them. */
module Jsons {
  import opened Wrappers

  datatype Json = Atom(text: string) | List(items: seq<Json>) | Object(entries: seq<Entry>)

  datatype Entry = Entry(key: string, value: Json)

  function Size(j: Json): nat
    decreases j
  {
    match j
    case Atom(_) => 1
    case List(items) => 1 + SizeAll(items)
    case Object(entries) => 1 + SizeEntries(entries)
  }

  function SizeAll(s: seq<Json>): nat
    decreases s
  {
    if s == [] then 0 else Size(s[0]) + SizeAll(s[1..])
  }

  function SizeEntries(s: seq<Entry>): nat
    decreases s
  {
    if s == [] then 0 else Size(s[0].value) + SizeEntries(s[1..])
  }

  function Values(s: seq<Entry>): (r: seq<Json>)
    ensures |r| == |s| && forall i :: 0 <= i < |r| ==> r[i] == s[i].value
  {
    seq(|s|, i requires 0 <= i < |s| => s[i].value)
  }

  /** Every object in a value, itself included. */
  function Objects(j: Json): multiset<Json>
    decreases j
  {
    match j
    case Atom(_) => multiset{}
    case List(items) => ObjectsAll(items)
    case Object(entries) => multiset{j} + ObjectsIn(entries)
  }

  function ObjectsAll(s: seq<Json>): multiset<Json>
    decreases s
  {
    if s == [] then multiset{} else Objects(s[0]) + ObjectsAll(s[1..])
  }

  function ObjectsIn(s: seq<Entry>): multiset<Json>
    decreases s
  {
    if s == [] then multiset{} else Objects(s[0].value) + ObjectsIn(s[1..])
  }

  lemma {:induction false} ValuesAgree(s: seq<Entry>)
    ensures SizeAll(Values(s)) == SizeEntries(s) && ObjectsAll(Values(s)) == ObjectsIn(s)
    decreases |s|
  {
    if s != [] {
      ValuesAgree(s[1..]);
      assert Values(s)[1..] == Values(s[1..]);
    }
  }

  lemma {:induction false} SizeConcat(a: seq<Json>, b: seq<Json>)
    ensures SizeAll(a + b) == SizeAll(a) + SizeAll(b)
    decreases |a|
  {
    if a == [] {
      assert a + b == b;
    } else {
      SizeConcat(a[1..], b);
      assert (a + b)[1..] == a[1..] + b;
    }
  }

  lemma {:induction false} ObjectsConcat(a: seq<Json>, b: seq<Json>)
    ensures ObjectsAll(a + b) == ObjectsAll(a) + ObjectsAll(b)
    decreases |a|
  {
    if a == [] {
      assert a + b == b;
    } else {
      assert (a + b)[1..] == a[1..] + b && (a + b)[0] == a[0];
      ObjectsConcat(a[1..], b);
      SumsRegroup(Objects(a[0]), ObjectsAll(a[1..]), ObjectsAll(b));
    }
  }

  lemma {:induction false} SumsRegroup<T>(a: multiset<T>, b: multiset<T>, c: multiset<T>)
    ensures a + (b + c) == a + b + c
  {
  }

  lemma {:induction false} AllConcat(a: seq<Json>, b: seq<Json>)
    ensures SizeAll(a + b) == SizeAll(a) + SizeAll(b) && ObjectsAll(a + b) == ObjectsAll(a) + ObjectsAll(b)
  {
    SizeConcat(a, b);
    ObjectsConcat(a, b);
  }

  /** The values under a node of the worklist. */
  function Under(j: Json): seq<Json> {
    match j
    case Atom(_) => []
    case List(items) => items
    case Object(entries) => Values(entries)
  }

  lemma {:induction false} SumsTrade<T>(a: multiset<T>, b: multiset<T>, c: multiset<T>)
    ensures a + (b + c) == (a + c) + b
  {
  }

  lemma {:induction false} OneOf(j: Json)
    ensures SizeAll([j]) == Size(j) && ObjectsAll([j]) == Objects(j)
  {
    assert [j][1..] == [];
  }

  lemma {:induction false} UnderSplits(j: Json)
    ensures SizeAll(Under(j)) < Size(j)
    ensures Objects(j) == ObjectsAll(Under(j)) + (if j.Object? then multiset{j} else multiset{})
  {
    if j.Object? {
      ValuesAgree(j.entries);
    }
  }

  lemma {:induction false} PoppedShrinks(stack: seq<Json>)
    requires stack != []
    ensures var n := |stack| - 1;
            && SizeAll(stack[..n] + Under(stack[n])) < SizeAll(stack)
            && ObjectsAll(stack)
               == ObjectsAll(stack[..n] + Under(stack[n]))
                 + (if stack[n].Object? then multiset{stack[n]} else multiset{})
  {
    var n := |stack| - 1;
    var top := stack[n];
    AllConcat(stack[..n], [top]);
    AllConcat(stack[..n], Under(top));
    OneOf(top);
    UnderSplits(top);
    assert stack == stack[..n] + [top];
    SumsRegroup(ObjectsAll(stack[..n]), ObjectsAll(Under(top)), if top.Object? then multiset{top} else multiset{});
  }

  predicate Distinct(order: seq<string>) {
    forall i, j :: 0 <= i < j < |order| ==> order[i] != order[j]
  }

  function Keys(entries: seq<Entry>): (r: seq<string>)
    ensures |r| == |entries| && forall i :: 0 <= i < |r| ==> r[i] == entries[i].key
  {
    seq(|entries|, i requires 0 <= i < |entries| => entries[i].key)
  }

  function KeySet(entries: seq<Entry>): set<string> {
    set i | 0 <= i < |entries| :: entries[i].key
  }

  /** A parsed object names each key once. */
  predicate WellKeyed(j: Json)
    decreases j, 1
  {
    match j
    case Atom(_) => true
    case List(items) => WellKeyedAll(items)
    case Object(entries) => Distinct(Keys(entries)) && forall i :: 0 <= i < |entries| ==> WellKeyed(entries[i].value)
  }

  predicate WellKeyedAll(s: seq<Json>)
    decreases s, 0
  {
    forall i :: 0 <= i < |s| ==> WellKeyed(s[i])
  }

  function Lookup(entries: seq<Entry>, k: string): Option<Json> {
    if entries == [] then None
    else if entries[0].key == k then Some(entries[0].value)
    else Lookup(entries[1..], k)
  }

  /** A column's own name, or the name without the underscore that dodged a keyword. */
  function Spelled(entries: seq<Entry>, name: string): Option<Json> {
    var plain := Lookup(entries, name);
    if plain.Some? || name == "" || name[|name| - 1] != '_' then plain else Lookup(entries, name[..|name| - 1])
  }

  lemma {:induction false} KeysAreKeySet(entries: seq<Entry>)
    ensures forall k :: k in KeySet(entries) <==> k in Keys(entries)
  {
    var keys, order := KeySet(entries), Keys(entries);
    forall k ensures k in keys <==> k in order {
      if k in order {
        var j :| 0 <= j < |order| && order[j] == k;
        assert entries[j].key == k;
      }
      if k in keys {
        var j :| 0 <= j < |entries| && entries[j].key == k;
        assert order[j] == k;
      }
    }
  }
}
