/** The documents read under a byte budget: smallest first, until one does not fit. */
module Documents {
  import opened Texts

  datatype Doc = Doc(size: nat, path: string)

  predicate Before(a: Doc, b: Doc) {
    a.size < b.size || (a.size == b.size && (a.path == b.path || Precedes(a.path, b.path)))
  }

  function Insert(x: Doc, s: seq<Doc>): seq<Doc> {
    if s == [] || Before(x, s[0]) then [x] + s else [s[0]] + Insert(x, s[1..])
  }

  function BySize(s: seq<Doc>): seq<Doc> {
    if s == [] then [] else Insert(s[0], BySize(s[1..]))
  }

  /** By size, and by path where sizes are equal. */
  predicate Ascending(s: seq<Doc>) {
    forall i, j :: 0 <= i < j < |s| ==> Before(s[i], s[j])
  }

  lemma {:induction false} BeforeOrder(a: Doc, b: Doc, c: Doc)
    ensures Before(a, b) && Before(b, c) ==> Before(a, c)
    ensures Before(a, b) || Before(b, a)
  {
    PrecedesOrder(a.path, b.path, c.path);
  }

  lemma {:induction false} InsertKeepsBag(x: Doc, s: seq<Doc>)
    ensures multiset(Insert(x, s)) == multiset(s) + multiset{x}
    decreases |s|
  {
    if s != [] && !Before(x, s[0]) {
      InsertKeepsBag(x, s[1..]);
      assert s == [s[0]] + s[1..];
    }
  }

  lemma {:induction false} FirstAscends(x: Doc, s: seq<Doc>)
    requires Ascending(s) && (s != [] ==> Before(x, s[0]))
    ensures Ascending([x] + s)
  {
    forall k | 0 <= k < |s| ensures Before(x, s[k]) {
      if k > 0 {
        BeforeOrder(x, s[0], s[k]);
      }
    }
  }

  lemma {:induction false} InsertAscends(x: Doc, s: seq<Doc>)
    requires Ascending(s)
    ensures Ascending(Insert(x, s))
    decreases |s|
  {
    if s == [] || Before(x, s[0]) {
      FirstAscends(x, s);
    } else {
      var r := Insert(x, s[1..]);
      InsertAscends(x, s[1..]);
      InsertKeepsBag(x, s[1..]);
      BeforeOrder(x, s[0], x);
      assert r[0] in multiset(r);
      if r[0] != x {
        assert r[0] in s[1..];
      }
      FirstAscends(s[0], r);
    }
  }

  lemma {:induction false} BySizeAscends(s: seq<Doc>)
    ensures Ascending(BySize(s)) && multiset(BySize(s)) == multiset(s)
    decreases |s|
  {
    if s != [] {
      BySizeAscends(s[1..]);
      InsertAscends(s[0], BySize(s[1..]));
      InsertKeepsBag(s[0], BySize(s[1..]));
      assert s == [s[0]] + s[1..];
    }
  }

  /** No smaller document comes later, and none of the same size with an earlier path. */
  lemma {:induction false} BySizeThenPath(s: seq<Doc>, i: nat, j: nat)
    requires i < j < |BySize(s)|
    ensures var a, b := BySize(s)[i], BySize(s)[j];
            a.size <= b.size && (a.size == b.size ==> !Precedes(b.path, a.path))
  {
    BySizeAscends(s);
    var a, b := BySize(s)[i], BySize(s)[j];
    assert Before(a, b);
    PrecedesIsStrict(a.path, b.path);
  }

  function Bytes(s: seq<Doc>): nat {
    if s == [] then 0 else Bytes(s[..|s| - 1]) + s[|s| - 1].size
  }

  /** Some of a list, by position, each at most once. */
  predicate Chosen(s: seq<Doc>, m: seq<nat>) {
    && (forall k :: 0 <= k < |m| ==> m[k] < |s|)
    && (forall k, l :: 0 <= k < l < |m| ==> m[k] < m[l])
  }

  function ChosenBytes(s: seq<Doc>, m: seq<nat>): nat
    requires Chosen(s, m)
  {
    if m == [] then 0 else ChosenBytes(s, m[..|m| - 1]) + s[m[|m| - 1]].size
  }

  /** No choice of as many documents is lighter than the front of an ascending list. */
  lemma {:induction false} FrontIsLightest(s: seq<Doc>, m: seq<nat>)
    requires Ascending(s) && Chosen(s, m)
    ensures |m| <= |s| && (m != [] ==> |m| - 1 <= m[|m| - 1]) && Bytes(s[..|m|]) <= ChosenBytes(s, m)
    decreases |m|
  {
    if m != [] {
      var n := |m| - 1;
      FrontIsLightest(s, m[..n]);
      assert n <= m[n] by {
        if n > 0 {
          assert m[..n][n - 1] == m[n - 1] < m[n];
        }
      }
      assert s[..n + 1][..n] == s[..n];
      assert s[n].size <= s[m[n]].size;
    }
  }

  lemma {:induction false} BytesGrow(s: seq<Doc>, i: nat, j: nat)
    requires i <= j <= |s|
    ensures Bytes(s[..i]) <= Bytes(s[..j])
    decreases j
  {
    if i < j {
      BytesGrow(s, i, j - 1);
      assert s[..j][..j - 1] == s[..j - 1];
    }
  }

  /** No choice of documents within the budget has more than so many. */
  ghost predicate NoneLonger(s: seq<Doc>, budget: int, n: nat) {
    forall m: seq<nat> :: Chosen(s, m) && ChosenBytes(s, m) <= budget ==> |m| <= n
  }

  /** Where the front of a list and one document more is over the budget, or the list is at its
      end, no choice within the budget is longer than the front. */
  lemma {:induction false} NoChoiceReadsMore(s: seq<Doc>, i: nat, budget: int)
    requires Ascending(s) && i <= |s| && (i < |s| ==> Bytes(s[..i + 1]) > budget)
    ensures NoneLonger(s, budget, i)
  {
    forall m: seq<nat> | Chosen(s, m) && ChosenBytes(s, m) <= budget ensures |m| <= i {
      FrontIsLightest(s, m);
      if |m| > i {
        BytesGrow(s, i + 1, |m|);
      }
    }
  }

  /** With a budget nothing past it is read, and no choice of the documents that fits the
      budget reads more of them. Without one, everything is read. */
  method Take(found: seq<Doc>, budget: int) returns (took: seq<Doc>, spent: nat)
    ensures took <= BySize(found) && spent == Bytes(took)
    ensures budget == 0 ==> took == BySize(found)
    ensures budget > 0 ==> spent <= budget
    ensures budget != 0 ==> NoneLonger(BySize(found), budget, |took|)
  {
    var s := BySize(found);
    BySizeAscends(found);
    took, spent := [], 0;
    var i := 0;
    while i < |s|
      invariant 0 <= i <= |s| && took == s[..i] && spent == Bytes(s[..i])
      invariant budget > 0 ==> spent <= budget
    {
      assert s[..i + 1][..i] == s[..i];
      if budget != 0 && spent + s[i].size > budget {
        NoChoiceReadsMore(s, i, budget);
        return;
      }
      took := took + [s[i]];
      spent := spent + s[i].size;
      i := i + 1;
    }
    NoChoiceReadsMore(s, |s|, budget);
  }
}
