/** The lines of a text, and the order of texts. */
module Texts {
  /** The offset after the last newline before `at`. */
  function LineStart(text: string, at: nat): (r: nat)
    requires at <= |text|
    ensures r <= at
  {
    if at == 0 || text[at - 1] == '\n' then at else LineStart(text, at - 1)
  }

  /** The first newline at or after `at`, or the end of the text. */
  function LineEnd(text: string, at: nat): (r: nat)
    requires at <= |text|
    ensures at <= r <= |text|
    decreases |text| - at
  {
    if at == |text| || text[at] == '\n' then at else LineEnd(text, at + 1)
  }

  /** Strictly earlier in code-point order. */
  predicate Precedes(a: string, b: string) {
    if b == [] then false
    else if a == [] then true
    else a[0] < b[0] || (a[0] == b[0] && Precedes(a[1..], b[1..]))
  }

  lemma {:induction false} PrecedesIsStrict(a: string, b: string)
    ensures !(Precedes(a, b) && Precedes(b, a)) && !Precedes(a, a)
    decreases |a| + |b|
  {
    if a != [] && b != [] {
      PrecedesIsStrict(a[1..], b[1..]);
    }
    if a != [] {
      PrecedesIsStrict(a[1..], []);
    }
  }

  lemma {:induction false} PrecedesOrder(a: string, b: string, c: string)
    ensures Precedes(a, b) && Precedes(b, c) ==> Precedes(a, c)
    ensures a == b || Precedes(a, b) || Precedes(b, a)
    decreases |a| + |b| + |c|
  {
    if a != [] && b != [] {
      assert a == [a[0]] + a[1..] && b == [b[0]] + b[1..];
      if c != [] {
        PrecedesOrder(a[1..], b[1..], c[1..]);
      } else {
        PrecedesOrder(a[1..], b[1..], c);
      }
    }
  }
}
