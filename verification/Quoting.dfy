/** An anonymous node's name, as the printers spell it. */
module Quoting {

  /** What a backslash before a character stands for. */
  function Meant(c: char): char {
    match c
    case 'n' => '\n'
    case 't' => '\t'
    case 'r' => '\r'
    case '0' => '\0'
    case _ => c
  }

  /** The name up to the closing quote, and what trails it. */
  function Read(text: string, i: nat): (string, string)
    decreases |text| - i
  {
    if i >= |text| then ("", "")
    else if text[i] == '"' then ("", text[i + 1..])
    else if text[i] == '\\' && i + 1 < |text| then
      var (name, tail) := Read(text, i + 2);
      ([Meant(text[i + 1])] + name, tail)
    else
      var (name, tail) := Read(text, i + 1);
      ([text[i]] + name, tail)
  }

  lemma {:induction false} OneMoreChar(name: string, c: char, rest: string)
    ensures name + [c] + rest == name + ([c] + rest)
  {
  }

  /** The first character is taken for the opening quote unread. */
  method Unquote(text: string) returns (name: string, tail: string)
    ensures (name, tail) == Read(text, 1)
  {
    name := "";
    var i := 1;
    ghost var all := Read(text, 1);
    assert name + all.0 == all.0;
    while i < |text| && text[i] != '"'
      invariant 1 <= i && (text != "" ==> i <= |text|)
      invariant name + Read(text, i).0 == all.0 && Read(text, i).1 == all.1
      decreases |text| - i
    {
      if text[i] == '\\' && i + 1 < |text| {
        OneMoreChar(name, Meant(text[i + 1]), Read(text, i + 2).0);
        name := name + [Meant(text[i + 1])];
        i := i + 2;
      } else {
        OneMoreChar(name, text[i], Read(text, i + 1).0);
        name := name + [text[i]];
        i := i + 1;
      }
    }
    assert name + "" == name;
    tail := if i < |text| then text[i + 1..] else "";
  }

  /** A backslash at the very end stands for itself, and so does a character after one that no
      printer escapes. */
  lemma {:induction false} StrayBackslashIsRead(text: string, c: char)
    requires text == ['"', '\\'] || text == ['"', '\\', c, '"']
    requires c !in {'n', 't', 'r', '0'}
    ensures Read(text, 1) == (if |text| == 2 then ['\\'] else [c], "")
  {
    if |text| == 2 {
      assert Read(text, 2) == ("", "") && ['\\'] + "" == ['\\'];
    } else {
      assert text[4..] == "";
      assert Read(text, 3) == ("", "");
      assert Meant(c) == c && [c] + "" == [c];
    }
  }

  /** How a printer writes one character inside the quotes. */
  function Escaped(c: char): string {
    match c
    case '"' => ['\\', '"']
    case '\\' => ['\\', '\\']
    case '\n' => ['\\', 'n']
    case '\t' => ['\\', 't']
    case '\r' => ['\\', 'r']
    case '\0' => ['\\', '0']
    case _ => [c]
  }

  function EscapedAll(s: string): string {
    if s == "" then "" else Escaped(s[0]) + EscapedAll(s[1..])
  }

  /** One escaped character is read as itself. */
  lemma {:induction false} EscapedCharIsRead(c: char, text: string, i: nat, rest: string)
    requires i <= |text| && text[i..] == Escaped(c) + rest
    ensures var next := i + |Escaped(c)|;
            && next <= |text| && text[next..] == rest
            && Read(text, i) == ([c] + Read(text, next).0, Read(text, next).1)
  {
    var e := Escaped(c);
    assert text[i] == text[i..][0] == e[0];
    if |e| == 2 {
      assert text[i + 1] == text[i..][1] == e[1];
    }
    assert text[i + |e|..] == text[i..][|e|..];
  }

  lemma {:induction false} EscapedIsRead(s: string, text: string, i: nat, tail: string)
    requires i <= |text| && text[i..] == EscapedAll(s) + (['"'] + tail)
    ensures Read(text, i) == (s, tail)
    decreases |s|
  {
    if s == "" {
      assert text[i] == text[i..][0] == '"';
      assert text[i + 1..] == text[i..][1..] == tail;
    } else {
      var rest := EscapedAll(s[1..]) + (['"'] + tail);
      assert Escaped(s[0]) + EscapedAll(s[1..]) + (['"'] + tail) == Escaped(s[0]) + rest;
      EscapedCharIsRead(s[0], text, i, rest);
      EscapedIsRead(s[1..], text, i + |Escaped(s[0])|, tail);
      assert [s[0]] + s[1..] == s;
    }
  }

  /** Any name, quoted and escaped, is read back with whatever trails it. */
  lemma {:induction false} QuotedIsRead(s: string, tail: string)
    ensures Read(['"'] + EscapedAll(s) + ['"'] + tail, 1) == (s, tail)
  {
    var text := ['"'] + EscapedAll(s) + ['"'] + tail;
    assert text[1..] == EscapedAll(s) + (['"'] + tail);
    EscapedIsRead(s, text, 1, tail);
  }
}
