/** String values in the configuration file: conf_write escapes them, conf_read_simple reads the line into a buffer
    of fixed size and deletes the escapes in place. */
module ConfString {
  import opened Common

  const NUL: char := '\0'
  const SIZE: nat := 1024

  predicate Special(c: char) { c == '"' || c == '\\' }

  /** A backslash in front of each quote and each backslash. */
  function Escape(s: string): string {
    if s == "" then "" else (if Special(s[0]) then ['\\', s[0]] else [s[0]]) + Escape(s[1..])
  }

  /** The text up to the first quote without a backslash, with the backslashes taken out; None if there is no such
      quote. */
  function Unescaped(t: string): Option<string> {
    if t == "" then None
    else if t[0] == '"' then Some("")
    else if t[0] == '\\' then (if |t| == 1 then None else Prepend(t[1..2], Unescaped(t[2..])))
    else Prepend(t[..1], Unescaped(t[1..]))
  }

  function Prepend(s: string, r: Option<string>): Option<string> { if r.None? then None else Some(s + r.value) }

  function Written(name: string, s: string): string { name + "=\"" + Escape(s) + "\"\n" }

  // ----- the line as a whole -----

  function Find(t: string, c: char): nat {
    if t == "" || t[0] == c then 0 else 1 + Find(t[1..], c)
  }

  lemma {:induction false} FindFirst(t: string, c: char)
    ensures Find(t, c) <= |t| && c !in t[..Find(t, c)] && (Find(t, c) < |t| ==> t[Find(t, c)] == c)
  {
    if t != "" && t[0] != c {
      FindFirst(t[1..], c);
      assert t[..Find(t, c)] == t[..1] + t[1..][..Find(t[1..], c)];
    }
  }

  lemma {:induction false} FindAt(t: string, c: char, u: string)
    requires c !in t
    ensures Find(t + [c] + u, c) == |t|
  {
    var w := t + [c] + u;
    if t != "" {
      FindAt(t[1..], c, u);
      assert w[1..] == t[1..] + [c] + u;
      assert t[0] in t;
    }
  }

  /** What fgets puts into the buffer: up to and including the first newline, but at most SIZE - 1 characters. */
  function FirstLine(file: string): string {
    var n := Find(file, '\n');
    FindFirst(file, '\n');
    var k := if n < |file| then n + 1 else n;
    if k < SIZE then file[..k] else file[..SIZE - 1]
  }

  /** Without the newline and a carriage return in front of it. */
  function Cut(v: string): string {
    var k := Find(v, '\n');
    FindFirst(v, '\n');
    if k == |v| then v else if k > 0 && v[k - 1] == '\r' then v[..k - 1] else v[..k]
  }

  datatype Result = Skipped | NotString | Invalid | Value(name: string, text: string)

  /** What conf_read_simple makes of one line for a symbol of type string. */
  function Parsed(l: string): Result {
    if l == "" || !('A' <= l[0] <= 'Z') then Skipped
    else
      var e := Find(l, '=');
      FindFirst(l, '=');
      if e == |l| then Skipped
      else
        var v := Cut(l[e + 1..]);
        if v == "" || v[0] != '"' then NotString
        else
          match Unescaped(v[1..])
          case None => Invalid
          case Some(text) => Value(l[..e], text)
  }

  // ----- the round trip -----

  /** Taking the escapes out undoes putting them in, whatever follows the closing quote. */
  lemma {:induction false} UnescapeEscape(s: string, rest: string)
    ensures Unescaped(Escape(s) + "\"" + rest) == Some(s)
  {
    var t := Escape(s) + "\"" + rest;
    if s == "" {
      assert t[0] == '"';
    } else {
      UnescapeEscape(s[1..], rest);
      var u := Escape(s[1..]) + "\"" + rest;
      if Special(s[0]) {
        assert t[2..] == u && t[1..2] == [s[0]];
      } else {
        assert t[1..] == u && t[..1] == [s[0]];
      }
      assert [s[0]] + s[1..] == s;
    }
  }

  /** A piece of an escaped text has no closing quote. */
  lemma {:induction false} NoQuote(s: string, k: nat)
    requires k <= |Escape(s)|
    ensures Unescaped(Escape(s)[..k]) == None
  {
    var t := Escape(s);
    if s != "" && k > 0 {
      var n := if Special(s[0]) then 2 else 1;
      if k >= n {
        NoQuote(s[1..], k - n);
        assert t[..k][n..] == Escape(s[1..])[..k - n];
      }
    }
  }

  lemma {:induction false} EscapeNewline(s: string)
    ensures '\n' in Escape(s) <==> '\n' in s
  {
    if s != "" {
      EscapeNewline(s[1..]);
      assert s == [s[0]] + s[1..];
    }
  }

  /** Whatever can be written as a name without being taken for a comment or for more than a name. */
  predicate Name(name: string) { name != "" && name[0] != '#' && '=' !in name && '\n' !in name }

  /** The reader looks only at lines that start with a capital letter. */
  predicate Capital(name: string) { name != "" && 'A' <= name[0] <= 'Z' }

  predicate GoodName(name: string) { Name(name) && Capital(name) }

  /** What follows the equals sign decides. */
  function Content(name: string, v: string): Result {
    if v == "" || v[0] != '"' then NotString
    else
      match Unescaped(v[1..])
      case None => Invalid
      case Some(text) => Value(name, text)
  }

  lemma ParsedContent(name: string, v: string)
    requires GoodName(name)
    ensures Parsed(name + "=" + v) == Content(name, Cut(v))
  {
    var l := name + "=" + v;
    FindAt(name, '=', v);
    assert l == name + ['='] + v && l[..|name|] == name && l[|name| + 1..] == v;
  }

  lemma CutNone(v: string)
    requires '\n' !in v
    ensures Cut(v) == v
  {
    FindFirst(v, '\n');
  }

  lemma CutEnd(v: string, rest: string)
    requires '\n' !in v
    ensures Cut(v + "\n" + rest) == if v != "" && v[|v| - 1] == '\r' then v[..|v| - 1] else v
  {
    FindAt(v, '\n', rest);
    var w := v + "\n" + rest;
    assert w == v + ['\n'] + rest && w[..|v|] == v;
    if v != "" { assert w[|v| - 1] == v[|v| - 1] && w[..|v| - 1] == v[..|v| - 1]; }
  }

  /** A written line that is read with its closing quote. */
  lemma ReadsBack(name: string, s: string, newline: bool)
    requires GoodName(name) && '\n' !in s
    ensures Parsed(name + "=" + ("\"" + Escape(s) + "\"" + if newline then "\n" else "")) == Value(name, s)
  {
    hide Parsed, Escape, Cut, Unescaped, Find;
    var v := "\"" + Escape(s) + "\"";
    EscapeNewline(s);
    ParsedContent(name, v + if newline then "\n" else "");
    CutNone(v);
    CutEnd(v, "");
    assert v + "\n" + "" == v + "\n" && v + "" == v;
    UnescapeEscape(s, "");
    assert v[1..] == Escape(s) + "\"" + "";
  }

  /** A written line that is cut before its closing quote. */
  lemma CutShort(name: string, s: string, k: nat, newline: bool)
    requires GoodName(name) && k <= |Escape(s)| && '\n' !in Escape(s)[..k]
    ensures Parsed(name + "=" + ("\"" + Escape(s)[..k] + if newline then "\n" else "")) == Invalid
  {
    hide Parsed, Escape, Cut, Unescaped, Find;
    var v := "\"" + Escape(s)[..k];
    ParsedContent(name, v + if newline then "\n" else "");
    CutNone(v);
    CutEnd(v, "");
    assert v + "\n" + "" == v + "\n" && v + "" == v;
    NoQuote(s, k);
    assert v[1..] == Escape(s)[..k];
    if k > 0 {
      NoQuote(s, k - 1);
      assert v[..|v| - 1][1..] == Escape(s)[..k - 1];
    }
  }

  /** A piece of a line that does not reach beyond the equals sign. */
  lemma CutBefore(name: string, k: nat)
    requires GoodName(name) && k <= |name|
    ensures Parsed(name[..k]) == Skipped && Parsed(name + "=") == NotString
  {
    FindFirst(name[..k], '=');
    ParsedContent(name, "");
    assert name + "=" + "" == name + "=";
    CutNone("");
  }

  lemma FirstLineOf(pre: string, more: string)
    requires '\n' !in pre
    ensures FirstLine(pre + "\n" + more) == if |pre| + 1 < SIZE then pre + "\n" else pre[..SIZE - 1]
  {
    FindAt(pre, '\n', more);
    assert pre + "\n" + more == pre + ['\n'] + more;
    if |pre| + 1 < SIZE {
      assert (pre + "\n" + more)[..|pre| + 1] == pre + "\n";
    } else {
      assert (pre + "\n" + more)[..SIZE - 1] == pre[..SIZE - 1];
    }
  }

  /** Reading back what was written gives the same text exactly when the name starts with a capital letter, the text
      holds no newline and the line up to the closing quote fits into the buffer; otherwise the line is rejected. */
  lemma RoundTrip(name: string, s: string, more: string)
    requires Name(name)
    ensures var r := Parsed(FirstLine(Written(name, s) + more));
      if Capital(name) && '\n' !in s && |name| + |Escape(s)| + 3 < SIZE then r == Value(name, s) else !r.Value?
  {
    EscapeNewline(s);
    if !Capital(name) {
      NotCapital(name, s, more);
    } else if '\n' !in s {
      OneLine(name, s, more);
    } else {
      SeveralLines(name, s, more);
    }
  }

  lemma NotCapital(name: string, s: string, more: string)
    requires Name(name) && !Capital(name)
    ensures Parsed(FirstLine(Written(name, s) + more)) == Skipped
  {
    var file := Written(name, s) + more;
    FindFirst(file, '\n');
    assert file[0] == name[0] && name[0] in name;
  }

  lemma OneLine(name: string, s: string, more: string)
    requires GoodName(name) && '\n' !in s && '\n' !in Escape(s)
    ensures var r := Parsed(FirstLine(Written(name, s) + more));
      if |name| + |Escape(s)| + 3 < SIZE then r == Value(name, s) else !r.Value?
  {
    var e := Escape(s);
    hide Parsed, FirstLine, Escape;
    var body := name + "=\"" + e + "\"";
    assert Written(name, s) + more == body + "\n" + more;
    FirstLineOf(body, more);
    if |body| < SIZE {
      ReadsBack(name, s, |body| + 1 < SIZE);
      assert body + "\n" == name + "=" + ("\"" + e + "\"" + "\n");
      assert body[..|body|] == body == name + "=" + ("\"" + e + "\"" + "");
    } else {
      Truncated(name, s, SIZE - 1);
    }
  }

  lemma LinesSplit(name: string, a: string, b: string, more: string)
    ensures name + "=\"" + (a + "\n" + b) + "\"\n" + more == (name + "=\"" + a) + "\n" + (b + "\"\n" + more)
  {}

  lemma FindSplits(t: string, c: char)
    requires c in t
    ensures var k := Find(t, c); k < |t| && c !in t[..k] && t == t[..k] + [c] + t[k + 1..]
  {
    FindFirst(t, c);
    assert t[..|t|] == t;
  }

  lemma SeveralLines(name: string, s: string, more: string)
    requires GoodName(name) && '\n' in Escape(s)
    ensures !Parsed(FirstLine(Written(name, s) + more)).Value?
  {
    hide Parsed, FirstLine, Escape, Find;
    var e := Escape(s);
    var k := Find(e, '\n');
    FindSplits(e, '\n');
    var pre, rest := name + "=\"" + e[..k], e[k + 1..] + "\"\n" + more;
    LinesSplit(name, e[..k], e[k + 1..], more);
    FirstLineOf(pre, rest);
    if |pre| + 1 < SIZE {
      CutShort(name, s, k, true);
      assert pre + "\n" == name + "=" + ("\"" + e[..k] + "\n");
    } else {
      TruncatedEarly(name, s, k, SIZE - 1);
    }
  }

  lemma Truncated(name: string, s: string, n: nat)
    requires GoodName(name) && '\n' !in Escape(s) && n < |name + "=\"" + Escape(s) + "\""|
    ensures !Parsed((name + "=\"" + Escape(s) + "\"")[..n]).Value?
  {
    var l := name + "=\"" + Escape(s) + "\"";
    assert Escape(s)[..|Escape(s)|] == Escape(s);
    assert l[..n] == (name + "=\"" + Escape(s)[..|Escape(s)|])[..n];
    TruncatedEarly(name, s, |Escape(s)|, n);
  }

  lemma TruncatedEarly(name: string, s: string, k: nat, n: nat)
    requires GoodName(name) && k <= |Escape(s)| && '\n' !in Escape(s)[..k] && n <= |name| + 2 + k
    ensures !Parsed((name + "=\"" + Escape(s)[..k])[..n]).Value?
  {
    hide Parsed, Escape;
    var e := Escape(s)[..k];
    var l := name + "=\"" + e;
    if n <= |name| {
      assert l[..n] == name[..n];
      CutBefore(name, n);
    } else if n == |name| + 1 {
      assert l[..n] == name + "=";
      CutBefore(name, 0);
    } else {
      var j := n - |name| - 2;
      assert e[..j] == Escape(s)[..j];
      assert '\n' !in e[..j];
      CutShort(name, s, j, false);
      assert l[..n] == name + "=" + ("\"" + Escape(s)[..j] + "");
    }
  }
}
