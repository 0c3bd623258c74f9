/** The loops of conf_write and conf_read_simple that handle string values, on the line buffer itself. */
module ConfFile {
  import opened Common
  import opened ConfString

  /** Memory a holds, from p on, the text t with its terminating NUL. */
  ghost predicate Holds(a: seq<char>, p: nat, t: string) {
    p + |t| < |a| && a[p..p + |t|] == t && a[p + |t|] == NUL && NUL !in t
  }

  /** How many characters from i on are neither a quote nor a backslash. */
  method Span(s: string, i: nat) returns (l: nat)
    requires i <= |s|
    ensures i + l <= |s| && (forall j :: i <= j < i + l ==> !Special(s[j])) && (i + l < |s| ==> Special(s[i + l]))
  {
    l := 0;
    while i + l < |s| && !Special(s[i + l])
      invariant i + l <= |s| && forall j :: i <= j < i + l ==> !Special(s[j])
    {
      l := l + 1;
    }
  }

  lemma {:induction false} EscapePlain(s: string, i: nat, l: nat)
    requires i + l <= |s| && forall j :: i <= j < i + l ==> !Special(s[j])
    ensures Escape(s[i..]) == s[i..i + l] + Escape(s[i + l..])
    decreases l
  {
    if l > 0 {
      EscapePlain(s, i + 1, l - 1);
      assert s[i..][1..] == s[i + 1..];
      assert s[i..i + l] == [s[i]] + s[i + 1..i + 1 + (l - 1)];
    } else {
      assert s[i..i] == "";
    }
  }

  lemma EscapeSpecial(s: string, i: nat)
    requires i < |s| && Special(s[i])
    ensures Escape(s[i..]) == ['\\', s[i]] + Escape(s[i + 1..])
  {
    assert s[i..][1..] == s[i + 1..];
  }

  /** The S_STRING case of conf_write. */
  method WriteString(name: string, s: string) returns (out: string)
    ensures out == Written(name, s)
  {
    out := name + "=\"";
    var i := 0;
    assert s[0..] == s;
    while true
      invariant i <= |s| && out + Escape(s[i..]) == name + "=\"" + Escape(s)
      decreases |s| - i
    {
      hide Escape;
      var l := Span(s, i);
      EscapePlain(s, i, l);
      if l > 0 {
        Regroup(out, s[i..i + l], Escape(s[i + l..]));
        out := out + s[i..i + l];
        i := i + l;
      }
      if i == |s| { break; }
      EscapeSpecial(s, i);
      Regroup(out, ['\\', s[i]], Escape(s[i + 1..]));
      out := out + ['\\', s[i]];
      i := i + 1;
    }
    assert s[i..] == "";
    out := out + "\"\n";
  }

  lemma Regroup(a: string, b: string, c: string)
    ensures a + (b + c) == a + b + c
  {}

  /** The first of the characters c and d from p on, before the NUL. */
  method Search(a: array<char>, p: nat, c: char, d: char, ghost t: string) returns (q: nat, found: bool)
    requires Holds(a[..], p, t)
    ensures p <= q <= p + |t| && (forall j :: p <= j < q ==> a[j] != c && a[j] != d && a[j] != NUL)
    ensures found ==> q < p + |t| && (a[q] == c || a[q] == d)
    ensures !found ==> q == p + |t|
  {
    q := p;
    assert forall j :: 0 <= j < |t| ==> t[j] == a[..][p + j] == a[p + j] && t[j] in t;
    while a[q] != NUL
      invariant p <= q <= p + |t| && forall j :: p <= j < q ==> a[j] != c && a[j] != d && a[j] != NUL
      decreases p + |t| - q
    {
      if a[q] == c || a[q] == d { return q, true; }
      q := q + 1;
      assert a[p + |t|] == NUL;
    }
    return q, false;
  }

  /** memmove(at, at + 1, n) */
  method MoveLeft(a: array<char>, at: nat, n: nat)
    requires at + n < a.Length
    modifies a
    ensures a[..] == old(a[..at]) + old(a[at + 1..at + 1 + n]) + old(a[at + n..])
  {
    for i := 0 to n
      invariant forall j :: 0 <= j < a.Length && !(at <= j < at + i) ==> a[j] == old(a[j])
      invariant forall j :: at <= j < at + i ==> a[j] == old(a[j + 1])
    {
      a[at + i] := a[at + i + 1];
    }
  }

  /** Text in front of the first quote or backslash is taken as it is. */
  lemma {:induction false} UnescapePlain(t: string, n: nat)
    requires n <= |t| && forall j :: 0 <= j < n ==> !Special(t[j])
    ensures Unescaped(t) == Prepend(t[..n], Unescaped(t[n..]))
    decreases n
  {
    if n == 0 {
      assert t[0..] == t;
      PrependNone(Unescaped(t));
    } else {
      UnescapePlain(t[1..], n - 1);
      assert t[1..][..n - 1] == t[1..n] && t[1..][n - 1..] == t[n..];
      PrependTwice(t[..1], t[1..n], Unescaped(t[n..]));
      assert t[..1] + t[1..n] == t[..n];
    }
  }

  lemma PrependNone(r: Option<string>)
    ensures Prepend("", r) == r
  {
    if r.Some? { assert "" + r.value == r.value; }
  }

  lemma PrependTwice(s: string, t: string, r: Option<string>)
    ensures Prepend(s, Prepend(t, r)) == Prepend(s + t, r)
  {
    if r.Some? { assert s + (t + r.value) == s + t + r.value; }
  }

  /** Where the loop stands: `done` lies in front of q with its escapes gone, `rest` lies from q on. After a
      backslash at the very end q is one past the NUL, and nothing is left. */
  ghost predicate Halfway(a: seq<char>, p: nat, q: nat, t: string, done: string, rest: string, over: bool) {
    && Holds(a, q, rest) && Unescaped(t) == Prepend(done, Unescaped(rest))
    && (if over then rest == "" && p < q else q == p + |done| && a[p..q] == done && NUL !in done)
  }

  lemma HalfwayStart(a: seq<char>, p: nat, t: string)
    requires Holds(a, p, t)
    ensures Halfway(a, p, p, t, "", t, false) && p <= |a|
  {
    PrependNone(Unescaped(t));
    assert a[p..p] == "";
  }

  lemma HalfwayHolds(a: seq<char>, p: nat, q: nat, t: string, done: string, rest: string, over: bool)
    requires Halfway(a, p, q, t, done, rest, over)
    ensures Holds(a, q, rest) && q + |rest| < |a| && p <= q && (rest != "" ==> rest[0] == a[q])
  {
    if rest != "" { assert a[q..q + |rest|][0] == a[q]; }
  }

  lemma HoldsOn(a: seq<char>, q: nat, rest: string, n: nat)
    requires Holds(a, q, rest) && n <= |rest|
    ensures Holds(a, q + n, rest[n..]) && a[q..q + n] == rest[..n] && NUL !in rest[..n]
    ensures forall j :: 0 <= j < n ==> rest[j] == a[q + j]
  {
    var t := a[q..q + |rest|];
    assert t == rest;
    assert a[q + n..q + n + |rest[n..]|] == t[n..];
    assert a[q..q + n] == t[..n];
  }

  /** The loop up to the next quote or backslash. */
  lemma Onward(a: seq<char>, p: nat, q: nat, t: string, done: string, rest: string, over: bool, r: nat)
    requires Halfway(a, p, q, t, done, rest, over) && q <= r <= q + |rest| && forall j :: q <= j < r ==> !Special(a[j])
    ensures var n := r - q;
      && Halfway(a, p, r, t, done + rest[..n], rest[n..], over)
      && (r == q + |rest| ==> Unescaped(t) == None)
  {
    var n := r - q;
    HoldsOn(a, q, rest, n);
    UnescapePlain(rest, n);
    PrependTwice(done, rest[..n], Unescaped(rest[n..]));
    if r == q + |rest| { assert rest[n..] == "" && Unescaped("") == None; }
    hide Unescaped, Special, Holds;
    if over {
      assert n == 0;
    } else {
      assert a[p..r] == a[p..q] + a[q..r];
    }
  }

  /** A closing quote ends the text. */
  lemma Closes(a: seq<char>, p: nat, q: nat, t: string, done: string, rest: string, over: bool)
    requires Halfway(a, p, q, t, done, rest, over) && rest != "" && rest[0] == '"'
    ensures Unescaped(t) == Some(done) && Holds(a[q := NUL], p, done)
  {
    assert done + "" == done;
    assert a[q := NUL][p..q] == a[p..q];
  }

  /** What memmove leaves when it deletes the first character of a text. */
  lemma Shifted(a: seq<char>, a': seq<char>, q: nat, rest: string)
    requires Holds(a, q, rest) && rest != "" && a' == a[..q] + a[q + 1..q + 1 + |rest|] + a[q + |rest|..]
    ensures |a'| == |a| && a'[..q] == a[..q] && Holds(a', q, rest[1..]) && Holds(a', q + |rest|, "")
  {
    HoldsOn(a, q, rest, 1);
    var n := |rest|;
    var mid := a[q + 1..q + 1 + n];
    assert a[q + 1..q + n] == mid[..n - 1] && mid[n - 1] == NUL;
    assert a'[q..q + (n - 1)] == mid[..n - 1] && a'[q + n - 1] == mid[n - 1];
    assert a'[q + n] == a[q + n];
  }

  /** A backslash is deleted and the character behind it is taken as it is. */
  lemma Escapes(a: seq<char>, a': seq<char>, p: nat, q: nat, t: string, done: string, rest: string, over: bool)
    requires Halfway(a, p, q, t, done, rest, over) && rest != "" && rest[0] == '\\'
    requires a' == a[..q] + a[q + 1..q + 1 + |rest|] + a[q + |rest|..]
    ensures |rest| > 1 ==> Halfway(a', p, q + 1, t, done + rest[1..2], rest[2..], false)
    ensures |rest| == 1 ==> Halfway(a', p, q + 1, t, done, "", true)
    ensures |a'| == |a| && a'[..p] == a[..p]
  {
    Shifted(a, a', q, rest);
    assert a'[..p] == a'[..q][..p] && a[..p] == a[..q][..p];
    if |rest| > 1 {
      PrependTwice(done, rest[1..2], Unescaped(rest[2..]));
      HoldsOn(a', q, rest[1..], 1);
      assert rest[1..][1..] == rest[2..] && rest[1..][..1] == rest[1..2];
      hide Unescaped, Holds;
      assert a'[p..q + 1] == a'[..q][p..] + a'[q..q + 1];
      assert a[..q][p..] == a[p..q];
    }
  }

  /** A NUL put into the buffer. */
  method PutNul(a: array<char>, k: nat)
    requires k < a.Length
    modifies a
    ensures a[..] == old(a[..])[k := NUL]
  {
    a[k] := NUL;
  }

  /** The backslash at q goes, and what is behind it moves up. */
  method DropEscape(a: array<char>, p: nat, q: nat, ghost t: string, ghost done: string, ghost rest: string,
                    ghost over: bool)
    returns (ghost done': string, ghost rest': string, ghost over': bool)
    requires Halfway(a[..], p, q, t, done, rest, over) && rest != "" && rest[0] == '\\' && p <= a.Length
    modifies a
    ensures Halfway(a[..], p, q + 1, t, done', rest', over') && a[..p] == old(a[..p]) && |rest'| < |rest|
  {
    hide Unescaped, Holds, Halfway, Prepend;
    ghost var before := a[..];
    HalfwayHolds(before, p, q, t, done, rest, over);
    var len := Length(a, q, rest);
    MoveLeft(a, q, len);
    Escapes(before, a[..], p, q, t, done, rest, over);
    if |rest| > 1 {
      done', rest', over' := done + rest[1..2], rest[2..], false;
    } else {
      done', rest', over' := done, "", true;
    }
  }

  /** The loop of conf_read_simple that deletes the escapes in place. */
  method Unescape(a: array<char>, p: nat, ghost t: string) returns (ok: bool)
    requires Holds(a[..], p, t)
    modifies a
    ensures a[..p] == old(a[..p]) && ok == Unescaped(t).Some?
    ensures ok ==> Holds(a[..], p, Unescaped(t).value)
  {
    hide Unescaped, Holds, Halfway, Prepend;
    var q: nat := p;
    ghost var done, rest, over := "", t, false;
    HalfwayStart(a[..], p, t);
    while true
      invariant p <= a.Length && Halfway(a[..], p, q, t, done, rest, over) && a[..p] == old(a[..p])
      decreases |rest|
    {
      HalfwayHolds(a[..], p, q, t, done, rest, over);
      var r, found := Search(a, q, '"', '\\', rest);
      Onward(a[..], p, q, t, done, rest, over, r);
      if !found { return false; }
      done, rest := done + rest[..r - q], rest[r - q..];
      q := r;
      HalfwayHolds(a[..], p, q, t, done, rest, over);
      if a[q] == '"' {
        Closes(a[..], p, q, t, done, rest, over);
        KeptFront(a[..], p, q);
        PutNul(a, q);
        return true;
      }
      done, rest, over := DropEscape(a, p, q, t, done, rest, over);
      q := q + 1;
    }
  }

  lemma KeptFront(a: seq<char>, p: nat, k: nat)
    requires p <= k < |a|
    ensures a[k := NUL][..p] == a[..p]
  {}

  /** strlen */
  method Length(a: array<char>, p: nat, ghost t: string) returns (n: nat)
    requires Holds(a[..], p, t)
    ensures n == |t|
  {
    var q, found := Search(a, p, NUL, NUL, t);
    n := q - p;
  }

  /** strdup */
  method Text(a: array<char>, p: nat, ghost t: string) returns (s: string)
    requires Holds(a[..], p, t)
    ensures s == t
  {
    var n := Length(a, p, t);
    s := a[p..p + n];
  }

  lemma {:induction false} FindUnique(t: string, c: char, k: nat)
    requires k <= |t| && c !in t[..k] && (k < |t| ==> t[k] == c)
    ensures Find(t, c) == k
  {
    if k > 0 {
      assert t[0] == t[..k][0];
      assert t[1..][..k - 1] == t[..k][1..];
      FindUnique(t[1..], c, k - 1);
    }
  }

  /** fgets on a file without NUL characters */
  method Gets(a: array<char>, file: string)
    requires a.Length == SIZE && NUL !in file
    modifies a
    ensures Holds(a[..], 0, FirstLine(file))
  {
    var i := 0;
    while i < SIZE - 1 && i < |file|
      invariant i <= SIZE - 1 && i <= |file| && a[..i] == file[..i] && '\n' !in file[..i]
    {
      a[i] := file[i];
      i := i + 1;
      if file[i - 1] == '\n' { break; }
    }
    if i > 0 && file[i - 1] == '\n' {
      FindUnique(file, '\n', i - 1);
    } else if i == |file| {
      assert file[..i] == file;
      FindUnique(file, '\n', i);
    } else {
      FindFirst(file, '\n');
      assert Find(file, '\n') >= i;
    }
    assert FirstLine(file) == file[..i];
    a[i] := NUL;
    assert a[0..i] == a[..i];
  }

  /** Storing a NUL ends the text there, and leaves the text behind it. */
  lemma Ends(a: seq<char>, p: nat, t: string, n: nat)
    requires Holds(a, p, t) && n < |t|
    ensures Holds(a[p + n := NUL], p, t[..n]) && Holds(a[p + n := NUL], p + n + 1, t[n + 1..])
    ensures a[p + n := NUL][..p] == a[..p]
  {
    var u := a[p..p + |t|];
    assert u == t;
    var b := a[p + n := NUL];
    assert b[p..p + n] == u[..n];
    assert b[p + n + 1..p + n + 1 + |t[n + 1..]|] == u[n + 1..];
  }

  lemma Front(a: seq<char>, b: seq<char>, t: string, p: nat)
    requires Holds(a, 0, t) && |t| < p <= |a| && p <= |b| && b[..p] == a[..p]
    ensures Holds(b, 0, t)
  {
    assert b[0..|t|] == b[..p][..|t|] && a[0..|t|] == a[..p][..|t|];
    assert b[|t|] == b[..p][|t|] && a[|t|] == a[..p][|t|];
  }

  lemma Found(a: seq<char>, p: nat, t: string, q: nat, c: char)
    requires Holds(a, p, t) && p <= q <= p + |t| && (forall j :: p <= j < q ==> a[j] != c)
    requires q < p + |t| ==> a[q] == c
    ensures Find(t, c) == q - p
  {
    var u := a[p..p + |t|];
    assert u == t;
    FindUnique(u, c, q - p);
  }

  lemma FirstOf(a: seq<char>, p: nat, t: string)
    requires Holds(a, p, t)
    ensures p + |t| < |a| && a[p] == if t != "" then t[0] else NUL
  {
    var u := a[p..p + |t|];
    assert u == t;
  }

  lemma LastOf(a: seq<char>, p: nat, t: string)
    requires Holds(a, p, t)
    ensures p + |t| < |a| && (t != "" ==> t[|t| - 1] == a[p + |t| - 1])
  {
    var u := a[p..p + |t|];
    assert u == t;
  }

  /** Cuts off the newline, and a carriage return in front of it. */
  method CutLine(a: array<char>, p: nat, ghost v: string)
    requires 0 < p && Holds(a[..], p, v) && a[p - 1] == NUL
    modifies a
    ensures Holds(a[..], p, Cut(v)) && a[..p] == old(a[..p])
  {
    hide Find, Holds, Cut;
    LastOf(a[..], p, v);
    var k, found := Search(a, p, '\n', '\n', v);
    Found(a[..], p, v, k, '\n');
    CutParts(v, k - p);
    if !found { return; }
    Ends(a[..], p, v, k - p);
    PutNul(a, k);
    CutReturn(a, p, k, v[..k - p]);
  }

  /** Without the last character, if that is a carriage return. */
  function WithoutReturn(w: string): string { if w != "" && w[|w| - 1] == '\r' then w[..|w| - 1] else w }

  lemma CutParts(v: string, k: nat)
    requires Find(v, '\n') == k <= |v|
    ensures Cut(v) == if k == |v| then v else WithoutReturn(v[..k])
  {
    assert k > 0 ==> v[..k][..k - 1] == v[..k - 1];
  }

  method CutReturn(a: array<char>, p: nat, k: nat, ghost w: string)
    requires 0 < p && k == p + |w| && Holds(a[..], p, w) && a[p - 1] == NUL
    modifies a
    ensures Holds(a[..], p, WithoutReturn(w)) && a[..p] == old(a[..p])
  {
    hide Holds;
    LastOf(a[..], p, w);
    if a[k - 1] == '\r' {
      Ends(a[..], p, w, k - p - 1);
      PutNul(a, k - 1);
    }
  }

  /** One round of conf_read_simple on a line that assigns a value to a symbol of type string. */
  method ReadLine(a: array<char>, file: string) returns (r: Result)
    requires a.Length == SIZE && NUL !in file
    modifies a
    ensures r == Parsed(FirstLine(file))
  {
    ghost var l := FirstLine(file);
    Gets(a, file);
    hide FirstLine;
    FirstOf(a[..], 0, l);
    if !('A' <= a[0] <= 'Z') { return Skipped; }
    var e, found := Search(a, 0, '=', '=', l);
    Found(a[..], 0, l, e, '=');
    if !found { return Skipped; }
    Ends(a[..], 0, l, e);
    PutNul(a, e);
    r := ReadValue(a, e + 1, l[..e], l[e + 1..]);
  }

  /** The part behind the equals sign. */
  method ReadValue(a: array<char>, p: nat, ghost name: string, ghost v0: string) returns (r: Result)
    requires 0 < p <= a.Length && |name| < p && Holds(a[..], 0, name) && Holds(a[..], p, v0) && a[p - 1] == NUL
    modifies a
    ensures r == Content(name, Cut(v0))
  {
    hide Cut, Unescaped, Holds;
    ghost var before := a[..];
    CutLine(a, p, v0);
    Front(before, a[..], name, p);
    ghost var v := Cut(v0);
    FirstOf(a[..], p, v);
    if a[p] != '"' { return NotString; }
    HoldsOn(a[..], p, v, 1);
    before := a[..];
    var ok := Unescape(a, p + 1, v[1..]);
    if !ok { return Invalid; }
    Front(before, a[..], name, p + 1);
    var n := Text(a, 0, name);
    var t := Text(a, p + 1, Unescaped(v[1..]).value);
    r := Value(n, t);
  }

  /** Writing a string value and reading the file back with the real buffer. */
  method WriteThenRead(a: array<char>, name: string, s: string) returns (r: Result)
    requires a.Length == SIZE && Name(name) && NUL !in name && NUL !in s
    modifies a
    ensures r == Value(name, s) <==> Capital(name) && '\n' !in s && |name| + |Escape(s)| + 3 < SIZE
    ensures r.Value? ==> r == Value(name, s)
  {
    var file := WriteString(name, s);
    EscapeNul(s);
    RoundTrip(name, s, "");
    assert file + "" == file;
    r := ReadLine(a, file);
  }

  lemma {:induction false} EscapeNul(s: string)
    requires NUL !in s
    ensures NUL !in Escape(s)
  {
    if s != "" {
      assert s[0] in s;
      EscapeNul(s[1..]);
    }
  }
}
