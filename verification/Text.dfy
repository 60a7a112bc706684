/** The string operations of Python the file formats rest on. */
module Text {
  datatype Option<+T> = None | Some(value: T)

  // str.isspace
  predicate IsSpace(c: char) {
    || '\U{9}' <= c <= '\U{d}' || '\U{1c}' <= c <= ' ' || c == '\U{85}' || c == '\U{a0}' || c == '\U{1680}'
    || '\U{2000}' <= c <= '\U{200a}' || c == '\U{2028}' || c == '\U{2029}' || c == '\U{202f}' || c == '\U{205f}'
    || c == '\U{3000}'
  }

  // Where str.splitlines ends a line.
  predicate IsBreak(c: char) {
    || '\n' <= c <= '\r' || '\U{1c}' <= c <= '\U{1e}' || c == '\U{85}' || c == '\U{2028}' || c == '\U{2029}'
  }

  predicate NoBreak(s: string) {
    forall i :: 0 <= i < |s| ==> !IsBreak(s[i])
  }

  // ---------------------------------------------------------------- strip

  function LStrip(s: string): string {
    if s != "" && IsSpace(s[0]) then LStrip(s[1..]) else s
  }

  function RStrip(s: string): string {
    if s != "" && IsSpace(s[|s| - 1]) then RStrip(s[..|s| - 1]) else s
  }

  function Strip(s: string): string {
    RStrip(LStrip(s))
  }

  predicate Trimmed(s: string) {
    s == "" || (!IsSpace(s[0]) && !IsSpace(s[|s| - 1]))
  }

  lemma {:induction false} LStripIsSuffix(s: string)
    ensures exists n :: 0 <= n <= |s| && LStrip(s) == s[n..]
    ensures LStrip(s) != "" ==> !IsSpace(LStrip(s)[0])
    decreases |s|
  {
    if s != "" && IsSpace(s[0]) {
      LStripIsSuffix(s[1..]);
      var n :| 0 <= n <= |s[1..]| && LStrip(s[1..]) == s[1..][n..];
      assert s[1..][n..] == s[n + 1..];
    } else {
      assert s[0..] == s;
    }
  }

  lemma {:induction false} RStripIsPrefix(s: string)
    ensures |RStrip(s)| <= |s| && RStrip(s) == s[..|RStrip(s)|]
    ensures RStrip(s) != "" ==> !IsSpace(RStrip(s)[|RStrip(s)| - 1])
    decreases |s|
  {
    if s != "" && IsSpace(s[|s| - 1]) {
      RStripIsPrefix(s[..|s| - 1]);
    }
  }

  // A part of the text, from i on and before j.
  predicate IsPart(part: string, s: string, i: int, j: int) {
    0 <= i <= j <= |s| && part == s[i..j]
  }

  lemma PrefixOfSuffix(s: string, n: nat, m: nat)
    requires n <= |s| && m <= |s[n..]|
    ensures IsPart(s[n..][..m], s, n, n + m)
  {
    assert s[n..][..m] == s[n..n + m];
  }

  lemma StripIsPart(s: string)
    ensures exists i, j :: IsPart(Strip(s), s, i, j)
  {
    LStripIsSuffix(s);
    RStripIsPrefix(LStrip(s));
    var n :| 0 <= n <= |s| && LStrip(s) == s[n..];
    PrefixOfSuffix(s, n, |Strip(s)|);
  }

  lemma StripIsTrimmed(s: string)
    ensures Trimmed(Strip(s))
  {
    LStripIsSuffix(s);
    RStripIsPrefix(LStrip(s));
    if Strip(s) != "" { assert Strip(s)[0] == LStrip(s)[0]; }
  }

  lemma TrimmedStays(s: string)
    requires Trimmed(s)
    ensures Strip(s) == s
  {
  }

  /** Stripping gives a part of the text that has no space at either end, and changes exactly the texts
      that have one. */
  lemma StripTrims(s: string)
    ensures Trimmed(Strip(s))
    ensures Strip(s) == s <==> Trimmed(s)
    ensures exists i, j :: IsPart(Strip(s), s, i, j)
  {
    StripIsTrimmed(s);
    StripIsPart(s);
    if Trimmed(s) { TrimmedStays(s); }
  }

  predicate AllSpace(s: string) {
    forall i :: 0 <= i < |s| ==> IsSpace(s[i])
  }

  lemma {:induction false} LStripLoses(s: string) returns (n: nat)
    ensures n <= |s| && AllSpace(s[..n]) && LStrip(s) == s[n..]
    decreases |s|
  {
    n := 0;
    if s != "" && IsSpace(s[0]) {
      var m := LStripLoses(s[1..]);
      n := m + 1;
      assert s[1..][m..] == s[n..];
      assert forall i :: 0 < i < n ==> s[i] == s[1..][..m][i - 1];
    }
  }

  lemma {:induction false} RStripLoses(s: string)
    ensures |RStrip(s)| <= |s| && RStrip(s) == s[..|RStrip(s)|] && AllSpace(s[|RStrip(s)|..])
    decreases |s|
  {
    if s != "" && IsSpace(s[|s| - 1]) {
      RStripLoses(s[..|s| - 1]);
      var n := |RStrip(s)|;
      assert s[n..] == s[..|s| - 1][n..] + [s[|s| - 1]];
    } else {
      assert s[|s|..] == "";
    }
  }

  /** Stripping loses nothing but space at either end. */
  lemma StripLosesSpace(s: string)
    ensures exists a, b :: AllSpace(a) && AllSpace(b) && s == a + Strip(s) + b
  {
    var n := LStripLoses(s);
    RStripLoses(LStrip(s));
    ThreeParts(s, n, |Strip(s)|);
  }

  lemma ThreeParts(s: string, n: nat, m: nat)
    requires n <= |s| && m <= |s[n..]|
    ensures s == s[..n] + s[n..][..m] + s[n..][m..]
  {
  }

  lemma StripKeepsNoBreak(s: string)
    requires NoBreak(s)
    ensures NoBreak(Strip(s))
  {
    StripIsPart(s);
    var i, j :| IsPart(Strip(s), s, i, j);
    assert forall k :: 0 <= k < j - i ==> Strip(s)[k] == s[i + k];
  }

  // ---------------------------------------------------------------- split at the first of a character

  function Find(s: string, c: char): (n: nat)
    ensures n <= |s| && c !in s[..n] && (n < |s| ==> s[n] == c)
  {
    if s == "" || s[0] == c then 0
    else
      assert forall n: nat :: n <= |s[1..]| ==> s[..n + 1] == [s[0]] + s[1..][..n];
      1 + Find(s[1..], c)
  }

  lemma FoundAt(s: string, c: char, n: nat)
    requires n < |s| && s[n] == c && c !in s[..n]
    ensures Find(s, c) == n
  {
    var m := Find(s, c);
    assert forall k :: 0 <= k < n ==> s[k] in s[..n];
    assert forall k :: 0 <= k < m ==> s[k] in s[..m];
  }

  lemma AbsentUnfound(s: string, c: char)
    ensures Find(s, c) == |s| <==> c !in s
  {
    assert s[..|s|] == s;
  }

  // ---------------------------------------------------------------- lines

  function BreakAt(s: string): (n: nat)
    ensures n <= |s| && NoBreak(s[..n]) && (n < |s| ==> IsBreak(s[n]))
  {
    if s == "" || IsBreak(s[0]) then 0
    else
      assert forall n: nat :: n <= |s[1..]| ==> s[..n + 1] == [s[0]] + s[1..][..n];
      1 + BreakAt(s[1..])
  }

  // A carriage return and a line feed end one line.
  function BreakWidth(s: string, n: nat): (w: nat)
    requires n < |s|
    ensures 1 <= w && n + w <= |s|
  {
    if s[n] == '\r' && n + 1 < |s| && s[n + 1] == '\n' then 2 else 1
  }

  // str.splitlines
  function SplitLines(s: string): seq<string>
    decreases |s|
  {
    if s == "" then []
    else
      var n := BreakAt(s);
      if n == |s| then [s] else [s[..n]] + SplitLines(s[n + BreakWidth(s, n)..])
  }

  lemma {:induction false} SplitLinesHaveNoBreak(s: string)
    ensures forall i :: 0 <= i < |SplitLines(s)| ==> NoBreak(SplitLines(s)[i])
    decreases |s|
  {
    if s != "" {
      var n := BreakAt(s);
      if n == |s| { assert s[..n] == s; }
      else { SplitLinesHaveNoBreak(s[n + BreakWidth(s, n)..]); }
    }
  }

  function Unlines(lines: seq<string>): string {
    if lines == [] then "" else lines[0] + "\n" + Unlines(lines[1..])
  }

  // "\n".join(lines) + "\n"
  function JoinLines(lines: seq<string>): string {
    if lines == [] then "\n" else Unlines(lines)
  }

  lemma UnlinesHead(lines: seq<string>)
    requires lines != []
    ensures var s, n := Unlines(lines), |lines[0]|;
      n < |s| && s[n] == '\n' && s[..n] == lines[0] && s[n + 1..] == Unlines(lines[1..])
  {
  }

  /** Lines that hold no break come back from their text. */
  lemma {:induction false} SplitUnlines(lines: seq<string>)
    requires forall i :: 0 <= i < |lines| ==> NoBreak(lines[i])
    ensures SplitLines(Unlines(lines)) == lines
    decreases |lines|
  {
    if lines != [] {
      UnlinesHead(lines);
      BreakFoundAt(Unlines(lines), |lines[0]|);
      SplitUnlines(lines[1..]);
    }
  }

  /** A line ends at every line boundary, and a carriage return with its line feed is one. */
  lemma SplitAtBreak(line: string, c: char, rest: string)
    requires NoBreak(line) && IsBreak(c)
    ensures SplitLines(line + "\r\n" + rest) == [line] + SplitLines(rest)
    ensures !(c == '\r' && rest != "" && rest[0] == '\n') ==> SplitLines(line + [c] + rest) == [line] + SplitLines(rest)
  {
    var n := |line|;
    var s, t := line + "\r\n" + rest, line + [c] + rest;
    assert s[..n] == line && t[..n] == line && s[n] == '\r' && s[n + 1] == '\n' && t[n] == c;
    BreakFoundAt(s, n);
    BreakFoundAt(t, n);
    assert s[n + 2..] == rest && t[n + 1..] == rest;
    assert n + 1 < |t| ==> t[n + 1] == rest[0];
  }

  lemma BreakFoundAt(s: string, n: nat)
    requires n < |s| && IsBreak(s[n]) && NoBreak(s[..n])
    ensures BreakAt(s) == n
  {
    var m := BreakAt(s);
    assert forall k :: 0 <= k < n ==> s[..n][k] == s[k];
    assert forall k :: 0 <= k < m ==> s[..m][k] == s[k];
  }

  // ---------------------------------------------------------------- order

  // The order of str, by code points.
  predicate Leq(a: string, b: string) {
    a == "" || (b != "" && (a[0] < b[0] || (a[0] == b[0] && Leq(a[1..], b[1..]))))
  }

  lemma {:induction false} LeqTotal(a: string, b: string)
    ensures Leq(a, b) || Leq(b, a)
    ensures Leq(a, b) && Leq(b, a) ==> a == b
    decreases |a|
  {
    if a != "" && b != "" {
      LeqTotal(a[1..], b[1..]);
      assert a == [a[0]] + a[1..] && b == [b[0]] + b[1..];
    }
  }

  lemma {:induction false} LeqTransitive(a: string, b: string, c: string)
    requires Leq(a, b) && Leq(b, c)
    ensures Leq(a, c)
    decreases |a|
  {
    if a != "" && a[0] == b[0] && b[0] == c[0] { LeqTransitive(a[1..], b[1..], c[1..]); }
  }

  lemma LeqStep(a: string, b: string)
    requires a != "" && b != "" && a[0] == b[0]
    ensures Leq(a, b) <==> Leq(a[1..], b[1..])
  {
  }

  lemma {:induction false} PrefixComesFirst(front: string, a: string)
    ensures Leq(front, front + a)
    decreases |front|
  {
    if front != "" {
      PrefixComesFirst(front[1..], a);
      assert (front + a)[1..] == front[1..] + a;
      LeqStep(front, front + a);
    }
  }

  /** Texts are ordered by their first different character, and a text comes before those it starts. */
  lemma {:induction false} LeqByFirstDifference(front: string, x: char, y: char, a: string, b: string)
    requires x < y
    ensures Leq(front, front + a)
    ensures Leq(front + [x] + a, front + [y] + b) && !Leq(front + [y] + b, front + [x] + a)
    decreases |front|
  {
    PrefixComesFirst(front, a);
    var s, t := front + [x] + a, front + [y] + b;
    if front == "" {
      assert s[0] == x && t[0] == y;
    } else {
      LeqByFirstDifference(front[1..], x, y, a, b);
      assert s[1..] == front[1..] + [x] + a && t[1..] == front[1..] + [y] + b;
      assert s[0] == t[0];
      LeqStep(s, t);
      LeqStep(t, s);
    }
  }

  predicate IsLeast(k: string, keys: set<string>) {
    k in keys && forall o :: o in keys ==> Leq(k, o)
  }

  lemma {:induction false} LeastExists(keys: set<string>)
    requires keys != {}
    ensures exists k :: IsLeast(k, keys)
    decreases |keys|
  {
    var k: string :| k in keys;
    var others := keys - {k};
    LeqTotal(k, k);
    if others == {} {
      assert keys == {k} && IsLeast(k, keys);
    } else {
      LeastExists(others);
      var m :| IsLeast(m, others);
      LeqTotal(k, m);
      if Leq(k, m) {
        forall o | o in keys ensures Leq(k, o) { if o != k { LeqTransitive(k, m, o); } }
        assert IsLeast(k, keys);
      } else {
        assert IsLeast(m, keys);
      }
    }
  }

  // sorted(keys)
  ghost function SortedKeys(keys: set<string>): seq<string>
    decreases |keys|
  {
    if keys == {} then []
    else
      LeastExists(keys);
      var k :| IsLeast(k, keys);
      [k] + SortedKeys(keys - {k})
  }

  lemma LeastIsUnique(k: string, m: string, keys: set<string>)
    requires IsLeast(k, keys) && IsLeast(m, keys)
    ensures k == m
  {
    LeqTotal(k, m);
  }

  predicate Below(a: string, b: string) {
    Leq(a, b) && a != b
  }

  predicate Ascending(s: seq<string>) {
    forall i, j :: 0 <= i < j < |s| ==> Below(s[i], s[j])
  }

  lemma LeastFirst(k: string, s: seq<string>)
    requires Ascending(s) && forall j :: 0 <= j < |s| ==> Below(k, s[j])
    ensures Ascending([k] + s)
  {
    var r := [k] + s;
    forall i, j | 0 <= i < j < |r|
      ensures Below(r[i], r[j])
    {
      assert r[j] == s[j - 1];
      if i > 0 { assert r[i] == s[i - 1]; }
    }
  }

  // The keys, each once, in ascending order.
  lemma {:induction false} SortedKeysSorted(keys: set<string>)
    ensures forall k :: k in SortedKeys(keys) <==> k in keys
    ensures Ascending(SortedKeys(keys))
    decreases |keys|
  {
    if keys != {} {
      LeastExists(keys);
      var k := SortedKeys(keys)[0];
      assert IsLeast(k, keys);
      SortedKeysSorted(keys - {k});
      var rest := SortedKeys(keys - {k});
      assert SortedKeys(keys) == [k] + rest;
      forall j | 0 <= j < |rest|
        ensures Below(k, rest[j])
      {
        assert rest[j] in rest;
      }
      LeastFirst(k, rest);
    }
  }

  method Least(keys: set<string>) returns (k: string)
    requires keys != {}
    ensures IsLeast(k, keys)
  {
    k :| k in keys;
    LeqTotal(k, k);
    var todo := keys - {k};
    while todo != {}
      invariant todo < keys && k in keys && k !in todo
      invariant forall o :: o in keys && o !in todo ==> Leq(k, o)
    {
      var m: string :| m in todo;
      LeqTotal(k, m);
      LeqTotal(m, m);
      if Leq(m, k) {
        forall o | o in keys && o !in todo ensures Leq(m, o) { LeqTransitive(m, k, o); }
        k := m;
      }
      todo := todo - {m};
    }
  }

  method Sort(keys: set<string>) returns (sorted: seq<string>)
    ensures sorted == SortedKeys(keys)
  {
    sorted := [];
    var todo := keys;
    while todo != {}
      invariant todo <= keys && SortedKeys(keys) == sorted + SortedKeys(todo)
    {
      var k := Least(todo);
      LeastExists(todo);
      LeastIsUnique(k, SortedKeys(todo)[0], todo);
      sorted := sorted + [k];
      todo := todo - {k};
    }
  }
}
