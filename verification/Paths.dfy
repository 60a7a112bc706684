/** Pure POSIX paths: how pathlib reads and joins them. */
module Paths {
  import opened Text

  // No slash, one (or three or more), exactly two.
  datatype Root = NoRoot | OneSlash | TwoSlashes

  datatype Path = Path(root: Root, parts: seq<string>)

  // Empty parts and single dots disappear, double dots stay.
  function Kept(part: string): seq<string> {
    if part == "" || part == "." then [] else [part]
  }

  function Parts(s: string): seq<string>
    decreases |s|
  {
    var n := Find(s, '/');
    if n == |s| then Kept(s) else Kept(s[..n]) + Parts(s[n + 1..])
  }

  function RootOf(s: string): Root {
    if s == "" || s[0] != '/' then NoRoot
    else if |s| > 1 && s[1] == '/' && (|s| == 2 || s[2] != '/') then TwoSlashes
    else OneSlash
  }

  function PathOf(s: string): Path {
    Path(RootOf(s), Parts(s))
  }

  // dir / s
  function Joined(dir: Path, s: string): Path {
    if RootOf(s) != NoRoot then PathOf(s) else Path(dir.root, dir.parts + Parts(s))
  }

  // Path(s).name
  function NameOf(s: string): string {
    if Parts(s) == [] then "" else Parts(s)[|Parts(s)| - 1]
  }

  function LowerAscii(c: char): char {
    if 'A' <= c <= 'Z' then 'a' + (c - 'A') else c
  }

  // suffix.lower() == ".gguf"
  predicate IsGguf(name: string) {
    && |name| > 5 && name[|name| - 5] == '.' && LowerAscii(name[|name| - 4]) == 'g'
    && LowerAscii(name[|name| - 3]) == 'g' && LowerAscii(name[|name| - 2]) == 'u' && LowerAscii(name[|name| - 1]) == 'f'
  }

  /** One path is the other or one of its directories, with no way back up in between. */
  predicate Ancestor(a: Path, b: Path) {
    a.root == b.root && a.parts <= b.parts && ".." !in b.parts
  }

  predicate Disjoint(a: Path, b: Path) {
    !(a.root == b.root && (a.parts <= b.parts || b.parts <= a.parts))
  }

  // The first slash of a text with a slash after it.
  lemma HeadFound(a: string, b: string)
    ensures var n := Find(a, '/'); Find(a + "/" + b, '/') == n && (a + "/" + b)[..n] == a[..n]
  {
    var s, n := a + "/" + b, Find(a, '/');
    assert s[..n] == a[..n] && s[n] == (if n < |a| then a[n] else '/');
    FoundAt(s, '/', n);
  }

  // What stands after it.
  lemma HeadRest(a: string, b: string, n: nat)
    requires n <= |a|
    ensures (a + "/" + b)[n + 1..] == (if n == |a| then b else a[n + 1..] + "/" + b)
  {
  }

  lemma PartsFrom(s: string, n: nat)
    requires Find(s, '/') == n
    ensures Parts(s) == if n == |s| then Kept(s) else Kept(s[..n]) + Parts(s[n + 1..])
  {
    if n == |s| {
      assert Parts(s) == Kept(s);
    } else {
      assert Parts(s) == Kept(s[..n]) + Parts(s[n + 1..]);
    }
  }

  lemma ConcatAssociates(a: seq<string>, b: seq<string>, c: seq<string>)
    ensures a + (b + c) == a + b + c
  {
  }

  // Two texts with a slash between them.
  lemma {:induction false} PartsConcat(a: string, b: string)
    ensures Parts(a + "/" + b) == Parts(a) + Parts(b)
    decreases |a|
  {
    var s, n := a + "/" + b, Find(a, '/');
    HeadFound(a, b);
    HeadRest(a, b, n);
    PartsFrom(s, n);
    PartsFrom(a, n);
    if n == |a| {
      assert a[..n] == a;
    } else {
      PartsConcat(a[n + 1..], b);
      ConcatAssociates(Kept(a[..n]), Parts(a[n + 1..]), Parts(b));
    }
  }

  // A text that starts with a slash.
  lemma AbsoluteParts(s: string)
    ensures Parts("/" + s) == Parts(s)
  {
    PartsConcat("", s);
    OnePart("");
    assert "" + "/" + s == "/" + s;
  }

  lemma OnePart(s: string)
    requires '/' !in s
    ensures Parts(s) == Kept(s)
  {
    AbsentUnfound(s, '/');
  }

  // A text that starts with a whole part.
  lemma FirstPart(part: string, s: string)
    requires '/' !in part && part != "" && part != "."
    ensures Parts(part + "/" + s) == [part] + Parts(s)
  {
    PartsConcat(part, s);
    OnePart(part);
  }

  lemma {:induction false} PartsAreParts(s: string)
    ensures forall i :: 0 <= i < |Parts(s)| ==> '/' !in Parts(s)[i] && Parts(s)[i] != "" && Parts(s)[i] != "."
    decreases |s|
  {
    var n := Find(s, '/');
    AbsentUnfound(s, '/');
    if n < |s| { PartsAreParts(s[n + 1..]); }
  }

  lemma NameIsOnePart(s: string)
    ensures '/' !in NameOf(s) && NameOf(s) != "."
  {
    PartsAreParts(s);
  }
}
