/** The environment file: its parser, its printer, and the command that fills it with ports and
    secrets. */
module EnvFile {
  import opened Text

  type Env = map<string, string>

  // ---------------------------------------------------------------- parsing

  // What one line sets.
  function Entry(raw: string): Option<(string, string)> {
    var line := Strip(raw);
    if line == "" || line[0] == '#' || '=' !in line then None
    else
      AbsentUnfound(line, '=');
      Some((Strip(line[..Find(line, '=')]), Strip(line[Find(line, '=') + 1..])))
  }

  // Later lines win.
  function ParseLines(lines: seq<string>): Env
    decreases |lines|
  {
    if lines == [] then map[]
    else
      var before := ParseLines(lines[..|lines| - 1]);
      match Entry(lines[|lines| - 1])
      case None => before
      case Some((key, value)) => before[key := value]
  }

  method ParseEnv(text: string) returns (values: Env)
    ensures values == ParseLines(SplitLines(text))
  {
    values := map[];
    var lines := SplitLines(text);
    for i := 0 to |lines|
      invariant values == ParseLines(lines[..i])
    {
      ParseSnoc(lines, i);
      var line := Strip(lines[i]);
      if line == "" || line[0] == '#' || '=' !in line { continue; }
      AbsentUnfound(line, '=');
      var at := Find(line, '=');
      values := values[Strip(line[..at]) := Strip(line[at + 1..])];
    }
    assert lines[..|lines|] == lines;
  }

  // One line more.
  lemma ParseSnoc(lines: seq<string>, i: nat)
    requires i < |lines|
    ensures ParseLines(lines[..i + 1]) == (match Entry(lines[i])
                                           case None => ParseLines(lines[..i])
                                           case Some((key, value)) => ParseLines(lines[..i])[key := value])
  {
    assert lines[..i + 1][..i] == lines[..i];
  }

  predicate Sets(line: string, k: string, v: string) {
    Entry(line) == Some((k, v))
  }

  // Line i gives the key this value and no later line names the key.
  predicate LastFor(lines: seq<string>, k: string, v: string, i: nat) {
    i < |lines| && Sets(lines[i], k, v) && forall j :: i < j < |lines| ==> !Names(lines[j], k)
  }

  ghost predicate HasLast(lines: seq<string>, k: string, v: string) {
    exists i: nat :: LastFor(lines, k, v, i)
  }

  lemma LastOfFront(lines: seq<string>, k: string, v: string, i: nat)
    requires lines != [] && !Names(lines[|lines| - 1], k) && i < |lines| - 1
    ensures LastFor(lines, k, v, i) <==> LastFor(lines[..|lines| - 1], k, v, i)
  {
    var front := lines[..|lines| - 1];
    assert forall j :: 0 <= j < |front| ==> front[j] == lines[j];
  }

  lemma HasLastSnoc(lines: seq<string>, k: string, v: string)
    requires lines != []
    ensures var front, last := lines[..|lines| - 1], lines[|lines| - 1];
      HasLast(lines, k, v) <==> if Names(last, k) then Sets(last, k, v) else HasLast(front, k, v)
  {
    var front, n := lines[..|lines| - 1], |lines| - 1;
    if Names(lines[n], k) {
      if Sets(lines[n], k, v) { assert LastFor(lines, k, v, n); }
    } else {
      if i: nat :| LastFor(lines, k, v, i) { LastOfFront(lines, k, v, i); }
      if i: nat :| LastFor(front, k, v, i) { LastOfFront(lines, k, v, i); }
    }
  }

  /** The value of a key is the one its last line gives. */
  lemma {:induction false} LastLineWins(lines: seq<string>, k: string, v: string)
    ensures k in ParseLines(lines) && ParseLines(lines)[k] == v <==> HasLast(lines, k, v)
    decreases |lines|
  {
    if lines != [] {
      LastLineWins(lines[..|lines| - 1], k, v);
      HasLastSnoc(lines, k, v);
    }
  }

  // ---------------------------------------------------------------- printing

  // A template line that is copied as it is.
  predicate Copied(raw: string) {
    raw == "" || (LStrip(raw) != "" && LStrip(raw)[0] == '#') || '=' !in raw
  }

  function KeyOf(raw: string): string {
    Strip(raw[..Find(raw, '=')])
  }

  function Assignment(key: string, value: string): string {
    key + "=" + value
  }

  function ValueOr(values: Env, key: string): string {
    if key in values then values[key] else ""
  }

  function TemplateLine(raw: string, values: Env): string {
    if Copied(raw) then raw else Assignment(KeyOf(raw), ValueOr(values, KeyOf(raw)))
  }

  function TemplateKeys(lines: seq<string>): set<string> {
    set i | 0 <= i < |lines| && !Copied(lines[i]) :: KeyOf(lines[i])
  }

  function TemplatePart(lines: seq<string>, values: Env): seq<string> {
    seq(|lines|, i requires 0 <= i < |lines| => TemplateLine(lines[i], values))
  }

  function ExtraPart(keys: seq<string>, values: Env): seq<string> {
    seq(|keys|, i requires 0 <= i < |keys| => Assignment(keys[i], ValueOr(values, keys[i])))
  }

  ghost function ExtraKeys(lines: seq<string>, values: Env): seq<string> {
    SortedKeys(values.Keys - TemplateKeys(lines))
  }

  ghost function RenderedLines(lines: seq<string>, values: Env): seq<string> {
    TemplatePart(lines, values) + ExtraPart(ExtraKeys(lines, values), values)
  }

  ghost function Rendered(template: string, values: Env): string {
    JoinLines(RenderedLines(SplitLines(template), values))
  }

  method RenderEnvTemplate(template: string, values: Env) returns (text: string)
    ensures text == Rendered(template, values)
  {
    var lines := SplitLines(template);
    var rendered: seq<string> := [];
    var seen: set<string> := {};
    for i := 0 to |lines|
      invariant rendered == TemplatePart(lines[..i], values) && seen == TemplateKeys(lines[..i])
    {
      var raw := lines[i];
      KeysSnoc(lines, i);
      TemplateSnoc(lines, i, values);
      if Copied(raw) {
        rendered := rendered + [raw];
      } else {
        var key := Strip(raw[..Find(raw, '=')]);
        seen := seen + {key};
        rendered := rendered + [key + "=" + if key in values then values[key] else ""];
      }
    }
    assert lines[..|lines|] == lines;
    var extra := Sort(values.Keys - seen);
    SortedKeysSorted(values.Keys - seen);
    for i := 0 to |extra|
      invariant rendered == TemplatePart(lines, values) + ExtraPart(extra[..i], values)
    {
      assert extra[i] in extra;
      ExtraSnoc(extra, i, values);
      rendered := rendered + [extra[i] + "=" + values[extra[i]]];
    }
    assert extra[..|extra|] == extra;
    text := JoinLines(rendered);
  }

  lemma TemplateSnoc(lines: seq<string>, i: nat, values: Env)
    requires i < |lines|
    ensures TemplatePart(lines[..i + 1], values) == TemplatePart(lines[..i], values) + [TemplateLine(lines[i], values)]
  {
  }

  lemma ExtraSnoc(keys: seq<string>, i: nat, values: Env)
    requires i < |keys|
    ensures ExtraPart(keys[..i + 1], values) == ExtraPart(keys[..i], values) + [Assignment(keys[i], ValueOr(values, keys[i]))]
  {
  }

  lemma KeysSnoc(lines: seq<string>, i: nat)
    requires i < |lines|
    ensures TemplateKeys(lines[..i + 1]) == TemplateKeys(lines[..i]) + (if Copied(lines[i]) then {} else {KeyOf(lines[i])})
  {
    var before, after := lines[..i], lines[..i + 1];
    assert forall j :: 0 <= j < i ==> before[j] == after[j];
    assert after[i] == lines[i];
  }

  // ---------------------------------------------------------------- the round trip

  // What can stand before, and after, the equals sign of a line.
  predicate CleanKey(key: string) {
    Trimmed(key) && NoBreak(key) && '=' !in key && (key != "" ==> key[0] != '#')
  }

  predicate CleanValue(value: string) {
    Trimmed(value) && NoBreak(value)
  }

  predicate Clean(values: Env) {
    forall k :: k in values ==> CleanKey(k) && CleanValue(values[k])
  }

  lemma EntryIsClean(raw: string)
    requires NoBreak(raw) && Entry(raw).Some?
    ensures CleanKey(Entry(raw).value.0) && CleanValue(Entry(raw).value.1)
  {
    var line := Strip(raw);
    StripTrims(raw);
    StripKeepsNoBreak(raw);
    AbsentUnfound(line, '=');
    var at := Find(line, '=');
    StripTrims(line[..at]);
    StripKeepsNoBreak(line[..at]);
    StripTrims(line[at + 1..]);
    StripKeepsNoBreak(line[at + 1..]);
    var key := Strip(line[..at]);
    var i, j :| 0 <= i <= j <= at && key == line[..at][i..j];
    assert forall c :: c in key ==> c in line[..at];
    if key != "" { FirstStays(line, at); }
  }

  // A key starts where its line starts.
  lemma FirstStays(line: string, at: nat)
    requires Trimmed(line) && 0 < at < |line|
    ensures Strip(line[..at]) != "" && Strip(line[..at])[0] == line[0]
  {
    var front := line[..at];
    assert front[0] == line[0] && LStrip(front) == front;
    RStripIsPrefix(front);
    KeepsFirst(front);
  }

  lemma {:induction false} KeepsFirst(s: string)
    requires s != "" && !IsSpace(s[0])
    ensures RStrip(s) != ""
    decreases |s|
  {
    if IsSpace(s[|s| - 1]) { KeepsFirst(s[..|s| - 1]); }
  }

  lemma {:induction false} ParsedLinesClean(lines: seq<string>)
    requires forall i :: 0 <= i < |lines| ==> NoBreak(lines[i])
    ensures Clean(ParseLines(lines))
    decreases |lines|
  {
    if lines != [] {
      ParsedLinesClean(lines[..|lines| - 1]);
      if Entry(lines[|lines| - 1]).Some? { EntryIsClean(lines[|lines| - 1]); }
    }
  }

  /** Whatever a file holds, what it parses to is clean. */
  lemma ParsedIsClean(text: string)
    ensures Clean(ParseLines(SplitLines(text)))
  {
    SplitLinesHaveNoBreak(text);
    ParsedLinesClean(SplitLines(text));
  }

  // A line cut at its equals sign.
  lemma AssignmentCuts(key: string, value: string)
    ensures var line := Assignment(key, value);
      |key| < |line| && line[|key|] == '=' && line[..|key|] == key && line[|key| + 1..] == value
  {
  }

  lemma AssignmentTrimmed(key: string, value: string)
    requires Trimmed(key) && Trimmed(value)
    ensures Trimmed(Assignment(key, value))
  {
    var line := Assignment(key, value);
    assert line[0] == (if key == "" then '=' else key[0]);
    assert line[|line| - 1] == (if value == "" then '=' else value[|value| - 1]);
  }

  lemma AssignmentNoBreak(key: string, value: string)
    requires NoBreak(key) && NoBreak(value)
    ensures NoBreak(Assignment(key, value))
  {
  }

  lemma AssignmentFound(key: string, value: string)
    requires '=' !in key
    ensures Find(Assignment(key, value), '=') == |key| && '=' in Assignment(key, value)
  {
    AssignmentCuts(key, value);
    FoundAt(Assignment(key, value), '=', |key|);
  }

  lemma AssignmentParses(key: string, value: string)
    requires CleanKey(key) && CleanValue(value)
    ensures NoBreak(Assignment(key, value)) && Entry(Assignment(key, value)) == Some((key, value))
  {
    var line := Assignment(key, value);
    AssignmentNoBreak(key, value);
    AssignmentTrimmed(key, value);
    TrimmedStays(line);
    AssignmentFound(key, value);
    AssignmentCuts(key, value);
    TrimmedStays(key);
    TrimmedStays(value);
    assert line[0] != '#' by { assert line[0] == (if key == "" then '=' else key[0]); }
  }

  // A copied line sets nothing, and any other sets its key.
  lemma TemplateEntry(raw: string)
    requires NoBreak(raw)
    ensures Copied(raw) <==> Entry(raw).None?
    ensures !Copied(raw) ==> Entry(raw).value.0 == KeyOf(raw) && CleanKey(KeyOf(raw))
  {
    var line := Strip(raw);
    LStripIsSuffix(raw);
    var n :| 0 <= n <= |raw| && LStrip(raw) == raw[n..];
    RStripIsPrefix(LStrip(raw));
    StripTrims(raw);
    EqualsStays(raw);
    if !Copied(raw) {
      AbsentUnfound(line, '=');
      AbsentUnfound(raw, '=');
      assert LStrip(raw) != "" && line != "" && line[0] == LStrip(raw)[0];
      KeysAgree(raw);
      EntryIsClean(raw);
    } else if line != "" {
      assert line[0] == LStrip(raw)[0];
    }
  }

  lemma {:induction false} LStripKeeps(s: string, c: char)
    requires !IsSpace(c)
    ensures c in LStrip(s) <==> c in s
    decreases |s|
  {
    if s != "" && IsSpace(s[0]) {
      LStripKeeps(s[1..], c);
      assert s == [s[0]] + s[1..];
    }
  }

  lemma {:induction false} RStripKeeps(s: string, c: char)
    requires !IsSpace(c)
    ensures c in RStrip(s) <==> c in s
    decreases |s|
  {
    if s != "" && IsSpace(s[|s| - 1]) {
      RStripKeeps(s[..|s| - 1], c);
      assert s == s[..|s| - 1] + [s[|s| - 1]];
    }
  }

  lemma EqualsStays(raw: string)
    ensures '=' in Strip(raw) <==> '=' in raw
  {
    LStripKeeps(raw, '=');
    RStripKeeps(LStrip(raw), '=');
  }

  // Stripping the line first does not change its key.
  lemma {:induction false} KeysAgree(raw: string)
    requires '=' in raw
    ensures '=' in Strip(raw) && Strip(Strip(raw)[..Find(Strip(raw), '=')]) == KeyOf(raw)
    decreases |raw|
  {
    EqualsStays(raw);
    AbsentUnfound(raw, '=');
    if IsSpace(raw[0]) {
      var rest := raw[1..];
      assert raw == [raw[0]] + rest;
      KeysAgree(rest);
      AbsentUnfound(rest, '=');
      assert raw[..Find(raw, '=')] == [raw[0]] + rest[..Find(rest, '=')];
      assert raw[..Find(raw, '=')][1..] == rest[..Find(rest, '=')];
    } else {
      RStripKeepsFind(raw);
    }
  }

  lemma RStripKeepsFind(s: string)
    requires '=' in s
    ensures '=' in RStrip(s) && Find(RStrip(s), '=') == Find(s, '=') && RStrip(s)[..Find(s, '=')] == s[..Find(s, '=')]
  {
    RStripKeeps(s, '=');
    RStripIsPrefix(s);
    AbsentUnfound(s, '=');
    AbsentUnfound(RStrip(s), '=');
    var n := Find(RStrip(s), '=');
    assert s[..n] == RStrip(s)[..n] && s[n] == '=';
    FoundAt(s, '=', n);
  }

  // Lines that all agree with one map parse to its part they name.
  lemma {:induction false} AgreeingLines(lines: seq<string>, values: Env)
    requires AllAgree(lines, values)
    ensures forall k :: k in ParseLines(lines) <==> SomeNames(lines, k)
    ensures forall k :: k in ParseLines(lines) ==> k in values && ParseLines(lines)[k] == values[k]
    decreases |lines|
  {
    if lines != [] {
      var front := lines[..|lines| - 1];
      assert forall i :: 0 <= i < |front| ==> front[i] == lines[i];
      AgreeingLines(front, values);
      assert Agrees(lines[|lines| - 1], values);
      forall k
        ensures SomeNames(lines, k) <==> SomeNames(front, k) || Names(lines[|lines| - 1], k)
      {
        NamesSnoc(lines, k);
      }
    }
  }

  lemma NamesSnoc(lines: seq<string>, k: string)
    requires lines != []
    ensures SomeNames(lines, k) <==> SomeNames(lines[..|lines| - 1], k) || Names(lines[|lines| - 1], k)
  {
    var front := lines[..|lines| - 1];
    if i :| 0 <= i < |front| && Names(front[i], k) { assert Names(lines[i], k); }
    if i :| 0 <= i < |lines| && Names(lines[i], k) { assert i < |front| ==> Names(front[i], k); }
  }

  predicate Says(values: Env, entry: (string, string)) {
    entry.0 in values && values[entry.0] == entry.1
  }

  predicate Names(line: string, k: string) {
    Entry(line).Some? && Entry(line).value.0 == k
  }

  // The given values, with the empty one for the template's other keys.
  function Completed(template: string, values: Env): Env {
    map k | k in values.Keys + TemplateKeys(SplitLines(template)) :: ValueOr(values, k)
  }

  // The values agree with the line, and it is one line.
  predicate Agrees(line: string, values: Env) {
    NoBreak(line) && (Entry(line).Some? ==> Says(values, Entry(line).value))
  }

  predicate SomeNames(lines: seq<string>, k: string) {
    exists i :: 0 <= i < |lines| && Names(lines[i], k)
  }

  lemma TemplatePartAgrees(template: string, values: Env, i: nat)
    requires Clean(values) && i < |SplitLines(template)|
    ensures Agrees(TemplateLine(SplitLines(template)[i], values), Completed(template, values))
    ensures !Copied(SplitLines(template)[i]) ==> Names(TemplateLine(SplitLines(template)[i], values), KeyOf(SplitLines(template)[i]))
  {
    var raw := SplitLines(template)[i];
    SplitLinesHaveNoBreak(template);
    TemplateEntry(raw);
    if !Copied(raw) { AssignmentParses(KeyOf(raw), ValueOr(values, KeyOf(raw))); }
  }

  lemma ExtraPartAgrees(template: string, values: Env, k: string)
    requires Clean(values) && k in values
    ensures Agrees(Assignment(k, ValueOr(values, k)), Completed(template, values))
    ensures Names(Assignment(k, ValueOr(values, k)), k)
  {
    AssignmentParses(k, values[k]);
  }

  predicate AllAgree(lines: seq<string>, values: Env) {
    forall i :: 0 <= i < |lines| ==> Agrees(lines[i], values)
  }

  lemma ConcatAgrees(a: seq<string>, b: seq<string>, values: Env)
    requires AllAgree(a, values) && AllAgree(b, values)
    ensures AllAgree(a + b, values)
  {
  }

  lemma RenderedAgrees(template: string, values: Env)
    requires Clean(values)
    ensures AllAgree(RenderedLines(SplitLines(template), values), Completed(template, values))
  {
    var raws := SplitLines(template);
    var extra := ExtraKeys(raws, values);
    forall i | 0 <= i < |raws|
      ensures Agrees(TemplatePart(raws, values)[i], Completed(template, values))
    {
      TemplatePartAgrees(template, values, i);
    }
    SortedKeysSorted(values.Keys - TemplateKeys(raws));
    forall i | 0 <= i < |extra|
      ensures Agrees(ExtraPart(extra, values)[i], Completed(template, values))
    {
      assert extra[i] in extra;
      ExtraPartAgrees(template, values, extra[i]);
    }
    ConcatAgrees(TemplatePart(raws, values), ExtraPart(extra, values), Completed(template, values));
  }

  lemma TemplateNames(template: string, values: Env, k: string)
    requires Clean(values) && k in TemplateKeys(SplitLines(template))
    ensures SomeNames(TemplatePart(SplitLines(template), values), k)
  {
    var raws := SplitLines(template);
    var i :| 0 <= i < |raws| && !Copied(raws[i]) && KeyOf(raws[i]) == k;
    TemplatePartAgrees(template, values, i);
    assert TemplatePart(raws, values)[i] == TemplateLine(raws[i], values);
  }

  lemma ExtraNames(template: string, values: Env, k: string)
    requires Clean(values) && k in values && k !in TemplateKeys(SplitLines(template))
    ensures SomeNames(ExtraPart(ExtraKeys(SplitLines(template), values), values), k)
  {
    var extra := ExtraKeys(SplitLines(template), values);
    SortedKeysSorted(values.Keys - TemplateKeys(SplitLines(template)));
    assert k in extra;
    var i :| 0 <= i < |extra| && extra[i] == k;
    ExtraPartAgrees(template, values, k);
    assert ExtraPart(extra, values)[i] == Assignment(k, ValueOr(values, k));
  }

  lemma ConcatNames(a: seq<string>, b: seq<string>, k: string)
    requires SomeNames(a, k) || SomeNames(b, k)
    ensures SomeNames(a + b, k)
  {
    if i :| 0 <= i < |a| && Names(a[i], k) { assert Names((a + b)[i], k); }
    if i :| 0 <= i < |b| && Names(b[i], k) { assert Names((a + b)[|a| + i], k); }
  }

  lemma RenderedNames(template: string, values: Env, k: string)
    requires Clean(values) && k in Completed(template, values)
    ensures SomeNames(RenderedLines(SplitLines(template), values), k)
  {
    var raws := SplitLines(template);
    if k in TemplateKeys(raws) { TemplateNames(template, values, k); } else { ExtraNames(template, values, k); }
    ConcatNames(TemplatePart(raws, values), ExtraPart(ExtraKeys(raws, values), values), k);
  }

  lemma CleanRoundTrip(template: string, values: Env)
    requires Clean(values)
    ensures ParseLines(SplitLines(Rendered(template, values))) == Completed(template, values)
  {
    var lines := RenderedLines(SplitLines(template), values);
    RenderedAgrees(template, values);
    forall k | k in Completed(template, values)
      ensures SomeNames(lines, k)
    {
      RenderedNames(template, values, k);
    }
    assert ParseLines(lines) == Completed(template, values) by { AgreeingLines(lines, Completed(template, values)); }
    LinesParse(lines, Completed(template, values));
  }

  // The text of lines without breaks parses as the lines do.
  lemma LinesParse(lines: seq<string>, values: Env)
    requires AllAgree(lines, values)
    ensures ParseLines(SplitLines(JoinLines(lines))) == ParseLines(lines)
  {
    assert forall i :: 0 <= i < |lines| ==> Agrees(lines[i], values);
    if lines == [] { EmptyParses(); } else { SplitUnlines(lines); }
  }

  lemma EmptyParses()
    ensures ParseLines(SplitLines("\n")) == ParseLines([])
  {
    assert SplitLines("\n") == [""] by { assert "\n"[1..] == "" && BreakAt("\n") == 0; }
    assert [""][..0] == [];
    assert Entry("").None?;
  }

  /** The round trip, exactly: parsing a rendered file gives the values back, with the empty one for the
      template's other keys, if and only if they are trimmed and on one line, and the keys could stand in
      such a file. */
  lemma RoundTripExactly(template: string, values: Env)
    ensures ParseLines(SplitLines(Rendered(template, values))) == Completed(template, values) <==> Clean(values)
  {
    if Clean(values) {
      CleanRoundTrip(template, values);
    } else {
      ParsedIsClean(Rendered(template, values));
      assert forall k :: k in values ==> k in Completed(template, values) && Completed(template, values)[k] == values[k];
    }
  }

  // What becomes of one line of the template.
  predicate KeptLine(raw: string, values: Env, line: string) {
    if raw == "" || '=' !in raw || (LStrip(raw) != "" && LStrip(raw)[0] == '#') then line == raw
    else
      var key := Strip(raw[..Find(raw, '=')]);
      line == key + "=" + if key in values then values[key] else ""
  }

  /** The layout is kept: line by line the rendered file is the template, its blank lines, comments and lines
      without an equals sign as they are, the others as key and value; the keys the template does not name
      follow in ascending order. */
  lemma LayoutIsKept(template: string, values: Env)
    requires Clean(values) && (SplitLines(template) != [] || values != map[])
    ensures var raws, lines := SplitLines(template), SplitLines(Rendered(template, values));
      var extra := ExtraKeys(raws, values);
      && |lines| == |raws| + |extra|
      && (forall i :: 0 <= i < |raws| ==> KeptLine(raws[i], values, lines[i]))
      && (forall i :: 0 <= i < |extra| ==> extra[i] in values && lines[|raws| + i] == extra[i] + "=" + values[extra[i]])
      && (forall k :: k in extra <==> k in values && k !in TemplateKeys(raws))
      && Ascending(extra)
  {
    LinesAreRendered(template, values);
    ExtraLines(SplitLines(template), values);
  }

  lemma LinesAreRendered(template: string, values: Env)
    requires Clean(values) && (SplitLines(template) != [] || values != map[])
    ensures SplitLines(Rendered(template, values)) == RenderedLines(SplitLines(template), values)
  {
    var lines := RenderedLines(SplitLines(template), values);
    SortedKeysSorted(values.Keys - TemplateKeys(SplitLines(template)));
    if SplitLines(template) == [] {
      var k :| k in values;
      assert k in ExtraKeys(SplitLines(template), values);
    }
    assert lines != [];
    RenderedAgrees(template, values);
    NoBreaks(lines, Completed(template, values));
    SplitUnlines(lines);
  }

  lemma NoBreaks(lines: seq<string>, values: Env)
    requires AllAgree(lines, values)
    ensures forall i :: 0 <= i < |lines| ==> NoBreak(lines[i])
  {
    assert forall i :: 0 <= i < |lines| ==> Agrees(lines[i], values);
  }

  lemma ExtraLines(raws: seq<string>, values: Env)
    ensures var extra, part := ExtraKeys(raws, values), ExtraPart(ExtraKeys(raws, values), values);
      && |part| == |extra| && Ascending(extra)
      && (forall k :: k in extra <==> k in values && k !in TemplateKeys(raws))
      && (forall i :: 0 <= i < |extra| ==> extra[i] in values && part[i] == extra[i] + "=" + values[extra[i]])
  {
    SortedKeysSorted(values.Keys - TemplateKeys(raws));
    var extra := ExtraKeys(raws, values);
    forall i | 0 <= i < |extra|
      ensures extra[i] in values
    {
      assert extra[i] in extra;
    }
  }
}
