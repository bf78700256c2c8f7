/** A section of an accepted text, parsed on its own, is the part of the mapping below its
    path; and re-emitted at indentation zero it still means exactly that. */
module ReleaseEmission {
  import opened Text
  import opened ReleaseState
  import opened ReleaseOutline
  import opened ReleaseReaders

  // --------------------------------------------------------------------------
  // One parser run inside another

  ghost predicate ContextAt(s: map<nat, Path>, t: map<nat, Path>, path: Path, low: nat, drop: nat, l: nat) {
    && (l in t <==> low <= l + drop && l + drop in s)
    && (l in t ==> s[l + drop] == path + t[l])
  }

  ghost predicate ParsedAt(s: Mapping, t: Mapping, path: Path, q: Path) {
    && (q in t <==> q != [] && path + q in s)
    && (q in t ==> t[q] == s[path + q])
  }

  ghost predicate ContextsInside(s: map<nat, Path>, t: map<nat, Path>, path: Path, low: nat, drop: nat) {
    forall l: nat {:trigger ContextAt(s, t, path, low, drop, l)} :: ContextAt(s, t, path, low, drop, l)
  }

  /** What `m` says below `path`. */
  ghost predicate Restriction(m: Mapping, path: Path, part: Mapping) {
    forall q: Path {:trigger ParsedAt(m, part, path, q)} :: ParsedAt(m, part, path, q)
  }

  /** `t` is `s` seen from below `path`, with every level moved left by `drop`; `low` is the
      level at which the contents of `path` stand. */
  ghost predicate Inside(s: State, t: State, path: Path, low: nat, drop: nat) {
    ContextsInside(s.contexts, t.contexts, path, low, drop) && Restriction(s.parsed, path, t.parsed)
  }

  function Moved(line: Line, drop: nat): Line {
    if line.Shown? && line.indent >= drop then Shown(line.indent - drop, line.content) else line
  }

  lemma PathApart(path: Path, x: Path, q: Path)
    ensures path + x == path + q <==> x == q
  {
    assert (path + x)[|path|..] == x && (path + q)[|path|..] == q;
  }

  lemma RestrictionGrows(m: Mapping, part: Mapping, path: Path, q: Path, value: Option<string>)
    requires Restriction(m, path, part) && q != []
    ensures Restriction(m[path + q := value], path, part[q := value])
  {
    var m', part' := m[path + q := value], part[q := value];
    forall x: Path ensures ParsedAt(m', part', path, x) {
      PathApart(path, x, q);
      assert ParsedAt(m, part, path, x);
    }
  }

  /** The contexts after an entry, as the parser builds them. */
  function Reopened(contexts: map<nat, Path>, d: nat, p: Path, container: bool): map<nat, Path> {
    var open := map l | l in contexts && l <= d :: contexts[l];
    if container then open[d + 2 := p] else open
  }

  lemma ContextsReopened(
    s: map<nat, Path>, t: map<nat, Path>, path: Path, low: nat, drop: nat, d: nat, q: Path, container: bool)
    requires ContextsInside(s, t, path, low, drop) && drop <= low <= d
    ensures ContextsInside(Reopened(s, d, path + q, container), Reopened(t, d - drop, q, container), path, low, drop)
  {
    var s', t' := Reopened(s, d, path + q, container), Reopened(t, d - drop, q, container);
    forall l: nat ensures ContextAt(s', t', path, low, drop, l) {
      assert ContextAt(s, t, path, low, drop, l);
    }
  }

  lemma PlaceIs(s: State, d: nat, base: nat, content: Result<Entry, YamlError>)
    requires Place(s, d, base, content).Ok?
    ensures base <= d && (d - base) % 2 == 0 && d in s.contexts && content.Ok?
    ensures var e, p := content.value, s.contexts[d] + [content.value.key];
            && p !in s.parsed
            && Place(s, d, base, content).value ==
               State(Reopened(s.contexts, d, p, e.value == None), s.parsed[p := e.value])
  {
  }

  lemma PlaceOk(s: State, d: nat, base: nat, content: Result<Entry, YamlError>)
    requires base <= d && (d - base) % 2 == 0 && d in s.contexts && content.Ok?
    requires s.contexts[d] + [content.value.key] !in s.parsed
    ensures Place(s, d, base, content).Ok?
  {
  }

  /** Both runs take a line below `path` alike. */
  lemma StepInside(s: State, t: State, path: Path, base: nat, low: nat, drop: nat, line: Line)
    requires Inside(s, t, path, low, drop)
    requires base <= low && (low - base) % 2 == 0 && drop <= low
    requires line.Shown? ==> low <= line.indent
    requires Step(s, line, base).Ok?
    ensures Step(t, Moved(line, drop), low - drop).Ok?
    ensures Inside(Step(s, line, base).value, Step(t, Moved(line, drop), low - drop).value, path, low, drop)
  {
    if line.Shown? {
      var d := line.indent;
      PlaceIs(s, d, base, line.content);
      var e := line.content.value;
      assert ContextAt(s.contexts, t.contexts, path, low, drop, d - drop);
      var q := t.contexts[d - drop] + [e.key];
      Regroup(path, t.contexts[d - drop], [e.key]);
      assert s.contexts[d] + [e.key] == path + q;
      assert ParsedAt(s.parsed, t.parsed, path, q);
      PlaceOk(t, d - drop, low - drop, line.content);
      PlaceIs(t, d - drop, low - drop, line.content);
      ContextsReopened(s.contexts, t.contexts, path, low, drop, d, q, e.value == None);
      RestrictionGrows(s.parsed, t.parsed, path, q, e.value);
    }
  }

  // --------------------------------------------------------------------------
  // Sections on their own

  lemma {:induction false} SectionFolds(
    lines: seq<Line>, base: nat, rows: seq<Row>, m: Mapping, path: Path, start: nat, k: nat, end: nat)
    requires Accepted(lines, base) && Outline(lines, base, rows, m) && rows == Rows(lines, base)
    requires Below(rows, path, start, end) && start <= k <= end
    requires Inside(Before(lines, base, start), Start(base + 2 * |path|), path, base + 2 * |path|, 0)
    ensures var r := Fold(lines[start..k], base + 2 * |path|);
            r.Ok? && Inside(Before(lines, base, k), r.value, path, base + 2 * |path|, 0)
    decreases k
  {
    var low := base + 2 * |path|;
    if start < k {
      SectionFolds(lines, base, rows, m, path, start, k - 1, end);
      var section, shorter := lines[start..k], lines[start..k - 1];
      assert section[..|section| - 1] == shorter && section[|section| - 1] == lines[k - 1];
      BeforeStep(lines, base, k - 1);
      LineInSection(lines, base, rows, m, path, start, end, k - 1);
      StepInside(Before(lines, base, k - 1), Fold(shorter, low).value, path, base, low, 0, lines[k - 1]);
    } else {
      assert lines[start..k] == [];
    }
  }

  lemma LineInSection(
    lines: seq<Line>, base: nat, rows: seq<Row>, m: Mapping, path: Path, start: nat, end: nat, j: nat)
    requires Outline(lines, base, rows, m) && Below(rows, path, start, end) && start <= j < end
    ensures lines[j].Shown? ==> base + 2 * |path| <= lines[j].indent
    ensures Moved(lines[j], 0) == lines[j]
  {
    RowDepth(lines, base, rows, m, j);
    assert InSection(rows, path, start, end, j);
  }

  /** The state just after the line that opens `path`. */
  lemma OpenedInside(lines: seq<Line>, base: nat, rows: seq<Row>, m: Mapping, i: nat, end: nat)
    requires Accepted(lines, base) && Outline(lines, base, rows, m) && rows == Rows(lines, base)
    requires i < |lines| && rows[i].Row? && rows[i].value == None && Below(rows, rows[i].path, i + 1, end)
    ensures var path := rows[i].path;
            Inside(Before(lines, base, i + 1), Start(base + 2 * |path|), path, base + 2 * |path|, 0)
  {
    var path := rows[i].path;
    var low := base + 2 * |path|;
    var s, t := Before(lines, base, i + 1), Start(low);
    assert rows[i] == RowAt(lines, base, i);
    PathLength(lines, base, i);
    StepEffect(lines, base, i);
    forall l: nat ensures ContextAt(s.contexts, t.contexts, path, low, 0, l) {
      assert path + [] == path;
    }
    forall q: Path ensures ParsedAt(s.parsed, t.parsed, path, q) {
      NothingBelowYet(lines, base, rows, m, path, i, end, q);
    }
  }

  lemma NothingBelowYet(
    lines: seq<Line>, base: nat, rows: seq<Row>, m: Mapping, path: Path, i: nat, end: nat, q: Path)
    requires Accepted(lines, base) && Outline(lines, base, rows, m) && rows == Rows(lines, base)
    requires i < |lines| && Below(rows, path, i + 1, end)
    ensures path + q in Before(lines, base, i + 1).parsed ==> q == []
  {
    ParsedIsPaths(lines, base, i + 1);
    if path + q in Before(lines, base, i + 1).parsed {
      var j: nat :| j < i + 1 && HasPath(lines, base, j, path + q);
      assert rows[j] == RowAt(lines, base, j);
      assert InSection(rows, path, i + 1, end, j);
      assert path <= path + q;
    }
  }

  /** No line after the section adds to it. */
  lemma SectionComplete(
    lines: seq<Line>, base: nat, rows: seq<Row>, m: Mapping, path: Path, start: nat, end: nat, part: Mapping)
    requires Accepted(lines, base) && Outline(lines, base, rows, m) && rows == Rows(lines, base)
    requires m == Before(lines, base, |lines|).parsed && Below(rows, path, start, end)
    requires Restriction(Before(lines, base, end).parsed, path, part)
    ensures Restriction(m, path, part)
  {
    forall q: Path ensures ParsedAt(m, part, path, q) {
      assert ParsedAt(Before(lines, base, end).parsed, part, path, q);
      if q != [] {
        NothingBelowLater(lines, base, rows, m, path, start, end, path + q);
      }
    }
  }

  lemma NothingBelowLater(
    lines: seq<Line>, base: nat, rows: seq<Row>, m: Mapping, path: Path, start: nat, end: nat, p: Path)
    requires Accepted(lines, base) && Outline(lines, base, rows, m) && rows == Rows(lines, base)
    requires m == Before(lines, base, |lines|).parsed && Below(rows, path, start, end) && path < p
    ensures var s := Before(lines, base, end).parsed;
            (p in m <==> p in s) && (p in s ==> m[p] == s[p])
  {
    var s := Before(lines, base, end).parsed;
    ParsedIsPaths(lines, base, end);
    ParsedIsPaths(lines, base, |lines|);
    if p in s {
      var j: nat :| j < end && HasPath(lines, base, j, p);
      assert Recorded(lines, base, j, m) && Recorded(lines, base, j, s);
    }
    if p in m {
      var j: nat :| j < |lines| && HasPath(lines, base, j, p);
      assert rows[j] == RowAt(lines, base, j);
      assert InSection(rows, path, start, end, j);
      assert Recorded(lines, base, j, s);
    }
  }

  /** Parsing the section that the scanner opens for a path, at the indentation of its
      contents, gives exactly what the whole mapping says below that path. */
  lemma SectionParses(lines: seq<Line>, base: nat, path: Path, start: nat, end: nat)
    requires ParseMapping(lines, base).Ok? && path != []
    requires Narrow(lines, 0, |lines|, base, path) == Ok((start, end))
    ensures start <= end <= |lines|
    ensures Fold(lines[start..end], base + 2 * |path|).Ok?
    ensures Restriction(ParseMapping(lines, base).value, path, Fold(lines[start..end], base + 2 * |path|).value.parsed)
  {
    AcceptedOutline(lines, base);
    SectionOpened(lines, base, Rows(lines, base), Fold(lines, base).value.parsed, path, start, end);
    OpenedSectionParses(lines, base, Rows(lines, base), Fold(lines, base).value.parsed, path, start, end);
  }

  lemma SectionOpened(
    lines: seq<Line>, base: nat, rows: seq<Row>, m: Mapping, path: Path, start: nat, end: nat)
    requires Outline(lines, base, rows, m) && path != []
    requires Narrow(lines, 0, |lines|, base, path) == Ok((start, end))
    ensures path in m && m[path] == None && Below(rows, path, start, end) && start > 0 && Source(rows, path, start - 1)
  {
    WholeTextBelow(rows);
    NarrowFinds(lines, base, rows, m, [], path, 0, |lines|, base);
    assert [] + path == path;
  }

  lemma OpenedSectionParses(
    lines: seq<Line>, base: nat, rows: seq<Row>, m: Mapping, path: Path, start: nat, end: nat)
    requires Accepted(lines, base) && Outline(lines, base, rows, m) && rows == Rows(lines, base)
    requires m == Fold(lines, base).value.parsed
    requires path in m && m[path] == None && Below(rows, path, start, end) && start > 0 && Source(rows, path, start - 1)
    ensures var r := Fold(lines[start..end], base + 2 * |path|);
            r.Ok? && Restriction(m, path, r.value.parsed)
  {
    assert lines[..|lines|] == lines;
    assert Maps(m, rows[start - 1]);
    OpenedInside(lines, base, rows, m, start - 1, end);
    SectionFolds(lines, base, rows, m, path, start, end, end);
    SectionComplete(lines, base, rows, m, path, start, end, Fold(lines[start..end], base + 2 * |path|).value.parsed);
  }

  // --------------------------------------------------------------------------
  // Re-emission

  /** One line of `rendered_lines`. */
  function RenderLine(line: string, base: nat): string {
    if Significant(line) && Spaces(line) >= base then line[base..] else ""
  }

  function RenderLines(text: seq<string>, base: nat): (r: seq<string>)
    ensures |r| == |text|
    ensures forall i {:trigger RenderLine(text[i], base)} :: 0 <= i < |text| ==> r[i] == RenderLine(text[i], base)
  {
    seq(|text|, i requires 0 <= i < |text| => RenderLine(text[i], base))
  }

  /** `text.rstrip("\n")`. */
  function StripNewlines(s: string): string {
    if s == "" || s[|s| - 1] != '\n' then s else StripNewlines(s[..|s| - 1])
  }

  /** `values_text`, from the lines of a section. */
  function ValuesText(section: seq<string>, base: nat): string {
    StripNewlines(Join(RenderLines(section, base), '\n')) + "\n"
  }

  ghost predicate NotEscaped(line: string, base: nat) {
    Significant(line) ==> Spaces(line) >= base
  }

  method EmitLine(line: string, base: nat) returns (r: Option<string>)
    ensures r.Some? <==> NotEscaped(line, base)
    ensures r.Some? ==> r.value == RenderLine(line, base)
  {
    if !Significant(line) { return Some(""); }
    if Spaces(line) < base { return None; }
    r := Some(line[base..]);
  }

  /** The re-emission in `load_helm_release`; `None` stands for an escaped line. */
  method RenderValues(text: seq<string>, start: nat, end: nat, base: nat) returns (r: Option<string>)
    requires start <= end <= |text|
    ensures r.Some? <==> forall i :: start <= i < end ==> NotEscaped(text[i], base)
    ensures r.Some? ==> r.value == ValuesText(text[start..end], base)
  {
    var rendered: seq<string> := [];
    ghost var all := RenderLines(text[start..end], base);
    for i := start to end
      invariant rendered == all[..i - start]
      invariant forall k :: start <= k < i ==> NotEscaped(text[k], base)
    {
      var line := EmitLine(text[i], base);
      if line == None { return None; }
      assert text[start..end][i - start] == text[i];
      assert all[i - start] == RenderLine(text[start..end][i - start], base);
      rendered := rendered + [line.value];
    }
    assert all[..end - start] == all;
    r := Some(StripNewlines(Join(rendered, '\n')) + "\n");
  }

  // Dedenting a line moves what the readers see.

  lemma {:induction false} DedentTrims(line: string, n: nat)
    requires n <= Spaces(line)
    ensures TrimLeft(line[n..]) == TrimLeft(line) && Spaces(line[n..]) == Spaces(line) - n
  {
    if n > 0 {
      assert line[1..][n - 1..] == line[n..];
      DedentTrims(line[1..], n - 1);
    } else {
      assert line[0..] == line;
    }
  }

  lemma RenderedLineReads(line: string, base: nat)
    requires Significant(line) ==> Spaces(line) >= base
    ensures ReadLine(RenderLine(line, base)) == Moved(ReadLine(line), base)
  {
    if Significant(line) {
      var dedented := line[base..];
      DedentTrims(line, base);
      assert Significant(dedented);
      assert dedented[Spaces(dedented)..] == line[Spaces(line)..];
      assert ReadLine(dedented) == Shown(Spaces(dedented), ContentEntry(line[Spaces(line)..]));
    } else {
      SilentEmpty();
    }
  }

  predicate Unbroken(s: string) {
    '\n' !in s
  }

  /** Silent lines do not change a parse. */
  lemma {:induction false} TrailingSilence(lines: seq<Line>, more: seq<Line>, base: nat)
    requires forall i :: 0 <= i < |more| ==> more[i].Silent?
    ensures Fold(lines + more, base) == Fold(lines, base)
  {
    if more == [] {
      assert lines + more == lines;
    } else {
      var last := |more| - 1;
      assert (lines + more)[..|lines + more| - 1] == lines + more[..last];
      TrailingSilence(lines, more[..last], base);
    }
  }

  lemma RenderedStep(text: seq<string>, base: nat, n: nat)
    requires n < |text| && NotEscaped(text[n], base)
    ensures ReadLines(RenderLines(text, base))[n] == Moved(ReadLines(text)[n], base)
  {
    assert ReadLines(text)[n] == ReadLine(text[n]);
    RenderedLineReads(text[n], base);
    assert RenderLines(text, base)[n] == RenderLine(text[n], base);
    assert ReadLines(RenderLines(text, base))[n] == ReadLine(RenderLines(text, base)[n]);
  }

  lemma AcceptedNotEscaped(text: seq<string>, base: nat, n: nat)
    requires Fold(ReadLines(text), base).Ok? && n < |text|
    ensures NotEscaped(text[n], base)
  {
    var lines := ReadLines(text);
    assert lines[n] == ReadLine(text[n]);
    if Holds(lines, n) {
      SignificantOk(lines, base, n);
    }
  }

  /** The rendered lines parse to the same mapping at indentation zero. */
  lemma {:induction false} RenderedFolds(text: seq<string>, base: nat, n: nat)
    requires Fold(ReadLines(text), base).Ok? && n <= |text|
    ensures var lines, rendered := ReadLines(text), ReadLines(RenderLines(text, base));
            && Fold(rendered[..n], 0).Ok?
            && Inside(Before(lines, base, n), Fold(rendered[..n], 0).value, [], base, base)
  {
    var lines, rendered := ReadLines(text), ReadLines(RenderLines(text, base));
    if n == 0 {
      StartInside(base);
      assert lines[..0] == [] && rendered[..0] == [];
    } else {
      RenderedFolds(text, base, n - 1);
      AcceptedNotEscaped(text, base, n - 1);
      assert lines[n - 1] == ReadLine(text[n - 1]);
      RenderedStep(text, base, n - 1);
      BeforeStep(lines, base, n - 1);
      FoldStep(rendered, 0, n - 1);
      StepInside(Before(lines, base, n - 1), Fold(rendered[..n - 1], 0).value, [], base, base, base, lines[n - 1]);
    }
  }

  lemma StartInside(base: nat)
    ensures Inside(Start(base), Start(0), [], base, base)
  {
    forall l: nat ensures ContextAt(Start(base).contexts, Start(0).contexts, [], base, base, l) {
      var none: Path := [];
      assert none + none == none;
    }
    forall q: Path ensures ParsedAt(Start(base).parsed, Start(0).parsed, [], q) {
    }
  }

  // Joining, stripping and splitting only removes trailing empty lines.

  lemma {:induction false} JoinLast(parts: seq<string>, last: string)
    requires parts != []
    ensures Join(parts + [last], '\n') == Join(parts, '\n') + ['\n'] + last
  {
    if |parts| > 1 {
      assert (parts + [last])[1..] == parts[1..] + [last];
      JoinLast(parts[1..], last);
      var rest := Join(parts[1..], '\n');
      assert parts[0] + ['\n'] + (rest + ['\n'] + last) == (parts[0] + ['\n'] + rest) + ['\n'] + last;
    } else {
      assert (parts + [last])[1..] == [last];
      assert Join([last], '\n') == last;
    }
  }

  /** The lines of the stripped text: those of the original up to some empty ones. */
  lemma {:induction false} StrippedLines(parts: seq<string>) returns (n: nat)
    requires parts != [] && forall i :: 0 <= i < |parts| ==> Unbroken(parts[i])
    ensures 0 < n <= |parts| && (forall i :: n <= i < |parts| ==> parts[i] == "")
    ensures StripNewlines(Join(parts, '\n')) == Join(parts[..n], '\n')
  {
    var last := |parts| - 1;
    if last > 0 {
      JoinLast(parts[..last], parts[last]);
      assert parts[..last] + [parts[last]] == parts;
    }
    var s := Join(parts, '\n');
    if last > 0 && parts[last] == "" {
      assert s == Join(parts[..last], '\n') + ['\n'];
      assert s[..|s| - 1] == Join(parts[..last], '\n');
      n := StrippedLines(parts[..last]);
      assert parts[..last][..n] == parts[..n];
      assert forall i :: n <= i < last ==> parts[..last][i] == parts[i];
    } else {
      n := |parts|;
      assert parts[..n] == parts;
      if parts[last] != "" {
        assert s[|s| - 1] == parts[last][|parts[last]| - 1];
        assert Unbroken(parts[last]);
      }
    }
  }

  /** Split into lines, the values text is the rendered lines up to trailing empty ones. */
  lemma ValuesTextLines(rendered: seq<string>) returns (n: nat)
    requires rendered != [] && forall i :: 0 <= i < |rendered| ==> Unbroken(rendered[i])
    ensures 0 < n <= |rendered| && (forall i :: n <= i < |rendered| ==> rendered[i] == "")
    ensures Split(StripNewlines(Join(rendered, '\n')) + "\n", '\n') == rendered[..n] + [""]
  {
    n := StrippedLines(rendered);
    var kept := rendered[..n];
    JoinLast(kept, "");
    assert Join(kept, '\n') + "\n" == Join(kept + [""], '\n');
    forall i | 0 <= i < |kept + [""]| ensures '\n' !in (kept + [""])[i] {
      assert i < n ==> Unbroken(rendered[i]);
    }
    SplitJoin(kept + [""], '\n');
  }

  /** Re-emission keeps the meaning: the text built from a section whose lines parse at
      `base` parses at indentation zero to the same mapping. */
  lemma ReemissionKeepsMeaning(section: seq<string>, base: nat)
    requires forall i :: 0 <= i < |section| ==> Unbroken(section[i])
    requires ParseMapping(ReadLines(section), base).Ok?
    ensures ParseMapping(ReadLines(Split(ValuesText(section, base), '\n')), 0) ==
            ParseMapping(ReadLines(section), base)
  {
    var rendered := RenderLines(section, base);
    var lines, all := ReadLines(section), ReadLines(rendered);
    RenderedFolds(section, base, |section|);
    assert lines[..|section|] == lines && all[..|section|] == all;
    EmptyTextRefused(section, base);
    forall i | 0 <= i < |rendered| ensures Unbroken(rendered[i]) {
      assert rendered[i] == RenderLine(section[i], base) && Unbroken(section[i]);
    }
    var n := ValuesTextLines(rendered);
    EmittedFolds(rendered, n);
    InsideWholeIsSame(lines, base, Fold(all, 0).value);
  }

  lemma EmptyTextRefused(section: seq<string>, base: nat)
    ensures section == [] ==> ParseMapping(ReadLines(section), base).Err?
  {
    assert section == [] ==> ReadLines(section) == [];
  }

  lemma SilentEmpty()
    ensures ReadLine("") == Silent
  {
  }

  lemma EmittedFolds(rendered: seq<string>, n: nat)
    requires n <= |rendered| && forall i :: n <= i < |rendered| ==> rendered[i] == ""
    ensures Fold(ReadLines(rendered[..n] + [""]), 0) == Fold(ReadLines(rendered), 0)
  {
    SilentEmpty();
    var kept := ReadLines(rendered[..n]);
    var dropped := ReadLines(rendered[n..]);
    var all, emitted := ReadLines(rendered), ReadLines(rendered[..n] + [""]);
    SameReading(rendered[..n], [""]);
    SameReading(rendered[..n], rendered[n..]);
    assert rendered[..n] + rendered[n..] == rendered;
    forall i | 0 <= i < |dropped| ensures dropped[i].Silent? {
      assert dropped[i] == ReadLine(rendered[n..][i]) && rendered[n..][i] == rendered[n + i];
    }
    forall i | 0 <= i < |ReadLines([""])| ensures ReadLines([""])[i].Silent? {
      assert ReadLines([""])[i] == ReadLine([""][i]);
    }
    TrailingSilence(kept, dropped, 0);
    TrailingSilence(kept, ReadLines([""]), 0);
  }

  lemma SameReading(a: seq<string>, b: seq<string>)
    ensures ReadLines(a + b) == ReadLines(a) + ReadLines(b)
  {
    forall i | 0 <= i < |a + b| ensures ReadLines(a + b)[i] == (ReadLines(a) + ReadLines(b))[i] {
      assert ReadLines(a + b)[i] == ReadLine((a + b)[i]);
      if i < |a| {
        assert ReadLines(a)[i] == ReadLine(a[i]);
      } else {
        assert ReadLines(b)[i - |a|] == ReadLine(b[i - |a|]);
      }
    }
  }

  lemma InsideWholeIsSame(lines: seq<Line>, base: nat, t: State)
    requires Accepted(lines, base) && Inside(Fold(lines, base).value, t, [], base, base)
    ensures Fold(lines, base).value.parsed == t.parsed
  {
    var m := Fold(lines, base).value.parsed;
    AcceptedOutline(lines, base);
    PathsNotEmpty(lines, base, Rows(lines, base), m);
    forall q: Path ensures (q in m <==> q in t.parsed) && (q in m ==> m[q] == t.parsed[q]) {
      assert ParsedAt(m, t.parsed, [], q);
      assert [] + q == q;
    }
  }

  function PathsBelow(m: Mapping, path: Path): set<Path> {
    set p | p in m && path < p :: p[|path|..]
  }

  /** What a mapping holds below a path, under the rest of each path. */
  function MapBelow(m: Mapping, path: Path): Mapping {
    map q | q in PathsBelow(m, path) && path + q in m :: m[path + q]
  }

  lemma BelowMeans(m: Mapping, path: Path, q: Path)
    ensures q in PathsBelow(m, path) <==> q != [] && path + q in m
  {
    if q != [] && path + q in m {
      assert path < path + q && (path + q)[|path|..] == q;
    }
    if q in PathsBelow(m, path) {
      var p :| p in m && path < p && p[|path|..] == q;
      assert path + q == p;
    }
  }

  lemma RestrictionIs(m: Mapping, path: Path, part: Mapping)
    requires Restriction(m, path, part)
    ensures part == MapBelow(m, path)
  {
    forall q: Path ensures (q in part <==> q in MapBelow(m, path)) && (q in part ==> part[q] == MapBelow(m, path)[q]) {
      assert ParsedAt(m, part, path, q);
      BelowMeans(m, path, q);
    }
  }

  predicate FoldsTo(lines: seq<Line>, base: nat, part: Mapping) {
    Fold(lines, base).Ok? && Fold(lines, base).value.parsed == part
  }

  predicate AllUnbroken(text: seq<string>) {
    forall i :: 0 <= i < |text| ==> Unbroken(text[i])
  }

  ghost predicate NoneEscaped(section: seq<string>, low: nat) {
    forall i :: 0 <= i < |section| ==> NotEscaped(section[i], low)
  }

  /** A section is parsed to `part`, and so is the text emitted from it, unless there is
      nothing in it, which is refused. */
  ghost predicate Says(section: seq<string>, low: nat, part: Mapping) {
    if part == map[] then ParseMapping(ReadLines(section), low) == Err(EmptyMapping)
    else
      && ParseMapping(ReadLines(section), low) == Ok(part) && NoneEscaped(section, low)
      && ParseMapping(ReadLines(Split(ValuesText(section, low), '\n')), 0) == Ok(part)
  }

  lemma FoldedSays(section: seq<string>, low: nat, part: Mapping)
    requires AllUnbroken(section) && FoldsTo(ReadLines(section), low, part)
    ensures Says(section, low, part)
  {
    if part != map[] {
      forall i | 0 <= i < |section| ensures NotEscaped(section[i], low) {
        AcceptedNotEscaped(section, low, i);
      }
      ReemissionKeepsMeaning(section, low);
    }
  }

  lemma SectionFoldsTo(lines: seq<Line>, base: nat, m: Mapping, path: Path, start: nat, end: nat)
    requires ParseMapping(lines, base) == Ok(m) && path != []
    requires Narrow(lines, 0, |lines|, base, path) == Ok((start, end))
    ensures start <= end <= |lines| && FoldsTo(lines[start..end], base + 2 * |path|, MapBelow(m, path))
  {
    SectionParses(lines, base, path, start, end);
    RestrictionIs(m, path, Fold(lines[start..end], base + 2 * |path|).value.parsed);
  }

  lemma ReadSlice(text: seq<string>, start: nat, end: nat)
    requires start <= end <= |text|
    ensures ReadLines(text[start..end]) == ReadLines(text)[start..end]
    ensures AllUnbroken(text) ==> AllUnbroken(text[start..end])
  {
    forall i | 0 <= i < end - start ensures ReadLines(text[start..end])[i] == ReadLines(text)[start..end][i] {
      assert ReadLines(text[start..end])[i] == ReadLine(text[start..end][i]);
      assert ReadLines(text)[start + i] == ReadLine(text[start + i]);
    }
  }

  lemma SliceSays(text: seq<string>, lines: seq<Line>, start: nat, end: nat, low: nat, part: Mapping)
    requires AllUnbroken(text) && lines == ReadLines(text) && start <= end <= |text|
    requires FoldsTo(lines[start..end], low, part)
    ensures Says(text[start..end], low, part)
  {
    ReadSlice(text, start, end);
    FoldedSays(text[start..end], low, part);
  }

  /** From the text to the emitted values: the section that narrowing opens for a path in an
      accepted text says exactly what the mapping holds below the path; no line escapes it,
      and the emitted text says the same at indentation zero. */
  lemma EmittedValuesAreTheSection(
    text: seq<string>, lines: seq<Line>, base: nat, m: Mapping, path: Path, start: nat, end: nat)
    requires AllUnbroken(text) && lines == ReadLines(text)
    requires ParseMapping(lines, base) == Ok(m) && path != []
    requires Narrow(lines, 0, |lines|, base, path) == Ok((start, end))
    ensures start <= end <= |text| && Says(text[start..end], base + 2 * |path|, MapBelow(m, path))
  {
    SectionFoldsTo(lines, base, m, path, start, end);
    SliceSays(text, lines, start, end, base + 2 * |path|, MapBelow(m, path));
  }
}
