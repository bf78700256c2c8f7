/** Both readers of release YAML against the characters of the text: which texts are accepted,
    and what each line of them says. */
module ReleaseText {
  import opened Text
  import opened ReleaseState
  import opened ReleaseOutline
  import opened ReleaseReaders
  import opened ReleaseEmission

  // --------------------------------------------------------------------------
  // The characters of a line

  /** A key with its colon, and a scalar after exactly one space. */
  function EntryText(key: string, value: Option<string>): string {
    key + ":" + if value.None? then "" else " " + value.value
  }

  predicate Leading(c: char) {
    'A' <= c <= 'Z' || 'a' <= c <= 'z' || '0' <= c <= '9' || c == '.' || c == '/'
  }

  predicate Following(c: char) {
    Leading(c) || c == '_' || c == ':' || c == '@' || c == '+' || c == '-'
  }

  /** A scalar: it starts with a letter, a digit, a dot or a slash, and goes on with these,
      underscores, colons, at and plus signs and dashes. */
  predicate Unquoted(s: string) {
    s != "" && Leading(s[0]) && forall i :: 0 <= i < |s| ==> Following(s[i])
  }

  predicate WellFormed(key: string, value: Option<string>) {
    KeyText(key) && (value.Some? ==> Unquoted(value.value))
  }

  predicate Spelled(content: string, key: string, value: Option<string>) {
    content == EntryText(key, value) && WellFormed(key, value)
  }

  lemma UnquotedExact(value: string)
    ensures ScalarText(value) <==> Unquoted(value)
    ensures Unquoted(value) ==> Trim(value) == value
  {
    if Unquoted(value) {
      assert !IsSpace(value[0]) && !IsSpace(value[|value| - 1]);
      TrimExact(value);
    }
  }

  lemma SpelledReads(key: string, value: Option<string>)
    requires WellFormed(key, value)
    ensures ContentEntry(EntryText(key, value)) == Ok(Entry(key, value))
  {
    var suffix := if value.None? then "" else " " + value.value;
    KeyRead(EntryText(key, value), key, suffix);
    if value.Some? {
      assert suffix[1..] == value.value;
      UnquotedExact(value.value);
    }
  }

  lemma ReadSpelled(content: string)
    requires ContentEntry(content).Ok?
    ensures var e := ContentEntry(content).value;
            Spelled(content, e.key, e.value)
  {
    var n := KeyLength(content);
    assert content == content[..n] + ":" + content[n + 1..];
    var suffix := content[n + 1..];
    if suffix != "" { assert suffix == " " + suffix[1..]; }
  }

  /** Reading an entry is exact: the content is the entry's own spelling. */
  lemma ContentExact(content: string, key: string, value: Option<string>)
    ensures ContentEntry(content) == Ok(Entry(key, value)) <==> Spelled(content, key, value)
  {
    if WellFormed(key, value) { SpelledReads(key, value); }
    if ContentEntry(content).Ok? { ReadSpelled(content); }
  }

  // --------------------------------------------------------------------------
  // The lines of a text

  /** What a line must be to hold a row. */
  ghost predicate Spells(line: string, base: nat, row: Row) {
    match row
    case Blank => Ignored(line)
    case Row(path, value) =>
      && path != [] && WellFormed(path[|path| - 1], value)
      && line == Padding(base + 2 * (|path| - 1)) + EntryText(path[|path| - 1], value)
  }

  lemma PaddedSignificant(n: nat, content: string)
    requires content != "" && KeyCharacter(content[0])
    ensures Significant(Padding(n) + content)
  {
    var line := Padding(n) + content;
    assert line[n..] == content && line[..n] == Padding(n);
    TrimLeftFrom(line, n);
    TrimRightEmpty(content);
  }

  lemma PaddedReads(n: nat, key: string, value: Option<string>)
    requires WellFormed(key, value)
    ensures ReadLine(Padding(n) + EntryText(key, value)) == Shown(n, Ok(Entry(key, value)))
  {
    var content := EntryText(key, value);
    assert content[0] == key[0] && KeyCharacter(key[0]);
    PaddedSignificant(n, content);
    SpacesOfPadding(n, content);
    assert (Padding(n) + content)[n..] == content;
    ContentExact(content, key, value);
  }

  lemma ShownSpelled(line: string, depth: nat, key: string, value: Option<string>)
    requires ReadLine(line) == Shown(depth, Ok(Entry(key, value)))
    ensures WellFormed(key, value) && line == Padding(depth) + EntryText(key, value)
  {
    ContentExact(line[depth..], key, value);
    assert line == Padding(depth) + line[depth..];
  }

  lemma SpelledRow(line: string, base: nat, row: Row)
    requires row.Row? && Spells(line, base, row)
    ensures RowOk(ReadLine(line), base, row)
  {
    PaddedReads(base + 2 * (|row.path| - 1), row.path[|row.path| - 1], row.value);
  }

  lemma RowSpelled(line: string, base: nat, row: Row)
    requires row.Row? && RowOk(ReadLine(line), base, row)
    ensures Spells(line, base, row)
  {
    ShownSpelled(line, base + 2 * (|row.path| - 1), row.path[|row.path| - 1], row.value);
  }

  lemma SpellsExact(line: string, base: nat, row: Row)
    ensures RowOk(ReadLine(line), base, row) <==> Spells(line, base, row)
  {
    if row.Blank? {
      IgnoredExact(line);
    } else {
      if Spells(line, base, row) { SpelledRow(line, base, row); }
      if RowOk(ReadLine(line), base, row) { RowSpelled(line, base, row); }
    }
  }

  /** The rows are spelled by the lines, in the order of a tree, and `m` is what they say. */
  ghost predicate TextOutline(text: seq<string>, base: nat, rows: seq<Row>, m: Mapping) {
    && |rows| == |text|
    && (forall j: nat {:trigger Spells(text[j], base, rows[j])} :: j < |rows| ==> Spells(text[j], base, rows[j]))
    && TreeOrder(rows)
    && (forall j: nat {:trigger Maps(m, rows[j])} :: j < |rows| ==> Maps(m, rows[j]))
    && (forall p :: p in m ==> exists j: nat :: Source(rows, p, j))
  }

  lemma OutlinesAgree(text: seq<string>, base: nat, rows: seq<Row>, m: Mapping)
    ensures TextOutline(text, base, rows, m) <==> Outline(ReadLines(text), base, rows, m)
  {
    var lines := ReadLines(text);
    if |rows| == |text| {
      forall j: nat | j < |rows| ensures Spells(text[j], base, rows[j]) <==> RowOk(lines[j], base, rows[j]) {
        SpellsExact(text[j], base, rows[j]);
        assert lines[j] == ReadLine(text[j]);
      }
    }
  }

  // --------------------------------------------------------------------------
  // Every outline is accepted

  /** Row `i` is a container that the rows before `k` have not left. */
  ghost predicate OpenAt(rows: seq<Row>, i: nat, k: nat)
    requires k <= |rows|
  {
    && i < k && rows[i].Row? && rows[i].value == None
    && forall j: nat :: i < j < k && rows[j].Row? ==> |rows[j].path| > |rows[i].path|
  }

  ghost predicate ContextOpen(s: State, base: nat, rows: seq<Row>, i: nat, k: nat)
    requires k <= |rows|
  {
    OpenAt(rows, i, k) ==>
      var level := base + 2 * |rows[i].path|;
      level in s.contexts && s.contexts[level] == rows[i].path
  }

  ghost predicate ContextsOpen(s: State, base: nat, rows: seq<Row>, k: nat)
    requires k <= |rows|
  {
    && base in s.contexts && s.contexts[base] == []
    && forall i: nat {:trigger ContextOpen(s, base, rows, i, k)} :: i < k ==> ContextOpen(s, base, rows, i, k)
  }

  ghost predicate ParsedUpTo(parsed: Mapping, rows: seq<Row>, k: nat)
    requires k <= |rows|
  {
    && (forall j: nat {:trigger Maps(parsed, rows[j])} :: j < k ==> Maps(parsed, rows[j]))
    && forall p :: p in parsed ==> exists j: nat :: j < k && Source(rows, p, j)
  }

  ghost predicate FoldsUpTo(lines: seq<Line>, base: nat, rows: seq<Row>, k: nat)
    requires k <= |rows| == |lines|
  {
    var r := Fold(lines[..k], base);
    r.Ok? && ContextsOpen(r.value, base, rows, k) && ParsedUpTo(r.value.parsed, rows, k)
  }

  /** The context of a row is the path it hangs from. */
  lemma ParentContext(s: State, base: nat, rows: seq<Row>, k: nat)
    requires k < |rows| && rows[k].Row? && Rooted(rows, k) && ContextsOpen(s, base, rows, k)
    ensures var level := base + 2 * (|rows[k].path| - 1);
            level in s.contexts && s.contexts[level] == rows[k].path[..|rows[k].path| - 1]
  {
    if |rows[k].path| > 1 {
      var i: nat :| Hangs(rows, i, k);
      assert OpenAt(rows, i, k) && ContextOpen(s, base, rows, i, k);
    }
  }

  lemma PathIsNew(parsed: Mapping, rows: seq<Row>, k: nat)
    requires k < |rows| && rows[k].Row? && ParsedUpTo(parsed, rows, k) && TreeOrder(rows)
    ensures rows[k].path !in parsed
  {
    forall p | p in parsed ensures p != rows[k].path {
      var j: nat :| j < k && Source(rows, p, j);
      assert Apart(rows, k, j);
    }
  }

  lemma PlaceAt(s: State, base: nat, level: nat, path: Path, value: Option<string>)
    requires path != [] && level == base + 2 * (|path| - 1)
    requires level in s.contexts && s.contexts[level] == path[..|path| - 1] && path !in s.parsed
    ensures var r := Place(s, level, base, Ok(Entry(path[|path| - 1], value)));
            r.Ok? && r.value.parsed == s.parsed[path := value]
  {
    assert path == path[..|path| - 1] + [path[|path| - 1]];
    assert (level - base) % 2 == 0;
  }

  lemma PlaceRow(s: State, base: nat, rows: seq<Row>, k: nat)
    requires k < |rows| && rows[k].Row? && TreeOrder(rows)
    requires ContextsOpen(s, base, rows, k) && ParsedUpTo(s.parsed, rows, k)
    ensures var path := rows[k].path;
            && path != [] && path !in s.parsed
            && var r := Place(s, base + 2 * (|path| - 1), base, Ok(Entry(path[|path| - 1], rows[k].value)));
               r.Ok? && r.value.parsed == s.parsed[path := rows[k].value]
  {
    assert Rooted(rows, k);
    ParentContext(s, base, rows, k);
    PathIsNew(s.parsed, rows, k);
    PlaceAt(s, base, base + 2 * (|rows[k].path| - 1), rows[k].path, rows[k].value);
  }

  lemma PlacedContexts(s: State, t: State, base: nat, rows: seq<Row>, k: nat)
    requires k < |rows| && rows[k].Row? && rows[k].path != [] && ContextsOpen(s, base, rows, k)
    requires var path := rows[k].path;
             && base + 2 * (|path| - 1) in s.contexts
             && s.contexts[base + 2 * (|path| - 1)] == path[..|path| - 1]
             && Place(s, base + 2 * (|path| - 1), base, Ok(Entry(path[|path| - 1], rows[k].value))) == Ok(t)
    ensures ContextsOpen(t, base, rows, k + 1)
  {
    var path, d := rows[k].path, base + 2 * (|rows[k].path| - 1);
    PlaceEffect(s, d, base, Ok(Entry(path[|path| - 1], rows[k].value)));
    assert path[..|path| - 1] + [path[|path| - 1]] == path;
    var n := k + 1;
    forall i: nat | i < n ensures ContextOpen(t, base, rows, i, n) {
      if i < k && OpenAt(rows, i, k + 1) {
        assert OpenAt(rows, i, k) && ContextOpen(s, base, rows, i, k);
        assert |rows[i].path| < |path|;
      }
    }
  }

  lemma PlacedParsed(before: Mapping, rows: seq<Row>, k: nat)
    requires k < |rows| && rows[k].Row? && ParsedUpTo(before, rows, k) && rows[k].path !in before
    ensures ParsedUpTo(before[rows[k].path := rows[k].value], rows, k + 1)
  {
    var after := before[rows[k].path := rows[k].value];
    forall j: nat | j < k + 1 ensures Maps(after, rows[j]) {
      if j < k { assert Maps(before, rows[j]); }
    }
    forall p | p in after ensures exists j: nat :: j < k + 1 && Source(rows, p, j) {
      if p in before {
        var j: nat :| j < k && Source(rows, p, j);
        assert j < k + 1 && Source(rows, p, j);
      } else {
        assert Source(rows, p, k);
      }
    }
  }

  lemma BlankKeeps(s: State, base: nat, rows: seq<Row>, k: nat)
    requires k < |rows| && rows[k].Blank? && ContextsOpen(s, base, rows, k) && ParsedUpTo(s.parsed, rows, k)
    ensures ContextsOpen(s, base, rows, k + 1) && ParsedUpTo(s.parsed, rows, k + 1)
  {
    var n := k + 1;
    forall i: nat | i < n ensures ContextOpen(s, base, rows, i, n) {
      if i < k && OpenAt(rows, i, k + 1) {
        assert OpenAt(rows, i, k) && ContextOpen(s, base, rows, i, k);
      }
    }
    forall p | p in s.parsed ensures exists j: nat :: j < k + 1 && Source(rows, p, j) {
      var j: nat :| j < k && Source(rows, p, j);
      assert j < k + 1 && Source(rows, p, j);
    }
  }

  lemma OutlineStep(lines: seq<Line>, base: nat, rows: seq<Row>, m: Mapping, k: nat)
    requires Outline(lines, base, rows, m) && k < |rows| && FoldsUpTo(lines, base, rows, k)
    ensures FoldsUpTo(lines, base, rows, k + 1)
  {
    FoldStep(lines, base, k);
    var s := Fold(lines[..k], base).value;
    assert RowOk(lines[k], base, rows[k]) && Rooted(rows, k);
    if rows[k].Blank? {
      BlankKeeps(s, base, rows, k);
    } else {
      ParentContext(s, base, rows, k);
      PlaceRow(s, base, rows, k);
      PlacedContexts(s, Fold(lines[..k + 1], base).value, base, rows, k);
      PlacedParsed(s.parsed, rows, k);
    }
  }

  lemma {:induction false} OutlineFolds(lines: seq<Line>, base: nat, rows: seq<Row>, m: Mapping, k: nat)
    requires Outline(lines, base, rows, m) && k <= |rows|
    ensures FoldsUpTo(lines, base, rows, k)
  {
    if k == 0 {
      assert lines[..0] == [];
    } else {
      OutlineFolds(lines, base, rows, m, k - 1);
      OutlineStep(lines, base, rows, m, k - 1);
    }
  }

  /** Whatever has an outline is accepted, and parsed to what the outline says. */
  lemma OutlineAccepted(lines: seq<Line>, base: nat, rows: seq<Row>, m: Mapping)
    requires Outline(lines, base, rows, m)
    ensures Fold(lines, base).Ok? && Fold(lines, base).value.parsed == m
  {
    OutlineFolds(lines, base, rows, m, |rows|);
    assert lines[..|lines|] == lines;
    var parsed := Fold(lines, base).value.parsed;
    forall p ensures (p in m <==> p in parsed) && (p in m ==> m[p] == parsed[p]) {
      if p in m {
        var j: nat :| Source(rows, p, j);
        assert Maps(m, rows[j]) && Maps(parsed, rows[j]);
      }
      if p in parsed {
        var j: nat :| j < |rows| && Source(rows, p, j);
        assert Maps(m, rows[j]) && Maps(parsed, rows[j]);
      }
    }
  }

  // --------------------------------------------------------------------------
  // The readers, exactly

  /** A text is parsed to a mapping exactly when its lines spell the rows of a tree, in order,
      and the mapping, which is not empty, is what the rows say. */
  lemma ParsedExactly(text: seq<string>, base: nat, m: Mapping)
    ensures ParseMapping(ReadLines(text), base) == Ok(m) <==>
            m != map[] && exists rows :: TextOutline(text, base, rows, m)
  {
    var lines := ReadLines(text);
    if ParseMapping(lines, base) == Ok(m) {
      AcceptedOutline(lines, base);
      OutlinesAgree(text, base, Rows(lines, base), m);
    }
    if m != map[] && exists rows :: TextOutline(text, base, rows, m) {
      var rows :| TextOutline(text, base, rows, m);
      OutlinesAgree(text, base, rows, m);
      OutlineAccepted(lines, base, rows, m);
    }
  }

  /** The line that the scanner returns a value from. */
  ghost predicate ScalarLine(line: string, path: Path, value: string) {
    && path != [] && WellFormed(path[|path| - 1], Some(value))
    && line == Padding(2 * (|path| - 1)) + path[|path| - 1] + ": " + value
  }

  ghost predicate ScannedAt(text: seq<string>, rows: seq<Row>, path: Path, value: string, j: nat) {
    j < |text| == |rows| && rows[j] == Row(path, Some(value)) && ScalarLine(text[j], path, value)
  }

  lemma ScalarSource(text: seq<string>, rows: seq<Row>, m: Mapping, path: Path, value: string) returns (j: nat)
    requires TextOutline(text, 0, rows, m) && path in m && m[path] == Some(value)
    ensures ScannedAt(text, rows, path, value, j)
  {
    j :| Source(rows, path, j);
    assert Maps(m, rows[j]);
    SpelledScalar(text[j], rows[j], path, value);
  }

  lemma SpelledScalar(line: string, row: Row, path: Path, value: string)
    requires Spells(line, 0, row) && row == Row(path, Some(value))
    ensures ScalarLine(line, path, value)
  {
    var key := path[|path| - 1];
    assert EntryText(key, Some(value)) == key + ": " + value;
    assert Padding(2 * (|path| - 1)) + (key + ": " + value) == Padding(2 * (|path| - 1)) + key + ": " + value;
  }

  /** On such a text the scanner returns a value for a path exactly when some line spells it
      there: its indentation, the last key of the path, a colon, one space and the value. */
  lemma ScannedExactly(text: seq<string>, rows: seq<Row>, m: Mapping, path: Path, value: string)
    requires TextOutline(text, 0, rows, m)
    ensures ScalarAt(ReadLines(text), 0, |text|, 0, path) == Ok(value) <==>
            exists j: nat :: ScannedAt(text, rows, path, value, j)
  {
    OutlinesAgree(text, 0, rows, m);
    OutlineAccepted(ReadLines(text), 0, rows, m);
    LinesAgree(ReadLines(text), 0, path, value);
    if path in m && m[path] == Some(value) {
      var j := ScalarSource(text, rows, m, path, value);
    }
    if j: nat :| ScannedAt(text, rows, path, value, j) {
      assert Maps(m, rows[j]);
    }
  }

  // --------------------------------------------------------------------------
  // The emitted text

  /** Nothing for an ignored line, and the line without its first `base` spaces for any other. */
  ghost predicate Dedented(line: string, base: nat, out: string) {
    if Ignored(line) then out == "" else line == Padding(base) + out
  }

  ghost predicate AllDedented(section: seq<string>, base: nat, out: seq<string>) {
    |out| == |section| && forall i {:trigger out[i]} :: 0 <= i < |section| ==> Dedented(section[i], base, out[i])
  }

  /** `body` and nothing but newlines, the longest such end. */
  ghost predicate WithoutEnd(text: string, body: string) {
    && body <= text && (forall i :: |body| <= i < |text| ==> text[i] == '\n')
    && (body != "" ==> body[|body| - 1] != '\n')
  }

  lemma {:induction false} StripExactly(text: string, body: string)
    ensures StripNewlines(text) == body <==> WithoutEnd(text, body)
  {
    if text != "" && text[|text| - 1] == '\n' {
      var front := text[..|text| - 1];
      StripExactly(front, body);
      if WithoutEnd(text, body) {
        assert body != text;
        assert body <= front;
      }
    }
  }

  lemma DedentExact(line: string, base: nat, out: string)
    ensures NotEscaped(line, base) && RenderLine(line, base) == out <==> Dedented(line, base, out)
  {
    IgnoredExact(line);
    if Significant(line) && Spaces(line) >= base {
      assert line[..base] == Padding(base);
      assert line == line[..base] + line[base..];
    }
    if !Ignored(line) && line == Padding(base) + out {
      SpacesAtLeast(line, base);
      assert line[base..] == out;
    }
  }

  lemma {:induction false} SpacesAtLeast(line: string, base: nat)
    requires base <= |line| && forall i :: 0 <= i < base ==> line[i] == ' '
    ensures Spaces(line) >= base
  {
  }

  /** The emitted text: the section's lines, dedented and without its comments, one newline
      after the last line that is not empty. */
  ghost predicate Emits(section: seq<string>, base: nat, text: string) {
    exists out, body :: AllDedented(section, base, out) && WithoutEnd(Join(out, '\n'), body) && text == body + "\n"
  }

  lemma EmittedExactly(section: seq<string>, base: nat, text: string)
    ensures (forall i :: 0 <= i < |section| ==> NotEscaped(section[i], base)) && ValuesText(section, base) == text <==>
            Emits(section, base, text)
  {
    var rendered := RenderLines(section, base);
    StripExactly(Join(rendered, '\n'), StripNewlines(Join(rendered, '\n')));
    forall i | 0 <= i < |section|
      ensures NotEscaped(section[i], base) <==> Dedented(section[i], base, rendered[i])
    {
      DedentExact(section[i], base, rendered[i]);
      assert rendered[i] == RenderLine(section[i], base);
    }
    if out, body :| AllDedented(section, base, out) && WithoutEnd(Join(out, '\n'), body) && text == body + "\n" {
      forall i | 0 <= i < |section| ensures out[i] == rendered[i] && NotEscaped(section[i], base) {
        DedentExact(section[i], base, out[i]);
        assert rendered[i] == RenderLine(section[i], base);
      }
      assert out == rendered;
      StripExactly(Join(rendered, '\n'), body);
    }
    if forall i :: 0 <= i < |section| ==> NotEscaped(section[i], base) {
      assert AllDedented(section, base, rendered);
    }
  }
}
