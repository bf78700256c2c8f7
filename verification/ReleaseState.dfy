/** The two readers of release YAML in scripts/validate_release_state.py: the parser that
    walks a whole mapping with a stack of contexts, and the scanner that narrows a section
    along one path. */
module ReleaseState {
  import opened Text

  type Path = seq<string>

  type Mapping = map<Path, Option<string>>

  datatype YamlError =
    | DocumentMarker | NonCanonicalLine | ScalarSpacing | UnsupportedScalar
    | MissingOrDuplicated | NotAMapping | NotAScalar | EmptyPath
    | Indentation | LevelJump | DuplicateKey | EmptyMapping

  // --------------------------------------------------------------------------
  // One line

  predicate ScalarStart(c: char) {
    'A' <= c <= 'Z' || 'a' <= c <= 'z' || '0' <= c <= '9' || c == '.' || c == '/'
  }

  predicate ScalarCharacter(c: char) {
    ScalarStart(c) || c == '_' || c == ':' || c == '@' || c == '+' || c == '-'
  }

  predicate ScalarText(s: string) {
    s != "" && ScalarStart(s[0]) && forall i :: 0 <= i < |s| ==> ScalarCharacter(s[i])
  }

  datatype Entry = Entry(key: string, value: Option<string>)

  /** The entry in the content of a line, after its indentation. */
  function ContentEntry(content: string): Result<Entry, YamlError> {
    if content == "---" || content == "..." then Err(DocumentMarker)
    else
      var n := KeyLength(content);
      if n == 0 || n == |content| || content[n] != ':' then Err(NonCanonicalLine)
      else
        var key, suffix := content[..n], content[n + 1..];
        if suffix == "" then Ok(Entry(key, None))
        else if suffix[0] != ' ' || suffix != " " + Trim(suffix[1..]) then Err(ScalarSpacing)
        else if !ScalarText(suffix[1..]) then Err(UnsupportedScalar)
        else Ok(Entry(key, Some(suffix[1..])))
  }

  /** `_mapping_entry`: nothing when the line is at another indentation. */
  function MappingEntry(line: string, indent: nat): Result<Option<Entry>, YamlError> {
    if Spaces(line) != indent then Ok(None)
    else
      match ContentEntry(line[indent..])
      case Ok(e) => Ok(Some(e))
      case Err(e) => Err(e)
  }

  /** All that either reader looks at in a line: nothing in a blank or a comment,
      otherwise the indentation and the entry after it. */
  datatype Line = Silent | Shown(indent: nat, content: Result<Entry, YamlError>)

  function ReadLine(line: string): Line {
    if Significant(line) then Shown(Spaces(line), ContentEntry(line[Spaces(line)..])) else Silent
  }

  function ReadLines(text: seq<string>): (lines: seq<Line>)
    ensures |lines| == |text|
    ensures forall i {:trigger ReadLine(text[i])} :: 0 <= i < |text| ==> lines[i] == ReadLine(text[i])
  {
    seq(|text|, i requires 0 <= i < |text| => ReadLine(text[i]))
  }

  // --------------------------------------------------------------------------
  // The whole-mapping parser

  datatype State = State(contexts: map<nat, Path>, parsed: Mapping)

  function Start(base: nat): State {
    State(map[base := []], map[])
  }

  /** One round of the loop of `_parse_simple_mapping`. */
  function Step(s: State, line: Line, base: nat): Result<State, YamlError> {
    if line.Silent? then Ok(s) else Place(s, line.indent, base, line.content)
  }

  /** An entry at an indentation, under the contexts in force. */
  function Place(s: State, indent: nat, base: nat, content: Result<Entry, YamlError>): Result<State, YamlError> {
    if indent < base || (indent - base) % 2 != 0 then Err(Indentation)
    else
      var open := map l | l in s.contexts && l <= indent :: s.contexts[l];
      if indent !in open then Err(LevelJump)
      else
        match content
        case Err(e) => Err(e)
        case Ok(entry) =>
          var path := open[indent] + [entry.key];
          if path in s.parsed then Err(DuplicateKey)
          else Ok(State(if entry.value == None then open[indent + 2 := path] else open,
                        s.parsed[path := entry.value]))
  }

  /** The state after all of `lines`. */
  function Fold(lines: seq<Line>, base: nat): Result<State, YamlError> {
    if lines == [] then Ok(Start(base))
    else
      match Fold(lines[..|lines| - 1], base)
      case Err(e) => Err(e)
      case Ok(s) => Step(s, lines[|lines| - 1], base)
  }

  function ParseMapping(lines: seq<Line>, base: nat): Result<Mapping, YamlError> {
    match Fold(lines, base)
    case Err(e) => Err(e)
    case Ok(s) => if s.parsed == map[] then Err(EmptyMapping) else Ok(s.parsed)
  }

  lemma {:induction false} FoldPrefix(lines: seq<Line>, base: nat, n: nat)
    requires n <= |lines|
    ensures Fold(lines[..n], base).Err? ==> Fold(lines, base) == Fold(lines[..n], base)
  {
    if n == |lines| {
      assert lines[..n] == lines;
    } else {
      assert lines[..|lines| - 1][..n] == lines[..n];
      FoldPrefix(lines[..|lines| - 1], base, n);
    }
  }

  lemma FoldStep(lines: seq<Line>, base: nat, n: nat)
    requires n < |lines| && Fold(lines[..n], base).Ok?
    ensures Fold(lines[..n + 1], base) == Step(Fold(lines[..n], base).value, lines[n], base)
  {
    assert lines[..n + 1][..n] == lines[..n];
  }

  /** `_parse_simple_mapping`. */
  method ParseSimpleMapping(text: seq<string>, start: nat, end: nat, base: nat) returns (r: Result<Mapping, YamlError>)
    requires start <= end <= |text|
    ensures r == ParseMapping(ReadLines(text)[start..end], base)
  {
    var parsed: Mapping := map[];
    var contexts: map<nat, Path> := map[base := []];
    ghost var section := ReadLines(text)[start..end];
    for index := start to end
      invariant Fold(section[..index - start], base) == Ok(State(contexts, parsed))
    {
      FoldStep(section, base, index - start);
      assert section[index - start] == ReadLines(text)[index];
      var step := AddLine(text[index], base, contexts, parsed);
      if step.Err? {
        FoldPrefix(section, base, index - start + 1);
        return Err(step.error);
      }
      contexts, parsed := step.value.contexts, step.value.parsed;
    }
    assert section[..end - start] == section;
    r := if parsed == map[] then Err(EmptyMapping) else Ok(parsed);
  }

  method AddLine(line: string, base: nat, before: map<nat, Path>, parsed: Mapping) returns (r: Result<State, YamlError>)
    ensures r == Step(State(before, parsed), ReadLine(line), base)
  {
    if !Significant(line) { return Ok(State(before, parsed)); }
    var indent := Spaces(line);
    if indent < base || (indent - base) % 2 != 0 { return Err(Indentation); }
    var contexts := map l | l in before && l <= indent :: before[l];
    if indent !in contexts { return Err(LevelJump); }
    var parent := contexts[indent];
    match MappingEntry(line, indent) {
      case Err(e) => r := Err(e);
      case Ok(entry) =>
        var path := parent + [entry.value.key];
        if path in parsed { return Err(DuplicateKey); }
        if entry.value.value == None {
          contexts := contexts[indent + 2 := path];
        }
        r := Ok(State(contexts, parsed[path := entry.value.value]));
    }
  }

  // --------------------------------------------------------------------------
  // The section scanner

  datatype Match = Match(index: nat, value: Option<string>)

  /** The entries of `key` among the lines of a section that stand at `indent`. */
  function Matches(lines: seq<Line>, start: nat, end: nat, indent: nat, key: string): Result<seq<Match>, YamlError>
    requires start <= end <= |lines|
    decreases end
  {
    if start == end then Ok([])
    else
      match Matches(lines, start, end - 1, indent, key)
      case Err(e) => Err(e)
      case Ok(found) =>
        match SeenBy(lines[end - 1], indent)
        case Err(e) => Err(e)
        case Ok(seen) => Ok(found + MatchOf(seen, end - 1, key))
  }

  /** What one line shows a scanner that looks at `indent`. */
  function SeenBy(line: Line, indent: nat): Result<Option<Entry>, YamlError> {
    if line.Silent? || line.indent != indent then Ok(None)
    else
      match line.content
      case Ok(e) => Ok(Some(e))
      case Err(e) => Err(e)
  }

  function MatchOf(seen: Option<Entry>, index: nat, key: string): seq<Match> {
    if seen.Some? && seen.value.key == key then [Match(index, seen.value.value)] else []
  }

  lemma {:induction false} MatchesInRange(lines: seq<Line>, start: nat, end: nat, indent: nat, key: string)
    requires start <= end <= |lines|
    ensures var r := Matches(lines, start, end, indent, key);
            r.Ok? ==> forall i :: 0 <= i < |r.value| ==> start <= r.value[i].index < end
    decreases end
  {
    if start < end {
      MatchesInRange(lines, start, end - 1, indent, key);
    }
  }

  /** The end of the section opened before `from`: the first line that is no deeper than `indent`. */
  function NestedEnd(lines: seq<Line>, from: nat, end: nat, indent: nat): (n: nat)
    requires from <= end <= |lines|
    ensures from <= n <= end
    decreases end - from
  {
    if from == end || (lines[from].Shown? && lines[from].indent <= indent) then from
    else NestedEnd(lines, from + 1, end, indent)
  }

  lemma {:induction false} NestedEndIs(lines: seq<Line>, from: nat, end: nat, indent: nat)
    requires from <= end <= |lines|
    ensures var n := NestedEnd(lines, from, end, indent);
            && (forall j :: from <= j < n && lines[j].Shown? ==> lines[j].indent > indent)
            && (n < end ==> lines[n].Shown? && lines[n].indent <= indent)
    decreases end - from
  {
    if from < end && !(lines[from].Shown? && lines[from].indent <= indent) {
      NestedEndIs(lines, from + 1, end, indent);
    }
  }

  datatype Section = Section(value: Option<string>, start: nat, end: nat)

  /** `_child`. */
  function Child(lines: seq<Line>, start: nat, end: nat, indent: nat, key: string, container: bool):
    (r: Result<Section, YamlError>)
    requires start <= end <= |lines|
    ensures r.Ok? ==> start < r.value.start <= r.value.end <= end && (container <==> r.value.value == None)
  {
    match Matches(lines, start, end, indent, key)
    case Err(e) => Err(e)
    case Ok(found) =>
      if |found| != 1 then Err(MissingOrDuplicated)
      else
        MatchesInRange(lines, start, end, indent, key);
        var Match(index, value) := found[0];
        if container && value != None then Err(NotAMapping)
        else if !container && value == None then Err(NotAScalar)
        else Ok(Section(value, index + 1, NestedEnd(lines, index + 1, end, indent)))
  }

  ghost predicate Reads(text: seq<string>, lines: seq<Line>) {
    |lines| == |text| && forall i {:trigger ReadLine(text[i])} :: 0 <= i < |text| ==> lines[i] == ReadLine(text[i])
  }

  method FindChild(
    text: seq<string>, ghost lines: seq<Line>, start: nat, end: nat, indent: nat, key: string, container: bool)
    returns (r: Result<Section, YamlError>)
    requires Reads(text, lines) && start <= end <= |text|
    ensures r == Child(lines, start, end, indent, key, container)
  {
    var collected := CollectMatches(text, lines, start, end, indent, key);
    if collected.Err? { return Err(collected.error); }
    if |collected.value| != 1 { return Err(MissingOrDuplicated); }
    MatchesInRange(lines, start, end, indent, key);
    var index, value := collected.value[0].index, collected.value[0].value;
    if container && value != None { return Err(NotAMapping); }
    if !container && value == None { return Err(NotAScalar); }
    var nestedEnd := FindEnd(text, lines, index + 1, end, indent);
    r := Ok(Section(value, index + 1, nestedEnd));
  }

  /** One more line in front of the scanner. */
  lemma MatchesLast(
    lines: seq<Line>, start: nat, end: nat, indent: nat, key: string, found: seq<Match>,
    seen: Result<Option<Entry>, YamlError>)
    requires start < end <= |lines| && Matches(lines, start, end - 1, indent, key) == Ok(found)
    requires seen == SeenBy(lines[end - 1], indent)
    ensures Matches(lines, start, end, indent, key) ==
            match seen
            case Err(e) => Err(e)
            case Ok(entry) => Ok(found + MatchOf(entry, end - 1, key))
  {
  }

  method LookAt(
    text: seq<string>, ghost lines: seq<Line>, index: nat, indent: nat)
    returns (seen: Result<Option<Entry>, YamlError>)
    requires Reads(text, lines) && index < |text|
    ensures seen == SeenBy(lines[index], indent)
  {
    assert lines[index] == ReadLine(text[index]);
    if !Significant(text[index]) { return Ok(None); }
    seen := MappingEntry(text[index], indent);
  }

  method CollectMatches(
    text: seq<string>, ghost lines: seq<Line>, start: nat, end: nat, indent: nat, key: string)
    returns (r: Result<seq<Match>, YamlError>)
    requires Reads(text, lines) && start <= end <= |text|
    ensures r == Matches(lines, start, end, indent, key)
  {
    var matches: seq<Match> := [];
    for index := start to end
      invariant Matches(lines, start, index, indent, key) == Ok(matches)
    {
      var seen := LookAt(text, lines, index, indent);
      MatchesLast(lines, start, index + 1, indent, key, matches, seen);
      if seen.Err? {
        MatchesPrefix(lines, start, index + 1, end, indent, key);
        return Err(seen.error);
      }
      if seen.value.Some? && seen.value.value.key == key {
        matches := matches + [Match(index, seen.value.value.value)];
      } else {
        assert matches + [] == matches;
      }
    }
    r := Ok(matches);
  }

  method FindEnd(text: seq<string>, ghost lines: seq<Line>, from: nat, end: nat, indent: nat) returns (n: nat)
    requires Reads(text, lines) && from <= end <= |text|
    ensures n == NestedEnd(lines, from, end, indent)
  {
    var candidate := from;
    while candidate < end
      invariant from <= candidate <= end
      invariant NestedEnd(lines, from, end, indent) == NestedEnd(lines, candidate, end, indent)
    {
      assert lines[candidate] == ReadLine(text[candidate]);
      if Significant(text[candidate]) && Spaces(text[candidate]) <= indent { return candidate; }
      candidate := candidate + 1;
    }
    n := end;
  }

  lemma {:induction false} MatchesPrefix(
    lines: seq<Line>, start: nat, mid: nat, end: nat, indent: nat, key: string)
    requires start <= mid <= end <= |lines|
    ensures Matches(lines, start, mid, indent, key).Err? ==>
            Matches(lines, start, end, indent, key) == Matches(lines, start, mid, indent, key)
    decreases end
  {
    if mid < end {
      MatchesPrefix(lines, start, mid, end - 1, indent, key);
    }
  }

  /** `_mapping_section` from a section that is already open. */
  function Narrow(lines: seq<Line>, start: nat, end: nat, indent: nat, path: Path): (r: Result<(nat, nat), YamlError>)
    requires start <= end <= |lines|
    ensures r.Ok? ==> r.value.0 <= r.value.1 <= |lines|
    decreases |path|
  {
    if path == [] then Ok((start, end))
    else
      match Child(lines, start, end, indent, path[0], true)
      case Err(e) => Err(e)
      case Ok(section) => Narrow(lines, section.start, section.end, indent + 2, path[1..])
  }

  lemma NarrowStep(
    lines: seq<Line>, start: nat, end: nat, indent: nat, path: Path, child: Result<Section, YamlError>)
    requires start <= end <= |lines| && path != []
    requires child == Child(lines, start, end, indent, path[0], true)
    ensures Narrow(lines, start, end, indent, path) ==
            match child
            case Err(e) => Err(e)
            case Ok(section) => Narrow(lines, section.start, section.end, indent + 2, path[1..])
  {
  }

  /** `canonical_scalar` from a section that is already open. */
  function ScalarAt(lines: seq<Line>, start: nat, end: nat, indent: nat, path: Path): Result<string, YamlError>
    requires start <= end <= |lines|
  {
    if path == [] then Err(EmptyPath)
    else
      var last := |path| - 1;
      match Narrow(lines, start, end, indent, path[..last])
      case Err(e) => Err(e)
      case Ok((from, to)) =>
        match Child(lines, from, to, indent + 2 * last, path[last], false)
        case Err(e) => Err(e)
        case Ok(section) => Ok(section.value.value)
  }

  /** `_mapping_section`, on the lines of the text. */
  method MappingSection(
    text: seq<string>, ghost lines: seq<Line>, path: Path)
    returns (r: Result<(nat, nat), YamlError>)
    requires Reads(text, lines)
    ensures r == Narrow(lines, 0, |lines|, 0, path)
  {
    var start: nat, end: nat := 0, |text|;
    ghost var whole := Narrow(lines, start, end, 0, path);
    assert path[0..] == path;
    for i := 0 to |path|
      invariant start <= end <= |text|
      invariant whole == Narrow(lines, start, end, 2 * i, path[i..])
    {
      var child := FindChild(text, lines, start, end, 2 * i, path[i], true);
      assert path[i..][1..] == path[i + 1..];
      NarrowStep(lines, start, end, 2 * i, path[i..], child);
      if child.Err? { return Err(child.error); }
      start, end := child.value.start, child.value.end;
    }
    r := Ok((start, end));
  }

  /** `canonical_scalar`, on the lines of the text. */
  method CanonicalScalar(text: seq<string>, path: Path) returns (r: Result<string, YamlError>)
    ensures r == ScalarAt(ReadLines(text), 0, |text|, 0, path)
  {
    if path == [] { return Err(EmptyPath); }
    ghost var lines := ReadLines(text);
    var last := |path| - 1;
    var narrowed := MappingSection(text, lines, path[..last]);
    if narrowed.Err? { return Err(narrowed.error); }
    var (start, end) := narrowed.value;
    var child := FindChild(text, lines, start, end, 2 * last, path[last], false);
    r := if child.Err? then Err(child.error) else Ok(child.value.value.value);
  }
}
