/** The two readers of release YAML agree. */
module ReleaseReaders {
  import opened Text
  import opened ReleaseState
  import opened ReleaseOutline

  // --------------------------------------------------------------------------
  // Sections are the rows below a path

  /** Below row `i`, before anything as shallow, every path extends that of `i`. */
  lemma {:induction false} SectionExtends(rows: seq<Row>, i: nat, j: nat)
    requires TreeOrder(rows) && i < j < |rows| && rows[i].Row? && rows[j].Row?
    requires forall k :: i < k <= j && rows[k].Row? ==> |rows[k].path| > |rows[i].path|
    ensures rows[i].path < rows[j].path
    decreases j
  {
    assert Rooted(rows, j) && Rooted(rows, i);
    var parent: nat :| Hangs(rows, parent, j);
    assert parent >= i;
    if parent > i {
      SectionExtends(rows, i, parent);
    }
  }

  /** A row whose path extends that of `i` stands below it, and nothing as shallow as `i`
      stands between. */
  lemma {:induction false} ExtendsSection(rows: seq<Row>, i: nat, j: nat)
    requires TreeOrder(rows) && i < |rows| && j < |rows| && rows[i].Row? && rows[j].Row?
    requires rows[i].path < rows[j].path
    ensures i < j && rows[i].value == None
    ensures forall k :: i < k <= j && rows[k].Row? ==> |rows[k].path| > |rows[i].path|
    decreases j
  {
    assert Rooted(rows, i) && Rooted(rows, j);
    var parent: nat :| Hangs(rows, parent, j);
    var p, q := rows[i].path, rows[parent].path;
    assert p == rows[j].path[..|p|] && q == rows[j].path[..|q|];
    if |p| == |q| {
      assert Apart(rows, i, parent);
    } else {
      assert p == q[..|p|];
      ExtendsSection(rows, i, parent);
    }
  }

  ghost predicate InSection(rows: seq<Row>, path: Path, start: nat, end: nat, j: nat)
    requires j < |rows|
  {
    rows[j].Row? ==> (start <= j < end <==> path < rows[j].path)
  }

  /** [start, end) are the rows strictly below `path`. */
  ghost predicate Below(rows: seq<Row>, path: Path, start: nat, end: nat) {
    && start <= end <= |rows|
    && forall j: nat {:trigger InSection(rows, path, start, end, j)} :: j < |rows| ==>
      InSection(rows, path, start, end, j)
  }

  /** The section starts right after the row of `path`. */
  ghost predicate Opened(rows: seq<Row>, path: Path, start: nat) {
    path != [] ==> start > 0 && Source(rows, path, start - 1)
  }

  /** What the scanner takes as the section of row `i`. */
  lemma SectionBelow(
    lines: seq<Line>, base: nat, rows: seq<Row>, m: Mapping, path: Path, start: nat, end: nat, i: nat, indent: nat)
    requires Outline(lines, base, rows, m) && Below(rows, path, start, end)
    requires start <= i < end && rows[i].Row? && indent + 2 == base + 2 * |rows[i].path|
    ensures Below(rows, rows[i].path, i + 1, NestedEnd(lines, i + 1, end, indent))
  {
    var n := NestedEnd(lines, i + 1, end, indent);
    assert InSection(rows, path, start, end, i);
    var p, from := rows[i].path, i + 1;
    NestedRows(lines, base, rows, m, i, n, end, indent);
    forall j: nat | j < |rows| ensures InSection(rows, p, from, n, j) {
      if rows[j].Row? {
        if i + 1 <= j < n {
          SectionExtends(rows, i, j);
        }
        if rows[i].path < rows[j].path {
          ExtendsSection(rows, i, j);
          assert InSection(rows, path, start, end, j);
        }
      }
    }
  }

  lemma RowDepth(lines: seq<Line>, base: nat, rows: seq<Row>, m: Mapping, j: nat)
    requires Outline(lines, base, rows, m) && j < |rows|
    ensures rows[j].Row? <==> lines[j].Shown?
    ensures rows[j].Row? ==> lines[j].indent + 2 == base + 2 * |rows[j].path|
  {
    assert RowOk(lines[j], base, rows[j]);
  }

  /** The scanner's end of a section, in rows. */
  lemma NestedRows(
    lines: seq<Line>, base: nat, rows: seq<Row>, m: Mapping, i: nat, n: nat, end: nat, indent: nat)
    requires Outline(lines, base, rows, m) && i < end <= |rows| && rows[i].Row?
    requires indent + 2 == base + 2 * |rows[i].path| && n == NestedEnd(lines, i + 1, end, indent)
    ensures forall k :: i < k < n && rows[k].Row? ==> |rows[k].path| > |rows[i].path|
    ensures n < end ==> rows[n].Row? && |rows[n].path| <= |rows[i].path|
  {
    NestedEndIs(lines, i + 1, end, indent);
    forall k | i < k < n && rows[k].Row? ensures |rows[k].path| > |rows[i].path| {
      RowDepth(lines, base, rows, m, k);
    }
    if n < end {
      RowDepth(lines, base, rows, m, n);
    }
  }

  // --------------------------------------------------------------------------
  // Children

  /** A match is a row whose path is the section's path and the key. */
  ghost predicate IsChild(rows: seq<Row>, path: Path, key: string, j: nat) {
    j < |rows| && rows[j].Row? && rows[j].path == path + [key]
  }

  function SeenAt(row: Row, path: Path): Option<Entry> {
    if row.Row? && path < row.path && |row.path| == |path| + 1
    then Some(Entry(row.path[|path|], row.value)) else None
  }

  lemma RowSeen(
    lines: seq<Line>, base: nat, rows: seq<Row>, m: Mapping, path: Path, key: string, start: nat, end: nat, j: nat)
    requires Outline(lines, base, rows, m) && Below(rows, path, start, end) && start <= j < end
    ensures SeenBy(lines[j], base + 2 * |path|) == Ok(SeenAt(rows[j], path))
    ensures MatchOf(SeenAt(rows[j], path), j, key) ==
            if IsChild(rows, path, key, j) then [Match(j, rows[j].value)] else []
  {
    assert RowOk(lines[j], base, rows[j]);
    assert InSection(rows, path, start, end, j);
    if rows[j].Row? && |rows[j].path| == |path| + 1 {
      assert rows[j].path == path + [rows[j].path[|path|]];
    }
  }

  lemma {:induction false} MatchesNone(
    lines: seq<Line>, base: nat, rows: seq<Row>, m: Mapping, path: Path, key: string, start: nat, end: nat, upto: nat)
    requires Outline(lines, base, rows, m) && Below(rows, path, start, end) && start <= upto <= end
    requires forall j: nat :: start <= j < upto ==> !IsChild(rows, path, key, j)
    ensures Matches(lines, start, upto, base + 2 * |path|, key) == Ok([])
    decreases upto
  {
    if start < upto {
      MatchesNone(lines, base, rows, m, path, key, start, end, upto - 1);
      RowSeen(lines, base, rows, m, path, key, start, end, upto - 1);
      assert !IsChild(rows, path, key, upto - 1);
      MatchesLast(lines, start, upto, base + 2 * |path|, key, [], Ok(SeenAt(rows[upto - 1], path)));
      assert MatchOf(SeenAt(rows[upto - 1], path), upto - 1, key) == [];
      var none: seq<Match> := [];
      assert none + [] == none;
    }
  }

  lemma MatchesAt(
    lines: seq<Line>, base: nat, rows: seq<Row>, m: Mapping, path: Path, key: string, start: nat, end: nat, i: nat)
    requires Outline(lines, base, rows, m) && Below(rows, path, start, end)
    requires start <= i < end && IsChild(rows, path, key, i)
    ensures Matches(lines, start, i + 1, base + 2 * |path|, key) == Ok([Match(i, rows[i].value)])
  {
    RowSeen(lines, base, rows, m, path, key, start, end, i);
    forall j: nat | start <= j < i ensures !IsChild(rows, path, key, j) {
      assert Apart(rows, i, j);
    }
    MatchesNone(lines, base, rows, m, path, key, start, end, i);
    MatchesLast(lines, start, i + 1, base + 2 * |path|, key, [], Ok(SeenAt(rows[i], path)));
    var none: seq<Match> := [];
    assert none + [Match(i, rows[i].value)] == [Match(i, rows[i].value)];
  }

  lemma MatchesBeyond(
    lines: seq<Line>, base: nat, rows: seq<Row>, m: Mapping, path: Path, key: string,
    start: nat, end: nat, upto: nat, i: nat, found: seq<Match>)
    requires Outline(lines, base, rows, m) && Below(rows, path, start, end)
    requires start <= i < upto < end && IsChild(rows, path, key, i)
    requires Matches(lines, start, upto, base + 2 * |path|, key) == Ok(found)
    ensures Matches(lines, start, upto + 1, base + 2 * |path|, key) == Ok(found)
  {
    RowSeen(lines, base, rows, m, path, key, start, end, upto);
    assert Apart(rows, i, upto);
    assert !IsChild(rows, path, key, upto);
    MatchesLast(lines, start, upto + 1, base + 2 * |path|, key, found, Ok(SeenAt(rows[upto], path)));
    assert found + [] == found;
  }

  lemma {:induction false} MatchesOne(
    lines: seq<Line>, base: nat, rows: seq<Row>, m: Mapping, path: Path, key: string,
    start: nat, end: nat, upto: nat, i: nat)
    requires Outline(lines, base, rows, m) && Below(rows, path, start, end)
    requires start <= i < upto <= end && IsChild(rows, path, key, i)
    ensures Matches(lines, start, upto, base + 2 * |path|, key) == Ok([Match(i, rows[i].value)])
    decreases upto
  {
    if i == upto - 1 {
      MatchesAt(lines, base, rows, m, path, key, start, end, i);
    } else {
      MatchesOne(lines, base, rows, m, path, key, start, end, upto - 1, i);
      MatchesBeyond(lines, base, rows, m, path, key, start, end, upto - 1, i, [Match(i, rows[i].value)]);
    }
  }

  lemma ChildOfNone(lines: seq<Line>, start: nat, end: nat, indent: nat, key: string, container: bool)
    requires start <= end <= |lines| && Matches(lines, start, end, indent, key) == Ok([])
    ensures Child(lines, start, end, indent, key, container).Err?
  {
  }

  lemma ChildOfOne(
    lines: seq<Line>, start: nat, end: nat, indent: nat, key: string, container: bool, i: nat, value: Option<string>)
    requires start <= i < end <= |lines| && Matches(lines, start, end, indent, key) == Ok([Match(i, value)])
    ensures var r := Child(lines, start, end, indent, key, container);
            && (r.Ok? <==> (container <==> value == None))
            && (r.Ok? ==> r.value == Section(value, i + 1, NestedEnd(lines, i + 1, end, indent)))
  {
  }

  /** `_child` finds the one row of a parsed path, and its section. */
  lemma ChildFound(
    lines: seq<Line>, base: nat, rows: seq<Row>, m: Mapping, path: Path, key: string,
    start: nat, end: nat, indent: nat, container: bool, i: nat)
    requires Outline(lines, base, rows, m) && Below(rows, path, start, end) && indent == base + 2 * |path|
    requires Source(rows, path + [key], i)
    ensures var r := Child(lines, start, end, indent, key, container);
            && (r.Ok? <==> (container <==> rows[i].value == None))
            && (r.Ok? ==> r.value.value == rows[i].value && Below(rows, path + [key], r.value.start, r.value.end))
            && (r.Ok? ==> r.value.start == i + 1)
  {
    assert IsChild(rows, path, key, i) && path < rows[i].path;
    assert InSection(rows, path, start, end, i);
    MatchesOne(lines, base, rows, m, path, key, start, end, end, i);
    ChildOfOne(lines, start, end, indent, key, container, i, rows[i].value);
    SectionBelow(lines, base, rows, m, path, start, end, i, indent);
  }

  lemma ChildMissing(
    lines: seq<Line>, base: nat, rows: seq<Row>, m: Mapping, path: Path, key: string,
    start: nat, end: nat, indent: nat, container: bool)
    requires Outline(lines, base, rows, m) && Below(rows, path, start, end) && indent == base + 2 * |path|
    requires path + [key] !in m
    ensures Child(lines, start, end, indent, key, container).Err?
  {
    forall j: nat | start <= j < end ensures !IsChild(rows, path, key, j) {
      assert Maps(m, rows[j]);
    }
    MatchesNone(lines, base, rows, m, path, key, start, end, end);
    ChildOfNone(lines, start, end, indent, key, container);
  }

  /** What `_child` finds in the section of `path`. */
  lemma ChildFinds(
    lines: seq<Line>, base: nat, rows: seq<Row>, m: Mapping, path: Path, key: string,
    start: nat, end: nat, indent: nat, container: bool, r: Result<Section, YamlError>)
    requires Outline(lines, base, rows, m) && Below(rows, path, start, end) && indent == base + 2 * |path|
    requires r == Child(lines, start, end, indent, key, container)
    ensures r.Ok? <==> path + [key] in m && (container <==> m[path + [key]] == None)
    ensures r.Ok? ==> r.value.value == m[path + [key]] && Below(rows, path + [key], r.value.start, r.value.end)
    ensures r.Ok? ==> Opened(rows, path + [key], r.value.start)
  {
    if path + [key] in m {
      var i: nat :| Source(rows, path + [key], i);
      assert Maps(m, rows[i]);
      ChildFound(lines, base, rows, m, path, key, start, end, indent, container, i);
    } else {
      ChildMissing(lines, base, rows, m, path, key, start, end, indent, container);
    }
  }

  // --------------------------------------------------------------------------
  // Paths

  /** Every proper prefix of a parsed path is a mapping. */
  lemma {:induction false} PrefixIsMapping(lines: seq<Line>, base: nat, rows: seq<Row>, m: Mapping, p: Path, n: nat)
    requires Outline(lines, base, rows, m) && p in m && 0 < n < |p|
    ensures p[..n] in m && m[p[..n]] == None
    decreases |p|
  {
    var j: nat :| Source(rows, p, j);
    assert Rooted(rows, j);
    var i: nat :| Hangs(rows, i, j);
    assert Maps(m, rows[i]);
    var q := rows[i].path;
    if n < |q| {
      PrefixIsMapping(lines, base, rows, m, q, n);
      assert q[..n] == p[..n];
    }
  }

  lemma PathStep(path: Path, rest: Path)
    requires rest != []
    ensures (path + [rest[0]]) + rest[1..] == path + rest
    ensures (path + rest)[..|path| + 1] == path + [rest[0]]
    ensures |rest| == 1 ==> path + rest == path + [rest[0]]
  {
  }

  /** Narrowing from the section of `path` succeeds exactly when the whole path is a
      mapping, and then arrives at its section. */
  lemma {:induction false} NarrowFinds(
    lines: seq<Line>, base: nat, rows: seq<Row>, m: Mapping, path: Path, rest: Path, start: nat, end: nat, indent: nat)
    requires Outline(lines, base, rows, m) && Below(rows, path, start, end) && indent == base + 2 * |path|
    requires Opened(rows, path, start)
    ensures var r := Narrow(lines, start, end, indent, rest);
            && (r.Ok? <==> rest == [] || (path + rest in m && m[path + rest] == None))
            && (r.Ok? ==> Below(rows, path + rest, r.value.0, r.value.1) && Opened(rows, path + rest, r.value.0))
    decreases |rest|
  {
    if rest == [] {
      assert path + rest == path;
    } else {
      var p := path + [rest[0]];
      var child := Child(lines, start, end, indent, rest[0], true);
      ChildFinds(lines, base, rows, m, path, rest[0], start, end, indent, true, child);
      NarrowStep(lines, start, end, indent, rest, child);
      PathStep(path, rest);
      if path + rest in m && |rest| > 1 {
        PrefixIsMapping(lines, base, rows, m, path + rest, |path| + 1);
      }
      if child.Ok? {
        NarrowFinds(lines, base, rows, m, p, rest[1..], child.value.start, child.value.end, indent + 2);
      }
    }
  }

  lemma WholeTextBelow(rows: seq<Row>)
    requires TreeOrder(rows)
    ensures Below(rows, [], 0, |rows|)
  {
    forall j: nat | j < |rows| ensures InSection(rows, [], 0, |rows|, j) {
      assert Rooted(rows, j);
    }
  }

  /** The scanner, for a path that ends in `key`. */
  lemma ScalarFinds(
    lines: seq<Line>, base: nat, rows: seq<Row>, m: Mapping, front: Path, key: string, value: string)
    requires Outline(lines, base, rows, m)
    ensures ScalarAt(lines, 0, |lines|, base, front + [key]) == Ok(value) <==>
            front + [key] in m && m[front + [key]] == Some(value)
  {
    var path := front + [key];
    var narrowed := Narrow(lines, 0, |lines|, base, front);
    assert [] + front == front && path[..|front|] == front;
    WholeTextBelow(rows);
    NarrowFinds(lines, base, rows, m, [], front, 0, |lines|, base);
    if path in m && front != [] {
      PrefixIsMapping(lines, base, rows, m, path, |front|);
    }
    if narrowed.Ok? {
      var (from, upto) := narrowed.value;
      var indent := base + 2 * |front|;
      var child := Child(lines, from, upto, indent, key, false);
      ChildFinds(lines, base, rows, m, front, key, from, upto, indent, false, child);
      ScalarOfChild(lines, base, front, key, from, upto, indent, child);
    } else {
      ScalarOfNothing(lines, base, front, key);
    }
  }

  lemma ScalarOfNothing(lines: seq<Line>, base: nat, front: Path, key: string)
    requires Narrow(lines, 0, |lines|, base, front).Err?
    ensures ScalarAt(lines, 0, |lines|, base, front + [key]).Err?
  {
    assert (front + [key])[..|front|] == front;
  }

  lemma ScalarOfChild(
    lines: seq<Line>, base: nat, front: Path, key: string, from: nat, upto: nat, indent: nat,
    child: Result<Section, YamlError>)
    requires from <= upto <= |lines| && indent == base + 2 * |front|
    requires Narrow(lines, 0, |lines|, base, front) == Ok((from, upto))
    requires child == Child(lines, from, upto, indent, key, false)
    ensures ScalarAt(lines, 0, |lines|, base, front + [key]) ==
            match child
            case Err(e) => Err(e)
            case Ok(section) => Ok(section.value.value)
  {
    assert (front + [key])[..|front|] == front;
  }

  lemma PathsNotEmpty(lines: seq<Line>, base: nat, rows: seq<Row>, m: Mapping)
    requires Outline(lines, base, rows, m)
    ensures [] !in m
  {
    forall p | p in m ensures p != [] {
      var j: nat :| Source(rows, p, j);
      assert Rooted(rows, j);
    }
  }

  lemma LinesAgree(lines: seq<Line>, base: nat, path: Path, value: string)
    requires Fold(lines, base).Ok?
    ensures var m := Fold(lines, base).value.parsed;
            ScalarAt(lines, 0, |lines|, base, path) == Ok(value) <==> path in m && m[path] == Some(value)
  {
    AcceptedOutline(lines, base);
    var rows, m := Rows(lines, base), Fold(lines, base).value.parsed;
    PathsNotEmpty(lines, base, rows, m);
    if path != [] {
      var front := path[..|path| - 1];
      assert path == front + [path[|path| - 1]];
      ScalarFinds(lines, base, rows, m, front, path[|path| - 1], value);
    }
  }

  /** On any text the whole-mapping parser accepts, the scanner returns a value for a path
      exactly when the parsed mapping sends the path to that scalar. Absent paths, paths of
      mappings, paths through scalars and the empty path are all refused. */
  lemma ReadersAgree(text: seq<string>, path: Path, value: string)
    requires ParseMapping(ReadLines(text), 0).Ok?
    ensures var m := ParseMapping(ReadLines(text), 0).value;
            ScalarAt(ReadLines(text), 0, |text|, 0, path) == Ok(value) <==> path in m && m[path] == Some(value)
  {
    LinesAgree(ReadLines(text), 0, path, value);
  }
}
