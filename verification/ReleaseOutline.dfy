/** What the whole-mapping parser's contexts mean: every significant line of an accepted
    text has one path, and hangs from the nearest line above that opened its level. */
module ReleaseOutline {
  import opened Text
  import opened ReleaseState

  // --------------------------------------------------------------------------
  // The path of every line of an accepted text

  ghost predicate Accepted(lines: seq<Line>, base: nat) {
    Fold(lines, base).Ok?
  }

  /** The parser's state before line `k`. */
  ghost function Before(lines: seq<Line>, base: nat, k: nat): State
    requires Accepted(lines, base) && k <= |lines|
  {
    FoldPrefix(lines, base, k);
    Fold(lines[..k], base).value
  }

  ghost predicate Holds(lines: seq<Line>, k: nat) {
    k < |lines| && lines[k].Shown?
  }

  ghost function Depth(lines: seq<Line>, k: nat): nat
    requires Holds(lines, k)
  {
    lines[k].indent
  }

  ghost function EntryAt(lines: seq<Line>, k: nat): Entry
    requires Holds(lines, k) && lines[k].content.Ok?
  {
    lines[k].content.value
  }

  ghost predicate LineOk(lines: seq<Line>, base: nat, k: nat)
    requires Accepted(lines, base) && Holds(lines, k)
  {
    && base <= Depth(lines, k) && (Depth(lines, k) - base) % 2 == 0
    && Depth(lines, k) in Before(lines, base, k).contexts
    && lines[k].content.Ok?
  }

  /** The path the parser gives to line `k`. */
  ghost function PathAt(lines: seq<Line>, base: nat, k: nat): Path
    requires Accepted(lines, base) && Holds(lines, k) && LineOk(lines, base, k)
  {
    Before(lines, base, k).contexts[Depth(lines, k)] + [EntryAt(lines, k).key]
  }

  lemma BeforeStep(lines: seq<Line>, base: nat, k: nat)
    requires Accepted(lines, base) && k < |lines|
    ensures Step(Before(lines, base, k), lines[k], base) == Ok(Before(lines, base, k + 1))
  {
    FoldPrefix(lines, base, k);
    FoldPrefix(lines, base, k + 1);
    FoldStep(lines, base, k);
  }

  /** How placing an entry changes the state. */
  lemma PlaceEffect(s: State, d: nat, base: nat, content: Result<Entry, YamlError>)
    requires Place(s, d, base, content).Ok?
    ensures base <= d && (d - base) % 2 == 0 && d in s.contexts && content.Ok?
    ensures var t, e, p := Place(s, d, base, content).value, content.value, s.contexts[d] + [content.value.key];
            && p !in s.parsed && t.parsed == s.parsed[p := e.value]
            && (forall l :: l <= d ==> (l in t.contexts <==> l in s.contexts))
            && (forall l :: l <= d && l in s.contexts ==> t.contexts[l] == s.contexts[l])
            && (forall l :: l > d && l in t.contexts ==> l == d + 2 && e.value == None && t.contexts[l] == p)
            && (e.value == None ==> d + 2 in t.contexts && t.contexts[d + 2] == p)
  {
  }

  lemma SignificantOk(lines: seq<Line>, base: nat, k: nat)
    requires Accepted(lines, base) && Holds(lines, k)
    ensures LineOk(lines, base, k)
    ensures PathAt(lines, base, k) !in Before(lines, base, k).parsed
  {
    BeforeStep(lines, base, k);
    PlaceEffect(Before(lines, base, k), Depth(lines, k), base, lines[k].content);
  }

  /** How one significant line changes the state. */
  lemma StepEffect(lines: seq<Line>, base: nat, k: nat)
    requires Accepted(lines, base) && Holds(lines, k)
    ensures LineOk(lines, base, k)
    ensures var s, t := Before(lines, base, k), Before(lines, base, k + 1);
            var e, p, d := EntryAt(lines, k), PathAt(lines, base, k), Depth(lines, k);
            && p !in s.parsed && t.parsed == s.parsed[p := e.value]
            && (forall l :: l <= d ==> (l in t.contexts <==> l in s.contexts))
            && (forall l :: l <= d && l in s.contexts ==> t.contexts[l] == s.contexts[l])
            && (forall l :: l > d && l in t.contexts ==> l == d + 2 && e.value == None && t.contexts[l] == p)
            && (e.value == None ==> d + 2 in t.contexts && t.contexts[d + 2] == p)
  {
    BeforeStep(lines, base, k);
    PlaceEffect(Before(lines, base, k), Depth(lines, k), base, lines[k].content);
  }

  lemma SkipEffect(lines: seq<Line>, base: nat, k: nat)
    requires Accepted(lines, base) && k < |lines| && lines[k].Silent?
    ensures Before(lines, base, k + 1) == Before(lines, base, k)
  {
    BeforeStep(lines, base, k);
  }

  // --------------------------------------------------------------------------
  // What the contexts mean

  /** All significant lines in [from, to) stand deeper than `depth`. */
  ghost predicate Deeper(lines: seq<Line>, from: nat, to: nat, depth: int) {
    forall j: nat :: from <= j < to && Holds(lines, j) ==> Depth(lines, j) > depth
  }

  /** Line `i` opened the context at `level` that is in force before line `k`. */
  ghost predicate Opens(lines: seq<Line>, base: nat, i: nat, k: nat, level: nat)
    requires Accepted(lines, base)
  {
    && i < k <= |lines| && Holds(lines, i) && LineOk(lines, base, i)
    && EntryAt(lines, i).value == None && Depth(lines, i) + 2 == level
    && Deeper(lines, i + 1, k, Depth(lines, i))
    && level in Before(lines, base, k).contexts
    && PathAt(lines, base, i) == Before(lines, base, k).contexts[level]
  }

  ghost predicate ContextOk(lines: seq<Line>, base: nat, k: nat, level: nat)
    requires Accepted(lines, base) && k <= |lines| && level in Before(lines, base, k).contexts
  {
    var path := Before(lines, base, k).contexts[level];
    && level == base + 2 * |path|
    && (path != [] ==> exists i: nat :: Opens(lines, base, i, k, level))
  }

  /** A context that line `k` does not touch stays what it was. */
  lemma ContextKept(lines: seq<Line>, base: nat, k: nat, level: nat)
    requires Accepted(lines, base) && k < |lines|
    requires level in Before(lines, base, k).contexts && ContextOk(lines, base, k, level)
    requires level in Before(lines, base, k + 1).contexts
    requires Before(lines, base, k + 1).contexts[level] == Before(lines, base, k).contexts[level]
    requires Holds(lines, k) ==> level <= Depth(lines, k)
    ensures ContextOk(lines, base, k + 1, level)
  {
    if Before(lines, base, k).contexts[level] != [] {
      var i: nat :| Opens(lines, base, i, k, level);
      DeeperOne(lines, i + 1, k, Depth(lines, i));
      assert Opens(lines, base, i, k + 1, level);
    }
  }

  lemma DeeperOne(lines: seq<Line>, from: nat, k: nat, depth: int)
    requires Deeper(lines, from, k, depth) && (Holds(lines, k) ==> Depth(lines, k) > depth)
    ensures Deeper(lines, from, k + 1, depth)
  {
  }

  lemma ContextOpened(lines: seq<Line>, base: nat, k: nat, level: nat)
    requires Accepted(lines, base) && Holds(lines, k) && level in Before(lines, base, k + 1).contexts
    requires Depth(lines, k) < level
    requires LineOk(lines, base, k) && ContextOk(lines, base, k, Depth(lines, k))
    ensures ContextOk(lines, base, k + 1, level)
  {
    StepEffect(lines, base, k);
    assert Opens(lines, base, k, k + 1, level);
  }

  ghost predicate AllContextsOk(lines: seq<Line>, base: nat, k: nat)
    requires Accepted(lines, base) && k <= |lines|
  {
    forall level {:trigger ContextOk(lines, base, k, level)} ::
      level in Before(lines, base, k).contexts ==> ContextOk(lines, base, k, level)
  }

  /** Every context in force comes from the nearest line above that opened its level. */
  lemma {:induction false} ContextsOk(lines: seq<Line>, base: nat, k: nat)
    requires Accepted(lines, base) && k <= |lines|
    ensures AllContextsOk(lines, base, k)
  {
    if k == 0 {
      assert lines[..0] == [];
    } else {
      ContextsOk(lines, base, k - 1);
      forall level | level in Before(lines, base, k).contexts ensures ContextOk(lines, base, k, level) {
        ContextsOkStep(lines, base, k - 1, level);
      }
    }
  }

  lemma ContextsOkStep(lines: seq<Line>, base: nat, k: nat, level: nat)
    requires Accepted(lines, base) && k < |lines| && AllContextsOk(lines, base, k)
    requires level in Before(lines, base, k + 1).contexts
    ensures ContextOk(lines, base, k + 1, level)
  {
    if lines[k].Silent? {
      SkipEffect(lines, base, k);
      assert ContextOk(lines, base, k, level);
      ContextKept(lines, base, k, level);
    } else {
      StepEffect(lines, base, k);
      if level <= Depth(lines, k) {
        assert ContextOk(lines, base, k, level);
        ContextKept(lines, base, k, level);
      } else {
        assert ContextOk(lines, base, k, Depth(lines, k));
        ContextOpened(lines, base, k, level);
      }
    }
  }

  /** A path's length is its line's depth. */
  lemma PathLength(lines: seq<Line>, base: nat, k: nat)
    requires Accepted(lines, base) && Holds(lines, k)
    ensures LineOk(lines, base, k) && Depth(lines, k) + 2 == base + 2 * |PathAt(lines, base, k)|
  {
    SignificantOk(lines, base, k);
    ContextsOk(lines, base, k);
    assert ContextOk(lines, base, k, Depth(lines, k));
  }

  /** The line that a line below the top level hangs from. */
  lemma Parent(lines: seq<Line>, base: nat, k: nat) returns (i: nat)
    requires Accepted(lines, base) && Holds(lines, k) && Depth(lines, k) > base
    ensures i < k && Holds(lines, i) && LineOk(lines, base, i) && LineOk(lines, base, k)
    ensures Depth(lines, i) + 2 == Depth(lines, k) && EntryAt(lines, i).value == None
    ensures Deeper(lines, i + 1, k, Depth(lines, i))
    ensures PathAt(lines, base, k) == PathAt(lines, base, i) + [EntryAt(lines, k).key]
  {
    SignificantOk(lines, base, k);
    ContextsOk(lines, base, k);
    assert ContextOk(lines, base, k, Depth(lines, k));
    i :| Opens(lines, base, i, k, Depth(lines, k));
  }

  // --------------------------------------------------------------------------
  // What was parsed

  ghost predicate HasPath(lines: seq<Line>, base: nat, j: nat, p: Path)
    requires Accepted(lines, base)
  {
    Holds(lines, j) && LineOk(lines, base, j) && PathAt(lines, base, j) == p
  }

  ghost predicate Recorded(lines: seq<Line>, base: nat, j: nat, parsed: Mapping)
    requires Accepted(lines, base) && j < |lines|
  {
    Holds(lines, j) ==>
      && LineOk(lines, base, j) && PathAt(lines, base, j) in parsed
      && parsed[PathAt(lines, base, j)] == EntryAt(lines, j).value
  }

  /** The result maps exactly the paths of the lines, each to its line's value. */
  ghost predicate ParsedOk(lines: seq<Line>, base: nat, k: nat)
    requires Accepted(lines, base) && k <= |lines|
  {
    var parsed := Before(lines, base, k).parsed;
    && (forall j: nat {:trigger Recorded(lines, base, j, parsed)} :: j < k ==> Recorded(lines, base, j, parsed))
    && (forall p :: p in parsed ==> exists j: nat :: j < k && HasPath(lines, base, j, p))
  }

  lemma {:induction false} ParsedIsPaths(lines: seq<Line>, base: nat, k: nat)
    requires Accepted(lines, base) && k <= |lines|
    ensures ParsedOk(lines, base, k)
  {
    if k == 0 {
      assert lines[..0] == [];
    } else {
      ParsedIsPaths(lines, base, k - 1);
      var s, t := Before(lines, base, k - 1).parsed, Before(lines, base, k).parsed;
      if lines[k - 1].Shown? {
        StepEffect(lines, base, k - 1);
      } else {
        SkipEffect(lines, base, k - 1);
      }
      forall j: nat | j < k ensures Recorded(lines, base, j, t) {
        assert j < k - 1 ==> Recorded(lines, base, j, s);
      }
      forall p | p in t ensures exists j: nat :: j < k && HasPath(lines, base, j, p) {
        if p in s {
          var j: nat :| j < k - 1 && HasPath(lines, base, j, p);
        } else {
          NewPath(lines, base, k - 1, p);
        }
      }
    }
  }

  lemma NewPath(lines: seq<Line>, base: nat, k: nat, p: Path)
    requires Accepted(lines, base) && k < |lines|
    requires p in Before(lines, base, k + 1).parsed && p !in Before(lines, base, k).parsed
    ensures HasPath(lines, base, k, p)
  {
    if lines[k].Shown? {
      StepEffect(lines, base, k);
    } else {
      SkipEffect(lines, base, k);
    }
  }

  /** No two lines have the same path. */
  lemma PathsDistinct(lines: seq<Line>, base: nat, i: nat, j: nat)
    requires Accepted(lines, base) && Holds(lines, i) && Holds(lines, j)
    requires LineOk(lines, base, i) && LineOk(lines, base, j)
    requires PathAt(lines, base, i) == PathAt(lines, base, j)
    ensures i == j
  {
    if i < j {
      ParsedIsPaths(lines, base, j);
      assert Recorded(lines, base, i, Before(lines, base, j).parsed);
      SignificantOk(lines, base, j);
    } else if j < i {
      ParsedIsPaths(lines, base, i);
      assert Recorded(lines, base, j, Before(lines, base, i).parsed);
      SignificantOk(lines, base, i);
    }
  }

  // --------------------------------------------------------------------------
  // The outline of a text

  /** One line: its path and value, or nothing to read. */
  datatype Row = Blank | Row(path: Path, value: Option<string>)

  ghost predicate RowOk(line: Line, base: nat, row: Row) {
    match row
    case Blank => line.Silent?
    case Row(path, value) =>
      path != [] && line == Shown(base + 2 * (|path| - 1), Ok(Entry(path[|path| - 1], value)))
  }

  /** Row `i` is the row that row `j` hangs from. */
  ghost predicate Hangs(rows: seq<Row>, i: nat, j: nat)
    requires j < |rows| && rows[j].Row? && rows[j].path != []
  {
    && i < j && rows[i].Row? && rows[i].value == None
    && rows[i].path == rows[j].path[..|rows[j].path| - 1]
    && forall k :: i < k < j && rows[k].Row? ==> |rows[k].path| > |rows[i].path|
  }

  ghost predicate Rooted(rows: seq<Row>, j: nat)
    requires j < |rows|
  {
    rows[j].Row? ==> rows[j].path != [] && (|rows[j].path| > 1 ==> exists i: nat :: Hangs(rows, i, j))
  }

  ghost predicate Apart(rows: seq<Row>, i: nat, j: nat)
    requires i < |rows| && j < |rows|
  {
    rows[i].Row? && rows[j].Row? && i != j ==> rows[i].path != rows[j].path
  }

  ghost predicate TreeOrder(rows: seq<Row>) {
    && (forall j: nat {:trigger Rooted(rows, j)} :: j < |rows| ==> Rooted(rows, j))
    && (forall i: nat, j: nat {:trigger Apart(rows, i, j)} :: i < |rows| && j < |rows| ==> Apart(rows, i, j))
  }

  ghost predicate Maps(m: Mapping, row: Row) {
    row.Row? ==> row.path in m && m[row.path] == row.value
  }

  ghost predicate Source(rows: seq<Row>, p: Path, j: nat) {
    j < |rows| && rows[j].Row? && rows[j].path == p
  }

  /** The rows are those of the lines, in the order of a tree, and `m` is what they say. */
  ghost predicate Outline(lines: seq<Line>, base: nat, rows: seq<Row>, m: Mapping) {
    && |rows| == |lines|
    && (forall j: nat {:trigger RowOk(lines[j], base, rows[j])} :: j < |rows| ==> RowOk(lines[j], base, rows[j]))
    && TreeOrder(rows)
    && (forall j: nat {:trigger Maps(m, rows[j])} :: j < |rows| ==> Maps(m, rows[j]))
    && (forall p :: p in m ==> exists j: nat :: Source(rows, p, j))
  }

  ghost function RowAt(lines: seq<Line>, base: nat, k: nat): Row
    requires Accepted(lines, base) && k < |lines|
  {
    if lines[k].Shown? then
      SignificantOk(lines, base, k);
      Row(PathAt(lines, base, k), EntryAt(lines, k).value)
    else Blank
  }

  ghost function Rows(lines: seq<Line>, base: nat): (rows: seq<Row>)
    requires Accepted(lines, base)
    ensures |rows| == |lines|
    ensures forall k :: 0 <= k < |rows| ==> rows[k] == RowAt(lines, base, k)
  {
    seq(|lines|, k requires 0 <= k < |lines| => RowAt(lines, base, k))
  }

  lemma RowAtOk(lines: seq<Line>, base: nat, k: nat)
    requires Accepted(lines, base) && k < |lines|
    ensures RowOk(lines[k], base, RowAt(lines, base, k))
  {
    if lines[k].Shown? {
      PathLength(lines, base, k);
      var p := PathAt(lines, base, k);
      assert p[|p| - 1] == EntryAt(lines, k).key;
    }
  }

  lemma RowHangs(lines: seq<Line>, base: nat, j: nat)
    requires Accepted(lines, base) && j < |lines| && RowAt(lines, base, j).Row?
    requires |RowAt(lines, base, j).path| > 1
    ensures exists i: nat :: Hangs(Rows(lines, base), i, j)
  {
    var rows := Rows(lines, base);
    PathLength(lines, base, j);
    var i := Parent(lines, base, j);
    PathLength(lines, base, i);
    assert rows[i] == RowAt(lines, base, i) && rows[j] == RowAt(lines, base, j);
    assert rows[i].path == rows[j].path[..|rows[j].path| - 1];
    forall k | i < k < j && rows[k].Row? ensures |rows[k].path| > |rows[i].path| {
      PathLength(lines, base, k);
      assert Holds(lines, k);
    }
    assert Hangs(rows, i, j);
  }

  /** Every accepted text has an outline. */
  lemma AcceptedOutline(lines: seq<Line>, base: nat)
    requires Accepted(lines, base)
    ensures Outline(lines, base, Rows(lines, base), Fold(lines, base).value.parsed)
  {
    var rows := Rows(lines, base);
    var m := Fold(lines, base).value.parsed;
    assert lines[..|lines|] == lines;
    ParsedIsPaths(lines, base, |lines|);
    forall j: nat | j < |rows| ensures RowOk(lines[j], base, rows[j]) && Rooted(rows, j) && Maps(m, rows[j]) {
      RowAtOk(lines, base, j);
      assert Recorded(lines, base, j, m);
      if rows[j].Row? && |rows[j].path| > 1 {
        RowHangs(lines, base, j);
      }
    }
    forall i: nat, j: nat | i < |rows| && j < |rows| ensures Apart(rows, i, j) {
      if rows[i].Row? && rows[j].Row? && rows[i].path == rows[j].path {
        SignificantOk(lines, base, i);
        SignificantOk(lines, base, j);
        PathsDistinct(lines, base, i, j);
      }
    }
    forall p | p in m ensures exists j: nat :: Source(rows, p, j) {
      var j: nat :| j < |lines| && HasPath(lines, base, j, p);
      assert Source(rows, p, j);
    }
  }
}
