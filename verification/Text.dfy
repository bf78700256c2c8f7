/** Character and string operations shared by the text-reading models: Python's
    whitespace, trimming, and splitting on one separator character. */
module Text {

  datatype Option<+T> = None | Some(value: T)

  datatype Result<+T, +E> = Ok(value: T) | Err(error: E)

  /** The characters for which Python's `str.isspace` holds. */
  predicate IsSpace(c: char) {
    || '\t' <= c <= '\r'
    || '\U{1C}' <= c <= ' '
    || c == '\U{85}' || c == '\U{A0}' || c == '\U{1680}'
    || '\U{2000}' <= c <= '\U{200A}'
    || c == '\U{2028}' || c == '\U{2029}' || c == '\U{202F}' || c == '\U{205F}' || c == '\U{3000}'
  }

  function TrimLeft(s: string): (r: string)
    ensures r != "" ==> !IsSpace(r[0])
  {
    if s == "" || !IsSpace(s[0]) then s else TrimLeft(s[1..])
  }

  function TrimRight(s: string): (r: string)
    ensures r != "" ==> !IsSpace(r[|r| - 1])
  {
    if s == "" || !IsSpace(s[|s| - 1]) then s else TrimRight(s[..|s| - 1])
  }

  function Trim(s: string): string {
    TrimRight(TrimLeft(s))
  }

  predicate Blank(s: string) {
    forall i :: 0 <= i < |s| ==> IsSpace(s[i])
  }

  lemma {:induction false} TrimLeftFrom(s: string, n: nat)
    requires n <= |s| && Blank(s[..n])
    ensures TrimLeft(s) == TrimLeft(s[n..])
  {
    if n > 0 {
      assert s[1..][..n - 1] == s[..n][1..];
      assert IsSpace(s[..n][0]);
      TrimLeftFrom(s[1..], n - 1);
      assert s[1..][n - 1..] == s[n..];
    } else {
      assert s[0..] == s;
    }
  }

  lemma {:induction false} TrimLeftBlank(s: string) returns (n: nat)
    ensures n <= |s| && Blank(s[..n]) && TrimLeft(s) == s[n..] && (n < |s| ==> !IsSpace(s[n]))
  {
    if s == "" || !IsSpace(s[0]) {
      n := 0;
    } else {
      var k := TrimLeftBlank(s[1..]);
      n := k + 1;
      assert s[n..] == s[1..][k..];
      assert s[..n] == [s[0]] + s[1..][..k];
    }
  }

  lemma {:induction false} TrimRightEmpty(s: string)
    ensures TrimRight(s) == "" <==> Blank(s)
  {
    if s != "" {
      if IsSpace(s[|s| - 1]) {
        TrimRightEmpty(s[..|s| - 1]);
        assert s == s[..|s| - 1] + [s[|s| - 1]];
      }
    }
  }

  lemma BlankSlice(s: string, a: nat, b: nat)
    requires a <= b <= |s| && Blank(s[a..])
    ensures Blank(s[a..b])
  {
    forall i | a <= i < b ensures IsSpace(s[i]) {
      assert s[i] == s[a..][i - a];
    }
  }

  lemma {:induction false} TrimRightFrom(s: string, n: nat)
    requires n <= |s| && Blank(s[n..])
    ensures TrimRight(s) == TrimRight(s[..n])
  {
    if n < |s| {
      var front, last := s[..|s| - 1], |s| - 1;
      assert s[last] == s[n..][last - n];
      assert front[n..] == s[n..last] && Blank(s[n..last]) by { BlankSlice(s, n, last); }
      TrimRightFrom(front, n);
      assert front[..n] == s[..n];
    } else {
      assert s[..n] == s;
    }
  }

  lemma {:induction false} TrimRightBlank(s: string) returns (n: nat)
    ensures n <= |s| && Blank(s[n..]) && TrimRight(s) == s[..n] && (n > 0 ==> !IsSpace(s[n - 1]))
  {
    if s == "" || !IsSpace(s[|s| - 1]) {
      n := |s|;
      assert s[..n] == s;
    } else {
      n := TrimRightBlank(s[..|s| - 1]);
      assert s[..n] == s[..|s| - 1][..n];
      assert s[n..] == s[..|s| - 1][n..] + [s[|s| - 1]];
    }
  }

  lemma TrimExact(s: string)
    requires s != "" && !IsSpace(s[0]) && !IsSpace(s[|s| - 1])
    ensures TrimLeft(s) == s && TrimRight(s) == s && Trim(s) == s
  {
  }

  /** `v` is `raw` without the white space around it. */
  ghost predicate Stripped(raw: string, v: string) {
    exists a: nat, b: nat :: a <= b <= |raw| && StrippedAt(raw, v, a, b)
  }

  predicate StrippedAt(raw: string, v: string, a: nat, b: nat)
    requires a <= b <= |raw|
  {
    && Blank(raw[..a]) && v == raw[a..b] && Blank(raw[b..])
    && (v != "" ==> !IsSpace(v[0]) && !IsSpace(v[|v| - 1]))
  }

  lemma StrippedTrims(raw: string, v: string, a: nat, b: nat)
    requires a <= b <= |raw| && StrippedAt(raw, v, a, b)
    ensures Trim(raw) == v
  {
    TrimLeftFrom(raw, a);
    if v == "" {
      TrimLeftFrom(raw[a..], |raw| - a);
      assert raw[a..][|raw| - a..] == "";
    } else {
      assert raw[a..][0] == v[0];
      assert raw[a..][b - a..] == raw[b..];
      TrimRightFrom(raw[a..], b - a);
      assert raw[a..][..b - a] == v;
    }
  }

  lemma StripExact(raw: string, v: string)
    ensures Stripped(raw, v) <==> Trim(raw) == v
  {
    if Stripped(raw, v) {
      var a: nat, b: nat :| a <= b <= |raw| && StrippedAt(raw, v, a, b);
      StrippedTrims(raw, v, a, b);
    }
    var a := TrimLeftBlank(raw);
    var n := TrimRightBlank(raw[a..]);
    var b := a + n;
    assert raw[b..] == raw[a..][n..] && raw[a..b] == raw[a..][..n];
    if n > 0 {
      assert raw[a..b][0] == raw[a] && raw[a..b][n - 1] == raw[a..][n - 1];
      assert a < |raw| && !IsSpace(raw[a]);
    }
    assert StrippedAt(raw, Trim(raw), a, b);
  }

  /** The number of spaces a line starts with. */
  function Spaces(s: string): (n: nat)
    ensures n <= |s| && (forall i :: 0 <= i < n ==> s[i] == ' ')
    ensures n < |s| ==> s[n] != ' '
  {
    if s == "" || s[0] != ' ' then 0 else 1 + Spaces(s[1..])
  }

  function Padding(n: nat): string {
    seq(n, _ => ' ')
  }

  lemma {:induction false} SpacesOfPadding(n: nat, content: string)
    requires content != "" && content[0] != ' '
    ensures Spaces(Padding(n) + content) == n
  {
    var s := Padding(n) + content;
    if n == 0 {
      assert s == content;
    } else {
      assert s[1..] == Padding(n - 1) + content;
      SpacesOfPadding(n - 1, content);
    }
  }

  predicate Starts(s: string, c: char) {
    s != "" && s[0] == c
  }

  /** A line that is neither blank nor a comment. */
  predicate Significant(line: string) {
    Trim(line) != "" && !Starts(TrimLeft(line), '#')
  }

  /** A blank line, or a comment after white space. */
  ghost predicate Ignored(line: string) {
    exists n: nat :: n <= |line| && IgnoredFrom(line, n)
  }

  predicate IgnoredFrom(line: string, n: nat)
    requires n <= |line|
  {
    Blank(line[..n]) && (n == |line| || line[n] == '#')
  }

  lemma IgnoredExact(line: string)
    ensures !Significant(line) <==> Ignored(line)
  {
    var n := TrimLeftBlank(line);
    TrimRightEmpty(line[n..]);
    if !Significant(line) {
      if n < |line| { assert line[n..][0] == line[n]; }
      assert IgnoredFrom(line, n);
    }
    if Ignored(line) {
      var k: nat :| k <= |line| && IgnoredFrom(line, k);
      TrimLeftFrom(line, k);
      if k < |line| { assert line[k..][0] == '#'; }
    }
  }

  /** The characters of plain mapping keys. */
  predicate KeyCharacter(c: char) {
    'A' <= c <= 'Z' || 'a' <= c <= 'z' || '0' <= c <= '9' || c == '_' || c == '.' || c == '-'
  }

  predicate KeyLetter(c: char) {
    'A' <= c <= 'Z' || 'a' <= c <= 'z' || '0' <= c <= '9' || c == '_' || c == '.' || c == '-'
  }

  /** A key: letters, digits, underscores, dots and dashes. */
  predicate KeyText(key: string) {
    key != "" && forall i :: 0 <= i < |key| ==> KeyLetter(key[i])
  }

  /** The number of key characters `s` starts with. */
  function KeyLength(s: string): (n: nat)
    ensures n <= |s|
    ensures forall i :: 0 <= i < n ==> KeyCharacter(s[i])
    ensures n < |s| ==> !KeyCharacter(s[n])
  {
    if s == "" || !KeyCharacter(s[0]) then 0 else 1 + KeyLength(s[1..])
  }

  lemma KeyLengthIs(s: string, n: nat)
    requires n <= |s| && (forall i :: 0 <= i < n ==> KeyCharacter(s[i])) && (n < |s| ==> !KeyCharacter(s[n]))
    ensures KeyLength(s) == n
  {
  }

  lemma KeyRead(content: string, key: string, suffix: string)
    requires content == key + ":" + suffix && KeyText(key)
    ensures KeyLength(content) == |key| < |content| && content[|key|] == ':'
    ensures content[..|key|] == key && content[|key| + 1..] == suffix
  {
    assert content[|key|] == ':';
    KeyLengthIs(content, |key|);
  }

  predicate Distinct<T(==)>(s: seq<T>) {
    forall i, j :: 0 <= i < j < |s| ==> s[i] != s[j]
  }

  lemma AppendDistinct<T>(front: seq<T>, x: T)
    ensures Distinct(front + [x]) <==> Distinct(front) && x !in front
  {
    var all := front + [x];
    assert forall i :: 0 <= i < |front| ==> all[i] == front[i];
    assert all[|front|] == x;
  }

  // Lower case, for the letters of ASCII.

  function LowerChar(c: char): char {
    if 'A' <= c <= 'Z' then c - 'A' + 'a' else c
  }

  function Lower(s: string): string {
    if s == "" then "" else [LowerChar(s[0])] + Lower(s[1..])
  }

  /** The same text in small letters. */
  predicate SmallOf(s: string, t: string) {
    |s| == |t| && forall i :: 0 <= i < |s| ==> SmallAt(s, t, i)
  }

  lemma {:induction false} SmallExact(s: string, t: string)
    ensures Lower(s) == t <==> SmallOf(s, t)
  {
    if s != "" && t != "" {
      SmallExact(s[1..], t[1..]);
      SmallTail(s, t);
      assert t == [t[0]] + t[1..];
    }
  }

  predicate SmallAt(s: string, t: string, i: nat)
    requires i < |s| && i < |t|
  {
    if 'A' <= s[i] <= 'Z' then t[i] as int == s[i] as int + 32 else t[i] == s[i]
  }

  lemma SmallTail(s: string, t: string)
    requires s != "" && t != ""
    ensures SmallOf(s, t) <==> SmallAt(s, t, 0) && SmallOf(s[1..], t[1..])
  {
    var u, v := s[1..], t[1..];
    if SmallOf(s, t) {
      forall i | 0 <= i < |u| ensures SmallAt(u, v, i) {
        var k := i + 1;
        assert SmallAt(s, t, k) && u[i] == s[k] && v[i] == t[k];
      }
    }
    if SmallAt(s, t, 0) && SmallOf(u, v) {
      forall i | 0 <= i < |s| ensures SmallAt(s, t, i) {
        if i > 0 { assert SmallAt(u, v, i - 1); }
      }
    }
  }

  // Sequence identities the parsers' proofs use at one instance at a time.

  lemma Shift<T>(done: seq<T>, s: seq<T>)
    requires s != []
    ensures (done + [s[0]]) + s[1..] == done + s
  {
  }

  lemma Regroup<T>(a: seq<T>, b: seq<T>, c: seq<T>)
    ensures (a + b) + c == a + (b + c)
  {
  }

  lemma TailOfSum<T>(a: seq<T>, b: seq<T>)
    requires a != []
    ensures (a + b)[1..] == a[1..] + b && (a + b)[0] == a[0]
  {
  }

  lemma SuffixFrom<T>(base: seq<T>, x: T, all: seq<T>)
    requires base + [x] <= all
    ensures base <= all && all[|base|..] == [x] + all[|base + [x]|..]
  {
    assert all[|base|] == (base + [x])[|base|];
  }

  /** `s.split(sep)` for a one-character separator. */
  function Split(s: string, sep: char): (parts: seq<string>)
    ensures |parts| > 0
    ensures forall i :: 0 <= i < |parts| ==> sep !in parts[i]
  {
    if s == "" then [""]
    else
      var rest := Split(s[1..], sep);
      if s[0] == sep then [""] + rest else [[s[0]] + rest[0]] + rest[1..]
  }

  /** `sep.join(parts)`. */
  function Join(parts: seq<string>, sep: char): string {
    if parts == [] then ""
    else if |parts| == 1 then parts[0]
    else parts[0] + [sep] + Join(parts[1..], sep)
  }

  lemma {:induction false} JoinSplit(s: string, sep: char)
    ensures Join(Split(s, sep), sep) == s
  {
    if s != "" {
      JoinSplit(s[1..], sep);
      var rest := Split(s[1..], sep);
      if s[0] == sep {
        assert ([""] + rest)[1..] == rest;
        assert Join([""] + rest, sep) == "" + [sep] + Join(rest, sep);
      } else {
        var parts := [[s[0]] + rest[0]] + rest[1..];
        if |rest| > 1 {
          assert parts[1..] == rest[1..];
          assert Join(parts, sep) == [s[0]] + rest[0] + [sep] + Join(rest[1..], sep);
          assert Join(rest, sep) == rest[0] + [sep] + Join(rest[1..], sep);
        }
      }
      assert s == [s[0]] + s[1..];
    }
  }

  lemma {:induction false} SplitPrefixed(head: string, tail: string, sep: char)
    requires sep !in head
    ensures Split(head + tail, sep) == [head + Split(tail, sep)[0]] + Split(tail, sep)[1..]
  {
    if head == "" {
      assert head + tail == tail;
      var t := Split(tail, sep);
      assert "" + t[0] == t[0];
      assert t == [t[0]] + t[1..];
    } else {
      assert (head + tail)[1..] == head[1..] + tail;
      SplitPrefixed(head[1..], tail, sep);
      assert [head[0]] + (head[1..] + Split(tail, sep)[0]) == head + Split(tail, sep)[0];
    }
  }

  lemma {:induction false} SplitJoin(parts: seq<string>, sep: char)
    requires |parts| > 0
    requires forall i :: 0 <= i < |parts| ==> sep !in parts[i]
    ensures Split(Join(parts, sep), sep) == parts
  {
    if |parts| == 1 {
      SplitPrefixed(parts[0], "", sep);
      assert parts[0] + "" == parts[0];
    } else {
      SplitJoin(parts[1..], sep);
      var tail := [sep] + Join(parts[1..], sep);
      assert tail[1..] == Join(parts[1..], sep);
      SplitPrefixed(parts[0], tail, sep);
      assert parts[0] + [sep] + Join(parts[1..], sep) == parts[0] + tail;
      assert Split(tail, sep) == [""] + parts[1..];
      assert parts[0] + "" == parts[0];
      assert parts == [parts[0]] + parts[1..];
    }
  }

  // Lines

  /** The characters at which `str.splitlines` ends a line. */
  predicate LineBreak(c: char) {
    '\n' <= c <= '\r' || '\U{1C}' <= c <= '\U{1E}' || c == '\U{85}' || c == '\U{2028}' || c == '\U{2029}'
  }

  predicate OneLine(s: string) {
    forall i :: 0 <= i < |s| ==> !LineBreak(s[i])
  }

  predicate AllOneLine(lines: seq<string>) {
    forall i :: 0 <= i < |lines| ==> OneLine(lines[i])
  }

  function LineLength(s: string): (n: nat)
    ensures n <= |s| && (forall i :: 0 <= i < n ==> !LineBreak(s[i])) && (n < |s| ==> LineBreak(s[n]))
  {
    if s == "" || LineBreak(s[0]) then 0 else 1 + LineLength(s[1..])
  }

  /** The line break at the start of a text; a carriage return takes a newline with it. */
  function BreakLength(s: string): (n: nat)
    requires s != ""
    ensures 1 <= n <= |s|
  {
    if s[0] == '\r' && |s| > 1 && s[1] == '\n' then 2 else 1
  }

  /** `text.splitlines()`. */
  function SplitLines(text: string): seq<string>
    decreases |text|
  {
    if text == "" then []
    else
      var n := LineLength(text);
      if n == |text| then [text]
      else
        var rest := text[n..];
        [text[..n]] + SplitLines(rest[BreakLength(rest)..])
  }

  lemma {:induction false} SplitLinesOneLine(text: string)
    ensures AllOneLine(SplitLines(text))
    decreases |text|
  {
    if text != "" && LineLength(text) < |text| {
      var rest := text[LineLength(text)..];
      SplitLinesOneLine(rest[BreakLength(rest)..]);
    }
  }

  /** Every line with a newline after it. */
  function Unlines(lines: seq<string>): string {
    if lines == [] then "" else lines[0] + "\n" + Unlines(lines[1..])
  }

  lemma LineLengthIs(s: string, n: nat)
    requires n <= |s| && (forall i :: 0 <= i < n ==> !LineBreak(s[i])) && (n < |s| ==> LineBreak(s[n]))
    ensures LineLength(s) == n
  {
  }

  lemma FirstLine(line: string, more: string)
    requires OneLine(line)
    ensures SplitLines(line + "\n" + more) == [line] + SplitLines(more)
  {
    var text := line + "\n" + more;
    assert text[|line|] == '\n';
    LineLengthIs(text, |line|);
    assert text[..|line|] == line;
    assert text[|line|..][1..] == more;
  }

  lemma {:induction false} SplitUnlines(lines: seq<string>)
    requires AllOneLine(lines)
    ensures SplitLines(Unlines(lines)) == lines
  {
    if lines != [] {
      SplitUnlines(lines[1..]);
      FirstLine(lines[0], Unlines(lines[1..]));
    }
  }

  function DropLastEmpty(lines: seq<string>): seq<string> {
    if lines != [] && lines[|lines| - 1] == "" then lines[..|lines| - 1] else lines
  }

  lemma DropAfter(line: string, more: seq<string>)
    requires more != []
    ensures DropLastEmpty([line] + more) == [line] + DropLastEmpty(more)
  {
    assert ([line] + more)[..|more|] == [line] + more[..|more| - 1];
  }

  lemma JoinAfter(line: string, more: seq<string>)
    requires more != []
    ensures Join([line] + more, '\n') == line + "\n" + Join(more, '\n')
  {
    assert ([line] + more)[1..] == more;
  }

  /** Joining lines with newlines and splitting the text again loses at most a last empty line. */
  lemma {:induction false} SplitJoined(lines: seq<string>)
    requires lines != [] && AllOneLine(lines)
    ensures SplitLines(Join(lines, '\n')) == DropLastEmpty(lines)
  {
    if |lines| == 1 {
      LineLengthIs(lines[0], |lines[0]|);
    } else {
      var line, more := lines[0], lines[1..];
      assert lines == [line] + more;
      SplitJoined(more);
      JoinAfter(line, more);
      FirstLine(line, Join(more, '\n'));
      DropAfter(line, more);
    }
  }
}
