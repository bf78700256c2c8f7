/** The mount listing against the characters of its lines: which lines are read, and as what. */
module MountinfoText {
  import opened Mountinfo
  import opened Numerals
  import opened ProtectedHost
  import opened Text

  // --------------------------------------------------------------------------
  // Words and the separator

  /** The words of a text: runs without white space, with white space around and between them. */
  ghost predicate WordsAre(s: string, words: seq<string>)
    decreases |words|
  {
    if words == [] then Blank(s)
    else exists a: nat, b: nat :: a < b <= |s| && WordAfter(s, a, b, words[0]) && WordsAre(s[b..], words[1..])
  }

  predicate WordAfter(s: string, a: nat, b: nat, word: string)
    requires a < b <= |s|
  {
    Blank(s[..a]) && word == s[a..b] && Unspaced(word) && (b < |s| ==> IsSpace(s[b]))
  }

  lemma {:induction false} WordsBlank(s: string)
    ensures Words(s) == [] <==> Blank(s)
    decreases |s|
  {
    if s != "" && IsSpace(s[0]) {
      WordsBlank(s[1..]);
      assert s == [s[0]] + s[1..];
    }
  }

  lemma {:induction false} WordsSkip(s: string, a: nat)
    requires a <= |s| && Blank(s[..a])
    ensures Words(s) == Words(s[a..])
  {
    if a > 0 {
      assert IsSpace(s[..a][0]);
      assert s[1..][..a - 1] == s[..a][1..];
      WordsSkip(s[1..], a - 1);
      assert s[1..][a - 1..] == s[a..];
    } else {
      assert s[0..] == s;
    }
  }

  lemma FirstWord(s: string, a: nat, b: nat, word: string)
    requires a < b <= |s| && WordAfter(s, a, b, word)
    ensures Words(s) == [word] + Words(s[b..])
  {
    WordsSkip(s, a);
    var t := s[a..];
    assert t[..b - a] == word && t[b - a..] == s[b..];
    assert t == word + s[b..];
    assert Plain(word);
    WordsFirst(word, s[b..]);
  }

  lemma {:induction false} WordsExact(s: string, words: seq<string>)
    ensures Words(s) == words <==> WordsAre(s, words)
    decreases |s|
  {
    WordsBlank(s);
    if words != [] {
      if a: nat, b: nat :| a < b <= |s| && WordAfter(s, a, b, words[0]) && WordsAre(s[b..], words[1..]) {
        FirstWord(s, a, b, words[0]);
        WordsExact(s[b..], words[1..]);
        assert words == [words[0]] + words[1..];
      }
      if Words(s) == words { WordsRead(s, words); }
    }
  }

  lemma {:induction false} WordsRead(s: string, words: seq<string>)
    requires Words(s) == words && words != []
    ensures WordsAre(s, words)
    decreases |s|, 1
  {
    var a := LeadingSpace(s);
    var t := s[a..];
    var b := a + LeadLength(t);
    assert Lead(t) == s[a..b] && t[LeadLength(t)..] == s[b..];
    assert words[1..] == Words(s[b..]);
    assert WordAfter(s, a, b, words[0]);
    WordsBlank(s[b..]);
    if words[1..] != [] { WordsRead(s[b..], words[1..]); }
  }

  /** The white space before the first word. */
  lemma LeadingSpace(s: string) returns (a: nat)
    requires Words(s) != []
    ensures a < |s| && Blank(s[..a]) && !IsSpace(s[a])
    ensures Words(s) == [Lead(s[a..])] + Words(s[a..][LeadLength(s[a..])..])
  {
    a := TrimLeftBlank(s);
    WordsSkip(s, a);
    WordsBlank(s);
    assert s[..|s|] == s;
  }

  predicate BarAt(s: string, i: nat) {
    i + 3 <= |s| && s[i] == ' ' && s[i + 1] == '-' && s[i + 2] == ' '
  }

  predicate NoBarBefore(s: string, i: nat) {
    forall j: nat :: j < i ==> !BarAt(s, j)
  }

  lemma BarsShift(s: string, i: nat)
    requires s != "" && i > 0
    ensures NoBarBefore(s, i) <==> !BarAt(s, 0) && NoBarBefore(s[1..], i - 1)
    ensures BarAt(s, i) <==> BarAt(s[1..], i - 1)
  {
    var t := s[1..];
    assert forall j: nat :: j < |t| ==> t[j] == s[j + 1];
    forall j: nat | j < i - 1 ensures BarAt(t, j) <==> BarAt(s, j + 1) {
    }
    if !BarAt(s, 0) && NoBarBefore(t, i - 1) {
      forall j: nat | j < i ensures !BarAt(s, j) {
        if j > 0 { assert !BarAt(t, j - 1); }
      }
    }
    if NoBarBefore(s, i) {
      forall j: nat | j < i - 1 ensures !BarAt(t, j) {
        var k := j + 1;
        assert !BarAt(s, k);
      }
    }
  }

  lemma {:induction false} SeparatorExact(s: string, i: nat)
    ensures i == Separator(s) < |s| <==> BarAt(s, i) && NoBarBefore(s, i)
  {
    if |s| >= 3 {
      assert s[..3] == " - " <==> BarAt(s, 0);
      if i > 0 {
        BarsShift(s, i);
        SeparatorExact(s[1..], i - 1);
      }
    }
  }

  // --------------------------------------------------------------------------
  // Fields

  predicate AllDigits(s: string) {
    s != "" && forall i :: 0 <= i < |s| ==> '0' <= s[i] <= '9'
  }

  /** A decimal number, with or without leading zeros. */
  predicate NumberIs(s: string, n: int) {
    AllDigits(s) && Number(s) == n
  }

  ghost predicate DeviceText(s: string) {
    exists i: nat :: i < |s| && s[i] == ':' && AllDigits(s[..i]) && AllDigits(s[i + 1..])
  }

  /** Letters, digits, underscores, dots, plus signs and dashes, one to sixty-four of them. */
  predicate TypeText(s: string) {
    && 1 <= |s| <= 64
    && forall i :: 0 <= i < |s| ==>
         || 'A' <= s[i] <= 'Z' || 'a' <= s[i] <= 'z' || '0' <= s[i] <= '9'
         || s[i] == '_' || s[i] == '.' || s[i] == '+' || s[i] == '-'
  }

  predicate Part(s: string) {
    s != "" && s != "." && s != ".." && forall i :: 0 <= i < |s| ==> s[i] != '/'
  }

  /** A root of one or two slashes, and parts that name something. */
  predicate NormalPath(p: Path) {
    (p[0] == "/" || p[0] == "//") && forall i :: 1 <= i < |p| ==> Part(p[i])
  }

  predicate Uncontrolled(text: string) {
    forall i :: 0 <= i < |text| ==> ' ' <= text[i] && text[i] != '\U{7F}'
  }

  /** The kernel's spelling of a character of a path: a backslash and three octal digits for a
      space, a tab, a newline and the backslash, and any other character itself. */
  predicate SpelledChar(c: char, s: string) {
    if c == ' ' || c == '\t' || c == '\n' || c == '\\' then
      |s| == 4 && s[0] == '\\' && '0' <= s[1] <= '7' && '0' <= s[2] <= '7' && '0' <= s[3] <= '7'
      && c as int == 64 * (s[1] as int - 48) + 8 * (s[2] as int - 48) + (s[3] as int - 48)
    else s == [c]
  }

  ghost predicate SpelledText(text: string, field: string)
    decreases |text|
  {
    if text == "" then field == ""
    else exists n: nat :: n <= |field| && SpelledChar(text[0], field[..n]) && SpelledText(text[1..], field[n..])
  }

  ghost predicate PathSpelled(field: string, p: Path) {
    NormalPath(p) && Uncontrolled(RenderPath(p)) && SpelledText(RenderPath(p), field)
  }

  lemma CharSpelled(c: char, s: string)
    ensures SpelledChar(c, s) <==> s == if Escaped(c) then "\\" + EscapeCode(c) else [c]
  {
    if Escaped(c) {
      var code := EscapeCode(c);
      assert |code| == 3;
      if SpelledChar(c, s) { assert s == [s[0], s[1], s[2], s[3]]; }
    }
  }

  lemma {:induction false} EscapeSpelled(text: string, field: string)
    ensures Escape(text) == field <==> SpelledText(text, field)
    decreases |text|
  {
    if text != "" {
      var head := if Escaped(text[0]) then "\\" + EscapeCode(text[0]) else [text[0]];
      CharSpelled(text[0], head);
      if Escape(text) == field {
        assert field[..|head|] == head && field[|head|..] == Escape(text[1..]);
        EscapeSpelled(text[1..], field[|head|..]);
      }
      if n: nat :| n <= |field| && SpelledChar(text[0], field[..n]) && SpelledText(text[1..], field[n..]) {
        CharSpelled(text[0], field[..n]);
        EscapeSpelled(text[1..], field[n..]);
        assert field == field[..n] + field[n..];
      }
    }
  }

  lemma NormalExact(p: Path, text: string)
    ensures ParsePath(text) == Some(p) <==> NormalPath(p) && RenderPath(p) == text
  {
    assert Components(p[1..]) <==> forall i :: 1 <= i < |p| ==> Part(p[i]) by { PartsExact(p); }
    if ParsePath(text) == Some(p) { ParsePathRenders(text); }
    if NormalPath(p) && RenderPath(p) == text { RenderPathParses(p); }
  }

  lemma PartsExact(p: Path)
    ensures Components(p[1..]) <==> forall i :: 1 <= i < |p| ==> Part(p[i])
  {
    var parts := p[1..];
    forall i | 0 <= i < |parts| ensures Component(parts[i]) <==> Part(p[i + 1]) {
      assert parts[i] == p[i + 1];
    }
    if Components(parts) {
      forall i | 1 <= i < |p| ensures Part(p[i]) {
        assert Component(parts[i - 1]);
      }
    }
  }

  lemma FieldExact(field: string, p: Path)
    requires Unspaced(field)
    ensures FieldPath(field) == Some(p) <==> PathSpelled(field, p)
  {
    var text := RenderPath(p);
    forall i | 0 <= i < |field| ensures field[i] !in " \t\n" {
      assert !IsSpace(field[i]) && IsSpace(' ') && IsSpace('\t') && IsSpace('\n');
    }
    UnescapeExact(field, text);
    EscapeSpelled(text, field);
    NormalExact(p, text);
    ControlsExact(text);
    if FieldPath(field) == Some(p) { ParsePathRenders(Unescape(field).value); }
  }

  lemma ControlsExact(text: string)
    ensures (exists c :: c in text && Control(c)) <==> !Uncontrolled(text)
  {
    if c :| c in text && Control(c) {
      var i :| 0 <= i < |text| && text[i] == c;
    }
    if i :| 0 <= i < |text| && !(' ' <= text[i] && text[i] != '\U{7F}') {
      assert text[i] in text && Control(text[i]);
    }
  }

  lemma DeviceExact(s: string)
    ensures DeviceNumbers(s) <==> DeviceText(s)
  {
    if DeviceNumbers(s) {
      var parts := Split(s, ':');
      JoinSplit(s, ':');
      assert parts[1..] == [parts[1]];
      assert s == parts[0] + ":" + parts[1];
      var i := |parts[0]|;
      assert s[..i] == parts[0] && s[i + 1..] == parts[1] && s[i] == ':';
    }
    if i: nat :| i < |s| && s[i] == ':' && AllDigits(s[..i]) && AllDigits(s[i + 1..]) {
      DevicePair(s[..i], s[i + 1..]);
      assert s == s[..i] + ":" + s[i + 1..];
    }
  }

  // --------------------------------------------------------------------------
  // Lines

  /** The record that the fields of a line spell. */
  ghost predicate FieldsSpell(before: seq<string>, after: seq<string>, r: MountRecord) {
    && |before| >= 6 && |after| >= 3
    && NumberIs(before[0], r.mountId) && r.mountId > 0 && NumberIs(before[1], r.parentId)
    && DeviceText(before[2]) && r.device == before[2]
    && PathSpelled(before[3], r.root) && PathSpelled(before[4], r.mountPoint)
    && TypeText(after[0]) && SmallOf(after[0], r.filesystem)
  }

  /** The words before the first bar of a line and those after it spell the record. */
  ghost predicate LineSpells(line: string, r: MountRecord) {
    exists i: nat, before, after :: SpelledAt(line, r, i, before, after)
  }

  ghost predicate SpelledAt(line: string, r: MountRecord, i: nat, before: seq<string>, after: seq<string>) {
    && BarAt(line, i) && NoBarBefore(line, i)
    && WordsAre(line[..i], before) && WordsAre(line[i + 3..], after) && FieldsSpell(before, after, r)
  }

  lemma BuildExact(before: seq<string>, after: seq<string>, r: MountRecord)
    requires AllPlain(before)
    ensures Build(before, after) == Some(r) <==> FieldsSpell(before, after, r)
  {
    if |before| >= 6 && |after| >= 3 {
      FieldExact(before[3], r.root);
      FieldExact(before[4], r.mountPoint);
      DeviceExact(before[2]);
      SmallExact(after[0], r.filesystem);
      assert FilesystemType(after[0]) <==> TypeText(after[0]) by { TypeExact(after[0]); }
      if FieldPath(before[3]).Some? { FieldExact(before[3], FieldPath(before[3]).value); }
      if FieldPath(before[4]).Some? { FieldExact(before[4], FieldPath(before[4]).value); }
    }
  }

  lemma TypeExact(s: string)
    ensures FilesystemType(s) <==> TypeText(s)
  {
  }

  lemma {:induction false} WordsPlain(s: string)
    ensures AllPlain(Words(s))
    decreases |s|
  {
    if s != "" {
      if IsSpace(s[0]) {
        WordsPlain(s[1..]);
      } else {
        WordsPlain(s[LeadLength(s)..]);
        PlainLead(s);
      }
    }
  }

  /** A line is read as a record exactly when it spells that record. */
  lemma LineExact(line: string, r: MountRecord)
    ensures ParseLine(line) == Some(r) <==> LineSpells(line, r)
  {
    var i := Separator(line);
    SeparatorExact(line, i);
    if i < |line| {
      var before, after := Words(line[..i]), Words(line[i + 3..]);
      WordsExact(line[..i], before);
      WordsExact(line[i + 3..], after);
      WordsPlain(line[..i]);
      BuildExact(before, after, r);
      if ParseLine(line) == Some(r) { assert SpelledAt(line, r, i, before, after); }
    }
    if k: nat, before, after :| SpelledAt(line, r, k, before, after) {
      SeparatorExact(line, k);
      WordsExact(line[..k], before);
      WordsExact(line[k + 3..], after);
      WordsPlain(line[..k]);
      BuildExact(before, after, r);
    }
  }
}
