/** The mountinfo reader of scripts/validate_protected_host_contract.py: from the lines the
    kernel lists to the mount records the topology proof rests on. */
module Mountinfo {
  import opened Numerals
  import opened ProtectedHost
  import opened Text

  // --------------------------------------------------------------------------
  // Fields

  /** The length of the text before the first white space. */
  function LeadLength(s: string): (n: nat)
    ensures n <= |s| && (forall i :: 0 <= i < n ==> !IsSpace(s[i])) && (n < |s| ==> IsSpace(s[n]))
  {
    if s == "" || IsSpace(s[0]) then 0 else 1 + LeadLength(s[1..])
  }

  function Lead(s: string): string { s[..LeadLength(s)] }

  /** `str.split()`. */
  function Words(s: string): seq<string>
    decreases |s|
  {
    if s == "" then []
    else if IsSpace(s[0]) then Words(s[1..])
    else [Lead(s)] + Words(s[LeadLength(s)..])
  }

  /** Where the first `" - "` starts; the length of the text if there is none. */
  function Separator(s: string): (i: nat)
    ensures i <= |s| && (i < |s| ==> i + 3 <= |s|)
  {
    if |s| < 3 then |s| else if s[..3] == " - " then 0 else 1 + Separator(s[1..])
  }

  predicate Unspaced(s: string) {
    forall i :: 0 <= i < |s| ==> !IsSpace(s[i])
  }

  predicate Plain(field: string) {
    field != "" && Unspaced(field)
  }

  predicate AllPlain(fields: seq<string>) {
    forall i :: 0 <= i < |fields| ==> Plain(fields[i])
  }

  predicate DeviceNumbers(s: string) {
    var parts := Split(s, ':');
    |parts| == 2 && parts[0] != "" && parts[1] != "" && Digits(parts[0]) && Digits(parts[1])
  }

  predicate Control(c: char) { c < ' ' || c == '\U{7F}' }

  predicate TypeChar(c: char) {
    'A' <= c <= 'Z' || 'a' <= c <= 'z' || IsDigit(c) || c == '_' || c == '.' || c == '+' || c == '-'
  }

  predicate FilesystemType(s: string) {
    1 <= |s| <= 64 && forall i :: 0 <= i < |s| ==> TypeChar(s[i])
  }

  /** The path a field spells, if it is absolute, normal and free of control characters. */
  function FieldPath(field: string): Option<Path> {
    match Unescape(field)
    case None => None
    case Some(text) => if exists c :: c in text && Control(c) then None else ParsePath(text)
  }

  /** A record from the fields on either side of the separator. */
  function Build(before: seq<string>, after: seq<string>): Option<MountRecord> {
    if |before| < 6 || |after| < 3 then None
    else if before[0] == "" || before[1] == "" || !Digits(before[0]) || !Digits(before[1]) then None
    else if Number(before[0]) == 0 || !DeviceNumbers(before[2]) then None
    else
      var root, point := FieldPath(before[3]), FieldPath(before[4]);
      if root.None? || point.None? || !FilesystemType(after[0]) then None
      else Some(MountRecord(Number(before[0]), Number(before[1]), before[2], root.value, point.value, Lower(after[0])))
  }

  /** One line, before its identifier is compared with the others'. */
  function ParseLine(line: string): Option<MountRecord> {
    var i := Separator(line);
    if i == |line| then None else Build(Words(line[..i]), Words(line[i + 3..]))
  }

  // --------------------------------------------------------------------------
  // The listing

  const MAX_MOUNTINFO_LINES := 8192

  predicate Records(lines: seq<string>, records: seq<MountRecord>) {
    |records| == |lines| && forall i :: 0 <= i < |lines| ==> ParseLine(lines[i]) == Some(records[i])
  }

  /** The lines spell records without a repeated identifier. */
  ghost predicate Spell(lines: seq<string>) {
    exists records :: Records(lines, records) && DistinctIds(records)
  }

  function Ids(records: seq<MountRecord>): set<int> {
    set r | r in records :: r.mountId
  }

  lemma LineRefused(lines: seq<string>, i: nat, records: seq<MountRecord>)
    requires i < |lines| && Records(lines[..i], records)
    requires ParseLine(lines[i]).None? || ParseLine(lines[i]).value.mountId in Ids(records)
    ensures !Spell(lines)
  {
    var parsed := ParseLine(lines[i]);
    forall other | Records(lines, other) ensures !DistinctIds(other) {
      assert parsed == Some(other[i]);
      var k :| 0 <= k < i && records[k].mountId == parsed.value.mountId;
      assert lines[..i][k] == lines[k];
      assert Some(other[k]) == Some(records[k]);
    }
  }

  lemma LineAdded(lines: seq<string>, i: nat, records: seq<MountRecord>, r: MountRecord)
    requires i < |lines| && Records(lines[..i], records) && DistinctIds(records)
    requires ParseLine(lines[i]) == Some(r) && r.mountId !in Ids(records)
    ensures Records(lines[..i + 1], records + [r]) && DistinctIds(records + [r])
    ensures Ids(records + [r]) == Ids(records) + {r.mountId}
  {
    var all := records + [r];
    forall k | 0 <= k < i + 1 ensures ParseLine(lines[..i + 1][k]) == Some(all[k]) {
      assert k < i ==> lines[..i][k] == lines[k];
    }
    forall k | 0 <= k < i ensures records[k].mountId != r.mountId { assert records[k].mountId in Ids(records); }
  }

  /** The line loop of `_parse_mountinfo_bytes`: accepted exactly when there are neither no
      nor too many lines, every line parses and no identifier occurs twice; the records are
      then the lines' own, in order. */
  method ParseLines(lines: seq<string>) returns (r: Option<seq<MountRecord>>)
    ensures r.Some? <==> 1 <= |lines| <= MAX_MOUNTINFO_LINES && Spell(lines)
    ensures r.Some? ==> Records(lines, r.value) && DistinctIds(r.value)
  {
    if lines == [] || |lines| > MAX_MOUNTINFO_LINES { return None; }
    var records: seq<MountRecord> := [];
    var ids: set<int> := {};
    for i := 0 to |lines|
      invariant Records(lines[..i], records) && DistinctIds(records) && ids == Ids(records)
    {
      var parsed := ParseLine(lines[i]);
      if parsed.None? || parsed.value.mountId in ids {
        LineRefused(lines, i, records);
        return None;
      }
      LineAdded(lines, i, records, parsed.value);
      ids := ids + {parsed.value.mountId};
      records := records + [parsed.value];
    }
    assert lines[..|lines|] == lines;
    r := Some(records);
  }

  lemma LineRecord(line: string, r: MountRecord)
    requires ParseLine(line) == Some(r)
    ensures r.mountId > 0 && Components(r.root[1..]) && Components(r.mountPoint[1..])
  {
  }

  /** Records that were read have positive identifiers and normal paths. */
  lemma ReadRecordsNormal(lines: seq<string>, records: seq<MountRecord>)
    requires Records(lines, records)
    ensures forall i :: 0 <= i < |records| ==>
      records[i].mountId > 0 && Components(records[i].root[1..]) && Components(records[i].mountPoint[1..])
  {
    forall i | 0 <= i < |records|
      ensures records[i].mountId > 0 && Components(records[i].root[1..]) && Components(records[i].mountPoint[1..])
    {
      LineRecord(lines[i], records[i]);
    }
  }

  // --------------------------------------------------------------------------
  // The kernel's lines

  /** A mount as the kernel knows it: the record, and the fields the reader passes over. */
  datatype Mount = Mount(record: MountRecord, options: seq<string>, filesystem: string, rest: seq<string>)

  function LeftFields(m: Mount): seq<string>
    requires m.record.mountId >= 0 && m.record.parentId >= 0
  {
    [Decimal(m.record.mountId), Decimal(m.record.parentId), m.record.device,
     Escape(RenderPath(m.record.root)), Escape(RenderPath(m.record.mountPoint))] + m.options
  }

  /** The kernel's line of a mount. */
  function KernelLine(left: seq<string>, right: seq<string>): string {
    Join(left, ' ') + (" - " + Join(right, ' '))
  }

  predicate AbsoluteNormal(p: Path) {
    (p[0] == "/" || p[0] == "//") && Components(p[1..])
  }

  predicate Listable(m: Mount) {
    && m.record.mountId > 0 && m.record.parentId >= 0 && DeviceNumbers(m.record.device)
    && AbsoluteNormal(m.record.root) && AbsoluteNormal(m.record.mountPoint)
    && m.options != [] && AllPlain(m.options) && "-" !in m.options
    && FilesystemType(m.filesystem) && m.record.filesystem == Lower(m.filesystem)
    && |m.rest| >= 2 && AllPlain(m.rest)
  }

  /** No control character, and no white space that the kernel does not escape. */
  predicate Readable(p: Path) {
    forall c :: c in RenderPath(p) ==> !Control(c) && (c == ' ' || !IsSpace(c))
  }

  // Finding the separator.

  lemma {:induction false} SkipField(field: string, s: string)
    requires ' ' !in field
    ensures Separator(field + s) == |field| + Separator(s)
  {
    if field == "" {
      assert field + s == s;
    } else {
      SkipField(field[1..], s);
      assert (field + s)[1..] == field[1..] + s && (field + s)[0] == field[0];
    }
  }

  predicate Undashed(fields: seq<string>) {
    forall i :: 0 <= i < |fields| ==> fields[i] != "" && fields[i] != "-" && ' ' !in fields[i]
  }

  lemma SpaceThenField(field: string, s: string)
    requires field != "" && field != "-" && ' ' !in field
    ensures Separator(" " + (field + s)) == 1 + Separator(field + s)
  {
    var line := " " + (field + s);
    assert line[1..] == field + s && line[1] == field[0];
    if |field| > 1 {
      assert line[2] == field[1] && field[1] in field;
    } else {
      assert field == [field[0]];
    }
    assert |line| >= 3 ==> line[..3][1] == line[1] && line[..3][2] == line[2];
  }

  lemma SeparatorStep(field: string, next: string, s: string, tail: string)
    requires ' ' !in field && next != "" && next != "-" && ' ' !in next
    ensures Separator(field + (" " + (next + s)) + tail) == |field| + 1 + Separator(next + s + tail)
  {
    SkipField(field, " " + (next + (s + tail)));
    SpaceThenField(next, s + tail);
    assert next + (s + tail) == next + s + tail;
    assert field + (" " + (next + (s + tail))) == field + (" " + (next + s)) + tail;
  }

  lemma {:induction false} SeparatorAfter(fields: seq<string>, right: string)
    requires fields != [] && Undashed(fields)
    ensures Separator(Join(fields, ' ') + (" - " + right)) == |Join(fields, ' ')|
  {
    var tail := " - " + right;
    FirstField(fields);
    if |fields| == 1 {
      assert tail[..3] == " - ";
      SkipField(fields[0], tail);
    } else {
      var rest := Join(fields[1..], ' ');
      SeparatorAfter(fields[1..], right);
      FirstField(fields[1..]);
      var next := fields[1];
      var s := rest[|next|..];
      assert rest == next + s;
      SeparatorStep(fields[0], next, s, tail);
      assert Join(fields, ' ') == fields[0] + (" " + (next + s));
    }
  }

  lemma FirstField(fields: seq<string>)
    requires fields != []
    ensures fields[0] <= Join(fields, ' ')
    ensures |fields| > 1 ==> Join(fields, ' ')[|fields[0]|..] == " " + Join(fields[1..], ' ')
    ensures |fields| == 1 ==> Join(fields, ' ') == fields[0]
  {
  }

  // Splitting into fields.

  lemma LeadLengthIs(s: string, n: nat)
    requires n <= |s| && (forall i :: 0 <= i < n ==> !IsSpace(s[i])) && (n < |s| ==> IsSpace(s[n]))
    ensures LeadLength(s) == n
  {
  }

  lemma LeadLengthOf(field: string, s: string)
    requires s == "" || IsSpace(s[0])
    ensures LeadLength(field + s) == LeadLength(field)
  {
    LeadLengthIs(field + s, LeadLength(field));
  }

  lemma LeadOf(field: string, s: string)
    requires s == "" || IsSpace(s[0])
    ensures LeadLength(field + s) == LeadLength(field) && Lead(field + s) == Lead(field)
  {
    LeadLengthOf(field, s);
  }

  lemma PlainLead(field: string)
    ensures Lead(field) == field <==> Unspaced(field)
    ensures field != "" && !IsSpace(field[0]) ==> Plain(Lead(field))
  {
  }

  lemma WordsFirst(field: string, s: string)
    requires Plain(field) && (s == "" || IsSpace(s[0]))
    ensures Words(field + s) == [field] + Words(s)
  {
    LeadOf(field, s);
    PlainLead(field);
    assert (field + s)[|field|..] == s;
  }

  predicate Begins(fields: seq<string>) {
    forall i :: 0 <= i < |fields| ==> fields[i] != "" && !IsSpace(fields[i][0])
  }

  predicate PlainUpTo(fields: seq<string>, k: nat)
    requires k <= |fields|
  {
    forall i :: 0 <= i < k ==> Plain(fields[i])
  }

  /** Up to the first field that holds white space the words are the fields. */
  lemma {:induction false} WordAt(fields: seq<string>, k: nat)
    requires k < |fields| && Begins(fields) && PlainUpTo(fields, k)
    ensures |Words(Join(fields, ' '))| > k && Words(Join(fields, ' '))[k] == Lead(fields[k])
  {
    var line, first := Join(fields, ' '), fields[0];
    FirstField(fields);
    var s := line[|first|..];
    assert line == first + s;
    if k == 0 {
      LeadOf(first, s);
      assert line[0] == first[0];
    } else {
      WordsFirst(first, s);
      assert s[1..] == Join(fields[1..], ' ');
      WordAt(fields[1..], k - 1);
    }
  }

  lemma {:induction false} WordsJoin(fields: seq<string>)
    requires AllPlain(fields)
    ensures Words(Join(fields, ' ')) == fields
  {
    if fields != [] {
      var line, first := Join(fields, ' '), fields[0];
      FirstField(fields);
      var s := line[|first|..];
      assert line == first + s;
      WordsFirst(first, s);
      if |fields| > 1 {
        WordsJoin(fields[1..]);
        assert s[1..] == Join(fields[1..], ' ');
      }
      assert fields == [first] + fields[1..];
    }
  }

  // Path fields.

  predicate SpacesEscaped(text: string) {
    forall c :: c in text && IsSpace(c) ==> Escaped(c)
  }

  lemma EscapedHead(c: char)
    ensures var head := if Escaped(c) then "\\" + EscapeCode(c) else [c];
      (Unspaced(head) <==> (IsSpace(c) ==> Escaped(c))) && ' ' !in head
  {
    if !Escaped(c) { assert [c][0] == c; }
  }

  lemma {:induction false} EscapePlain(text: string)
    ensures Unspaced(Escape(text)) <==> SpacesEscaped(text)
    ensures ' ' !in Escape(text)
  {
    if text != "" {
      var head := if Escaped(text[0]) then "\\" + EscapeCode(text[0]) else [text[0]];
      EscapePlain(text[1..]);
      EscapedHead(text[0]);
      SpacesInSum(head, Escape(text[1..]));
      assert text == [text[0]] + text[1..];
      assert SpacesEscaped(text) <==> (IsSpace(text[0]) ==> Escaped(text[0])) && SpacesEscaped(text[1..]);
    }
  }

  lemma SpacesInSum(a: string, b: string)
    ensures Unspaced(a + b) <==> Unspaced(a) && Unspaced(b)
  {
    if Unspaced(a + b) {
      forall i | 0 <= i < |a| ensures !IsSpace(a[i]) { assert (a + b)[i] == a[i]; }
      forall i | 0 <= i < |b| ensures !IsSpace(b[i]) { assert (a + b)[|a| + i] == b[i]; }
    }
  }

  predicate Legible(text: string) {
    forall c :: c in text ==> !Control(c) && (c == ' ' || !IsSpace(c))
  }

  lemma LegiblePlain(text: string)
    ensures Legible(text) ==> Unspaced(Escape(text))
    ensures Unspaced(Escape(text)) && (forall c :: c in text ==> !Control(c)) ==>
            Legible(text)
  {
    EscapePlain(text);
    assert Control('\t') && Control('\n') && !IsSpace('\\');
  }

  /** A cut field spells the text it was cut from only when nothing was cut off. */
  lemma CutFieldSpells(text: string)
    ensures Unescape(Lead(Escape(text))) == Some(text) <==> Lead(Escape(text)) == Escape(text)
  {
    var lead := Lead(Escape(text));
    UnescapeEscape(text);
    forall i | 0 <= i < |lead| ensures lead[i] !in " \t\n" {
      assert !IsSpace(lead[i]) && IsSpace(' ') && IsSpace('\t') && IsSpace('\n');
    }
    UnescapeExact(lead, text);
  }

  lemma RootedField(p: Path)
    requires AbsoluteNormal(p)
    ensures var field := Escape(RenderPath(p)); field != "" && field[0] == '/' && ' ' !in field
  {
    var text := RenderPath(p);
    assert text != "" && text[0] == '/';
    assert Escape(text) == "/" + Escape(text[1..]);
    EscapePlain(text);
  }

  /** The field of a path, cut at its first white space as `split` cuts it, spells that path
      exactly when the path is readable. */
  lemma PathFieldExact(p: Path)
    requires AbsoluteNormal(p)
    ensures FieldPath(Lead(Escape(RenderPath(p)))) == Some(p) <==> Readable(p)
    ensures Readable(p) ==> Plain(Escape(RenderPath(p)))
  {
    var text := RenderPath(p);
    var lead := Lead(Escape(text));
    RootedField(p);
    LegiblePlain(text);
    assert Readable(p) <==> Legible(text);
    CutFieldSpells(text);
    PlainLead(Escape(text));
    RenderPathParses(p);
    SpelledPath(lead, p, text);
  }

  lemma SpelledPath(field: string, p: Path, text: string)
    requires ParsePath(text) == Some(p) && RenderPath(p) == text
    ensures FieldPath(field) == Some(p) <==> Unescape(field) == Some(text) && forall c :: c in text ==> !Control(c)
  {
    if FieldPath(field) == Some(p) { ParsePathRenders(Unescape(field).value); }
  }

  lemma DecimalPlain(n: nat)
    ensures Plain(Decimal(n)) && Undashed([Decimal(n)]) && Digits(Decimal(n)) && Number(Decimal(n)) == n
  {
    DecimalNumber(n);
    forall i | 0 <= i < |Decimal(n)| ensures !IsSpace(Decimal(n)[i]) && Decimal(n)[i] != '-' {
      assert IsDigit(Decimal(n)[i]);
    }
  }

  lemma DevicePlain(s: string)
    requires DeviceNumbers(s)
    ensures Plain(s) && Undashed([s])
  {
    var parts := Split(s, ':');
    JoinSplit(s, ':');
    assert parts[1..] == [parts[1]];
    assert s == parts[0] + [':'] + parts[1];
    forall i | 0 <= i < |s| ensures !IsSpace(s[i]) && s[i] != '-' {
      assert s[i] == ':' || IsDigit(s[i]);
    }
  }

  lemma TypePlain(s: string)
    requires FilesystemType(s)
    ensures Plain(s)
  {
    forall i | 0 <= i < |s| ensures !IsSpace(s[i]) { assert TypeChar(s[i]); }
  }

  lemma LeftUndashed(m: Mount)
    requires Listable(m)
    ensures Undashed(LeftFields(m)) && Begins(LeftFields(m)) && |LeftFields(m)| >= 6 && PlainUpTo(LeftFields(m), 3)
    ensures forall i :: 5 <= i < |LeftFields(m)| ==> Plain(LeftFields(m)[i])
  {
    var fields := LeftFields(m);
    DecimalPlain(m.record.mountId);
    DecimalPlain(m.record.parentId);
    DevicePlain(m.record.device);
    RootedField(m.record.root);
    RootedField(m.record.mountPoint);
    var head := fields[..5];
    assert Undashed([fields[0]]) && Undashed([fields[1]]) && Undashed([fields[2]]);
    forall i | 0 <= i < |fields|
      ensures fields[i] != "" && fields[i] != "-" && ' ' !in fields[i] && !IsSpace(fields[i][0])
      ensures i != 3 && i != 4 ==> Plain(fields[i])
    {
      if i >= 5 {
        assert fields[i] == m.options[i - 5] && Plain(m.options[i - 5]) && m.options[i - 5] in m.options;
      } else {
        assert i < 3 ==> [fields[i]][0] == fields[i];
      }
    }
  }

  lemma LineSplits(left: seq<string>, right: seq<string>)
    requires left != [] && Undashed(left) && AllPlain(right)
    ensures var line := KernelLine(left, right); var i := Separator(line);
      i < |line| && line[..i] == Join(left, ' ') && Words(line[i + 3..]) == right
  {
    SeparatorAfter(left, Join(right, ' '));
    var line, l := KernelLine(left, right), Join(left, ' ');
    assert line[..|l|] == l && line[|l| + 3..] == Join(right, ' ');
    WordsJoin(right);
  }

  /** What the fields make once the two paths are read. */
  lemma FieldsBuild(m: Mount, before: seq<string>, after: seq<string>)
    requires Listable(m) && after == [m.filesystem] + m.rest && |before| >= 6
    requires before[0] == Decimal(m.record.mountId) && before[1] == Decimal(m.record.parentId)
      && before[2] == m.record.device
    ensures Build(before, after) == Some(m.record) <==>
            FieldPath(before[3]) == Some(m.record.root) && FieldPath(before[4]) == Some(m.record.mountPoint)
  {
    DecimalPlain(m.record.mountId);
    DecimalPlain(m.record.parentId);
  }

  lemma PlainWordAt(fields: seq<string>, k: nat, words: seq<string>)
    requires k < |fields| && Begins(fields) && PlainUpTo(fields, k) && words == Words(Join(fields, ' '))
    ensures |words| > k && words[k] == Lead(fields[k]) && (Plain(fields[k]) ==> words[k] == fields[k])
  {
    WordAt(fields, k);
    PlainLead(fields[k]);
  }

  /** The first words of a line: its fields up to the first path, and up to the second if the
      first is plain. */
  lemma FirstWords(left: seq<string>, words: seq<string>)
    requires |left| >= 6 && Begins(left) && PlainUpTo(left, 3) && words == Words(Join(left, ' '))
    ensures |words| >= 4 && words[0] == left[0] && words[1] == left[1] && words[2] == left[2]
      && words[3] == Lead(left[3])
    ensures Plain(left[3]) ==> |words| >= 5 && words[4] == Lead(left[4])
  {
    PlainWordAt(left, 0, words);
    PlainWordAt(left, 1, words);
    PlainWordAt(left, 2, words);
    PlainWordAt(left, 3, words);
    if Plain(left[3]) { PlainWordAt(left, 4, words); }
  }

  lemma ReadableWords(m: Mount, left: seq<string>)
    requires Listable(m) && left == LeftFields(m) && Readable(m.record.root) && Readable(m.record.mountPoint)
    ensures Words(Join(left, ' ')) == left
  {
    LeftUndashed(m);
    PathFieldExact(m.record.root);
    PathFieldExact(m.record.mountPoint);
    PlainLead(left[3]);
    PlainLead(left[4]);
    assert AllPlain(left);
    WordsJoin(left);
  }

  lemma WordsBuild(m: Mount, left: seq<string>, words: seq<string>, after: seq<string>)
    requires Listable(m) && left == LeftFields(m) && after == [m.filesystem] + m.rest && words == Words(Join(left, ' '))
    ensures Build(words, after) == Some(m.record) <==> Readable(m.record.root) && Readable(m.record.mountPoint)
  {
    LeftUndashed(m);
    PathFieldExact(m.record.root);
    PathFieldExact(m.record.mountPoint);
    FirstWords(left, words);
    PlainLead(left[3]);
    PlainLead(left[4]);
    if Readable(m.record.root) && Readable(m.record.mountPoint) { ReadableWords(m, left); }
    if |words| >= 6 { FieldsBuild(m, words, after); }
  }

  /** The reader inverts the kernel's listing exactly on the mounts whose two paths are
      readable: the kernel escapes four characters, the reader splits at any white space. */
  lemma KernelLineReads(m: Mount)
    requires Listable(m)
    ensures ParseLine(KernelLine(LeftFields(m), [m.filesystem] + m.rest)) == Some(m.record) <==>
            Readable(m.record.root) && Readable(m.record.mountPoint)
  {
    var left, right := LeftFields(m), [m.filesystem] + m.rest;
    LeftUndashed(m);
    TypePlain(m.filesystem);
    LineSplits(left, right);
    WordsBuild(m, left, Words(Join(left, ' ')), right);
  }

  lemma DevicePair(a: string, b: string)
    requires a != "" && b != "" && Digits(a) && Digits(b)
    ensures DeviceNumbers(a + ":" + b)
  {
    var parts := [a, b];
    assert parts[1..] == [b];
    forall i | 0 <= i < 2 ensures ':' !in parts[i] {
      forall c | c in parts[i] ensures IsDigit(c) {}
    }
    SplitJoin(parts, ':');
    assert Join(parts, ':') == a + ":" + b;
  }

  /** A mount the reader gets wrong: a no-break space in a directory name is white space to
      the reader and an ordinary character to the kernel. */
  lemma SomeMountMisread() returns (m: Mount)
    ensures Listable(m) && ParseLine(KernelLine(LeftFields(m), [m.filesystem] + m.rest)) != Some(m.record)
  {
    DevicePair("8", "1");
    var name := "a\U{A0}b";
    var point: Path := ["/", name];
    m := Mount(MountRecord(1, 0, "8" + ":" + "1", ["/"], point, Lower("ext4")), ["rw"], "ext4", ["none", "rw"]);
    assert Component(name) && AbsoluteNormal(point) by { assert point[1..] == [name]; }
    assert Listable(m);
    assert point[1..][1..] == [] && RenderPath(point) == "/" + name;
    var space := RenderPath(point)[2];
    assert space == '\U{A0}' && IsSpace(space) && space in RenderPath(point);
    assert !Readable(point);
    KernelLineReads(m);
  }
}
