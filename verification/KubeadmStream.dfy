/** A stream of documents against the characters of its lines: what is read from it, exactly. */
module KubeadmStream {
  import opened Text
  import opened Kubeadm
  import opened KubeadmLayout
  import opened KubeadmGrammar
  import opened KubeadmText

  // --------------------------------------------------------------------------
  // Lines

  predicate Marker(c: char) {
    c == '&' || c == '*' || c == '!'
  }

  /** At the start, or after white space. */
  predicate Begins(s: string, i: nat)
    requires i < |s|
  {
    i == 0 || IsSpace(s[i - 1])
  }

  /** No anchor, alias or tag at the start or after white space, and no block scalar at the end. */
  predicate Unmarked(content: string) {
    && (forall i :: 0 <= i < |content| && Begins(content, i) ==> !Marker(content[i]))
    && (content != "" ==> content[|content| - 1] != '|' && content[|content| - 1] != '>')
  }

  predicate Simple(content: string) {
    && content != "" && content[0] != ' ' && !IsSpace(content[|content| - 1])
    && '\t' !in content && Unmarked(content)
  }

  lemma UnmarkedExact(content: string)
    ensures Advanced(content) <==> !Unmarked(content)
  {
    forall i | 0 <= i < |content|
      ensures Magic(content[i]) && (i == 0 || IsSpace(content[i - 1])) <==>
              Marker(content[i]) && Begins(content, i)
    {
    }
  }

  ghost predicate LineSpelled(line: string, t: Token) {
    exists pad :: LineWith(line, t, pad)
  }

  predicate LineWith(line: string, t: Token, pad: string) {
    line == Padding(t.indent) + t.content + pad && Blank(pad) && t.indent % 2 == 0 && Simple(t.content)
  }

  lemma LineWritten(line: string, t: Token, pad: string)
    requires LineWith(line, t, pad)
    ensures LineToken(line) == Ok(t)
  {
    var shown := Padding(t.indent) + t.content;
    LineTrims(line, shown, pad);
    SpacesOfPadding(t.indent, t.content);
    assert shown[t.indent..] == t.content;
    UnmarkedExact(t.content);
    assert '\t' !in Padding(t.indent);
  }

  lemma LineTrims(line: string, shown: string, pad: string)
    requires line == shown + pad && Blank(pad) && (shown != "" ==> !IsSpace(shown[|shown| - 1]))
    ensures TrimRight(line) == shown
  {
    assert line[..|shown|] == shown && line[|shown|..] == pad;
    TrimRightFrom(line, |shown|);
  }

  lemma LineRead(line: string, t: Token)
    requires LineToken(line) == Ok(t) && TrimRight(line) != ""
    ensures LineSpelled(line, t)
  {
    var n := TrimRightBlank(line);
    var shown, pad := line[..n], line[n..];
    assert line == shown + pad;
    LineOf(line, t, shown, pad);
  }

  lemma LineOf(line: string, t: Token, shown: string, pad: string)
    requires line == shown + pad && Blank(pad) && shown != "" && !IsSpace(shown[|shown| - 1]) && '\t' !in shown
    requires t.indent == Spaces(shown) && t.indent % 2 == 0 && t.content == shown[t.indent..] && !Advanced(t.content)
    ensures LineSpelled(line, t)
  {
    IndentedLine(shown, t.indent, t.content);
    UnmarkedExact(t.content);
    assert Simple(t.content);
    assert LineWith(line, t, pad);
  }

  lemma IndentedLine(shown: string, k: nat, content: string)
    requires shown != "" && !IsSpace(shown[|shown| - 1])
    requires k == Spaces(shown) && content == shown[k..]
    ensures shown == Padding(k) + content && content != ""
    ensures content[0] != ' ' && content[|content| - 1] == shown[|shown| - 1]
    ensures '\t' !in shown ==> '\t' !in content
  {
    assert k < |shown|;
    assert content[0] == shown[k] && content[|content| - 1] == shown[|shown| - 1];
    assert shown == shown[..k] + content;
    assert shown[..k] == Padding(k);
    forall i | 0 <= i < |content| ensures content[i] in shown {
      assert content[i] == shown[k + i];
    }
  }

  lemma IgnoredEnd(line: string)
    ensures Ignored(TrimRight(line)) <==> Ignored(line)
  {
    var m := TrimRightBlank(line);
    var shown := line[..m];
    assert line == shown + line[m..];
    if n: nat :| n <= |shown| && IgnoredFrom(shown, n) {
      assert line[..n] == shown[..n];
      if n == |shown| {
        assert Blank(line);
        assert line[..|line|] == line;
        assert IgnoredFrom(line, |line|);
      } else {
        assert IgnoredFrom(line, n);
      }
    }
    if n: nat :| n <= |line| && IgnoredFrom(line, n) {
      if n < m {
        assert shown[..n] == line[..n];
        assert IgnoredFrom(shown, n);
      } else {
        assert forall i :: 0 <= i < m ==> line[..n][i] == shown[i];
        if n < |line| { assert line[n] == line[m..][n - m]; }
        assert shown[..m] == shown;
        assert IgnoredFrom(shown, m);
      }
    }
  }

  /** A line that is not ignored is read as the token its characters spell. */
  lemma LineReadsExactly(line: string, t: Token)
    requires !Ignored(line)
    ensures LineToken(line) == Ok(t) <==> LineSpelled(line, t)
  {
    if pad :| LineWith(line, t, pad) { LineWritten(line, t, pad); }
    if LineToken(line) == Ok(t) {
      if TrimRight(line) == "" {
        IgnoredEnd(line);
        assert IgnoredFrom("", 0);
      }
      LineRead(line, t);
    }
  }

  ghost predicate LinesSpelled(lines: seq<string>, ts: seq<Token>)
    decreases |lines|
  {
    if lines == [] then ts == []
    else
      var last := |lines| - 1;
      if Ignored(lines[last]) then LinesSpelled(lines[..last], ts)
      else ts != [] && LineSpelled(lines[last], ts[|ts| - 1]) && LinesSpelled(lines[..last], ts[..|ts| - 1])
  }

  lemma {:induction false} LinesReadExactly(lines: seq<string>, ts: seq<Token>)
    ensures LineTokens(lines) == Ok(ts) <==> LinesSpelled(lines, ts)
    decreases |lines|
  {
    if lines != [] {
      var last := |lines| - 1;
      IgnoredEnd(lines[last]);
      IgnoredExact(TrimRight(lines[last]));
      if Ignored(lines[last]) {
        LinesReadExactly(lines[..last], ts);
      } else if ts != [] {
        LinesReadExactly(lines[..last], ts[..|ts| - 1]);
        LineReadsExactly(lines[last], ts[|ts| - 1]);
        assert ts == ts[..|ts| - 1] + [ts[|ts| - 1]];
      }
    }
  }

  // --------------------------------------------------------------------------
  // Documents

  ghost predicate DocumentSpelled(lines: seq<string>, n: Node) {
    exists ts :: LinesSpelled(lines, ts) && n.Mapping? && BlockSpelled(ts, 0, n)
  }

  /** A text is read as a document exactly when its lines spell the tokens of that mapping. */
  lemma DocumentExact(lines: seq<string>, n: Node)
    ensures ParseDocument(lines) == Ok(n) <==> DocumentSpelled(lines, n)
  {
    if ts :| LinesSpelled(lines, ts) && n.Mapping? && BlockSpelled(ts, 0, n) {
      LinesReadExactly(lines, ts);
      BlockExact(ts, 0, n);
    }
    if ParseDocument(lines) == Ok(n) {
      var ts := Tokens(lines).value;
      LinesReadExactly(lines, ts);
      BlockExact(ts, 0, n);
    }
  }

  // --------------------------------------------------------------------------
  // One unquoted scalar

  /** Text that can stand after a key without quotes. */
  predicate Plainly(text: string) {
    && Bare(text) && !IsSpace(text[0]) && !IsSpace(text[|text| - 1])
    && '\t' !in text && '\n' !in text && Unmarked(text)
  }

  predicate Mild(c: char) {
    !Marker(c) && c != '\t'
  }

  lemma MarkedAfter(front: string, text: string)
    requires front != "" && front[|front| - 1] == ' ' && text != ""
    requires forall i :: 0 <= i < |front| ==> Mild(front[i])
    ensures Unmarked(front + text) <==> Unmarked(text)
  {
    var line, n := front + text, |front|;
    assert line[|line| - 1] == text[|text| - 1];
    if Unmarked(line) {
      forall i | 0 <= i < |text| && Begins(text, i) ensures !Marker(text[i]) {
        BeginsAfter(front, text, i);
      }
    }
    if Unmarked(text) {
      forall i | 0 <= i < |line| && Begins(line, i) ensures !Marker(line[i]) {
        if i < n {
          assert Mild(front[i]);
        } else {
          BeginsAfter(front, text, i - n);
        }
      }
    }
  }

  lemma BeginsAfter(front: string, text: string, i: nat)
    requires front != "" && front[|front| - 1] == ' ' && i < |text|
    ensures (front + text)[|front| + i] == text[i]
    ensures Begins(front + text, |front| + i) <==> Begins(text, i)
  {
    if i > 0 { assert (front + text)[|front| + i - 1] == text[i - 1]; }
  }

  lemma TabAfter(front: string, text: string)
    requires forall i :: 0 <= i < |front| ==> Mild(front[i])
    ensures '\t' in front + text <==> '\t' in text
  {
    var line := front + text;
    forall i | 0 <= i < |front| ensures line[i] != '\t' {
      assert Mild(front[i]);
    }
    if i :| 0 <= i < |line| && line[i] == '\t' {
      assert text[i - |front|] == '\t';
    }
    if i :| 0 <= i < |text| && text[i] == '\t' {
      assert line[|front| + i] == '\t';
    }
  }

  lemma PlainLine(key: string, text: string)
    requires KeyText(key) && text != "" && !IsSpace(text[|text| - 1])
    ensures Simple(key + ": " + text) <==> '\t' !in text && Unmarked(text)
  {
    var front := key + ": ";
    var line := front + text;
    assert line[0] == key[0] && KeyCharacter(key[0]);
    assert line[|line| - 1] == text[|text| - 1];
    forall i | 0 <= i < |front| ensures Mild(front[i]) {
      assert i < |key| ==> KeyCharacter(key[i]);
    }
    MarkedAfter(front, text);
    TabAfter(front, text);
  }

  lemma OneTokenSpelled(t: Token, e: Entry, text: string)
    requires t.indent == 0 && !Dashed(t.content)
    requires PairSpelled(t.content, e.key, text) && text != "" && ScalarSpelled(text, e.value)
    ensures BlockSpelled([t], 0, Mapping([e]))
  {
    var ts, entries := [t], [e];
    assert ts[..1] == ts && ts[1..] == [] && entries[1..] == [];
    assert EntrySpelled(ts, 0, e);
    assert EntrySpelled(ts[..1], 0, entries[0]) && EntriesSpelled(ts[1..], 0, entries[1..]);
  }

  lemma PlainSpelled(key: string, text: string)
    requires KeyText(key) && key[0] != '-' && Plainly(text)
    ensures DocumentSpelled([key + ": " + text], Single(key, text))
  {
    var line := key + ": " + text;
    PlainLine(key, text);
    PlainPair(key, text);
    OneLineSpelled(line);
    StandsAlone(text);
    OneTokenSpelled(Token(0, line), Entry(key, Scalar(text)), text);
  }

  lemma PlainPair(key: string, text: string)
    requires KeyText(key) && Plainly(text)
    ensures var line := key + ": " + text;
            line[0] == key[0] && KeyCharacter(line[0]) && PairSpelled(line, key, text)
  {
    var line := key + ": " + text;
    assert line[0] == key[0];
    assert line == key + ":" + " " + text;
    assert PairWith(line, key, " ", text);
  }

  lemma OneLineSpelled(line: string)
    requires Simple(line) && KeyCharacter(line[0])
    ensures LinesSpelled([line], [Token(0, line)])
  {
    var t := Token(0, line);
    UnpaddedLine(line, t);
    NotIgnored(line);
    assert [t][..0] == [] && [line][..0] == [];
  }

  lemma UnpaddedLine(line: string, t: Token)
    requires t.indent == 0 && t.content == line && Simple(line)
    ensures LineSpelled(line, t)
  {
    assert Padding(0) + line + "" == line;
    assert LineWith(line, t, "");
  }

  lemma NotIgnored(line: string)
    requires line != "" && KeyCharacter(line[0])
    ensures !Ignored(line)
  {
    forall n: nat | n <= |line| ensures !IgnoredFrom(line, n) {
      if n > 0 { assert line[..n][0] == line[0]; }
    }
  }

  lemma StandsAlone(text: string)
    requires Plainly(text)
    ensures ScalarSpelled(text, Scalar(text))
  {
    assert text[..0] == "" && text[0..|text|] == text && text[|text|..] == "";
    assert StrippedAt(text, text, 0, |text|);
    assert Stripped(text, text) && Writes(text, Scalar(text));
  }

  /** A key and an unquoted scalar on one line are read as exactly that scalar, if and only if it
      can stand without quotes. */
  lemma PlainExact(key: string, text: string)
    requires KeyText(key) && key[0] != '-'
    ensures ParseDocument([key + ": " + text]) == Ok(Single(key, text)) <==> Plainly(text)
  {
    DocumentExact([key + ": " + text], Single(key, text));
    if Plainly(text) { PlainSpelled(key, text); }
    if DocumentSpelled([key + ": " + text], Single(key, text)) { SpelledPlainly(key, text); }
  }

  lemma SpelledPlainly(key: string, text: string)
    requires KeyText(key) && DocumentSpelled([key + ": " + text], Single(key, text))
    ensures Plainly(text)
  {
    var line, e := key + ": " + text, Entry(key, Scalar(text));
    var ts :| LinesSpelled([line], ts) && BlockSpelled(ts, 0, Single(key, text));
    var t, v := OneTokenOf(line, ts, e);
    BareOrLonger(v, text);
    PlaceOfValue(line, key, text, t, v);
    PlainLine(key, text);
  }

  lemma PlaceOfValue(line: string, key: string, text: string, t: Token, v: string)
    requires line == key + ": " + text && LineSpelled(line, t) && t.indent == 0
    requires PairSpelled(t.content, key, v) && v != "" && |v| >= |text|
    ensures Simple(line) && v == text && '\n' !in v
  {
    var pad :| LineWith(line, t, pad);
    var space :| PairWith(t.content, key, space, v);
    assert Padding(0) + t.content == t.content;
    PlacesAgree(line, key, text, t.content, pad, space, v);
  }

  lemma BareOrLonger(v: string, text: string)
    requires ScalarSpelled(v, Scalar(text))
    ensures |v| >= |text|
    ensures v == text ==> Bare(text) && !IsSpace(text[0]) && !IsSpace(text[|text| - 1])
  {
    var core :| Stripped(v, core) && Writes(core, Scalar(text));
    assert |core| >= |text| && |core| <= |v|;
    if v == text {
      assert core == v;
    }
  }

  /** The only token of a one-line document, and the text after its colon. */
  lemma OneTokenOf(line: string, ts: seq<Token>, e: Entry) returns (t: Token, v: string)
    requires LinesSpelled([line], ts) && BlockSpelled(ts, 0, Mapping([e])) && e.value.Scalar?
    ensures t.indent == 0 && LineSpelled(line, t)
    ensures PairSpelled(t.content, e.key, v) && v != "" && ScalarSpelled(v, e.value)
  {
    assert [line][..0] == [];
    EntriesHead(ts, 0, [e]);
    t := ts[0];
    var k: nat :| k <= |ts| && EntrySpelled(ts[..k], 0, e) && EntriesSpelled(ts[k..], 0, [e][1..]);
    v :| PairSpelled(ts[..k][0].content, e.key, v) && ValueSpelled(ts[..k][1..], v, 2, e.value);
    ValueOfScalar(ts[..k][1..], v, 2, e.value);
  }

  lemma ValueOfScalar(ts: seq<Token>, text: string, indent: nat, n: Node)
    requires ValueSpelled(ts, text, indent, n) && n.Scalar?
    ensures text != "" && ScalarSpelled(text, n)
  {
  }

  lemma PlacesAgree(
    line: string, key: string, text: string, content: string, pad: string, space: string, v: string)
    requires line == key + ": " + text && line == content + pad && |v| >= |text|
    requires PairWith(content, key, space, v) && v != ""
    ensures content == line && v == text
  {
    var n := |key| + 1;
    assert line[n] == ' ' && content == key + ":" + space + v;
    assert (space + v)[0] == content[n];
    assert pad == "" && |space| == 1;
    assert content[n + 1..] == v && line[n + 1..] == text;
  }

  // --------------------------------------------------------------------------
  // Streams

  ghost predicate Ruled(line: string) {
    Stripped(line, "---")
  }

  ghost predicate Unruled(lines: seq<string>) {
    forall i :: 0 <= i < |lines| ==> !Ruled(lines[i])
  }

  /** The lines are the segments with one rule between neighbours. */
  ghost predicate Segmented(lines: seq<string>, segments: seq<seq<string>>)
    decreases |segments|
  {
    && segments != [] && Unruled(segments[0])
    && if |segments| == 1 then lines == segments[0]
       else exists rule, more ::
         && lines == segments[0] + ([rule] + more) && Ruled(rule)
         && Segmented(more, segments[1..])
  }

  ghost predicate AllIgnored(lines: seq<string>) {
    forall i :: 0 <= i < |lines| ==> Ignored(lines[i])
  }

  ghost predicate OfKind(n: Node, kind: string) {
    n.Mapping? && Entry("kind", Scalar(kind)) in n.entries
  }

  /** Every segment that says anything is a document, and `m` has them under their kinds. */
  ghost predicate StreamSpelled(segments: seq<seq<string>>, m: map<string, Node>)
    decreases |segments|
  {
    if segments == [] then m == map[]
    else
      var last := |segments| - 1;
      if AllIgnored(segments[last]) then StreamSpelled(segments[..last], m)
      else
        exists kind ::
          && LastAdded(segments[last], m - {kind}, m, kind)
          && StreamSpelled(segments[..last], m - {kind})
  }

  ghost predicate KeptUnder(lines: seq<string>, n: Node, kind: string) {
    DocumentSpelled(lines, n) && OfKind(n, kind)
  }

  lemma {:induction false} LookupFinds(entries: seq<Entry>, key: string, n: Node)
    requires DistinctKeys(entries)
    ensures Lookup(entries, key) == Some(n) <==> Entry(key, n) in entries
  {
    if entries != [] {
      var rest := entries[1..];
      assert forall i :: 0 <= i < |rest| ==> rest[i] == entries[i + 1];
      LookupFinds(rest, key, n);
      assert entries == [entries[0]] + rest;
    }
  }

  lemma KindExact(n: Node, kind: string)
    requires n.Mapping? && DistinctKeys(n.entries)
    ensures Kind(n) == Some(kind) <==> OfKind(n, kind)
  {
    LookupFinds(n.entries, "kind", Scalar(kind));
    if Kind(n) == Some(kind) { assert Lookup(n.entries, "kind") == Some(Scalar(kind)); }
  }

  lemma KeptExact(lines: seq<string>, n: Node, kind: string)
    ensures ParseDocument(lines) == Ok(n) && n.Mapping? && Kind(n) == Some(kind) <==> KeptUnder(lines, n, kind)
  {
    DocumentExact(lines, n);
    if DocumentSpelled(lines, n) { KindExact(n, kind); }
  }

  lemma RuleExact(line: string)
    ensures Separator(line) <==> Ruled(line)
  {
    StripExact(line, "---");
  }

  lemma ContentExact(lines: seq<string>)
    ensures HasContent(lines) <==> !AllIgnored(lines)
  {
    forall i | 0 <= i < |lines| ensures Significant(lines[i]) <==> !Ignored(lines[i]) {
      IgnoredExact(lines[i]);
    }
  }

  /** The segments that have content. */
  function Filled(segments: seq<seq<string>>): seq<seq<string>> {
    if segments == [] then [] else Close(segments[|segments| - 1], Filled(segments[..|segments| - 1]))
  }

  lemma {:induction false} ChunksOfSegments(
    lines: seq<string>, segments: seq<seq<string>>, done: seq<seq<string>>)
    requires Segmented(lines, segments)
    ensures Chunks(lines, [], Filled(done)) == Filled(done + segments)
    decreases |segments|
  {
    var first := segments[0];
    forall i | 0 <= i < |first| ensures !Separator(first[i]) { RuleExact(first[i]); }
    assert (done + [first])[..|done|] == done;
    if |segments| == 1 {
      ChunksSkip(first, [], [], Filled(done));
      assert first + [] == first && [] + first == first;
      assert segments == [first];
    } else {
      var rule, more :| lines == first + ([rule] + more) && Ruled(rule) && Segmented(more, segments[1..]);
      ChunksSkip(first, [rule] + more, [], Filled(done));
      assert [] + first == first && ([rule] + more)[1..] == more;
      RuleExact(rule);
      Shift(done, segments);
      ChunksOfSegments(more, segments[1..], done + [first]);
    }
  }

  /** Every list of lines has its segments. */
  lemma {:induction false} SegmentsExist(lines: seq<string>) returns (segments: seq<seq<string>>)
    ensures Segmented(lines, segments)
  {
    if lines == [] {
      segments := [[]];
    } else {
      var more := SegmentsExist(lines[1..]);
      if Ruled(lines[0]) {
        segments := [[]] + more;
        assert lines == [] + ([lines[0]] + lines[1..]) && segments[1..] == more;
      } else {
        segments := [[lines[0]] + more[0]] + more[1..];
        GrowFirst(lines, more, segments);
      }
    }
  }

  lemma GrowFirst(lines: seq<string>, more: seq<seq<string>>, segments: seq<seq<string>>)
    requires lines != [] && !Ruled(lines[0]) && Segmented(lines[1..], more)
    requires segments == [[lines[0]] + more[0]] + more[1..]
    ensures Segmented(lines, segments)
  {
    assert lines == [lines[0]] + lines[1..];
    assert segments[1..] == more[1..];
    if |more| > 1 {
      var rule, after :| lines[1..] == more[0] + ([rule] + after) && Ruled(rule) && Segmented(after, more[1..]);
      assert lines == segments[0] + ([rule] + after);
    }
  }

  lemma {:induction false} AddLast(chunks: seq<seq<string>>, chunk: seq<string>, m: map<string, Node>)
    ensures AddDocuments(chunks + [chunk], m) ==
            match AddDocuments(chunks, m)
            case Ok(all) => AddDocuments([chunk], all)
            case Err(e) => Err(e)
  {
    if chunks == [] {
      assert chunks + [chunk] == [chunk];
    } else {
      TailOfSum(chunks, [chunk]);
      var document := ParseDocument(chunks[0]);
      if document.Ok? && Kind(document.value).Some? {
        AddLast(chunks[1..], chunk, m[Kind(document.value).value := document.value]);
      }
    }
  }

  lemma AddSingle(chunk: seq<string>, before: map<string, Node>, m: map<string, Node>, n: Node, kind: string)
    requires ParseDocument(chunk) == Ok(n) && Kind(n) == Some(kind)
    ensures AddDocuments([chunk], before) == Ok(m) <==> kind !in before && m == before[kind := n]
  {
    assert [chunk][1..] == [];
    assert AddDocuments([], before[kind := n]) == Ok(before[kind := n]);
  }

  ghost predicate LastAdded(chunk: seq<string>, before: map<string, Node>, m: map<string, Node>, kind: string) {
    kind in m && KeptUnder(chunk, m[kind], kind) && before == m - {kind}
  }

  lemma AddOne(chunk: seq<string>, before: map<string, Node>, m: map<string, Node>)
    ensures AddDocuments([chunk], before) == Ok(m) <==> exists kind :: LastAdded(chunk, before, m, kind)
  {
    if kind :| LastAdded(chunk, before, m, kind) {
      KeptExact(chunk, m[kind], kind);
      AddSingle(chunk, before, m, m[kind], kind);
      assert before[kind := m[kind]] == m;
    }
    if AddDocuments([chunk], before) == Ok(m) {
      AddedLast(chunk, before, m, ParseDocument(chunk).value);
    }
  }

  lemma AddedLast(chunk: seq<string>, before: map<string, Node>, m: map<string, Node>, n: Node)
    requires AddDocuments([chunk], before) == Ok(m) && ParseDocument(chunk) == Ok(n)
    ensures Kind(n).Some? && LastAdded(chunk, before, m, Kind(n).value)
  {
    var kind := Kind(n).value;
    AddSingle(chunk, before, m, n, kind);
    KeptExact(chunk, n, kind);
    assert before == m - {kind};
  }

  lemma {:induction false} FilledExact(segments: seq<seq<string>>, m: map<string, Node>)
    ensures AddDocuments(Filled(segments), map[]) == Ok(m) <==> StreamSpelled(segments, m)
    decreases |segments|
  {
    if segments != [] {
      var last, more := segments[|segments| - 1], segments[..|segments| - 1];
      ContentExact(last);
      if AllIgnored(last) {
        FilledExact(more, m);
      } else {
        AddLast(Filled(more), last, map[]);
        forall kind ensures AddDocuments(Filled(more), map[]) == Ok(m - {kind}) <==> StreamSpelled(more, m - {kind}) {
          FilledExact(more, m - {kind});
        }
        var before := AddDocuments(Filled(more), map[]);
        if before.Ok? { AddOne(last, before.value, m); }
      }
    }
  }

  /** A stream is read as `m` exactly when its lines are segments with rules between them, and
      `m` has the documents of those that are not all blank and comments, each under its own
      kind and no kind twice. */
  lemma StreamExact(lines: seq<string>, m: map<string, Node>)
    ensures AddDocuments(Chunks(lines, [], []), map[]) == Ok(m) <==>
            exists segments :: Segmented(lines, segments) && StreamSpelled(segments, m)
  {
    var segments := SegmentsExist(lines);
    ReadOf(lines, segments, m);
    if other :| Segmented(lines, other) && StreamSpelled(other, m) {
      ReadOf(lines, other, m);
    }
  }

  lemma ReadOf(lines: seq<string>, segments: seq<seq<string>>, m: map<string, Node>)
    requires Segmented(lines, segments)
    ensures AddDocuments(Chunks(lines, [], []), map[]) == Ok(m) <==> StreamSpelled(segments, m)
  {
    ChunksOfSegments(lines, segments, []);
    assert [] + segments == segments;
    FilledExact(segments, m);
  }
}
