/** The layout as lines of text: reading it back gives the tree, re-printing whatever was
    accepted changes nothing, and a stream of documents is keyed without loss. */
module KubeadmText {
  import opened Text
  import opened Kubeadm
  import opened KubeadmLayout
  import opened KubeadmSound

  function Line(t: Token): string {
    Padding(t.indent) + t.content
  }

  function Lines(ts: seq<Token>): (lines: seq<string>)
    ensures |lines| == |ts|
    ensures forall i :: 0 <= i < |ts| ==> lines[i] == Line(ts[i])
  {
    seq(|ts|, i requires 0 <= i < |ts| => Line(ts[i]))
  }

  /** The canonical text of a document. */
  function Layout(n: Node): seq<string> {
    Lines(Print(n, 0))
  }

  // --------------------------------------------------------------------------
  // Contents that a line gives back unchanged

  predicate CleanContent(c: string) {
    && c != "" && !IsSpace(c[0]) && c[0] != '#'
    && !IsSpace(c[|c| - 1])
    && OneLine(c) && '\t' !in c && !Advanced(c) && c != "---"
  }

  predicate CleanToken(t: Token) {
    t.indent % 2 == 0 && CleanContent(t.content)
  }

  predicate CleanTokens(ts: seq<Token>) {
    forall i :: 0 <= i < |ts| ==> CleanToken(ts[i])
  }

  lemma {:induction false} IndentationTrims(n: nat, content: string)
    requires content != "" && !IsSpace(content[0])
    ensures TrimLeft(Padding(n) + content) == content
    ensures Spaces(Padding(n) + content) == n
  {
    var s := Padding(n) + content;
    if n == 0 {
      assert s == content;
    } else {
      assert s[1..] == Padding(n - 1) + content;
      IndentationTrims(n - 1, content);
    }
  }

  lemma LineReads(t: Token)
    requires CleanToken(t)
    ensures Significant(TrimRight(Line(t))) && Significant(Line(t))
    ensures LineToken(Line(t)) == Ok(t)
    ensures !Separator(Line(t))
  {
    var s := Line(t);
    assert s[|s| - 1] == t.content[|t.content| - 1];
    assert TrimRight(s) == s;
    IndentationTrims(t.indent, t.content);
    TrimExact(t.content);
    assert s[t.indent..] == t.content;
    assert '\t' !in Padding(t.indent);
  }

  lemma {:induction false} LinesRead(ts: seq<Token>)
    requires CleanTokens(ts)
    ensures LineTokens(Lines(ts)) == Ok(ts)
  {
    if ts != [] {
      var last := |ts| - 1;
      LinesRead(ts[..last]);
      LineReads(ts[last]);
      assert ts == ts[..last] + [ts[last]];
      LastLineReads(Lines(ts), ts[..last], ts[last]);
    }
  }

  lemma LastLineReads(lines: seq<string>, ts: seq<Token>, t: Token)
    requires |lines| == |ts| + 1 && lines[..|ts|] == Lines(ts) && lines[|ts|] == Line(t)
    requires LineTokens(Lines(ts)) == Ok(ts)
    requires Significant(TrimRight(Line(t))) && LineToken(Line(t)) == Ok(t)
    ensures LineTokens(lines) == Ok(ts + [t])
  {
  }

  // --------------------------------------------------------------------------
  // Printed contents are clean

  lemma QuotedClean(n: Node)
    requires Inline(n) && Safe(n)
    ensures CleanContent(InlineText(n))
  {
    var s := InlineText(n);
    if n.Scalar? {
      forall i | 0 <= i < |s| && Magic(s[i]) ensures 0 < i && !IsSpace(s[i - 1]) {
        assert s[i] == n.text[i - 1];
        if i > 1 {
          assert s[i - 1] == n.text[i - 2];
        }
      }
    }
  }

  lemma KeyedClean(key: string, n: Node)
    requires KeyText(key) && Inline(n) && Safe(n)
    ensures CleanContent(key + ": " + InlineText(n))
  {
    QuotedClean(n);
    var s, c := InlineText(n), key + ": " + InlineText(n);
    assert KeyCharacter(key[0]);
    KeyHarmless(key);
    assert c == (key + ": ") + s;
    CleanAfterPrefix(key + ": ", s);
    assert c[|c| - 1] == s[|s| - 1];
  }

  predicate Harmless(c: char) {
    !Magic(c) && c != '\t' && !LineBreak(c)
  }

  lemma KeyHarmless(key: string)
    requires KeyText(key)
    ensures forall i :: 0 <= i < |key + ": "| ==> Harmless((key + ": ")[i])
  {
    forall i | 0 <= i < |key + ": "| ensures Harmless((key + ": ")[i]) {
      assert i < |key| ==> KeyCharacter(key[i]);
    }
  }

  lemma CleanAfterPrefix(prefix: string, s: string)
    requires CleanContent(s)
    requires forall i :: 0 <= i < |prefix| ==> Harmless(prefix[i])
    ensures !Advanced(prefix + s) && '\t' !in prefix + s && OneLine(prefix + s)
  {
    var c := prefix + s;
    forall i | 0 <= i < |c| && Magic(c[i]) ensures 0 < i && !IsSpace(c[i - 1]) {
      assert i >= |prefix| && c[i] == s[i - |prefix|];
      assert c[i - 1] == s[i - |prefix| - 1];
    }
    assert c[|c| - 1] == s[|s| - 1];
  }

  lemma BareKeyClean(key: string)
    requires KeyText(key)
    ensures CleanContent(key + ":")
  {
    var c := key + ":";
    assert KeyCharacter(key[0]);
    forall i | 0 <= i < |c| ensures Harmless(c[i]) {
      assert i < |key| ==> KeyCharacter(key[i]);
    }
    assert c[|c| - 1] == ':';
  }

  lemma DashedClean(c: string)
    requires CleanContent(c)
    ensures CleanContent("- " + c)
  {
    var d := "- " + c;
    CleanAfterPrefix("- ", c);
    assert d[|d| - 1] == c[|c| - 1];
    assert d[1] == ' ';
  }

  lemma CleanSum(a: seq<Token>, b: seq<Token>)
    requires CleanTokens(a) && CleanTokens(b)
    ensures CleanTokens(a + b)
  {
  }

  lemma {:induction false} PrintClean(n: Node, indent: nat, item: bool)
    requires Printable(n, item) && Safe(n) && indent % 2 == 0
    ensures CleanTokens(Print(n, indent))
    decreases n, 1
  {
    match n {
      case Scalar(_) =>
      case Sequence(items) => PrintItemsClean(items, indent);
      case Mapping(entries) =>
        assert forall i :: 0 <= i < |entries| ==> PrintableEntry(entries[i], item && i == 0) && SafeEntry(entries[i]);
        PrintEntriesClean(entries, indent, item);
    }
  }

  lemma {:induction false} PrintEntriesClean(entries: seq<Entry>, indent: nat, item: bool)
    requires indent % 2 == 0
    requires forall i :: 0 <= i < |entries| ==> PrintableEntry(entries[i], item && i == 0) && SafeEntry(entries[i])
    ensures CleanTokens(PrintEntries(entries, indent))
    decreases entries, 0
  {
    if entries != [] {
      PrintEntryClean(entries[0], indent, item);
      var others := entries[1..];
      forall i | 0 <= i < |others| ensures PrintableEntry(others[i], false) && SafeEntry(others[i]) {
        assert others[i] == entries[i + 1];
      }
      PrintEntriesClean(entries[1..], indent, false);
      CleanSum(PrintEntry(entries[0], indent), PrintEntries(entries[1..], indent));
    }
  }

  lemma {:induction false} PrintEntryClean(e: Entry, indent: nat, dashed: bool)
    requires PrintableEntry(e, dashed) && SafeEntry(e) && indent % 2 == 0
    ensures CleanTokens(PrintEntry(e, indent))
    decreases e
  {
    if Inline(e.value) {
      KeyedClean(e.key, e.value);
    } else {
      BareKeyClean(e.key);
      PrintClean(e.value, indent + 2, false);
      CleanSum([Token(indent, e.key + ":")], Print(e.value, indent + 2));
    }
  }

  lemma {:induction false} PrintItemsClean(items: seq<Node>, indent: nat)
    requires indent % 2 == 0
    requires forall i :: 0 <= i < |items| ==> Printable(items[i], true) && Safe(items[i])
    ensures CleanTokens(PrintItems(items, indent))
    decreases items, 0
  {
    if items != [] {
      PrintItemClean(items[0], indent);
      PrintItemsClean(items[1..], indent);
      CleanSum(PrintItem(items[0], indent), PrintItems(items[1..], indent));
    }
  }

  lemma {:induction false} PrintItemClean(n: Node, indent: nat)
    requires Printable(n, true) && Safe(n) && indent % 2 == 0
    ensures CleanTokens(PrintItem(n, indent))
    decreases n, 2
  {
    if Inline(n) {
      QuotedClean(n);
      DashedClean(InlineText(n));
    } else if n.Mapping? {
      PrintClean(n, indent + 2, true);
      var ts := PrintEntries(n.entries, indent + 2);
      assert CleanToken(ts[0]);
      DashedClean(ts[0].content);
      var others := ts[1..];
      forall i | 0 <= i < |others| ensures CleanToken(others[i]) {
        assert others[i] == ts[i + 1];
      }
      CleanSum([Token(indent, "- " + ts[0].content)], ts[1..]);
    } else {
      assert CleanContent("-");
      PrintClean(n, indent + 2, true);
      CleanSum([Token(indent, "-")], Print(n, indent + 2));
    }
  }

  // --------------------------------------------------------------------------
  // Text round trips

  ghost predicate Document(n: Node) {
    n.Mapping? && Printable(n, false) && Safe(n)
  }

  /** The canonical text of a document, and the reading of one. */
  function LayoutText(n: Node): string {
    Unlines(Layout(n))
  }

  function ParseText(text: string): Result<Node, SyntaxError> {
    ParseDocument(SplitLines(text))
  }

  lemma LayoutParses(n: Node)
    requires Document(n)
    ensures ParseDocument(Layout(n)) == Ok(n) && AllOneLine(Layout(n))
  {
    PrintClean(n, 0, false);
    LinesRead(Print(n, 0));
    LinesOneLine(Print(n, 0));
    BlockRoundTrip(n, 0, []);
    assert Print(n, 0) + [] == Print(n, 0);
  }

  lemma LinesOneLine(ts: seq<Token>)
    requires CleanTokens(ts)
    ensures AllOneLine(Lines(ts))
  {
    forall i | 0 <= i < |ts| ensures OneLine(Lines(ts)[i]) {
      assert CleanToken(ts[i]);
    }
  }

  /** Every document tree is what its own text parses to. */
  lemma TextRoundTrip(n: Node)
    requires Document(n)
    ensures ParseText(LayoutText(n)) == Ok(n)
  {
    LayoutParses(n);
    SplitUnlines(Layout(n));
  }

  lemma {:induction false} TrimRightPrefix(s: string)
    ensures TrimRight(s) <= s
  {
    if s != "" && IsSpace(s[|s| - 1]) {
      TrimRightPrefix(s[..|s| - 1]);
    }
  }

  lemma {:induction false} AcceptedTokensSafe(lines: seq<string>)
    requires AllOneLine(lines) && LineTokens(lines).Ok?
    ensures SafeTokens(LineTokens(lines).value)
  {
    if lines != [] {
      var last := |lines| - 1;
      AcceptedTokensSafe(lines[..last]);
      var line := TrimRight(lines[last]);
      TrimRightPrefix(lines[last]);
      if Significant(line) {
        var content := line[Spaces(line)..];
        assert OneLine(lines[last]) && OneLine(line) && '\t' !in content;
        assert SafeText(content);
      }
    }
  }

  lemma AcceptedLinesSound(lines: seq<string>)
    requires AllOneLine(lines) && ParseDocument(lines).Ok?
    ensures var n := ParseDocument(lines).value;
            Document(n) && Atoms(n) == TokensAtoms(Tokens(lines).value)
  {
    var ts := Tokens(lines).value;
    AcceptedTokensSafe(lines);
    BlockSound(ts, 0);
    var n := ParseDocument(lines).value;
    assert Atoms(n) + [] == Atoms(n);
  }

  /** An accepted text drops nothing: the keys and scalars of its tree, in order, are
      those of its lines; and printing the tree and reading that again changes nothing. */
  lemma AcceptedTextReprints(text: string)
    requires ParseText(text).Ok?
    ensures var n := ParseText(text).value;
            && Document(n)
            && Atoms(n) == TokensAtoms(Tokens(SplitLines(text)).value)
            && ParseText(LayoutText(n)) == Ok(n)
  {
    SplitLinesOneLine(text);
    AcceptedLinesSound(SplitLines(text));
    TextRoundTrip(ParseText(text).value);
  }

  /** Of all trees exactly the document trees are read back from their text. */
  lemma TextExact(n: Node)
    ensures ParseText(LayoutText(n)) == Ok(n) <==> Document(n)
  {
    if Document(n) { TextRoundTrip(n); }
    if ParseText(LayoutText(n)) == Ok(n) { AcceptedTextReprints(LayoutText(n)); }
  }

  /** A mapping of one key to one scalar. */
  function Single(key: string, text: string): Node {
    Mapping([Entry(key, Scalar(text))])
  }

  /** A key that starts with a dash is lost at the top of a document, though the same mapping
      is printable as a sequence item. */
  lemma DashedKeyMisread(key: string, text: string)
    requires KeyText(key) && key[0] == '-' && '\n' !in text
    ensures ParseText(LayoutText(Single(key, text))) != Ok(Single(key, text))
    ensures Printable(Single(key, text), true)
  {
    TextExact(Single(key, text));
    assert !PrintableEntry(Single(key, text).entries[0], false);
  }

  /** A scalar is lost exactly when it holds a tab, a line break of `splitlines`, or one of
      `&`, `*` and `!` after white space. */
  lemma ScalarExact(key: string, text: string)
    requires KeyText(key) && key[0] != '-'
    ensures ParseText(LayoutText(Single(key, text))) == Ok(Single(key, text)) <==> SafeText(text)
  {
    SingleDocument(key, text);
    TextExact(Single(key, text));
  }

  lemma SingleDocument(key: string, text: string)
    requires KeyText(key) && key[0] != '-'
    ensures Document(Single(key, text)) <==> SafeText(text)
  {
    var n, scalar := Single(key, text), Scalar(text);
    assert n.entries[0].value == scalar;
    assert Safe(scalar) <==> SafeText(text);
    assert SafeEntry(n.entries[0]) <==> Safe(scalar);
    assert Safe(n) <==> SafeEntry(n.entries[0]);
    if SafeText(text) {
      assert Printable(scalar, false);
      assert PrintableEntry(n.entries[0], false);
    }
  }

  predicate Misread(n: Node) {
    ParseText(LayoutText(n)) != Ok(n)
  }

  /** Trees of all these kinds exist; the last scalar holds a carriage return. */
  lemma SomeTextsMisread()
    ensures Misread(Single("-a", "x")) && Misread(Single("k", " &x")) && Misread(Single("k", "a\rb"))
  {
    DashedKeyMisread("-a", "x");
    var magic, broken := " &x", "a\rb";
    assert Magic(magic[1]) && IsSpace(magic[0]);
    ScalarExact("k", magic);
    assert LineBreak(broken[1]);
    ScalarExact("k", broken);
  }

  // --------------------------------------------------------------------------
  // Streams of documents

  function Stream(documents: seq<Node>): seq<string> {
    if documents == [] then []
    else if |documents| == 1 then Layout(documents[0])
    else Layout(documents[0]) + (["---"] + Stream(documents[1..]))
  }

  function Layouts(documents: seq<Node>): (r: seq<seq<string>>)
    ensures |r| == |documents|
  {
    if documents == [] then [] else [Layout(documents[0])] + Layouts(documents[1..])
  }

  lemma {:induction false} ChunksSkip(
    lines: seq<string>, more: seq<string>, current: seq<string>, chunks: seq<seq<string>>)
    requires forall i :: 0 <= i < |lines| ==> !Separator(lines[i])
    ensures Chunks(lines + more, current, chunks) == Chunks(more, current + lines, chunks)
  {
    if lines == [] {
      assert lines + more == more && current + lines == current;
    } else {
      TailOfSum(lines, more);
      Shift(current, lines);
      ChunksSkip(lines[1..], more, current + [lines[0]], chunks);
    }
  }

  lemma LayoutIsChunk(n: Node)
    requires Document(n)
    ensures HasContent(Layout(n))
    ensures forall i :: 0 <= i < |Layout(n)| ==> !Separator(Layout(n)[i])
  {
    PrintClean(n, 0, false);
    var ts := Print(n, 0);
    forall i | 0 <= i < |ts| ensures Significant(Lines(ts)[i]) && !Separator(Lines(ts)[i]) {
      LineReads(ts[i]);
    }
  }

  lemma {:induction false} StreamChunks(documents: seq<Node>, chunks: seq<seq<string>>)
    requires forall i :: 0 <= i < |documents| ==> Document(documents[i])
    ensures Chunks(Stream(documents), [], chunks) == chunks + Layouts(documents)
  {
    if documents == [] {
      assert chunks + [] == chunks;
    } else {
      var first := Layout(documents[0]);
      LayoutIsChunk(documents[0]);
      if |documents| == 1 {
        ChunksSkip(first, [], [], chunks);
        assert first + [] == first && [] + first == first;
        assert Layouts(documents) == [first];
      } else {
        ChunkThenSeparator(first, Stream(documents[1..]), chunks);
        StreamChunks(documents[1..], chunks + [first]);
        Regroup(chunks, [first], Layouts(documents[1..]));
      }
    }
  }

  lemma ChunkThenSeparator(first: seq<string>, rest: seq<string>, chunks: seq<seq<string>>)
    requires HasContent(first)
    requires forall i :: 0 <= i < |first| ==> !Separator(first[i])
    ensures Chunks(first + (["---"] + rest), [], chunks) == Chunks(rest, [], chunks + [first])
  {
    var more := ["---"] + rest;
    ChunksSkip(first, more, [], chunks);
    assert [] + first == first;
    TrimExact("---");
    assert Separator(more[0]);
    assert more[1..] == rest;
    assert Close(first, chunks) == chunks + [first];
  }

  predicate OwnKind(n: Node, k: string) {
    n.Mapping? && Kind(n) == Some(k)
  }

  /** `m` holds exactly the documents, each under its own kind. */
  ghost predicate Keyed(m: map<string, Node>, documents: seq<Node>) {
    && (forall i :: 0 <= i < |documents| ==> documents[i] in m.Values)
    && |m| == |documents|
    && forall k :: k in m ==> m[k] in documents && OwnKind(m[k], k)
  }

  ghost predicate DistinctKinds(documents: seq<Node>) {
    && (forall i :: 0 <= i < |documents| ==> Document(documents[i]) && Kind(documents[i]).Some?)
    && forall i, j :: 0 <= i < j < |documents| ==> Kind(documents[i]) != Kind(documents[j])
  }

  lemma ValuesGrow(m: map<string, Node>, m': map<string, Node>, k: string, n: Node, x: Node)
    requires k !in m && m' == m[k := n]
    ensures x in m.Values || x == n ==> x in m'.Values
  {
    if x in m.Values {
      var j :| j in m && m[j] == x;
      assert m'[j] == x;
    }
    assert m'[k] == n;
  }

  lemma KeyedGrows(m: map<string, Node>, documents: seq<Node>, n: Node)
    requires Keyed(m, documents) && n.Mapping? && Kind(n).Some? && Kind(n).value !in m
    ensures Keyed(m[Kind(n).value := n], documents + [n])
  {
    KeyAdded(m, documents, n, Kind(n).value);
  }

  lemma KindsGrow(m: map<string, Node>, m': map<string, Node>, documents: seq<Node>, n: Node, k: string, j: string)
    requires Keyed(m, documents) && OwnKind(n, k) && m' == m[k := n] && j in m'
    ensures m'[j] in documents + [n] && OwnKind(m'[j], j)
  {
    if j == k { assert (documents + [n])[|documents|] == n; }
  }

  lemma KeyAdded(m: map<string, Node>, documents: seq<Node>, n: Node, k: string)
    requires Keyed(m, documents) && OwnKind(n, k) && k !in m
    ensures Keyed(m[k := n], documents + [n])
  {
    var m', all := m[k := n], documents + [n];
    assert m'.Keys == m.Keys + {k};
    forall i | 0 <= i < |all| ensures all[i] in m'.Values { ValuesGrow(m, m', k, n, all[i]); }
    forall j | j in m' ensures m'[j] in all && OwnKind(m'[j], j) { KindsGrow(m, m', documents, n, k, j); }
  }

  lemma KindIsNew(documents: seq<Node>, done: seq<Node>, m: map<string, Node>)
    requires documents != [] && Keyed(m, done) && DistinctKinds(done + documents)
    ensures Document(documents[0]) && Kind(documents[0]).Some? && Kind(documents[0]).value !in m
  {
    assert (done + documents)[|done|] == documents[0];
    forall i | 0 <= i < |done| ensures done[i].Mapping? && Kind(done[i]) != Kind(documents[0]) {
      assert (done + documents)[i] == done[i];
    }
  }

  lemma {:induction false} LayoutsCollect(documents: seq<Node>, done: seq<Node>, m: map<string, Node>)
    requires Keyed(m, done) && DistinctKinds(done + documents)
    ensures var r := AddDocuments(Layouts(documents), m); r.Ok? && Keyed(r.value, done + documents)
  {
    if documents == [] {
      assert done + documents == done;
    } else {
      var n := documents[0];
      KindIsNew(documents, done, m);
      LayoutParses(n);
      KeyedGrows(m, done, n);
      Shift(done, documents);
      LayoutsCollect(documents[1..], done + [n], m[Kind(n).value := n]);
    }
  }

  lemma {:induction false} StreamOneLine(documents: seq<Node>)
    requires forall i :: 0 <= i < |documents| ==> Document(documents[i])
    ensures AllOneLine(Stream(documents))
  {
    if documents != [] {
      LayoutParses(documents[0]);
      if |documents| > 1 { StreamOneLine(documents[1..]); }
    }
  }

  /** A chunk is read as its lines, although the reader joins them and splits them again. */
  lemma ChunkReadsBack(chunk: seq<string>)
    requires chunk != [] && AllOneLine(chunk)
    ensures ParseText(Join(chunk, '\n')) == ParseDocument(chunk)
  {
    SplitJoined(chunk);
  }

  /** `parse_documents`. */
  function ReadStream(text: string): Result<map<string, Node>, SyntaxError> {
    AddDocuments(Chunks(SplitLines(text), [], []), map[])
  }

  /** Documents of distinct kinds, printed with separators between them, are all read
      back, each under its kind. */
  lemma DocumentsRoundTrip(documents: seq<Node>)
    requires DistinctKinds(documents)
    ensures var r := ReadStream(Unlines(Stream(documents)));
            r.Ok? && Keyed(r.value, documents)
  {
    StreamOneLine(documents);
    SplitUnlines(Stream(documents));
    StreamChunks(documents, []);
    assert [] + Layouts(documents) == Layouts(documents);
    assert [] + documents == documents;
    LayoutsCollect(documents, [], map[]);
  }

  function Documents(chunks: seq<seq<string>>): Option<seq<Node>> {
    if chunks == [] then Some([])
    else
      match (ParseDocument(chunks[0]), Documents(chunks[1..]))
      case (Ok(n), Some(rest)) => Some([n] + rest)
      case _ => None
  }

  /** Whatever stream is accepted: each chunk is one document, none is lost to another,
      and the result maps exactly their kinds to them. */
  lemma {:induction false} AcceptedDocumentsKeyed(chunks: seq<seq<string>>, done: seq<Node>, m: map<string, Node>)
    requires Keyed(m, done) && AddDocuments(chunks, m).Ok?
    ensures Documents(chunks).Some?
    ensures Keyed(AddDocuments(chunks, m).value, done + Documents(chunks).value)
  {
    if chunks == [] {
      assert done + [] == done;
    } else {
      var n := ParseDocument(chunks[0]).value;
      KeyedGrows(m, done, n);
      AcceptedDocumentsKeyed(chunks[1..], done + [n], m[Kind(n).value := n]);
      Regroup(done, [n], Documents(chunks[1..]).value);
    }
  }
}
