/** The canonical two-space layout of a parsed tree, and the parser as its inverse. */
module KubeadmLayout {
  import opened Text
  import opened Kubeadm

  // --------------------------------------------------------------------------
  // Printing: double quotes around every scalar, the first entry of a mapping item
  // beside its dash

  predicate Inline(n: Node) {
    n.Scalar? || n == Sequence([])
  }

  function InlineText(n: Node): string
    requires Inline(n)
  {
    match n
    case Scalar(text) => "\"" + text + "\""
    case Sequence(_) => "[]"
  }

  predicate Block(n: Node) {
    (n.Sequence? && n.items != []) || (n.Mapping? && n.entries != [])
  }

  function Print(n: Node, indent: nat): (ts: seq<Token>)
    ensures Block(n) ==> ts != [] && ts[0].indent == indent
    decreases n, 1
  {
    match n
    case Scalar(_) => []
    case Sequence(items) => PrintItems(items, indent)
    case Mapping(entries) => PrintEntries(entries, indent)
  }

  function PrintEntries(entries: seq<Entry>, indent: nat): (ts: seq<Token>)
    ensures entries != [] ==> ts != [] && ts[0].indent == indent
    decreases entries, 0
  {
    if entries == [] then [] else PrintEntry(entries[0], indent) + PrintEntries(entries[1..], indent)
  }

  function PrintEntry(e: Entry, indent: nat): (ts: seq<Token>)
    ensures ts != [] && ts[0].indent == indent
    decreases e
  {
    if Inline(e.value) then [Token(indent, e.key + ": " + InlineText(e.value))]
    else [Token(indent, e.key + ":")] + Print(e.value, indent + 2)
  }

  function PrintItems(items: seq<Node>, indent: nat): (ts: seq<Token>)
    ensures items != [] ==> ts != [] && ts[0].indent == indent
    decreases items, 0
  {
    if items == [] then [] else PrintItem(items[0], indent) + PrintItems(items[1..], indent)
  }

  function PrintItem(n: Node, indent: nat): (ts: seq<Token>)
    ensures ts != [] && ts[0].indent == indent
    decreases n, 2
  {
    if Inline(n) then [Token(indent, "- " + InlineText(n))]
    else if n.Mapping? && n.entries != [] then
      var ts := PrintEntries(n.entries, indent + 2);
      [Token(indent, "- " + ts[0].content)] + ts[1..]
    else [Token(indent, "-")] + Print(n, indent + 2)
  }

  // --------------------------------------------------------------------------
  // The trees the layout can express

  predicate DistinctKeys(entries: seq<Entry>) {
    forall i, j :: 0 <= i < j < |entries| ==> entries[i].key != entries[j].key
  }

  /** Non-empty mappings of distinct keys. Only the key beside the dash of a sequence
      item may itself start with a dash. */
  ghost predicate Printable(n: Node, item: bool)
    decreases n
  {
    match n
    case Scalar(text) => '\n' !in text
    case Sequence(items) => forall i :: 0 <= i < |items| ==> Printable(items[i], true)
    case Mapping(entries) =>
      && entries != []
      && DistinctKeys(entries)
      && forall i :: 0 <= i < |entries| ==> PrintableEntry(entries[i], item && i == 0)
  }

  ghost predicate PrintableEntry(e: Entry, dashed: bool) {
    && KeyText(e.key)
    && (e.key[0] == '-' ==> dashed)
    && Printable(e.value, false)
  }

  /** The tokens after a block at `indent` do not continue it. */
  predicate Ends(ts: seq<Token>, indent: nat) {
    ts == [] || ts[0].indent < indent
  }

  // --------------------------------------------------------------------------
  // Reading back single tokens

  lemma InlineReads(n: Node)
    requires Inline(n)
    ensures InlineText(n) != "" && StripScalar(InlineText(n)) == Ok(n)
    ensures InlineText(n)[0] == '"' || InlineText(n)[0] == '['
    ensures InlineText(n)[|InlineText(n)| - 1] == '"' || InlineText(n)[|InlineText(n)| - 1] == ']'
    ensures Trim(InlineText(n)) == InlineText(n)
    ensures Printable(n, false) ==> '\n' !in InlineText(n)
  {
    var s := InlineText(n);
    TrimExact(s);
    if n.Scalar? {
      assert s[0] == '"' && s[1..|s| - 1] == n.text;
      assert "[]"[0] == '[';
    }
  }

  lemma KeyedPairReads(key: string, rest: string, value: string)
    requires KeyText(key)
    requires '\n' !in value && TrimLeft(rest) == value
    ensures KeyLed(key + ":" + rest) && SplitPair(key + ":" + rest) == Some((key, value))
  {
    var content := key + ":" + rest;
    KeyRead(content, key, rest);
  }

  lemma KeyStarts(key: string)
    requires KeyText(key)
    ensures !IsSpace(key[0])
  {
  }

  lemma SpaceTrims(s: string)
    requires s != "" && !IsSpace(s[0])
    ensures TrimLeft(" " + s) == s
  {
    assert (" " + s)[1..] == s;
    assert TrimLeft(s) == s;
  }

  lemma ValuePairReads(key: string, s: string)
    requires KeyText(key) && s != "" && '\n' !in s
    requires !IsSpace(s[0]) && !IsSpace(s[|s| - 1])
    ensures var content := key + ": " + s;
            && SplitPair(content) == Some((key, s)) && KeyLed(content)
            && Trim(content) == content && content[0] == key[0] && !IsSpace(content[0])
  {
    var content, rest := key + ": " + s, " " + s;
    KeyStarts(key);
    SpaceTrims(s);
    assert content == key + ":" + rest;
    KeyedPairReads(key, rest, s);
    TrimExact(content);
  }

  lemma BarePairReads(key: string)
    requires KeyText(key)
    ensures var content := key + ":";
            && SplitPair(content) == Some((key, "")) && KeyLed(content)
            && Trim(content) == content && content[0] == key[0] && !IsSpace(content[0])
  {
    var content := key + ":";
    KeyStarts(key);
    KeyedPairReads(key, "", "");
    assert content == key + ":" + "";
    TrimExact(content);
  }

  function EntryValue(e: Entry): string {
    if Inline(e.value) then InlineText(e.value) else ""
  }

  /** The content of the first token of an entry, read as a pair. */
  lemma EntryHeadReads(e: Entry, indent: nat)
    requires KeyText(e.key) && Printable(e.value, false)
    ensures var content := PrintEntry(e, indent)[0].content;
            && SplitPair(content) == Some((e.key, EntryValue(e))) && KeyLed(content)
            && Trim(content) == content && content[0] == e.key[0] && !IsSpace(content[0])
  {
    if Inline(e.value) {
      InlineReads(e.value);
      ValuePairReads(e.key, InlineText(e.value));
    } else {
      BarePairReads(e.key);
    }
  }

  lemma DashReads(content: string)
    requires content != "" && Trim(content) == content && !IsSpace(content[0])
    ensures Dashed("- " + content) && Trim(("- " + content)[1..]) == content
  {
    var raw := ("- " + content)[1..];
    assert raw == " " + content && raw[1..] == content;
    assert TrimLeft(raw) == TrimLeft(content);
    assert TrimLeft(content) == content;
  }

  lemma BareDashReads()
    ensures Dashed("-") && HeadOf("-") == Nothing
  {
    assert "-"[1..] == "";
  }

  // --------------------------------------------------------------------------
  // Parsing inverts printing

  /** A printed block, followed by anything that ends it, parses to its tree and
      leaves exactly what followed. */
  lemma {:induction false} BlockRoundTrip(n: Node, indent: nat, rest: seq<Token>)
    requires Printable(n, false) && Block(n) && Ends(rest, indent)
    ensures ParseBlock(Print(n, indent) + rest, indent) == Parsed(n, rest)
    decreases n, 1
  {
    var ts := Print(n, indent) + rest;
    match n {
      case Sequence(items) =>
        assert Printable(items[0], true);
        assert PrintItems(items, indent)[0] == PrintItem(items[0], indent)[0];
        ItemHeadDashed(items[0], indent);
        ItemsRoundTrip([], items, indent, rest);
        assert [] + items == items;
        BlockOfItems(ts, indent, items, rest);
      case Mapping(entries) =>
        assert PrintableEntry(entries[0], false);
        assert PrintEntries(entries, indent)[0] == PrintEntry(entries[0], indent)[0];
        EntryHeadReads(entries[0], indent);
        EntriesRoundTrip([], entries, indent, rest);
        assert [] + entries == entries;
        BlockOfEntries(ts, indent, entries, rest);
    }
  }

  lemma BlockOfItems(ts: seq<Token>, indent: nat, items: seq<Node>, rest: seq<Token>)
    requires ts != [] && ts[0].indent == indent && Dashed(ts[0].content)
    requires ParseSequence(ts, indent, []) == Parsed(items, rest)
    ensures ParseBlock(ts, indent) == Parsed(Sequence(items), rest)
  {
  }

  lemma BlockOfEntries(ts: seq<Token>, indent: nat, entries: seq<Entry>, rest: seq<Token>)
    requires ts != [] && ts[0].indent == indent && !Dashed(ts[0].content)
    requires ParseMapping(ts, indent, []) == Parsed(entries, rest)
    ensures ParseBlock(ts, indent) == Parsed(Mapping(entries), rest)
  {
  }

  lemma {:induction false} EntriesRoundTrip(done: seq<Entry>, entries: seq<Entry>, indent: nat, rest: seq<Token>)
    requires DistinctKeys(done + entries) && Ends(rest, indent)
    requires forall i :: 0 <= i < |entries| ==> PrintableEntry(entries[i], false)
    ensures ParseMapping(PrintEntries(entries, indent) + rest, indent, done) == Parsed(done + entries, rest)
    decreases entries, 0
  {
    if entries == [] {
      assert PrintEntries(entries, indent) + rest == rest;
      assert done + entries == done;
    } else {
      var e := entries[0];
      assert PrintableEntry(e, false);
      var after := PrintEntries(entries[1..], indent) + rest;
      var ts := PrintEntries(entries, indent) + rest;
      Regroup(PrintEntry(e, indent), PrintEntries(entries[1..], indent), rest);
      FirstKeyIsNew(done, entries);
      EntryRoundTrip(done, e, indent, after, false);
      TailOfSum(PrintEntry(e, indent), after);
      EntryHeadReads(e, indent);
      MappingStep(ts, indent, done, e, after);
      Shift(done, entries);
      EntriesRoundTrip(done + [e], entries[1..], indent, rest);
    }
  }

  lemma FirstKeyIsNew(done: seq<Entry>, entries: seq<Entry>)
    requires entries != [] && DistinctKeys(done + entries)
    ensures forall i :: 0 <= i < |done| ==> done[i].key != entries[0].key
  {
    assert (done + entries)[|done|] == entries[0];
    assert forall i :: 0 <= i < |done| ==> (done + entries)[i] == done[i];
  }

  lemma MappingStep(ts: seq<Token>, indent: nat, done: seq<Entry>, e: Entry, after: seq<Token>)
    requires ts != [] && ts[0].indent == indent && !Dashed(ts[0].content)
    requires ParseEntry(ts, indent, done) == Parsed(e, after)
    ensures ParseMapping(ts, indent, done) == ParseMapping(after, indent, done + [e])
  {
  }

  lemma {:induction false} EntryRoundTrip(done: seq<Entry>, e: Entry, indent: nat, after: seq<Token>, dashed: bool)
    requires PrintableEntry(e, dashed)
    requires Ends(after, indent + 1)
    requires forall i :: 0 <= i < |done| ==> done[i].key != e.key
    ensures ParseEntry(PrintEntry(e, indent) + after, indent, done) == Parsed(e, after)
    decreases e
  {
    var ts := PrintEntry(e, indent) + after;
    assert ts[0] == PrintEntry(e, indent)[0];
    EntryHeadReads(e, indent);
    if Inline(e.value) {
      InlineReads(e.value);
      assert ts[1..] == after;
      EntryOfScalar(ts, indent, done, e, EntryValue(e));
    } else {
      assert ts[1..] == Print(e.value, indent + 2) + after;
      BlockRoundTrip(e.value, indent + 2, after);
      EntryOfBlock(ts, indent, done, e, after);
    }
  }

  lemma EntryOfScalar(ts: seq<Token>, indent: nat, done: seq<Entry>, e: Entry, raw: string)
    requires ts != [] && SplitPair(ts[0].content) == Some((e.key, raw)) && !HasKey(done, e.key)
    requires raw != "" && StripScalar(raw) == Ok(e.value)
    ensures ParseEntry(ts, indent, done) == Parsed(e, ts[1..])
  {
  }

  lemma EntryOfBlock(ts: seq<Token>, indent: nat, done: seq<Entry>, e: Entry, rest: seq<Token>)
    requires ts != [] && SplitPair(ts[0].content) == Some((e.key, "")) && !HasKey(done, e.key)
    requires ParseBlock(ts[1..], indent + 2) == Parsed(e.value, rest)
    ensures ParseEntry(ts, indent, done) == Parsed(e, rest)
  {
    assert ts[1..] != [] && ts[1..][0].indent == indent + 2;
  }

  lemma ItemHeadDashed(n: Node, indent: nat)
    requires Printable(n, true)
    ensures Dashed(PrintItem(n, indent)[0].content)
  {
  }

  lemma {:induction false} ItemsRoundTrip(done: seq<Node>, items: seq<Node>, indent: nat, rest: seq<Token>)
    requires Ends(rest, indent)
    requires forall i :: 0 <= i < |items| ==> Printable(items[i], true)
    ensures ParseSequence(PrintItems(items, indent) + rest, indent, done) == Parsed(done + items, rest)
    decreases items, 0
  {
    if items == [] {
      assert PrintItems(items, indent) + rest == rest;
      assert done + items == done;
    } else {
      var after := PrintItems(items[1..], indent) + rest;
      var ts := PrintItems(items, indent) + rest;
      Regroup(PrintItem(items[0], indent), PrintItems(items[1..], indent), rest);
      assert Printable(items[0], true);
      ItemRoundTrip(items[0], indent, after);
      SequenceStep(ts, indent, done, items[0], after);
      Shift(done, items);
      ItemsRoundTrip(done + [items[0]], items[1..], indent, rest);
    }
  }

  lemma SequenceStep(ts: seq<Token>, indent: nat, done: seq<Node>, item: Node, after: seq<Token>)
    requires ts != [] && ts[0].indent == indent && ParseItem(ts, indent) == Parsed(item, after)
    ensures ParseSequence(ts, indent, done) == ParseSequence(after, indent, done + [item])
  {
  }

  lemma {:induction false} ItemRoundTrip(n: Node, indent: nat, after: seq<Token>)
    requires Printable(n, true) && Ends(after, indent + 1)
    ensures ParseItem(PrintItem(n, indent) + after, indent) == Parsed(n, after)
    decreases n, 2
  {
    if Inline(n) {
      InlineItemReads(n, indent, after);
    } else if n.Sequence? {
      SequenceItemPrints(n);
      BlockRoundTrip(n, indent + 2, after);
      SequenceItemReads(n, indent, after);
    } else {
      MappingItemRoundTrip(n, indent, after);
    }
  }

  lemma InlineItemReads(n: Node, indent: nat, after: seq<Token>)
    requires Inline(n) && Printable(n, true) && Ends(after, indent + 1)
    ensures ParseItem(PrintItem(n, indent) + after, indent) == Parsed(n, after)
  {
    var ts, s := PrintItem(n, indent) + after, InlineText(n);
    InlineReads(n);
    PlainHead(n);
    assert ts[0] == Token(indent, "- " + s) && ts[1..] == after;
    ItemHeaded(ts, indent, Plain(s));
  }

  lemma PlainHead(n: Node)
    requires Inline(n)
    ensures var content := "- " + InlineText(n);
            Dashed(content) && HeadOf(content) == Plain(InlineText(n))
  {
    InlineReads(n);
    DashReads(InlineText(n));
    assert KeyLength(InlineText(n)) == 0;
  }

  lemma SequenceItemReads(n: Node, indent: nat, after: seq<Token>)
    requires n.Sequence? && n.items != []
    requires ParseBlock(Print(n, indent + 2) + after, indent + 2) == Parsed(n, after)
    ensures ParseItem(PrintItem(n, indent) + after, indent) == Parsed(n, after)
  {
    var ts := PrintItem(n, indent) + after;
    BareDashReads();
    assert ts[0] == Token(indent, "-");
    assert ts[1..] == Print(n, indent + 2) + after;
    assert ts[1..][0].indent == indent + 2;
    assert ParseHeaded(Nothing, ts[1..], indent) == Parsed(n, after);
    ItemHeaded(ts, indent, Nothing);
  }

  lemma SequenceItemPrints(n: Node)
    requires Printable(n, true) && n.Sequence?
    ensures Printable(n, false)
  {
  }

  /** A printed mapping item is its printed entries with the first one moved to the dash. */
  lemma MappingItemTokens(n: Node, indent: nat, after: seq<Token>)
    requires n.Mapping? && n.entries != []
    ensures var ts := PrintItem(n, indent) + after;
            var first := PrintEntry(n.entries[0], indent + 2);
            && ts[0] == Token(indent, "- " + first[0].content)
            && ts[1..] == first[1..] + (PrintEntries(n.entries[1..], indent + 2) + after)
  {
    var first, more := PrintEntry(n.entries[0], indent + 2), PrintEntries(n.entries[1..], indent + 2);
    TailOfSum(first, more);
    TailOfSum([Token(indent, "- " + first[0].content)], first[1..] + more);
    TailOfSum(PrintItem(n, indent), after);
    Regroup(first[1..], more, after);
  }

  lemma {:induction false} MappingItemRoundTrip(n: Node, indent: nat, after: seq<Token>)
    requires Printable(n, true) && n.Mapping? && Ends(after, indent + 1)
    ensures ParseItem(PrintItem(n, indent) + after, indent) == Parsed(n, after)
    decreases n, 1
  {
    var ts := PrintItem(n, indent) + after;
    var e, others := n.entries[0], n.entries[1..];
    var below := PrintEntries(others, indent + 2) + after;
    assert PrintableEntry(e, true);
    MappingItemTokens(n, indent, after);
    MappingItemHead(e, indent + 2);
    InitialRoundTrip(e, indent, ts[1..], below);
    forall i | 0 <= i < |others| ensures PrintableEntry(others[i], false) {
      assert others[i] == n.entries[i + 1];
    }
    assert [e] + others == n.entries;
    EntriesRoundTrip([e], others, indent + 2, after);
    ItemOfEntries(ts[1..], indent, e, EntryValue(e), below, n.entries, after);
    ItemHeaded(ts, indent, Pair(e.key, EntryValue(e)));
  }

  lemma MappingItemHead(e: Entry, indent: nat)
    requires PrintableEntry(e, true)
    ensures var content := "- " + PrintEntry(e, indent)[0].content;
            Dashed(content) && HeadOf(content) == Pair(e.key, EntryValue(e))
  {
    EntryHeadReads(e, indent);
    DashReads(PrintEntry(e, indent)[0].content);
  }

  lemma {:induction false} InitialRoundTrip(e: Entry, indent: nat, ts: seq<Token>, below: seq<Token>)
    requires PrintableEntry(e, true) && Ends(below, indent + 3)
    requires ts == PrintEntry(e, indent + 2)[1..] + below
    ensures ParseInitial(ts, indent, e.key, EntryValue(e)) == Parsed(e, below)
    decreases e
  {
    if Inline(e.value) {
      InlineReads(e.value);
      assert ts == below;
    } else {
      assert ts == Print(e.value, indent + 4) + below;
      BlockRoundTrip(e.value, indent + 4, below);
      assert ts[0].indent == indent + 4;
    }
  }

  lemma ItemHeaded(ts: seq<Token>, indent: nat, head: ItemHead)
    requires ts != [] && ts[0].indent == indent && Dashed(ts[0].content) && HeadOf(ts[0].content) == head
    ensures ParseItem(ts, indent) == ParseHeaded(head, ts[1..], indent)
  {
  }

  lemma ItemOfEntries(
    ts: seq<Token>, indent: nat, e: Entry, value: string, below: seq<Token>, entries: seq<Entry>, rest: seq<Token>)
    requires ParseInitial(ts, indent, e.key, value) == Parsed(e, below)
    requires ParseMapping(below, indent + 2, [e]) == Parsed(entries, rest)
    ensures ParseHeaded(Pair(e.key, value), ts, indent) == Parsed(Mapping(entries), rest)
  {
  }
}
