/** The YAML subset as a grammar: which characters spell a scalar, a pair and a line, which
    tokens spell a block, and the parser as its exact reader. */
module KubeadmGrammar {
  import opened Text
  import opened Kubeadm
  import opened KubeadmLayout

  // --------------------------------------------------------------------------
  // Scalars

  predicate Quote(c: char) {
    c == '\'' || c == '"'
  }

  /** Text that stands for itself without quotes. */
  predicate Bare(text: string) {
    && text != "" && text != "[]" && !Quote(text[0])
    && forall i :: 0 < i < |text| ==> !(text[i - 1] == ' ' && text[i] == '#')
  }

  predicate Writes(v: string, n: Node) {
    match n
    case Scalar(text) => v == "'" + text + "'" || v == "\"" + text + "\"" || (v == text && Bare(text))
    case Sequence(items) => items == [] && v == "[]"
    case Mapping(_) => false
  }

  ghost predicate ScalarSpelled(raw: string, n: Node) {
    exists v :: Stripped(raw, v) && Writes(v, n)
  }

  lemma CommentFree(s: string)
    ensures Contains(s, " #") <==> exists i :: 0 < i < |s| && s[i - 1] == ' ' && s[i] == '#'
  {
    if Contains(s, " #") {
      var i :| 0 <= i <= |s| && " #" <= s[i..];
      assert s[i..][0] == ' ' && s[i..][1] == '#';
      var j := i + 1;
      assert s[j - 1] == ' ' && s[j] == '#';
    }
    if i :| 0 < i < |s| && s[i - 1] == ' ' && s[i] == '#' {
      assert s[i - 1..][..2] == " #";
      assert " #" <= s[i - 1..];
    }
  }

  lemma UnquotedIs(v: string, text: string)
    ensures v == "'" + text + "'" || v == "\"" + text + "\"" <==>
            |v| >= 2 && Quote(v[0]) && v[|v| - 1] == v[0] && text == v[1..|v| - 1]
  {
    if |v| >= 2 { assert v == [v[0]] + v[1..|v| - 1] + [v[|v| - 1]]; }
  }

  /** What a scalar is read as: quotes are taken off, `[]` is the empty list, and any other
      text is itself. */
  lemma ScalarReads(raw: string, n: Node)
    ensures StripScalar(raw) == Ok(n) <==> ScalarSpelled(raw, n)
  {
    var v := Trim(raw);
    StripExact(raw, v);
    CommentFree(v);
    if n.Scalar? { UnquotedIs(v, n.text); }
    assert StripScalar(raw) == Ok(n) <==> Writes(v, n);
    if w :| Stripped(raw, w) && Writes(w, n) { StripExact(raw, w); }
  }

  // --------------------------------------------------------------------------
  // Pairs and item heads

  ghost predicate PairSpelled(content: string, key: string, value: string) {
    exists pad :: PairWith(content, key, pad, value)
  }

  predicate PairWith(content: string, key: string, pad: string, value: string) {
    && content == key + ":" + pad + value
    && KeyText(key) && Blank(pad)
    && (value != "" ==> !IsSpace(value[0])) && '\n' !in value
  }

  lemma PairWritten(content: string, key: string, pad: string, value: string)
    requires PairWith(content, key, pad, value)
    ensures SplitPair(content) == Some((key, value))
  {
    var tail := pad + value;
    assert content == key + ":" + tail;
    KeyRead(content, key, tail);
    assert tail[..|pad|] == pad && tail[|pad|..] == value;
    TrimLeftFrom(tail, |pad|);
    assert TrimLeft(value) == value;
  }

  lemma PairRead(content: string, key: string, value: string)
    requires SplitPair(content) == Some((key, value))
    ensures PairSpelled(content, key, value)
  {
    var n := KeyLength(content);
    var tail := content[n + 1..];
    var k := TrimLeftBlank(tail);
    CutPair(content, n, tail, k);
    assert PairWith(content, key, tail[..k], value);
  }

  lemma CutPair(content: string, n: nat, tail: string, k: nat)
    requires n < |content| && content[n] == ':' && tail == content[n + 1..] && k <= |tail|
    ensures content == content[..n] + ":" + tail[..k] + tail[k..]
  {
    assert tail == tail[..k] + tail[k..];
    assert content == content[..n] + ":" + tail;
    Regroup(content[..n] + ":", tail[..k], tail[k..]);
  }

  lemma PairReads(content: string, key: string, value: string)
    ensures SplitPair(content) == Some((key, value)) <==> PairSpelled(content, key, value)
  {
    if SplitPair(content) == Some((key, value)) { PairRead(content, key, value); }
    if pad :| PairWith(content, key, pad, value) { PairWritten(content, key, pad, value); }
  }

  ghost predicate Keyed(raw: string) {
    exists key, tail :: KeyText(key) && raw == key + ":" + tail
  }

  lemma KeyedExact(raw: string)
    ensures KeyLed(raw) <==> Keyed(raw)
  {
    if key, tail :| KeyText(key) && raw == key + ":" + tail { KeyRead(raw, key, tail); }
    if KeyLed(raw) {
      var n := KeyLength(raw);
      assert raw == raw[..n] + ":" + raw[n + 1..];
    }
  }

  ghost predicate HeadSpelled(content: string, head: ItemHead) {
    exists raw :: content != "" && content[0] == '-' && Stripped(content[1..], raw) && HeadIs(raw, head)
  }

  ghost predicate HeadIs(raw: string, head: ItemHead) {
    match head
    case Nothing => raw == ""
    case Pair(key, value) => PairSpelled(raw, key, value)
    case BadPair => Keyed(raw) && forall key, value :: !PairSpelled(raw, key, value)
    case Plain(text) => raw == text != "" && !Keyed(raw)
  }

  lemma HeadIsExact(content: string, head: ItemHead)
    requires Dashed(content)
    ensures HeadOf(content) == head <==> HeadIs(Trim(content[1..]), head)
  {
    var raw := Trim(content[1..]);
    KeyedExact(raw);
    forall key, value ensures SplitPair(raw) == Some((key, value)) <==> PairSpelled(raw, key, value) {
      PairReads(raw, key, value);
    }
    if SplitPair(raw).Some? {
      var (key, value) := SplitPair(raw).value;
      assert PairSpelled(raw, key, value);
    }
  }

  lemma HeadReads(content: string, head: ItemHead)
    ensures Dashed(content) && HeadOf(content) == head <==> HeadSpelled(content, head)
  {
    if Dashed(content) {
      HeadIsExact(content, head);
      StripExact(content[1..], Trim(content[1..]));
    }
    if raw :| content != "" && content[0] == '-' && Stripped(content[1..], raw) && HeadIs(raw, head) {
      StripExact(content[1..], raw);
    }
  }

  // --------------------------------------------------------------------------
  // Blocks

  /** These tokens, and no others, are the block of `n`. */
  ghost predicate BlockSpelled(ts: seq<Token>, indent: nat, n: Node)
    decreases n, 1
  {
    match n
    case Scalar(_) => false
    case Sequence(items) => items != [] && ItemsSpelled(ts, indent, items)
    case Mapping(entries) => entries != [] && DistinctKeys(entries) && EntriesSpelled(ts, indent, entries)
  }

  ghost predicate EntriesSpelled(ts: seq<Token>, indent: nat, entries: seq<Entry>)
    decreases entries, 0
  {
    if entries == [] then ts == []
    else
      exists k: nat ::
        k <= |ts| && EntrySpelled(ts[..k], indent, entries[0]) && EntriesSpelled(ts[k..], indent, entries[1..])
  }

  /** A line with the key, and the value on it or as a block two columns in. */
  ghost predicate EntrySpelled(ts: seq<Token>, indent: nat, e: Entry)
    decreases e
  {
    && ts != [] && ts[0].indent == indent && !Dashed(ts[0].content)
    && exists text :: PairSpelled(ts[0].content, e.key, text) && ValueSpelled(ts[1..], text, indent + 2, e.value)
  }

  ghost predicate ValueSpelled(ts: seq<Token>, text: string, indent: nat, n: Node)
    decreases n, 2
  {
    if text == "" then BlockSpelled(ts, indent, n) else ts == [] && ScalarSpelled(text, n)
  }

  ghost predicate ItemsSpelled(ts: seq<Token>, indent: nat, items: seq<Node>)
    decreases items, 0
  {
    if items == [] then ts == []
    else
      exists k: nat ::
        k <= |ts| && ItemSpelled(ts[..k], indent, items[0]) && ItemsSpelled(ts[k..], indent, items[1..])
  }

  ghost predicate ItemSpelled(ts: seq<Token>, indent: nat, n: Node)
    decreases n, 4
  {
    && ts != [] && ts[0].indent == indent
    && exists head :: HeadSpelled(ts[0].content, head) && BelowSpelled(head, ts[1..], indent, n)
  }

  /** A block two columns in; or a mapping with its first entry beside the dash, the block of
      that entry four columns in and the other entries two; or a scalar alone. */
  ghost predicate BelowSpelled(head: ItemHead, ts: seq<Token>, indent: nat, n: Node)
    decreases n, 3
  {
    match head
    case Nothing => BlockSpelled(ts, indent + 2, n)
    case Pair(key, text) =>
      && n.Mapping? && n.entries != [] && DistinctKeys(n.entries) && n.entries[0].key == key
      && (exists k: nat :: k <= |ts| && FirstSpelled(ts, text, indent, n.entries, k))
    case BadPair => false
    case Plain(text) => ts == [] && ScalarSpelled(text, n)
  }

  ghost predicate FirstSpelled(ts: seq<Token>, text: string, indent: nat, entries: seq<Entry>, k: nat)
    requires entries != [] && k <= |ts|
    decreases entries, 1
  {
    ValueSpelled(ts[..k], text, indent + 4, entries[0].value) && EntriesSpelled(ts[k..], indent + 2, entries[1..])
  }

  // --------------------------------------------------------------------------
  // What is parsed was spelled

  lemma EntriesJoin(first: seq<Token>, more: seq<Token>, indent: nat, e: Entry, entries: seq<Entry>)
    requires EntrySpelled(first, indent, e) && EntriesSpelled(more, indent, entries)
    ensures EntriesSpelled(first + more, indent, [e] + entries)
  {
    var ts, k := first + more, |first|;
    assert ts[..k] == first && ts[k..] == more && ([e] + entries)[1..] == entries;
  }

  lemma ItemsJoin(first: seq<Token>, more: seq<Token>, indent: nat, n: Node, items: seq<Node>)
    requires ItemSpelled(first, indent, n) && ItemsSpelled(more, indent, items)
    ensures ItemsSpelled(first + more, indent, [n] + items)
  {
    var ts, k := first + more, |first|;
    assert ts[..k] == first && ts[k..] == more && ([n] + items)[1..] == items;
  }

  lemma {:induction false} BlockParsed(ts: seq<Token>, indent: nat) returns (front: seq<Token>)
    requires ParseBlock(ts, indent).Parsed?
    ensures var Parsed(n, rest) := ParseBlock(ts, indent);
            ts == front + rest && BlockSpelled(front, indent, n)
    decreases |ts|, 3
  {
    if Dashed(ts[0].content) {
      front := SequenceParsed(ts, indent, []);
      var Parsed(items, rest) := ParseSequence(ts, indent, []);
      assert items[0..] == items;
    } else {
      front := MappingParsed(ts, indent, []);
      var Parsed(entries, rest) := ParseMapping(ts, indent, []);
      assert entries[0..] == entries;
    }
  }

  lemma {:induction false} MappingParsed(
    ts: seq<Token>, indent: nat, entries: seq<Entry>) returns (front: seq<Token>)
    requires DistinctKeys(entries) && ParseMapping(ts, indent, entries).Parsed?
    ensures var Parsed(all, rest) := ParseMapping(ts, indent, entries);
            && ts == front + rest && entries <= all && DistinctKeys(all)
            && EntriesSpelled(front, indent, all[|entries|..])
            && (front == [] ==> all == entries)
    decreases |ts|, 1
  {
    var Parsed(all, rest) := ParseMapping(ts, indent, entries);
    if ts == [] || ts[0].indent < indent || Dashed(ts[0].content) {
      front := [];
    } else {
      var first := EntryParsed(ts, indent, entries);
      var Parsed(e, after) := ParseEntry(ts, indent, entries);
      var more := MappingParsed(after, indent, entries + [e]);
      SuffixFrom(entries, e, all);
      EntriesJoin(first, more, indent, e, all[|entries + [e]|..]);
      front := first + more;
      Regroup(first, more, rest);
    }
  }

  lemma {:induction false} EntryParsed(ts: seq<Token>, indent: nat, entries: seq<Entry>) returns (front: seq<Token>)
    requires ts != [] && ts[0].indent == indent && !Dashed(ts[0].content)
    requires ParseEntry(ts, indent, entries).Parsed?
    ensures var Parsed(e, rest) := ParseEntry(ts, indent, entries);
            ts == front + rest && EntrySpelled(front, indent, e) && !HasKey(entries, e.key)
    decreases |ts|, 0
  {
    var (key, text) := SplitPair(ts[0].content).value;
    var Parsed(e, rest) := ParseEntry(ts, indent, entries);
    PairReads(ts[0].content, key, text);
    var below := [];
    if text == "" {
      below := BlockParsed(ts[1..], indent + 2);
    } else {
      ScalarReads(text, e.value);
    }
    front := [ts[0]] + below;
    assert front[1..] == below;
  }

  lemma {:induction false} SequenceParsed(ts: seq<Token>, indent: nat, items: seq<Node>) returns (front: seq<Token>)
    requires ParseSequence(ts, indent, items).Parsed?
    ensures var Parsed(all, rest) := ParseSequence(ts, indent, items);
            && ts == front + rest && items <= all
            && ItemsSpelled(front, indent, all[|items|..])
            && (front == [] ==> all == items)
    decreases |ts|, 2
  {
    var Parsed(all, rest) := ParseSequence(ts, indent, items);
    if ts == [] || ts[0].indent < indent {
      front := [];
    } else {
      var first := ItemParsed(ts, indent);
      var Parsed(item, after) := ParseItem(ts, indent);
      var more := SequenceParsed(after, indent, items + [item]);
      SuffixFrom(items, item, all);
      ItemsJoin(first, more, indent, item, all[|items + [item]|..]);
      front := first + more;
      Regroup(first, more, rest);
    }
  }

  lemma {:induction false} ItemParsed(ts: seq<Token>, indent: nat) returns (front: seq<Token>)
    requires ts != [] && ParseItem(ts, indent).Parsed?
    ensures var Parsed(n, rest) := ParseItem(ts, indent);
            ts == front + rest && ItemSpelled(front, indent, n)
    decreases |ts|, 1
  {
    var head := HeadOf(ts[0].content);
    ItemHeaded(ts, indent, head);
    var below := HeadedParsed(head, ts[1..], indent);
    var Parsed(n, rest) := ParseHeaded(head, ts[1..], indent);
    front := [ts[0]] + below;
    ItemOf(ts, head, below, n, rest);
  }

  lemma ItemOf(ts: seq<Token>, head: ItemHead, below: seq<Token>, n: Node, rest: seq<Token>)
    requires ts != [] && Dashed(ts[0].content) && HeadOf(ts[0].content) == head
    requires ts[1..] == below + rest && BelowSpelled(head, below, ts[0].indent, n)
    ensures ts == [ts[0]] + below + rest && ItemSpelled([ts[0]] + below, ts[0].indent, n)
  {
    HeadReads(ts[0].content, head);
    assert ([ts[0]] + below)[1..] == below;
    assert ts == [ts[0]] + ts[1..];
    Regroup([ts[0]], below, rest);
  }

  lemma {:induction false} HeadedParsed(head: ItemHead, ts: seq<Token>, indent: nat) returns (front: seq<Token>)
    requires ParseHeaded(head, ts, indent).Parsed?
    ensures var Parsed(n, rest) := ParseHeaded(head, ts, indent);
            ts == front + rest && BelowSpelled(head, front, indent, n)
    decreases |ts|, 6
  {
    var Parsed(n, rest) := ParseHeaded(head, ts, indent);
    match head {
      case Nothing =>
        front := BlockParsed(ts, indent + 2);
      case Pair(key, text) =>
        front := ItemMappingParsed(ts, indent, key, text);
      case Plain(raw) =>
        ScalarReads(raw, n);
        front := [];
    }
  }

  lemma {:induction false} ItemMappingParsed(
    ts: seq<Token>, indent: nat, key: string, text: string) returns (front: seq<Token>)
    requires ParseItemMapping(ts, indent, key, text).Parsed?
    ensures var Parsed(n, rest) := ParseItemMapping(ts, indent, key, text);
            ts == front + rest && BelowSpelled(Pair(key, text), front, indent, n)
    decreases |ts|, 5
  {
    var Parsed(n, rest) := ParseItemMapping(ts, indent, key, text);
    var first := InitialParsed(ts, indent, key, text);
    var Parsed(e, mid) := ParseInitial(ts, indent, key, text);
    var more := MappingParsed(mid, indent + 2, [e]);
    front := first + more;
    Regroup(first, more, rest);
    assert front[..|first|] == first && front[|first|..] == more;
    assert n.entries[0] == e;
    assert FirstSpelled(front, text, indent, n.entries, |first|);
  }

  lemma {:induction false} InitialParsed(
    ts: seq<Token>, indent: nat, key: string, text: string) returns (front: seq<Token>)
    requires ParseInitial(ts, indent, key, text).Parsed?
    ensures var Parsed(e, rest) := ParseInitial(ts, indent, key, text);
            ts == front + rest && e.key == key && ValueSpelled(front, text, indent + 4, e.value)
    decreases |ts|, 4
  {
    var Parsed(e, rest) := ParseInitial(ts, indent, key, text);
    if text == "" {
      front := BlockParsed(ts, indent + 4);
    } else {
      ScalarReads(text, e.value);
      front := [];
    }
  }

  // --------------------------------------------------------------------------
  // What is spelled is parsed

  lemma EntriesHead(ts: seq<Token>, indent: nat, entries: seq<Entry>)
    requires EntriesSpelled(ts, indent, entries)
    ensures ts == [] <==> entries == []
    ensures ts != [] ==> ts[0].indent == indent && !Dashed(ts[0].content)
  {
    if entries != [] {
      var k: nat :|
        k <= |ts| && EntrySpelled(ts[..k], indent, entries[0]) && EntriesSpelled(ts[k..], indent, entries[1..]);
      assert ts[0] == ts[..k][0];
    }
  }

  lemma ItemsHead(ts: seq<Token>, indent: nat, items: seq<Node>)
    requires ItemsSpelled(ts, indent, items)
    ensures ts == [] <==> items == []
    ensures ts != [] ==> ts[0].indent == indent && Dashed(ts[0].content)
  {
    if items != [] {
      var k: nat :|
        k <= |ts| && ItemSpelled(ts[..k], indent, items[0]) && ItemsSpelled(ts[k..], indent, items[1..]);
      assert ts[0] == ts[..k][0];
      var head :| HeadSpelled(ts[..k][0].content, head) && BelowSpelled(head, ts[..k][1..], indent, items[0]);
      HeadReads(ts[0].content, head);
    }
  }

  /** A spelled block, followed by anything that ends it, parses to its tree and leaves
      exactly what followed. */
  lemma {:induction false} BlockRead(front: seq<Token>, indent: nat, n: Node, rest: seq<Token>)
    requires BlockSpelled(front, indent, n) && Ends(rest, indent)
    ensures ParseBlock(front + rest, indent) == Parsed(n, rest)
    decreases n, 1
  {
    match n {
      case Sequence(items) =>
        ItemsHead(front, indent, items);
        ItemsRead([], items, front, indent, rest);
        assert [] + items == items;
        BlockOfItems(front + rest, indent, items, rest);
      case Mapping(entries) =>
        EntriesHead(front, indent, entries);
        assert [] + entries == entries;
        EntriesRead([], entries, front, indent, rest);
        BlockOfEntries(front + rest, indent, entries, rest);
    }
  }

  lemma {:induction false} EntriesRead(
    done: seq<Entry>, entries: seq<Entry>, front: seq<Token>, indent: nat, rest: seq<Token>)
    requires EntriesSpelled(front, indent, entries) && DistinctKeys(done + entries) && Ends(rest, indent)
    ensures ParseMapping(front + rest, indent, done) == Parsed(done + entries, rest)
    decreases entries, 0
  {
    if entries == [] {
      assert front + rest == rest;
      assert done + entries == done;
    } else {
      var k: nat :|
        && k <= |front| && EntrySpelled(front[..k], indent, entries[0])
        && EntriesSpelled(front[k..], indent, entries[1..]);
      var e, first, more := entries[0], front[..k], front[k..];
      assert front == first + more;
      Regroup(first, more, rest);
      FirstKeyIsNew(done, entries);
      EntriesHead(more, indent, entries[1..]);
      EntryRead(done, e, first, indent, more + rest);
      TailOfSum(first, more + rest);
      MappingStep(front + rest, indent, done, e, more + rest);
      Shift(done, entries);
      EntriesRead(done + [e], entries[1..], more, indent, rest);
    }
  }

  lemma {:induction false} EntryRead(
    done: seq<Entry>, e: Entry, front: seq<Token>, indent: nat, after: seq<Token>)
    requires EntrySpelled(front, indent, e) && !HasKey(done, e.key) && Ends(after, indent + 1)
    ensures ParseEntry(front + after, indent, done) == Parsed(e, after)
    decreases e
  {
    var ts := front + after;
    var text :| PairSpelled(front[0].content, e.key, text) && ValueSpelled(front[1..], text, indent + 2, e.value);
    PairReads(front[0].content, e.key, text);
    TailOfSum(front, after);
    if text == "" {
      BlockRead(front[1..], indent + 2, e.value, after);
      EntryOfBlock(ts, indent, done, e, after);
    } else {
      ScalarReads(text, e.value);
      assert [] + after == after;
      EntryOfScalar(ts, indent, done, e, text);
    }
  }

  lemma {:induction false} ItemsRead(
    done: seq<Node>, items: seq<Node>, front: seq<Token>, indent: nat, rest: seq<Token>)
    requires ItemsSpelled(front, indent, items) && Ends(rest, indent)
    ensures ParseSequence(front + rest, indent, done) == Parsed(done + items, rest)
    decreases items, 0
  {
    if items == [] {
      assert front + rest == rest;
      assert done + items == done;
    } else {
      var k: nat :|
        k <= |front| && ItemSpelled(front[..k], indent, items[0]) && ItemsSpelled(front[k..], indent, items[1..]);
      var item, first, more := items[0], front[..k], front[k..];
      assert front == first + more;
      Regroup(first, more, rest);
      ItemsHead(more, indent, items[1..]);
      ItemRead(item, first, indent, more + rest);
      TailOfSum(first, more + rest);
      SequenceStep(front + rest, indent, done, item, more + rest);
      Shift(done, items);
      ItemsRead(done + [item], items[1..], more, indent, rest);
    }
  }

  lemma {:induction false} ItemRead(n: Node, front: seq<Token>, indent: nat, after: seq<Token>)
    requires ItemSpelled(front, indent, n) && Ends(after, indent + 1)
    ensures ParseItem(front + after, indent) == Parsed(n, after)
    decreases n, 4
  {
    var head :| HeadSpelled(front[0].content, head) && BelowSpelled(head, front[1..], indent, n);
    HeadReads(front[0].content, head);
    TailOfSum(front, after);
    BelowRead(head, n, front[1..], indent, after);
    ItemHeaded(front + after, indent, head);
  }

  lemma {:induction false} BelowRead(head: ItemHead, n: Node, ts: seq<Token>, indent: nat, after: seq<Token>)
    requires BelowSpelled(head, ts, indent, n) && Ends(after, indent + 1)
    ensures ParseHeaded(head, ts + after, indent) == Parsed(n, after)
    decreases n, 3
  {
    match head {
      case Nothing =>
        BlockRead(ts, indent + 2, n, after);
      case Pair(key, text) =>
        ItemMappingRead(key, text, n, ts, indent, after);
      case Plain(text) =>
        ScalarReads(text, n);
        assert ts + after == after;
    }
  }

  lemma {:induction false} ItemMappingRead(
    key: string, text: string, n: Node, ts: seq<Token>, indent: nat, after: seq<Token>)
    requires BelowSpelled(Pair(key, text), ts, indent, n) && Ends(after, indent + 1)
    ensures ParseItemMapping(ts + after, indent, key, text) == Parsed(n, after)
    decreases n, 2
  {
    var entries := n.entries;
    var k: nat :| k <= |ts| && FirstSpelled(ts, text, indent, entries, k);
    var first, more := ts[..k], ts[k..];
    assert ts == first + more;
    Regroup(first, more, after);
    EntriesHead(more, indent + 2, entries[1..]);
    InitialRead(entries[0], text, first, indent, more + after);
    assert [entries[0]] + entries[1..] == entries;
    EntriesRead([entries[0]], entries[1..], more, indent + 2, after);
  }

  lemma {:induction false} InitialRead(
    e: Entry, text: string, front: seq<Token>, indent: nat, after: seq<Token>)
    requires ValueSpelled(front, text, indent + 4, e.value) && Ends(after, indent + 3)
    ensures ParseInitial(front + after, indent, e.key, text) == Parsed(e, after)
    decreases e
  {
    if text == "" {
      BlockRead(front, indent + 4, e.value, after);
    } else {
      ScalarReads(text, e.value);
      assert front + after == after;
    }
  }

  /** Exactly the spelled token lists are read whole, and to the tree they spell. */
  lemma BlockExact(ts: seq<Token>, indent: nat, n: Node)
    ensures ParseBlock(ts, indent) == Parsed(n, []) <==> BlockSpelled(ts, indent, n)
  {
    assert ts + [] == ts;
    if BlockSpelled(ts, indent, n) { BlockRead(ts, indent, n, []); }
    if ParseBlock(ts, indent) == Parsed(n, []) {
      var front := BlockParsed(ts, indent);
      assert front + [] == front;
    }
  }
}
