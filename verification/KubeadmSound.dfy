/** What an accepted token list says about its tree: nothing is dropped, added or
    reordered, and the tree can be printed and read again. */
module KubeadmSound {
  import opened Text
  import opened Kubeadm
  import opened KubeadmLayout

  // --------------------------------------------------------------------------
  // The keys and scalars of a tree, and those written in a token

  datatype Atom = Key(key: string) | Value(text: string) | EmptyList

  function Atoms(n: Node): seq<Atom>
    decreases n, 1
  {
    match n
    case Scalar(text) => [Value(text)]
    case Sequence(items) => if items == [] then [EmptyList] else ItemsAtoms(items)
    case Mapping(entries) => EntriesAtoms(entries)
  }

  function ItemsAtoms(items: seq<Node>): seq<Atom>
    decreases items, 0
  {
    if items == [] then [] else Atoms(items[0]) + ItemsAtoms(items[1..])
  }

  function EntriesAtoms(entries: seq<Entry>): seq<Atom>
    decreases entries, 0
  {
    if entries == [] then [] else EntryAtoms(entries[0]) + EntriesAtoms(entries[1..])
  }

  function EntryAtoms(e: Entry): seq<Atom>
    decreases e
  {
    [Key(e.key)] + Atoms(e.value)
  }

  /** Without its two ends where they are one and the same quote. */
  function Unquoted(v: string): string {
    if |v| >= 2 && v[0] == v[|v| - 1] && (v[0] == '\'' || v[0] == '"') then v[1..|v| - 1] else v
  }

  /** Nothing for blank text, the empty list for `[]`, and otherwise the trimmed text. */
  function ScalarAtoms(raw: string): seq<Atom> {
    var v := Trim(raw);
    if v == "" then [] else if v == "[]" then [EmptyList] else [Value(Unquoted(v))]
  }

  /** A key and what follows its colon, or text alone. */
  function LineAtoms(s: string): seq<Atom> {
    if KeyLed(s) then [Key(s[..KeyLength(s)])] + ScalarAtoms(s[KeyLength(s) + 1..]) else ScalarAtoms(s)
  }

  /** Read off the characters of the token alone, whatever surrounds it. */
  function ContentAtoms(content: string): seq<Atom> {
    LineAtoms(if Dashed(content) then Trim(content[1..]) else content)
  }

  lemma PairAtoms(content: string)
    requires SplitPair(content).Some?
    ensures var (key, value) := SplitPair(content).value;
            LineAtoms(content) == [Key(key)] + ScalarAtoms(value)
  {
    var value := SplitPair(content).value.1;
    assert TrimLeft(value) == value;
  }

  function TokensAtoms(ts: seq<Token>): seq<Atom> {
    if ts == [] then [] else ContentAtoms(ts[0].content) + TokensAtoms(ts[1..])
  }

  /** `rest` is what remains of `ts` after tokens that carry exactly `atoms`. */
  ghost predicate Consumes(ts: seq<Token>, rest: seq<Token>, atoms: seq<Atom>) {
    |rest| <= |ts| && rest == ts[|ts| - |rest|..] && TokensAtoms(ts) == atoms + TokensAtoms(rest)
  }

  lemma ConsumesNothing(ts: seq<Token>)
    ensures Consumes(ts, ts, [])
  {
    assert [] + TokensAtoms(ts) == TokensAtoms(ts);
  }

  lemma ConsumesOne(ts: seq<Token>)
    requires ts != []
    ensures Consumes(ts, ts[1..], ContentAtoms(ts[0].content))
  {
  }

  lemma ConsumesBoth(ts: seq<Token>, mid: seq<Token>, rest: seq<Token>, first: seq<Atom>, second: seq<Atom>)
    requires Consumes(ts, mid, first) && Consumes(mid, rest, second)
    ensures Consumes(ts, rest, first + second)
  {
    Regroup(first, second, TokensAtoms(rest));
  }

  lemma EntriesAtomsCons(e: Entry, more: seq<Entry>)
    ensures EntriesAtoms([e] + more) == EntryAtoms(e) + EntriesAtoms(more)
  {
    assert ([e] + more)[1..] == more;
  }

  // --------------------------------------------------------------------------
  // Text that survives quoting and tokenizing

  predicate SafeText(s: string) {
    && OneLine(s) && '\t' !in s
    && forall i :: 0 < i < |s| && Magic(s[i]) ==> !IsSpace(s[i - 1])
  }

  ghost predicate Safe(n: Node)
    decreases n
  {
    match n
    case Scalar(text) => SafeText(text)
    case Sequence(items) => forall i :: 0 <= i < |items| ==> Safe(items[i])
    case Mapping(entries) => forall i :: 0 <= i < |entries| ==> SafeEntry(entries[i])
  }

  ghost predicate SafeEntry(e: Entry) {
    Safe(e.value)
  }

  lemma SafeSlice(s: string, i: nat, j: nat)
    requires SafeText(s) && i <= j <= |s|
    ensures SafeText(s[i..j])
  {
    var t := s[i..j];
    assert forall k :: 0 <= k < |t| ==> t[k] == s[i + k];
  }

  lemma {:induction false} SafeTrimLeft(s: string)
    requires SafeText(s)
    ensures SafeText(TrimLeft(s))
  {
    if s != "" && IsSpace(s[0]) {
      SafeSlice(s, 1, |s|);
      SafeTrimLeft(s[1..]);
    }
  }

  lemma {:induction false} SafeTrimRight(s: string)
    requires SafeText(s)
    ensures SafeText(TrimRight(s))
  {
    if s != "" && IsSpace(s[|s| - 1]) {
      SafeSlice(s, 0, |s| - 1);
      SafeTrimRight(s[..|s| - 1]);
    }
  }

  lemma SafeStrip(raw: string, item: bool)
    requires SafeText(raw) && StripScalar(raw).Ok?
    ensures var n := StripScalar(raw).value;
            Inline(n) && Printable(n, item) && Safe(n) && (raw != "" ==> ScalarAtoms(raw) == Atoms(n))
  {
    SafeTrimLeft(raw);
    SafeTrimRight(TrimLeft(raw));
    var value := Trim(raw);
    if value != "[]" && value != "" && (value[0] == '\'' || value[0] == '"') {
      SafeSlice(value, 1, |value| - 1);
    }
  }

  lemma SafeSplit(content: string)
    requires SafeText(content) && SplitPair(content).Some?
    ensures var (key, value) := SplitPair(content).value;
            && KeyText(key) && key[0] == content[0] && SafeText(value)
            && LineAtoms(content) == [Key(key)] + ScalarAtoms(value)
  {
    var n := KeyLength(content);
    SafeSlice(content, n + 1, |content|);
    SafeTrimLeft(content[n + 1..]);
    PairAtoms(content);
  }

  lemma SafeHead(content: string)
    requires SafeText(content) && Dashed(content)
    ensures match HeadOf(content)
            case Nothing => ContentAtoms(content) == []
            case Pair(key, value) =>
              KeyText(key) && SafeText(value) && ContentAtoms(content) == [Key(key)] + ScalarAtoms(value)
            case Plain(raw) => SafeText(raw) && raw != "" && ContentAtoms(content) == ScalarAtoms(raw)
            case _ => true
  {
    SafeSlice(content, 1, |content|);
    SafeTrimLeft(content[1..]);
    SafeTrimRight(TrimLeft(content[1..]));
    var raw := Trim(content[1..]);
    if SplitPair(raw).Some? {
      SafeSplit(raw);
    }
  }

  predicate SafeTokens(ts: seq<Token>) {
    forall i :: 0 <= i < |ts| ==> SafeText(ts[i].content)
  }

  ghost predicate GoodEntries(entries: seq<Entry>, item: bool) {
    && DistinctKeys(entries)
    && forall i :: 0 <= i < |entries| ==> PrintableEntry(entries[i], item && i == 0) && SafeEntry(entries[i])
  }

  ghost predicate GoodItems(items: seq<Node>) {
    forall i :: 0 <= i < |items| ==> Printable(items[i], true) && Safe(items[i])
  }

  lemma GoodEntriesGrow(entries: seq<Entry>, e: Entry, item: bool)
    requires GoodEntries(entries, item) && !HasKey(entries, e.key)
    requires PrintableEntry(e, item && entries == []) && SafeEntry(e)
    ensures GoodEntries(entries + [e], item)
  {
  }

  // --------------------------------------------------------------------------
  // Every accepted block is printable and carries the atoms of its tokens

  lemma {:induction false} BlockSound(ts: seq<Token>, indent: nat)
    requires SafeTokens(ts) && ParseBlock(ts, indent).Parsed?
    ensures var Parsed(n, rest) := ParseBlock(ts, indent);
            && Printable(n, false) && Safe(n) && Block(n)
            && Consumes(ts, rest, Atoms(n))
    decreases |ts|, 3
  {
    if Dashed(ts[0].content) {
      SequenceSound(ts, indent, []);
      var Parsed(items, rest) := ParseSequence(ts, indent, []);
      assert items[0..] == items;
    } else {
      MappingSound(ts, indent, [], false);
      var Parsed(entries, rest) := ParseMapping(ts, indent, []);
      assert entries[0..] == entries;
    }
  }

  lemma {:induction false} NestedSound(ts: seq<Token>, indent: nat, missing: SyntaxError)
    requires SafeTokens(ts) && ParseNested(ts, indent, missing).Parsed?
    ensures var Parsed(n, rest) := ParseNested(ts, indent, missing);
            && Printable(n, false) && Safe(n) && Block(n)
            && Consumes(ts, rest, Atoms(n))
    decreases |ts|, 4
  {
    BlockSound(ts, indent + 2);
  }

  /** The entries read after `entries`, and their atoms. */
  lemma {:induction false} MappingSound(ts: seq<Token>, indent: nat, entries: seq<Entry>, item: bool)
    requires SafeTokens(ts) && GoodEntries(entries, item) && ParseMapping(ts, indent, entries).Parsed?
    ensures var Parsed(all, rest) := ParseMapping(ts, indent, entries);
            && GoodEntries(all, item)
            && entries <= all
            && (ts != [] && ts[0].indent == indent && !Dashed(ts[0].content) ==> all != [])
            && Consumes(ts, rest, EntriesAtoms(all[|entries|..]))
    decreases |ts|, 1
  {
    var Parsed(all, rest) := ParseMapping(ts, indent, entries);
    if ts == [] || ts[0].indent < indent || Dashed(ts[0].content) {
      ConsumesNothing(ts);
    } else {
      EntrySound(ts, indent, entries);
      var Parsed(e, after) := ParseEntry(ts, indent, entries);
      GoodEntriesGrow(entries, e, item);
      MappingSound(after, indent, entries + [e], item);
      SuffixFrom(entries, e, all);
      EntryThenEntries(ts, after, rest, e, all[|entries + [e]|..]);
    }
  }

  lemma EntryThenEntries(ts: seq<Token>, after: seq<Token>, rest: seq<Token>, e: Entry, more: seq<Entry>)
    requires Consumes(ts, after, EntryAtoms(e)) && Consumes(after, rest, EntriesAtoms(more))
    ensures Consumes(ts, rest, EntriesAtoms([e] + more))
  {
    ConsumesBoth(ts, after, rest, EntryAtoms(e), EntriesAtoms(more));
    EntriesAtomsCons(e, more);
  }

  lemma {:induction false} EntrySound(ts: seq<Token>, indent: nat, entries: seq<Entry>)
    requires SafeTokens(ts) && ts != [] && !Dashed(ts[0].content) && ParseEntry(ts, indent, entries).Parsed?
    ensures var Parsed(e, rest) := ParseEntry(ts, indent, entries);
            && PrintableEntry(e, false) && SafeEntry(e) && !HasKey(entries, e.key)
            && Consumes(ts, rest, EntryAtoms(e))
    decreases |ts|, 0
  {
    SafeSplit(ts[0].content);
    var (key, raw) := SplitPair(ts[0].content).value;
    ConsumesOne(ts);
    if raw != "" {
      SafeStrip(raw, false);
    } else {
      NestedSound(ts[1..], indent, MissingValue);
      var Parsed(n, rest) := ParseNested(ts[1..], indent, MissingValue);
      assert [Key(key)] + [] == [Key(key)];
      ConsumesBoth(ts, ts[1..], rest, [Key(key)], Atoms(n));
    }
  }

  lemma {:induction false} SequenceSound(ts: seq<Token>, indent: nat, items: seq<Node>)
    requires SafeTokens(ts) && GoodItems(items) && ParseSequence(ts, indent, items).Parsed?
    ensures var Parsed(all, rest) := ParseSequence(ts, indent, items);
            && GoodItems(all)
            && items <= all
            && (ts != [] && ts[0].indent == indent ==> all != [])
            && Consumes(ts, rest, ItemsAtoms(all[|items|..]))
    decreases |ts|, 2
  {
    var Parsed(all, rest) := ParseSequence(ts, indent, items);
    if ts == [] || ts[0].indent < indent {
      ConsumesNothing(ts);
    } else {
      ItemSound(ts, indent);
      var Parsed(item, after) := ParseItem(ts, indent);
      SequenceSound(after, indent, items + [item]);
      SuffixFrom(items, item, all);
      ItemThenItems(ts, after, rest, item, all[|items + [item]|..]);
    }
  }

  lemma ItemThenItems(ts: seq<Token>, after: seq<Token>, rest: seq<Token>, item: Node, more: seq<Node>)
    requires Consumes(ts, after, Atoms(item)) && Consumes(after, rest, ItemsAtoms(more))
    ensures Consumes(ts, rest, ItemsAtoms([item] + more))
  {
    ConsumesBoth(ts, after, rest, Atoms(item), ItemsAtoms(more));
    ItemsAtomsCons(item, more);
  }

  lemma ItemsAtomsCons(item: Node, more: seq<Node>)
    ensures ItemsAtoms([item] + more) == Atoms(item) + ItemsAtoms(more)
  {
    assert ([item] + more)[1..] == more;
  }

  lemma {:induction false} ItemSound(ts: seq<Token>, indent: nat)
    requires SafeTokens(ts) && ts != [] && ParseItem(ts, indent).Parsed?
    ensures var Parsed(n, rest) := ParseItem(ts, indent);
            && Printable(n, true) && Safe(n)
            && Consumes(ts, rest, Atoms(n))
    decreases |ts|, 1
  {
    var content := ts[0].content;
    var below := ts[1..];
    SafeHead(content);
    match HeadOf(content) {
      case Nothing =>
        NestedSound(below, indent, EmptyItem);
        var Parsed(n, rest) := ParseNested(below, indent, EmptyItem);
        PrintableAsItem(n);
        ConsumesHead(ts, below, rest, [], Atoms(n));
        assert [] + Atoms(n) == Atoms(n);
      case Pair(key, value) =>
        ItemMappingSound(below, indent, key, value);
        var Parsed(n, rest) := ParseItemMapping(below, indent, key, value);
        ConsumesHead(ts, below, rest, [Key(key)] + ScalarAtoms(value), AtomsBelow(value, n.entries));
      case Plain(raw) =>
        SafeStrip(raw, true);
        ConsumesOne(ts);
    }
  }

  lemma ConsumesHead(ts: seq<Token>, below: seq<Token>, rest: seq<Token>, head: seq<Atom>, more: seq<Atom>)
    requires ts != [] && below == ts[1..] && ContentAtoms(ts[0].content) == head && Consumes(below, rest, more)
    ensures Consumes(ts, rest, head + more)
  {
    ConsumesOne(ts);
    ConsumesBoth(ts, below, rest, head, more);
  }

  lemma PrintableAsItem(n: Node)
    requires Printable(n, false)
    ensures Printable(n, true)
  {
    if n.Mapping? {
      forall i | 0 <= i < |n.entries| ensures PrintableEntry(n.entries[i], i == 0) {
        assert PrintableEntry(n.entries[i], false);
      }
    }
  }

  lemma {:induction false} ItemMappingSound(ts: seq<Token>, indent: nat, key: string, value: string)
    requires SafeTokens(ts) && KeyText(key) && SafeText(value)
    requires ParseItemMapping(ts, indent, key, value).Parsed?
    ensures var Parsed(n, rest) := ParseItemMapping(ts, indent, key, value);
            && n.Mapping? && n.entries != [] && Printable(n, true) && Safe(n)
            && Atoms(n) == ([Key(key)] + ScalarAtoms(value)) + AtomsBelow(value, n.entries)
            && Consumes(ts, rest, AtomsBelow(value, n.entries))
    decreases |ts|, 5
  {
    InitialSound(ts, indent, key, value);
    var Parsed(e, mid) := ParseInitial(ts, indent, key, value);
    MappingSound(mid, indent + 2, [e], true);
    var Parsed(all, rest) := ParseMapping(mid, indent + 2, [e]);
    InitialThenAll(ts, mid, rest, [Key(key)] + ScalarAtoms(value), value, e, all);
  }

  lemma InitialThenAll(
    ts: seq<Token>, mid: seq<Token>, rest: seq<Token>, head: seq<Atom>, value: string, e: Entry, all: seq<Entry>)
    requires [e] <= all && GoodEntries(all, true) && EntryAtoms(e) == head + NestedAtoms(value, e)
    requires Consumes(ts, mid, NestedAtoms(value, e)) && Consumes(mid, rest, EntriesAtoms(all[1..]))
    ensures Printable(Mapping(all), true) && Safe(Mapping(all))
    ensures Atoms(Mapping(all)) == head + AtomsBelow(value, all)
    ensures Consumes(ts, rest, AtomsBelow(value, all))
  {
    assert all == [e] + all[1..];
    InitialThenEntries(ts, mid, rest, head, NestedAtoms(value, e), e, all[1..]);
  }

  /** The atoms of an item's first value that stand below the dash. */
  function NestedAtoms(value: string, e: Entry): seq<Atom> {
    if value == "" then Atoms(e.value) else []
  }

  function AtomsBelow(value: string, entries: seq<Entry>): seq<Atom>
    requires entries != []
  {
    NestedAtoms(value, entries[0]) + EntriesAtoms(entries[1..])
  }

  lemma InitialThenEntries(
    ts: seq<Token>, mid: seq<Token>, rest: seq<Token>,
    head: seq<Atom>, nested: seq<Atom>, e: Entry, more: seq<Entry>)
    requires EntryAtoms(e) == head + nested
    requires Consumes(ts, mid, nested) && Consumes(mid, rest, EntriesAtoms(more))
    ensures EntriesAtoms([e] + more) == head + (nested + EntriesAtoms(more))
    ensures Consumes(ts, rest, nested + EntriesAtoms(more))
  {
    EntriesAtomsCons(e, more);
    Regroup(head, nested, EntriesAtoms(more));
    ConsumesBoth(ts, mid, rest, nested, EntriesAtoms(more));
  }

  lemma {:induction false} InitialSound(ts: seq<Token>, indent: nat, key: string, value: string)
    requires SafeTokens(ts) && KeyText(key) && SafeText(value)
    requires ParseInitial(ts, indent, key, value).Parsed?
    ensures var Parsed(e, rest) := ParseInitial(ts, indent, key, value);
            && GoodEntries([e], true)
            && EntryAtoms(e) == ([Key(key)] + ScalarAtoms(value)) + NestedAtoms(value, e)
            && Consumes(ts, rest, NestedAtoms(value, e))
    decreases |ts|, 4
  {
    var Parsed(e, rest) := ParseInitial(ts, indent, key, value);
    if value == "" {
      BlockSound(ts, indent + 4);
      assert [Key(key)] + ScalarAtoms(value) == [Key(key)];
      assert Consumes(ts, rest, Atoms(e.value));
      assert EntryAtoms(e) == ([Key(key)] + ScalarAtoms(value)) + Atoms(e.value);
    } else {
      SafeStrip(value, false);
      ConsumesNothing(ts);
      assert EntryAtoms(e) == ([Key(key)] + ScalarAtoms(value)) + [];
    }
  }
}
