/** The strict YAML subset of scripts/validate_kubeadm_config.py: tokens, the recursive
    parser over indentation, and the methods that walk a token list by index. */
module Kubeadm {
  import opened Text

  datatype Token = Token(indent: nat, content: string)

  /** A parsed value; a mapping keeps the insertion order of its keys. */
  datatype Node =
    | Scalar(text: string)
    | Sequence(items: seq<Node>)
    | Mapping(entries: seq<Entry>)

  datatype Entry = Entry(key: string, value: Node)

  datatype SyntaxError =
    | EmptyScalar | UnterminatedQuote | InlineComment
    | Tabs | OddIndentation | AdvancedFeature | EmptyDocument
    | UnsupportedMapping | DuplicateKey | MissingValue
    | UnexpectedIndentation | SequenceIndentation | EmptyItem | NestedIndentation | NestedUnderScalar
    | NotOneMapping | NoScalarKind | DuplicateKind

  // --------------------------------------------------------------------------
  // Scalars and pairs

  predicate Contains(s: string, part: string) {
    exists i :: 0 <= i <= |s| && part <= s[i..]
  }

  /** `_strip_scalar`. */
  function StripScalar(raw: string): Result<Node, SyntaxError> {
    var value := Trim(raw);
    if value == "[]" then Ok(Sequence([]))
    else if value == "" then Err(EmptyScalar)
    else if value[0] == '\'' || value[0] == '"' then
      if |value| < 2 || value[|value| - 1] != value[0] then Err(UnterminatedQuote)
      else Ok(Scalar(value[1..|value| - 1]))
    else if Contains(value, " #") then Err(InlineComment)
    else Ok(Scalar(value))
  }

  /** A key and a colon at the start: `re.match(r"[A-Za-z0-9_.-]+:", s)`. */
  predicate KeyLed(s: string) {
    var n := KeyLength(s);
    0 < n < |s| && s[n] == ':'
  }

  /** `_split_pair`; the value group cannot hold a line feed. */
  function SplitPair(content: string): Option<(string, string)> {
    if !KeyLed(content) then None
    else
      var n := KeyLength(content);
      var value := TrimLeft(content[n + 1..]);
      if '\n' in value then None else Some((content[..n], value))
  }

  // --------------------------------------------------------------------------
  // The parser

  datatype Parsed<+T> = Parsed(value: T, rest: seq<Token>) | Failed(error: SyntaxError)

  predicate Dashed(content: string) {
    content != "" && content[0] == '-'
  }

  predicate HasKey(entries: seq<Entry>, key: string) {
    exists i :: 0 <= i < |entries| && entries[i].key == key
  }

  /** `_parse_block`, on the tokens that are still to be read. */
  function ParseBlock(ts: seq<Token>, indent: nat): (r: Parsed<Node>)
    ensures r.Parsed? ==> |r.rest| < |ts|
    decreases |ts|, 3
  {
    if ts == [] || ts[0].indent != indent then Failed(UnexpectedIndentation)
    else if Dashed(ts[0].content) then
      match ParseSequence(ts, indent, [])
      case Parsed(items, rest) => Parsed(Sequence(items), rest)
      case Failed(e) => Failed(e)
    else
      match ParseMapping(ts, indent, [])
      case Parsed(entries, rest) => Parsed(Mapping(entries), rest)
      case Failed(e) => Failed(e)
  }

  /** The value of a key that has nothing after its colon, or of a bare dash. */
  function ParseNested(ts: seq<Token>, indent: nat, missing: SyntaxError): (r: Parsed<Node>)
    ensures r.Parsed? ==> |r.rest| < |ts|
    decreases |ts|, 4
  {
    if ts == [] || ts[0].indent <= indent then Failed(missing) else ParseBlock(ts, indent + 2)
  }

  /** `_parse_mapping`, with the entries collected so far. */
  function ParseMapping(ts: seq<Token>, indent: nat, entries: seq<Entry>): (r: Parsed<seq<Entry>>)
    ensures r.Parsed? ==> |r.rest| <= |ts|
    ensures r.Parsed? && ts != [] && ts[0].indent == indent && !Dashed(ts[0].content) ==> |r.rest| < |ts|
    decreases |ts|, 1
  {
    if ts == [] || ts[0].indent < indent then Parsed(entries, ts)
    else if ts[0].indent > indent then Failed(UnexpectedIndentation)
    else if Dashed(ts[0].content) then Parsed(entries, ts)
    else
      match ParseEntry(ts, indent, entries)
      case Failed(e) => Failed(e)
      case Parsed(entry, rest) => ParseMapping(rest, indent, entries + [entry])
  }

  /** One mapping entry: the body of the loop of `_parse_mapping`. */
  function ParseEntry(ts: seq<Token>, indent: nat, entries: seq<Entry>): (r: Parsed<Entry>)
    requires ts != []
    ensures r.Parsed? ==> |r.rest| < |ts|
    decreases |ts|, 0
  {
    match SplitPair(ts[0].content)
    case None => Failed(UnsupportedMapping)
    case Some((key, raw)) =>
      if HasKey(entries, key) then Failed(DuplicateKey)
      else if raw != "" then
        match StripScalar(raw) {
          case Ok(value) => Parsed(Entry(key, value), ts[1..])
          case Err(e) => Failed(e)
        }
      else
        match ParseNested(ts[1..], indent, MissingValue)
        case Parsed(value, rest) => Parsed(Entry(key, value), rest)
        case Failed(e) => Failed(e)
  }

  /** What follows the dash of a sequence item. */
  datatype ItemHead = Nothing | Pair(key: string, value: string) | BadPair | Plain(raw: string)

  function HeadOf(content: string): ItemHead
    requires Dashed(content)
  {
    var raw := Trim(content[1..]);
    if raw == "" then Nothing
    else if KeyLed(raw) then
      match SplitPair(raw) {
        case None => BadPair
        case Some((key, value)) => Pair(key, value)
      }
    else Plain(raw)
  }

  /** One sequence item: the body of the loop of `_parse_sequence`. */
  function ParseItem(ts: seq<Token>, indent: nat): (r: Parsed<Node>)
    requires ts != []
    ensures r.Parsed? ==> |r.rest| < |ts|
    decreases |ts|, 1
  {
    if ts[0].indent != indent || !Dashed(ts[0].content) then Failed(SequenceIndentation)
    else ParseHeaded(HeadOf(ts[0].content), ts[1..], indent)
  }

  /** The item with this head, whose tokens below the dash are `ts`. */
  function ParseHeaded(head: ItemHead, ts: seq<Token>, indent: nat): (r: Parsed<Node>)
    ensures r.Parsed? ==> |r.rest| <= |ts|
    decreases |ts|, 6
  {
    match head
    case Nothing => ParseNested(ts, indent, EmptyItem)
    case BadPair => Failed(UnsupportedMapping)
    case Pair(key, value) => ParseItemMapping(ts, indent, key, value)
    case Plain(raw) => ParsePlain(ts, indent, raw)
  }

  /** A scalar item, which nothing may be nested under. */
  function ParsePlain(ts: seq<Token>, indent: nat, raw: string): Parsed<Node> {
    match StripScalar(raw)
    case Err(e) => Failed(e)
    case Ok(item) => if ts != [] && ts[0].indent > indent then Failed(NestedUnderScalar) else Parsed(item, ts)
  }

  /** The entry written after the dash; its nested value starts four columns in. */
  function ParseInitial(ts: seq<Token>, indent: nat, key: string, value: string): (r: Parsed<Entry>)
    ensures r.Parsed? ==> |r.rest| <= |ts|
    decreases |ts|, 4
  {
    if value == "" then
      if ts == [] || ts[0].indent != indent + 4 then Failed(NestedIndentation)
      else
        match ParseBlock(ts, indent + 4) {
          case Failed(e) => Failed(e)
          case Parsed(nested, rest) => Parsed(Entry(key, nested), rest)
        }
    else
      match StripScalar(value)
      case Err(e) => Failed(e)
      case Ok(scalar) => Parsed(Entry(key, scalar), ts)
  }

  /** A mapping item: the entry after the dash, and the entries below it. */
  function ParseItemMapping(ts: seq<Token>, indent: nat, key: string, value: string): (r: Parsed<Node>)
    ensures r.Parsed? ==> |r.rest| <= |ts|
    decreases |ts|, 5
  {
    match ParseInitial(ts, indent, key, value)
    case Failed(e) => Failed(e)
    case Parsed(initial, rest) =>
      match ParseMapping(rest, indent + 2, [initial]) {
        case Parsed(entries, after) => Parsed(Mapping(entries), after)
        case Failed(e) => Failed(e)
      }
  }

  /** `_parse_sequence`, with the items collected so far. */
  function ParseSequence(ts: seq<Token>, indent: nat, items: seq<Node>): (r: Parsed<seq<Node>>)
    ensures r.Parsed? ==> |r.rest| <= |ts|
    ensures r.Parsed? && ts != [] && ts[0].indent == indent ==> |r.rest| < |ts|
    decreases |ts|, 2
  {
    if ts == [] || ts[0].indent < indent then Parsed(items, ts)
    else
      match ParseItem(ts, indent)
      case Failed(e) => Failed(e)
      case Parsed(item, rest) => ParseSequence(rest, indent, items + [item])
  }

  // --------------------------------------------------------------------------
  // The index-threading loops

  /** A parsed value and the index of the first token after it. */
  datatype Read<+T> = Read(value: T, next: nat) | Refused(error: SyntaxError)

  /** The answer of an index-threading parser that the specification gives. */
  ghost predicate Agrees<T>(tokens: seq<Token>, start: nat, r: Read<T>, spec: Parsed<T>) {
    match r
    case Read(value, next) => start <= next <= |tokens| && spec == Parsed(value, tokens[next..])
    case Refused(e) => spec == Failed(e)
  }

  method ParseBlockAt(tokens: seq<Token>, index: nat, indent: nat) returns (r: Read<Node>)
    requires index <= |tokens|
    ensures Agrees(tokens, index, r, ParseBlock(tokens[index..], indent))
    ensures r.Read? ==> index < r.next
    decreases |tokens| - index, 2
  {
    if index >= |tokens| || tokens[index].indent != indent {
      return Refused(UnexpectedIndentation);
    }
    if Dashed(tokens[index].content) {
      var items := ParseSequenceAt(tokens, index, indent);
      match items {
        case Read(value, next) => r := Read(Sequence(value), next);
        case Refused(e) => r := Refused(e);
      }
    } else {
      var entries := ParseMappingAt(tokens, index, indent, []);
      match entries {
        case Read(value, next) => r := Read(Mapping(value), next);
        case Refused(e) => r := Refused(e);
      }
    }
    assert r.Read? ==> |tokens[r.next..]| < |tokens[index..]|;
  }

  method ParseMappingAt(tokens: seq<Token>, start: nat, indent: nat, initial: seq<Entry>)
    returns (r: Read<seq<Entry>>)
    requires start <= |tokens|
    ensures Agrees(tokens, start, r, ParseMapping(tokens[start..], indent, initial))
    decreases |tokens| - start, 1
  {
    var result, index := initial, start;
    while index < |tokens|
      invariant start <= index <= |tokens|
      invariant ParseMapping(tokens[start..], indent, initial) == ParseMapping(tokens[index..], indent, result)
    {
      if tokens[index].indent < indent { break; }
      if tokens[index].indent > indent { return Refused(UnexpectedIndentation); }
      if Dashed(tokens[index].content) { break; }
      var entry := ParseEntryAt(tokens, index, indent, result);
      match entry {
        case Read(value, next) => result, index := result + [value], next;
        case Refused(e) => return Refused(e);
      }
    }
    r := Read(result, index);
  }

  method ParseNestedAt(tokens: seq<Token>, index: nat, indent: nat, missing: SyntaxError) returns (r: Read<Node>)
    requires index <= |tokens|
    ensures Agrees(tokens, index, r, ParseNested(tokens[index..], indent, missing))
    ensures r.Read? ==> index < r.next
    decreases |tokens| - index, 3
  {
    if index >= |tokens| || tokens[index].indent <= indent { return Refused(missing); }
    r := ParseBlockAt(tokens, index, indent + 2);
  }

  method ParseEntryAt(tokens: seq<Token>, start: nat, indent: nat, result: seq<Entry>) returns (r: Read<Entry>)
    requires start < |tokens|
    ensures Agrees(tokens, start, r, ParseEntry(tokens[start..], indent, result))
    ensures r.Read? ==> start < r.next
    decreases |tokens| - start, 0
  {
    assert tokens[start..][1..] == tokens[start + 1..];
    match SplitPair(tokens[start].content) {
      case None => return Refused(UnsupportedMapping);
      case Some((key, raw)) =>
        if HasKey(result, key) { return Refused(DuplicateKey); }
        if raw != "" {
          match StripScalar(raw) {
            case Ok(value) => return Read(Entry(key, value), start + 1);
            case Err(e) => return Refused(e);
          }
        }
        var block := ParseNestedAt(tokens, start + 1, indent, MissingValue);
        match block {
          case Read(value, next) => return Read(Entry(key, value), next);
          case Refused(e) => return Refused(e);
        }
    }
  }

  method ParseSequenceAt(tokens: seq<Token>, start: nat, indent: nat) returns (r: Read<seq<Node>>)
    requires start <= |tokens|
    ensures Agrees(tokens, start, r, ParseSequence(tokens[start..], indent, []))
    decreases |tokens| - start, 1
  {
    var result, index := [], start;
    while index < |tokens|
      invariant start <= index <= |tokens|
      invariant ParseSequence(tokens[start..], indent, []) == ParseSequence(tokens[index..], indent, result)
    {
      if tokens[index].indent < indent { break; }
      var item := ParseItemAt(tokens, index, indent);
      match item {
        case Read(value, next) => result, index := result + [value], next;
        case Refused(e) => return Refused(e);
      }
    }
    r := Read(result, index);
  }

  method ParseItemAt(tokens: seq<Token>, start: nat, indent: nat) returns (r: Read<Node>)
    requires start < |tokens|
    ensures Agrees(tokens, start, r, ParseItem(tokens[start..], indent))
    ensures r.Read? ==> start < r.next
    decreases |tokens| - start, 0
  {
    if tokens[start].indent != indent || !Dashed(tokens[start].content) { return Refused(SequenceIndentation); }
    var index := start + 1;
    assert tokens[start..][1..] == tokens[index..];
    var head := HeadOf(tokens[start].content);
    assert ParseItem(tokens[start..], indent) == ParseHeaded(head, tokens[index..], indent);
    match head {
      case Nothing => r := ParseNestedAt(tokens, index, indent, EmptyItem);
      case BadPair => r := Refused(UnsupportedMapping);
      case Pair(key, value) => r := ParseItemMappingAt(tokens, index, indent, key, value);
      case Plain(raw) => r := ParsePlainAt(tokens, index, indent, raw);
    }
  }

  method ParsePlainAt(tokens: seq<Token>, index: nat, indent: nat, raw: string) returns (r: Read<Node>)
    requires index <= |tokens|
    ensures Agrees(tokens, index, r, ParsePlain(tokens[index..], indent, raw))
  {
    match StripScalar(raw) {
      case Ok(scalar) =>
        if index < |tokens| && tokens[index].indent > indent { return Refused(NestedUnderScalar); }
        r := Read(scalar, index);
      case Err(e) => r := Refused(e);
    }
  }

  method ParseItemMappingAt(tokens: seq<Token>, index: nat, indent: nat, key: string, value: string)
    returns (r: Read<Node>)
    requires index <= |tokens|
    ensures Agrees(tokens, index, r, ParseItemMapping(tokens[index..], indent, key, value))
    decreases |tokens| - index, 4
  {
    var initial := ParseInitialAt(tokens, index, indent, key, value);
    match initial {
      case Refused(e) => r := Refused(e);
      case Read(entry, next) =>
        var entries := ParseMappingAt(tokens, next, indent + 2, [entry]);
        match entries {
          case Read(all, last) => r := Read(Mapping(all), last);
          case Refused(e) => r := Refused(e);
        }
    }
  }

  method ParseInitialAt(tokens: seq<Token>, index: nat, indent: nat, key: string, value: string)
    returns (r: Read<Entry>)
    requires index <= |tokens|
    ensures Agrees(tokens, index, r, ParseInitial(tokens[index..], indent, key, value))
    decreases |tokens| - index, 3
  {
    if value == "" {
      if index >= |tokens| || tokens[index].indent != indent + 4 { return Refused(NestedIndentation); }
      var block := ParseBlockAt(tokens, index, indent + 4);
      match block {
        case Read(nested, next) => r := Read(Entry(key, nested), next);
        case Refused(e) => r := Refused(e);
      }
    } else {
      match StripScalar(value) {
        case Ok(scalar) => r := Read(Entry(key, scalar), index);
        case Err(e) => r := Refused(e);
      }
    }
  }

  // --------------------------------------------------------------------------
  // Lines to tokens

  predicate Magic(c: char) {
    c == '&' || c == '*' || c == '!'
  }

  /** Anchors, aliases and tags, and the endings of block scalars. */
  predicate Advanced(content: string) {
    || (exists i :: 0 <= i < |content| && Magic(content[i]) && (i == 0 || IsSpace(content[i - 1])))
    || (content != "" && (content[|content| - 1] == '|' || content[|content| - 1] == '>'))
  }

  /** The token of one significant line. */
  function LineToken(original: string): Result<Token, SyntaxError> {
    var line := TrimRight(original);
    if '\t' in line then Err(Tabs)
    else
      var indent := Spaces(line);
      if indent % 2 != 0 then Err(OddIndentation)
      else if Advanced(line[indent..]) then Err(AdvancedFeature)
      else Ok(Token(indent, line[indent..]))
  }

  /** The tokens of all lines, before the check for an empty document. */
  function LineTokens(lines: seq<string>): Result<seq<Token>, SyntaxError> {
    if lines == [] then Ok([])
    else
      var last := |lines| - 1;
      match LineTokens(lines[..last])
      case Err(e) => Err(e)
      case Ok(tokens) =>
        if !Significant(TrimRight(lines[last])) then Ok(tokens)
        else
          match LineToken(lines[last])
          case Err(e) => Err(e)
          case Ok(token) => Ok(tokens + [token])
  }

  function Tokens(lines: seq<string>): Result<seq<Token>, SyntaxError> {
    match LineTokens(lines)
    case Err(e) => Err(e)
    case Ok(tokens) => if tokens == [] then Err(EmptyDocument) else Ok(tokens)
  }

  lemma {:induction false} LineTokensErr(lines: seq<string>, n: nat)
    requires n <= |lines| && LineTokens(lines[..n]).Err?
    ensures LineTokens(lines) == LineTokens(lines[..n])
  {
    if n == |lines| {
      assert lines[..n] == lines;
    } else {
      assert lines[..|lines| - 1][..n] == lines[..n];
      LineTokensErr(lines[..|lines| - 1], n);
    }
  }

  /** `_tokenize`. */
  method Tokenize(lines: seq<string>) returns (r: Result<seq<Token>, SyntaxError>)
    ensures r == Tokens(lines)
  {
    var tokens := [];
    for i := 0 to |lines|
      invariant LineTokens(lines[..i]) == Ok(tokens)
    {
      assert lines[..i + 1][..i] == lines[..i];
      var line := TrimRight(lines[i]);
      if !Significant(line) { continue; }
      match LineToken(lines[i]) {
        case Ok(token) => tokens := tokens + [token];
        case Err(e) =>
          LineTokensErr(lines, i + 1);
          return Err(e);
      }
    }
    assert lines[..|lines|] == lines;
    r := if tokens == [] then Err(EmptyDocument) else Ok(tokens);
  }

  // --------------------------------------------------------------------------
  // Documents

  /** One document: tokens, one block at indent 0, and nothing after it. */
  function ParseDocument(lines: seq<string>): Result<Node, SyntaxError> {
    match Tokens(lines)
    case Err(e) => Err(e)
    case Ok(tokens) =>
      match ParseBlock(tokens, 0)
      case Failed(e) => Err(e)
      case Parsed(node, rest) => if rest == [] && node.Mapping? then Ok(node) else Err(NotOneMapping)
  }

  function Lookup(entries: seq<Entry>, key: string): Option<Node> {
    if entries == [] then None
    else if entries[0].key == key then Some(entries[0].value)
    else Lookup(entries[1..], key)
  }

  function Kind(document: Node): Option<string>
    requires document.Mapping?
  {
    match Lookup(document.entries, "kind")
    case Some(Scalar(text)) => Some(text)
    case _ => None
  }

  predicate Separator(line: string) {
    Trim(line) == "---"
  }

  predicate HasContent(lines: seq<string>) {
    exists i :: 0 <= i < |lines| && Significant(lines[i])
  }

  /** The finished chunks, the open chunk `current`, and the lines that are left. */
  function Chunks(lines: seq<string>, current: seq<string>, chunks: seq<seq<string>>): seq<seq<string>> {
    if lines == [] then Close(current, chunks)
    else if Separator(lines[0]) then Chunks(lines[1..], [], Close(current, chunks))
    else Chunks(lines[1..], current + [lines[0]], chunks)
  }

  function Close(current: seq<string>, chunks: seq<seq<string>>): seq<seq<string>> {
    if HasContent(current) then chunks + [current] else chunks
  }

  function AddDocuments(
    chunks: seq<seq<string>>, documents: map<string, Node>): Result<map<string, Node>, SyntaxError> {
    if chunks == [] then Ok(documents)
    else
      match ParseDocument(chunks[0])
      case Err(e) => Err(e)
      case Ok(document) =>
        match Kind(document)
        case None => Err(NoScalarKind)
        case Some(kind) =>
          if kind in documents then Err(DuplicateKind)
          else AddDocuments(chunks[1..], documents[kind := document])
  }

  method ParseOne(lines: seq<string>) returns (r: Result<Node, SyntaxError>)
    ensures r == ParseDocument(lines)
  {
    var tokenized := Tokenize(lines);
    match tokenized {
      case Err(e) => r := Err(e);
      case Ok(tokens) =>
        assert tokens[0..] == tokens;
        var block := ParseBlockAt(tokens, 0, 0);
        match block {
          case Refused(e) => r := Err(e);
          case Read(node, index) =>
            r := if index == |tokens| && node.Mapping? then Ok(node) else Err(NotOneMapping);
        }
    }
  }

  /** `parse_documents`, on the lines of the text. */
  method ParseDocuments(lines: seq<string>) returns (r: Result<map<string, Node>, SyntaxError>)
    ensures r == AddDocuments(Chunks(lines, [], []), map[])
  {
    var chunks, current := [], [];
    for i := 0 to |lines|
      invariant Chunks(lines, [], []) == Chunks(lines[i..], current, chunks)
    {
      assert lines[i..][1..] == lines[i + 1..];
      if Separator(lines[i]) {
        if HasContent(current) {
          chunks := chunks + [current];
        }
        current := [];
      } else {
        current := current + [lines[i]];
      }
    }
    if HasContent(current) {
      chunks := chunks + [current];
    }
    var documents: map<string, Node> := map[];
    for i := 0 to |chunks|
      invariant AddDocuments(chunks, map[]) == AddDocuments(chunks[i..], documents)
    {
      assert chunks[i..][1..] == chunks[i + 1..];
      var parsed := ParseOne(chunks[i]);
      match parsed {
        case Err(e) => return Err(e);
        case Ok(document) =>
          match Kind(document) {
            case None => return Err(NoScalarKind);
            case Some(kind) =>
              if kind in documents { return Err(DuplicateKind); }
              documents := documents[kind := document];
          }
      }
    }
    r := Ok(documents);
  }
}
