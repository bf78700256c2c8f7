/** The ruleset verifier of scripts/validate_ingress_guard.py: from the decoded
    `nft -j list ruleset` document to its list of errors. */
module IngressGuard {
  import opened Text
  import opened IngressRules

  /** A decoded JSON value. `Fraction` stands for every number written as a float. */
  datatype Json =
    | Null | Bool(b: bool) | Int(n: int) | Fraction | Str(s: string)
    | List(items: seq<Json>) | Object(fields: Body)

  type Body = map<string, Json>

  const OWNED_TABLE := "website_infrastructure_ingress_guard"
  const OWNED_FAMILY := "inet"
  const OWNED_CHAIN := "admin_ingress"
  const CHAIN_PRIORITY := -10
  const MAX_UINT64 := 0xffff_ffff_ffff_ffff

  /** `body.get(key) == value` for a string value. */
  predicate Has(body: Body, key: string, value: string) {
    key in body && body[key] == Str(value)
  }

  // --------------------------------------------------------------------------
  // Rules

  /** The two sides of an equality match of single values. */
  function MatchSides(expression: Body): Result<(Json, Json), Token> {
    if "match" !in expression || !expression["match"].Object? then Err(RuleGrammarUnsupported)
    else
      var m := expression["match"].fields;
      if m.Keys != {"op", "left", "right"} then Err(RuleGrammarUnsupported)
      else if m["op"] != Str("==") then Err(MatchInversionUnsupported)
      else if m["right"].List? || m["right"].Object? then Err(SetIndirectionUnsupported)
      else Ok((m["left"], m["right"]))
  }

  const INTERFACE_SIDE: Json := Object(map["meta" := Object(map["key" := Str("iifname")])])

  const PORT_SIDE: Json := Object(map["payload" := Object(map["protocol" := Str("tcp"), "field" := Str("dport")])])

  /** `_parse_match` for `iifname`. */
  function ParseInterface(expression: Body): Result<string, Token> {
    match MatchSides(expression)
    case Err(e) => Err(e)
    case Ok((left, right)) =>
      if left != INTERFACE_SIDE then Err(RuleGrammarUnsupported)
      else if !right.Str? || right.s == "" then Err(RuleGrammarUnsupported)
      else if '*' in right.s || '\\' in right.s then Err(WildcardUnsupported)
      else Ok(right.s)
  }

  /** `_parse_match` for `dport`. */
  function ParsePort(expression: Body): Result<int, Token> {
    match MatchSides(expression)
    case Err(e) => Err(e)
    case Ok((left, right)) =>
      if left != PORT_SIDE || !right.Int? then Err(RuleGrammarUnsupported) else Ok(right.n)
  }

  predicate CounterValue(v: Json) {
    v.Int? && 0 <= v.n <= MAX_UINT64
  }

  predicate CounterOk(counter: Json) {
    && counter.Object? && counter.fields.Keys == {"packets", "bytes"}
    && CounterValue(counter.fields["packets"]) && CounterValue(counter.fields["bytes"])
  }

  function ParseVerdict(expression: Body): Result<Verdict, Token> {
    if expression == map["accept" := Null] then Ok(Accept)
    else if expression == map["drop" := Null] then Ok(Drop)
    else Err(VerdictUnsupported)
  }

  predicate Single(j: Json) {
    j.Object? && |j.fields| == 1
  }

  /** `_parse_rule_expr`. */
  function ParseRuleExpr(expr: Json): Result<Rule, Token> {
    if !expr.List? || |expr.items| != 4 then Err(RuleGrammarUnsupported)
    else if exists i :: 0 <= i < 4 && !Single(expr.items[i]) then Err(RuleGrammarUnsupported)
    else
      match ParseInterface(expr.items[0].fields)
      case Err(e) => Err(e)
      case Ok(interface) =>
        match ParsePort(expr.items[1].fields)
        case Err(e) => Err(e)
        case Ok(port) =>
          var third := expr.items[2].fields;
          if "counter" !in third then Err(CounterMissing)
          else if !CounterOk(third["counter"]) then Err(RuleGrammarUnsupported)
          else
            match ParseVerdict(expr.items[3].fields)
            case Err(e) => Err(e)
            case Ok(verdict) => Ok(Rule(interface, port, verdict))
  }

  // --------------------------------------------------------------------------
  // The envelope

  /** One listed object: its only key and what it maps to. */
  datatype Item = Item(kind: string, body: Json)

  /** A map of one key has exactly one key. */
  lemma SingleKey(fields: Body)
    requires |fields| == 1
    ensures exists k :: k in fields && fields == map[k := fields[k]]
  {
    assert |fields.Keys| == 1;
    var k :| k in fields.Keys;
    assert |fields.Keys - {k}| == 0;
    assert fields.Keys == {k} + (fields.Keys - {k});
    assert fields == map[k := fields[k]];
  }

  function ItemOf(j: Json): Item
    requires Single(j)
  {
    SingleKey(j.fields);
    var k :| k in j.fields && j.fields == map[k := j.fields[k]];
    Item(k, j.fields[k])
  }

  predicate MetainfoOk(j: Json) {
    && j.Object? && j.fields.Keys == {"version", "release_name", "json_schema_version"}
    && j.fields["version"].Str? && j.fields["version"].s != ""
    && j.fields["release_name"].Str? && j.fields["release_name"].s != ""
    && j.fields["json_schema_version"] == Int(1)
  }

  predicate AllSingle(items: seq<Json>) {
    forall i :: 0 <= i < |items| ==> Single(items[i])
  }

  function ItemsOf(items: seq<Json>): (listed: seq<Item>)
    requires AllSingle(items)
    ensures |listed| == |items| && forall i :: 0 <= i < |items| ==> listed[i] == ItemOf(items[i])
  {
    seq(|items|, i requires 0 <= i < |items| => ItemOf(items[i]))
  }

  /** `_validated_ruleset_items`: the objects after the metainfo. */
  function Envelope(document: Json): Result<seq<Item>, Token> {
    if !document.Object? || document.fields.Keys != {"nftables"} || !document.fields["nftables"].List? then
      Err(RulesetJsonInvalid)
    else
      var items := document.fields["nftables"].items;
      if !AllSingle(items) then Err(RulesetJsonInvalid)
      else
        var listed := ItemsOf(items);
        if listed == [] || listed[0].kind != "metainfo" then Err(SchemaVersionUnsupported)
        else if exists i :: 1 <= i < |listed| && listed[i].kind == "metainfo" then Err(SchemaVersionUnsupported)
        else if !MetainfoOk(listed[0].body) then Err(SchemaVersionUnsupported)
        else Ok(listed[1..])
  }

  // --------------------------------------------------------------------------
  // Identities and ownership

  predicate PositiveHandle(body: Body) {
    "handle" in body && body["handle"].Int? && 1 <= body["handle"].n <= MAX_UINT64
  }

  predicate Named(body: Body, key: string) {
    key in body && body[key].Str? && body[key].s != ""
  }

  /** `_known_object_identity_valid`. */
  predicate IdentityValid(kind: string, body: Body) {
    if kind == "table" then Named(body, "family") && Named(body, "name") && PositiveHandle(body)
    else if kind == "chain" then
      Named(body, "family") && Named(body, "table") && Named(body, "name") && PositiveHandle(body)
    else if kind == "rule" then
      Named(body, "family") && Named(body, "table") && Named(body, "chain") && PositiveHandle(body) &&
      "expr" in body && body["expr"].List?
    else true
  }

  predicate WellFormed(item: Item) {
    item.body.Object? && IdentityValid(item.kind, item.body.fields)
  }

  predicate OwnedTable(item: Item) {
    WellFormed(item) && item.kind == "table" && Has(item.body.fields, "name", OWNED_TABLE)
  }

  predicate OwnedChain(item: Item) {
    WellFormed(item) && item.kind == "chain" && Has(item.body.fields, "table", OWNED_TABLE)
  }

  predicate OwnedRule(item: Item) {
    WellFormed(item) && item.kind == "rule" && Has(item.body.fields, "table", OWNED_TABLE)
  }

  /** A chain of the owned name under a foreign table. */
  predicate Collides(item: Item) {
    WellFormed(item) && item.kind == "chain" && !Has(item.body.fields, "table", OWNED_TABLE) &&
    Has(item.body.fields, "name", OWNED_CHAIN)
  }

  /** Some other object bound to the owned table. */
  predicate Foreign(item: Item) {
    WellFormed(item) && item.kind != "table" && item.kind != "chain" && item.kind != "rule" &&
    Has(item.body.fields, "table", OWNED_TABLE)
  }

  /** What the first loop of `model_errors` has collected. */
  datatype Scan = Malformed | Scan(tables: seq<Body>, chains: seq<Body>, rules: seq<Body>, errors: seq<Token>)

  function ScanItem(s: Scan, item: Item): Scan {
    if s.Malformed? || !WellFormed(item) then Malformed
    else if OwnedTable(item) then s.(tables := s.tables + [item.body.fields])
    else if OwnedChain(item) then s.(chains := s.chains + [item.body.fields])
    else if Collides(item) then s.(errors := s.errors + [ChainNameCollision])
    else if OwnedRule(item) then s.(rules := s.rules + [item.body.fields])
    else if Foreign(item) then s.(errors := s.errors + [ForeignObjectInOwnedTable])
    else s
  }

  function ScanItems(items: seq<Item>): Scan {
    if items == [] then Scan([], [], [], [])
    else ScanItem(ScanItems(items[..|items| - 1]), items[|items| - 1])
  }

  method ScanRuleset(items: seq<Item>) returns (s: Scan)
    ensures s == ScanItems(items)
  {
    var tables: seq<Body>, chains: seq<Body>, rules: seq<Body>, errors: seq<Token> := [], [], [], [];
    for i := 0 to |items|
      invariant ScanItems(items[..i]) == Scan(tables, chains, rules, errors)
    {
      assert items[..i + 1][..i] == items[..i];
      var item := items[i];
      if !item.body.Object? || !IdentityValid(item.kind, item.body.fields) {
        MalformedStays(items, i + 1);
        return Malformed;
      }
      var body := item.body.fields;
      if item.kind == "table" {
        if Has(body, "name", OWNED_TABLE) { tables := tables + [body]; }
      } else if item.kind == "chain" {
        if Has(body, "table", OWNED_TABLE) {
          chains := chains + [body];
        } else if Has(body, "name", OWNED_CHAIN) {
          errors := errors + [ChainNameCollision];
        }
      } else if item.kind == "rule" {
        if Has(body, "table", OWNED_TABLE) { rules := rules + [body]; }
      } else if Has(body, "table", OWNED_TABLE) {
        errors := errors + [ForeignObjectInOwnedTable];
      }
    }
    assert items[..|items|] == items;
    s := Scan(tables, chains, rules, errors);
  }

  lemma {:induction false} MalformedStays(items: seq<Item>, n: nat)
    requires n <= |items| && ScanItems(items[..n]) == Malformed
    ensures ScanItems(items) == Malformed
    decreases |items|
  {
    if n == |items| {
      assert items[..n] == items;
    } else {
      assert items[..|items| - 1][..n] == items[..n];
      MalformedStays(items[..|items| - 1], n);
    }
  }

  // --------------------------------------------------------------------------
  // The owned table, chain and rules

  function If(errors: seq<Token>, token: Token, when: bool): seq<Token> {
    if when then errors + [token] else errors
  }

  predicate ChainGrammar(chain: Body) {
    chain.Keys == {"family", "table", "name", "handle", "type", "hook", "prio", "policy"} && PositiveHandle(chain)
  }

  function ChainErrors(chain: Body, errors: seq<Token>): seq<Token> {
    var e1 := If(errors, ChainGrammarUnsupported, !ChainGrammar(chain));
    var e2 := If(e1, ChainMissing, !Has(chain, "name", OWNED_CHAIN));
    var e3 := If(e2, TableFamilyInvalid, !Has(chain, "family", OWNED_FAMILY));
    var e4 := If(e3, ChainTypeInvalid, !Has(chain, "type", "filter"));
    var e5 := If(e4, HookInvalid, !Has(chain, "hook", "input"));
    var e6 := If(e5, PriorityInvalid, !("prio" in chain && chain["prio"] == Int(CHAIN_PRIORITY)));
    If(e6, PolicyInvalid, !Has(chain, "policy", "accept"))
  }

  datatype Rules = Rules(errors: seq<Token>, handles: set<int>, parsed: seq<Rule>)

  predicate RuleGrammar(rule: Body) {
    rule.Keys == {"family", "table", "chain", "handle", "expr"} && PositiveHandle(rule)
  }

  /** What one owned rule says by itself. */
  datatype RuleRead = Ungrammatical | Misplaced | Placed(handle: int, triple: Result<Rule, Token>)

  function ReadRule(rule: Body): RuleRead {
    if !RuleGrammar(rule) then Ungrammatical
    else if !Has(rule, "family", OWNED_FAMILY) || !Has(rule, "chain", OWNED_CHAIN) then Misplaced
    else Placed(rule["handle"].n, ParseRuleExpr(rule["expr"]))
  }

  function RuleStep(s: Rules, read: RuleRead): Rules {
    match read
    case Ungrammatical => s.(errors := s.errors + [RuleGrammarUnsupported])
    case Misplaced => s.(errors := s.errors + [RulePlacementInvalid])
    case Placed(handle, triple) =>
      if handle in s.handles then s.(errors := s.errors + [RuleHandleDuplicate])
      else if triple.Err? then Rules(Note(s.errors, triple.error, true), s.handles + {handle}, s.parsed)
      else Rules(s.errors, s.handles + {handle}, s.parsed + [triple.value])
  }

  function RuleSteps(facts: seq<RuleRead>): Rules {
    if facts == [] then Rules([], {}, []) else RuleStep(RuleSteps(facts[..|facts| - 1]), facts[|facts| - 1])
  }

  function Reads(rules: seq<Body>): (facts: seq<RuleRead>)
    ensures |facts| == |rules| && forall i :: 0 <= i < |rules| ==> facts[i] == ReadRule(rules[i])
  {
    seq(|rules|, i requires 0 <= i < |rules| => ReadRule(rules[i]))
  }

  /** The last loop of `model_errors`, which is reached without errors. */
  method ReadRules(rules: seq<Body>) returns (errors: seq<Token>, parsed: seq<Rule>)
    ensures errors == RuleSteps(Reads(rules)).errors && parsed == RuleSteps(Reads(rules)).parsed
  {
    errors, parsed := [], [];
    var handles: set<int> := {};
    for i := 0 to |rules|
      invariant RuleSteps(Reads(rules)[..i]) == Rules(errors, handles, parsed)
    {
      assert Reads(rules)[..i + 1][..i] == Reads(rules)[..i];
      var rule := rules[i];
      if !RuleGrammar(rule) {
        errors := errors + [RuleGrammarUnsupported];
        continue;
      }
      if !Has(rule, "family", OWNED_FAMILY) || !Has(rule, "chain", OWNED_CHAIN) {
        errors := errors + [RulePlacementInvalid];
        continue;
      }
      if rule["handle"].n in handles {
        errors := errors + [RuleHandleDuplicate];
        continue;
      }
      handles := handles + {rule["handle"].n};
      match ParseRuleExpr(rule["expr"]) {
        case Err(e) => errors := Note(errors, e, true);
        case Ok(triple) => parsed := parsed + [triple];
      }
    }
    assert Reads(rules)[..|rules|] == Reads(rules);
  }

  /** The errors after the first loop. */
  function OwnedErrors(s: Scan, interfaces: seq<string>): seq<Token>
    requires s.Scan?
  {
    if s.tables == [] then s.errors + [TableMissing]
    else if |s.tables| > 1 then s.errors + [TableDuplicate]
    else
      var table := s.tables[0];
      if table.Keys != {"family", "name", "handle"} || !PositiveHandle(table) then s.errors + [TableGrammarUnsupported]
      else if table["family"] != Str(OWNED_FAMILY) then s.errors + [TableFamilyInvalid]
      else if s.chains == [] then s.errors + [ChainMissing]
      else if |s.chains| > 1 then s.errors + [ChainUnexpected]
      else
        var errors := ChainErrors(s.chains[0], s.errors);
        if errors != [] then errors
        else
          var read := RuleSteps(Reads(s.rules));
          if read.errors != [] then read.errors else Classify(read.parsed, interfaces)
  }

  function ModelErrors(document: Json, interfaces: seq<string>): seq<Token> {
    match Envelope(document)
    case Err(token) => [token]
    case Ok(items) =>
      var s := ScanItems(items);
      if s.Malformed? then [RulesetJsonInvalid] else OwnedErrors(s, interfaces)
  }

  /** `model_errors`. */
  method CheckModel(document: Json, interfaces: seq<string>) returns (errors: seq<Token>)
    ensures errors == ModelErrors(document, interfaces)
  {
    var envelope := Envelope(document);
    if envelope.Err? { return [envelope.error]; }
    var s := ScanRuleset(envelope.value);
    if s.Malformed? { return [RulesetJsonInvalid]; }
    errors := s.errors;
    if s.tables == [] { return errors + [TableMissing]; }
    if |s.tables| > 1 { return errors + [TableDuplicate]; }
    var table := s.tables[0];
    if table.Keys != {"family", "name", "handle"} || !PositiveHandle(table) {
      return errors + [TableGrammarUnsupported];
    }
    if table["family"] != Str(OWNED_FAMILY) { return errors + [TableFamilyInvalid]; }
    if s.chains == [] { return errors + [ChainMissing]; }
    if |s.chains| > 1 { return errors + [ChainUnexpected]; }
    errors := ChainErrors(s.chains[0], errors);
    if errors != [] { return; }
    var parsed: seq<Rule>;
    errors, parsed := ReadRules(s.rules);
    if errors != [] { return; }
    errors := ClassifySequence(parsed, interfaces);
  }

  // --------------------------------------------------------------------------
  // Absence

  /** An object that shows the owned identity before installation. */
  predicate Preexisting(item: Item) {
    WellFormed(item) &&
    (Has(item.body.fields, "table", OWNED_TABLE)
      || (item.kind == "table" && Has(item.body.fields, "name", OWNED_TABLE)))
  }

  datatype Absence = AbsenceMalformed | Absence(errors: seq<Token>)

  function AbsenceItem(s: Absence, item: Item): Absence {
    if s.AbsenceMalformed? || !WellFormed(item) then AbsenceMalformed
    else if Preexisting(item) then Absence(s.errors + [PreexistingOwnedTable])
    else if Collides(item) then Absence(s.errors + [ChainNameCollision])
    else s
  }

  function AbsenceItems(items: seq<Item>): Absence {
    if items == [] then Absence([]) else AbsenceItem(AbsenceItems(items[..|items| - 1]), items[|items| - 1])
  }

  function Deduplicated(errors: seq<Token>): seq<Token> {
    if errors == [] then [] else Note(Deduplicated(errors[..|errors| - 1]), errors[|errors| - 1], true)
  }

  function AbsenceErrors(document: Json): seq<Token> {
    match Envelope(document)
    case Err(token) => [token]
    case Ok(items) =>
      match AbsenceItems(items)
      case AbsenceMalformed => [RulesetJsonInvalid]
      case Absence(errors) => Deduplicated(errors)
  }

  /** `absence_errors`. */
  method CheckAbsence(document: Json) returns (deduplicated: seq<Token>)
    ensures deduplicated == AbsenceErrors(document)
  {
    var envelope := Envelope(document);
    if envelope.Err? { return [envelope.error]; }
    var items := envelope.value;
    var errors: seq<Token> := [];
    for i := 0 to |items|
      invariant AbsenceItems(items[..i]) == Absence(errors)
    {
      assert items[..i + 1][..i] == items[..i];
      if !WellFormed(items[i]) {
        AbsenceMalformedStays(items, i + 1);
        return [RulesetJsonInvalid];
      }
      if Preexisting(items[i]) {
        errors := errors + [PreexistingOwnedTable];
      } else if Collides(items[i]) {
        errors := errors + [ChainNameCollision];
      }
    }
    assert items[..|items|] == items;
    deduplicated := [];
    for i := 0 to |errors|
      invariant deduplicated == Deduplicated(errors[..i])
    {
      assert errors[..i + 1][..i] == errors[..i];
      if errors[i] !in deduplicated {
        deduplicated := deduplicated + [errors[i]];
      }
    }
    assert errors[..|errors|] == errors;
  }

  lemma {:induction false} AbsenceMalformedStays(items: seq<Item>, n: nat)
    requires n <= |items| && AbsenceItems(items[..n]) == AbsenceMalformed
    ensures AbsenceItems(items) == AbsenceMalformed
    decreases |items|
  {
    if n == |items| {
      assert items[..n] == items;
    } else {
      assert items[..|items| - 1][..n] == items[..n];
      AbsenceMalformedStays(items[..|items| - 1], n);
    }
  }

  // --------------------------------------------------------------------------
  // Nesting

  /** The nesting of a decoded document: a container of values, or a plain value. */
  datatype Shape = Leaf | Node(children: seq<Shape>)

  const MAX_RULESET_JSON_DEPTH := 64

  function Deepest(shapes: seq<Shape>): nat
    decreases shapes, 0
  {
    if shapes == [] then 0
    else
      var first, rest := 1 + Depth(shapes[0]), Deepest(shapes[1..]);
      if first > rest then first else rest
  }

  /** How far below `s` its deepest value stands. */
  function Depth(s: Shape): nat
    decreases s, 1
  {
    match s
    case Leaf => 0
    case Node(children) => Deepest(children)
  }

  function Size(s: Shape): nat
    decreases s, 1
  {
    match s
    case Leaf => 1
    case Node(children) => 1 + Sizes(children)
  }

  function Sizes(shapes: seq<Shape>): nat
    decreases shapes, 0
  {
    if shapes == [] then 0 else Size(shapes[0]) + Sizes(shapes[1..])
  }

  datatype Pending = Pending(shape: Shape, depth: nat)

  function PendingSize(stack: seq<Pending>): nat {
    if stack == [] then 0 else PendingSize(stack[..|stack| - 1]) + Size(stack[|stack| - 1].shape)
  }

  predicate Shallow(stack: seq<Pending>) {
    forall i :: 0 <= i < |stack| ==> stack[i].depth + Depth(stack[i].shape) <= MAX_RULESET_JSON_DEPTH
  }

  function Children(shapes: seq<Shape>, depth: nat): (stack: seq<Pending>)
    ensures |stack| == |shapes|
    ensures forall i :: 0 <= i < |shapes| ==> stack[i] == Pending(shapes[i], depth)
  {
    seq(|shapes|, i requires 0 <= i < |shapes| => Pending(shapes[i], depth))
  }

  lemma {:induction false} DeepestBounds(shapes: seq<Shape>, bound: int)
    ensures Deepest(shapes) <= bound <==> bound >= 0 && forall i :: 0 <= i < |shapes| ==> 1 + Depth(shapes[i]) <= bound
  {
    if shapes != [] {
      DeepestBounds(shapes[1..], bound);
      assert shapes == [shapes[0]] + shapes[1..];
    }
  }

  lemma {:induction false} PendingSizeGrows(stack: seq<Pending>, shapes: seq<Shape>, depth: nat)
    ensures PendingSize(stack + Children(shapes, depth)) == PendingSize(stack) + Sizes(shapes)
    decreases |shapes|
  {
    if shapes == [] {
      assert stack + Children(shapes, depth) == stack;
    } else {
      var first := Pending(shapes[0], depth);
      PendingSizeGrows(stack + [first], shapes[1..], depth);
      assert stack + Children(shapes, depth) == (stack + [first]) + Children(shapes[1..], depth);
      assert (stack + [first])[..|stack|] == stack;
    }
  }

  /** `_json_depth_within_limit`: draining the stack decides the recursive depth. */
  method DepthWithinLimit(document: Shape) returns (ok: bool)
    ensures ok <==> Depth(document) <= MAX_RULESET_JSON_DEPTH
  {
    var pending := [Pending(document, 0)];
    while pending != []
      invariant Shallow(pending) <==> Depth(document) <= MAX_RULESET_JSON_DEPTH
      decreases PendingSize(pending)
    {
      var last := |pending| - 1;
      var Pending(value, depth) := pending[last];
      ghost var before := pending;
      pending := pending[..last];
      assert before == pending + [Pending(value, depth)];
      if depth > MAX_RULESET_JSON_DEPTH { return false; }
      if value.Node? {
        DeepestBounds(value.children, MAX_RULESET_JSON_DEPTH - depth);
        PendingSizeGrows(pending, value.children, depth + 1);
        ghost var rest := pending;
        pending := pending + Children(value.children, depth + 1);
        ShallowSum(rest, Children(value.children, depth + 1));
        ChildrenShallow(value.children, depth);
      }
    }
    ok := true;
  }

  lemma ShallowSum(a: seq<Pending>, b: seq<Pending>)
    ensures Shallow(a + b) <==> Shallow(a) && Shallow(b)
  {
    if Shallow(a + b) {
      forall i | 0 <= i < |a| ensures a[i].depth + Depth(a[i].shape) <= MAX_RULESET_JSON_DEPTH {
        assert (a + b)[i] == a[i];
      }
      forall i | 0 <= i < |b| ensures b[i].depth + Depth(b[i].shape) <= MAX_RULESET_JSON_DEPTH {
        assert (a + b)[|a| + i] == b[i];
      }
    }
  }

  lemma ChildrenShallow(shapes: seq<Shape>, depth: nat)
    requires depth <= MAX_RULESET_JSON_DEPTH
    ensures Shallow(Children(shapes, depth + 1)) <==> depth + Deepest(shapes) <= MAX_RULESET_JSON_DEPTH
  {
    DeepestBounds(shapes, MAX_RULESET_JSON_DEPTH - depth);
    var stack := Children(shapes, depth + 1);
    if Shallow(stack) {
      forall i | 0 <= i < |shapes| ensures 1 + Depth(shapes[i]) <= MAX_RULESET_JSON_DEPTH - depth {
        assert stack[i] == Pending(shapes[i], depth + 1);
      }
    }
  }
}
