/** What scripts/validate_ingress_guard.py accepts, and what installing and removing the
    guard does to its verdicts. */
module IngressTransaction {
  import opened Text
  import opened IngressRules
  import opened IngressGuard
  import AdminIngress

  // --------------------------------------------------------------------------
  // Rule expressions

  function MatchOf(left: Json, right: Json): Json {
    Object(map["match" := Object(map["op" := Str("=="), "left" := left, "right" := right])])
  }

  function CounterOf(packets: int, bytes: int): Json {
    Object(map["counter" := Object(map["packets" := Int(packets), "bytes" := Int(bytes)])])
  }

  function VerdictOf(v: Verdict): Json {
    Object(map[if v == Accept then "accept" else "drop" := Null])
  }

  /** The one expression list that states a rule, for given counter readings. */
  function RuleExpr(r: Rule, packets: int, bytes: int): Json {
    List([MatchOf(INTERFACE_SIDE, Str(r.interface)), MatchOf(PORT_SIDE, Int(r.port)),
          CounterOf(packets, bytes), VerdictOf(r.verdict)])
  }

  predicate Plain(interface: string) {
    interface != "" && '*' !in interface && '\\' !in interface
  }

  predicate InRange(n: int) { 0 <= n <= MAX_UINT64 }

  lemma OnlyKey(fields: Body, key: string)
    requires |fields| == 1 && key in fields
    ensures fields == map[key := fields[key]]
  {
    assert |fields.Keys - {key}| == 0;
    assert fields.Keys == {key} + (fields.Keys - {key});
  }

  lemma OneKey(key: string, value: Json)
    ensures |map[key := value]| == 1
  {
    assert map[key := value].Keys == {key};
  }

  lemma MatchShape(e: Body)
    requires |e| == 1 && MatchSides(e).Ok?
    ensures Object(e) == MatchOf(MatchSides(e).value.0, MatchSides(e).value.1)
  {
    OnlyKey(e, "match");
    var m := e["match"].fields;
    assert m == map["op" := m["op"], "left" := m["left"], "right" := m["right"]];
  }

  lemma MatchReads(left: Json, right: Json)
    requires !right.List? && !right.Object?
    ensures Single(MatchOf(left, right)) && MatchSides(MatchOf(left, right).fields) == Ok((left, right))
  {
    var e := MatchOf(left, right).fields;
    OneKey("match", e["match"]);
    assert e["match"].fields.Keys == {"op", "left", "right"};
  }

  lemma InterfaceExact(e: Json, interface: string)
    ensures Single(e) && ParseInterface(e.fields) == Ok(interface) <==>
            Plain(interface) && e == MatchOf(INTERFACE_SIDE, Str(interface))
  {
    MatchReads(INTERFACE_SIDE, Str(interface));
    if Single(e) && ParseInterface(e.fields) == Ok(interface) { MatchShape(e.fields); }
  }

  lemma PortExact(e: Json, port: int)
    ensures Single(e) && ParsePort(e.fields) == Ok(port) <==> e == MatchOf(PORT_SIDE, Int(port))
  {
    MatchReads(PORT_SIDE, Int(port));
    if Single(e) && ParsePort(e.fields) == Ok(port) { MatchShape(e.fields); }
  }

  predicate Counts(e: Json, packets: int, bytes: int) {
    InRange(packets) && InRange(bytes) && e == CounterOf(packets, bytes)
  }

  lemma CounterExact(e: Json)
    ensures Single(e) && "counter" in e.fields && CounterOk(e.fields["counter"]) <==>
            exists packets, bytes :: Counts(e, packets, bytes)
  {
    if Single(e) && "counter" in e.fields && CounterOk(e.fields["counter"]) {
      OnlyKey(e.fields, "counter");
      var c := e.fields["counter"].fields;
      assert c == map["packets" := c["packets"], "bytes" := c["bytes"]];
      assert Counts(e, c["packets"].n, c["bytes"].n);
    }
    if exists packets, bytes :: Counts(e, packets, bytes) {
      var packets, bytes :| Counts(e, packets, bytes);
      OneKey("counter", e.fields["counter"]);
      assert e.fields["counter"].fields.Keys == {"packets", "bytes"};
    }
  }

  lemma VerdictExact(e: Json, v: Verdict)
    ensures Single(e) && ParseVerdict(e.fields) == Ok(v) <==> e == VerdictOf(v)
  {
    OneKey("accept", Null);
    OneKey("drop", Null);
    assert "accept" in map["accept" := Null] && "accept" !in map["drop" := Null];
  }

  predicate FourSingle(items: seq<Json>) {
    |items| == 4 && Single(items[0]) && Single(items[1]) && Single(items[2]) && Single(items[3])
  }

  lemma SinglesRead(items: seq<Json>)
    requires |items| == 4
    ensures (exists i :: 0 <= i < 4 && !Single(items[i])) <==> !FourSingle(items)
    ensures !FourSingle(items) ==> ParseRuleExpr(List(items)).Err?
  {
    if i: nat :| i < 4 && !Single(items[i]) { assert i == 0 || i == 1 || i == 2 || i == 3; }
  }

  /** The four parts of an expression are read independently. */
  lemma PartsRead(items: seq<Json>, r: Rule)
    requires |items| == 4
    ensures ParseRuleExpr(List(items)) == Ok(r) <==>
      && FourSingle(items)
      && ParseInterface(items[0].fields) == Ok(r.interface)
      && ParsePort(items[1].fields) == Ok(r.port)
      && "counter" in items[2].fields && CounterOk(items[2].fields["counter"])
      && ParseVerdict(items[3].fields) == Ok(r.verdict)
  {
    SinglesRead(items);
  }

  predicate Expresses(expr: Json, r: Rule, packets: int, bytes: int) {
    Plain(r.interface) && InRange(packets) && InRange(bytes) && expr == RuleExpr(r, packets, bytes)
  }

  /** The expression grammar is exact: an expression reads as a rule exactly when it is that
      rule's own expression, whatever the counters read. */
  lemma ParseRuleExact(expr: Json, r: Rule)
    ensures ParseRuleExpr(expr) == Ok(r) <==> exists packets, bytes :: Expresses(expr, r, packets, bytes)
  {
    if expr.List? && |expr.items| == 4 {
      var a, b, c, d := expr.items[0], expr.items[1], expr.items[2], expr.items[3];
      PartsRead(expr.items, r);
      InterfaceExact(a, r.interface);
      PortExact(b, r.port);
      CounterExact(c);
      VerdictExact(d, r.verdict);
      PartsExpress(expr.items, r, a, b, c, d);
    }
  }

  lemma PartsExpress(items: seq<Json>, r: Rule, a: Json, b: Json, c: Json, d: Json)
    requires items == [a, b, c, d]
    ensures (exists packets, bytes :: Expresses(List(items), r, packets, bytes)) <==>
      && Plain(r.interface) && a == MatchOf(INTERFACE_SIDE, Str(r.interface)) && b == MatchOf(PORT_SIDE, Int(r.port))
      && (exists packets, bytes :: Counts(c, packets, bytes)) && d == VerdictOf(r.verdict)
  {
    if exists packets, bytes :: Expresses(List(items), r, packets, bytes) {
      var packets, bytes :| Expresses(List(items), r, packets, bytes);
      var whole := RuleExpr(r, packets, bytes).items;
      assert whole[0] == a && whole[1] == b && whole[2] == c && whole[3] == d;
      assert Counts(c, packets, bytes);
    }
    if Plain(r.interface) && a == MatchOf(INTERFACE_SIDE, Str(r.interface)) && b == MatchOf(PORT_SIDE, Int(r.port))
      && d == VerdictOf(r.verdict) && exists packets, bytes :: Counts(c, packets, bytes) {
      var packets, bytes :| Counts(c, packets, bytes);
      assert Expresses(List(items), r, packets, bytes);
    }
  }

  // --------------------------------------------------------------------------
  // The accepted rulesets

  predicate Owned(item: Item) {
    OwnedTable(item) || OwnedChain(item) || OwnedRule(item)
  }

  /** The owned objects of a kind, in listed order. */
  function OwnedOf(items: seq<Item>, kind: string): seq<Body> {
    if items == [] then []
    else
      var last := items[|items| - 1];
      OwnedOf(items[..|items| - 1], kind) + if Owned(last) && last.kind == kind then [last.body.fields] else []
  }

  /** What is left of a listing without its owned objects. */
  function Unowned(items: seq<Item>): seq<Item> {
    if items == [] then []
    else
      var last := items[|items| - 1];
      Unowned(items[..|items| - 1]) + if Owned(last) then [] else [last]
  }

  predicate AllWellFormed(items: seq<Item>) {
    forall item :: item in items ==> WellFormed(item)
  }

  predicate NoDecoys(items: seq<Item>) {
    forall item :: item in items ==> !Collides(item) && !Foreign(item)
  }

  predicate Scanned(s: Scan, items: seq<Item>) {
    && s.Scan?
    && s.tables == OwnedOf(items, "table") && s.chains == OwnedOf(items, "chain") && s.rules == OwnedOf(items, "rule")
    && (s.errors == [] <==> NoDecoys(items))
  }

  lemma Extended(front: seq<Item>, last: Item, kind: string)
    ensures OwnedOf(front + [last], kind)
         == OwnedOf(front, kind) + if Owned(last) && last.kind == kind then [last.body.fields] else []
    ensures Unowned(front + [last]) == Unowned(front) + if Owned(last) then [] else [last]
  {
    assert (front + [last])[..|front|] == front;
  }

  lemma ScanStep(s: Scan, front: seq<Item>, last: Item)
    requires Scanned(s, front) && WellFormed(last)
    ensures Scanned(ScanItem(s, last), front + [last])
  {
    Extended(front, last, "table");
    Extended(front, last, "chain");
    Extended(front, last, "rule");
    assert "table" != "chain" && "table" != "rule" && "chain" != "rule";
    var items := front + [last];
    assert items[|front|] == last && forall item :: item in items <==> item in front || item == last;
    assert NoDecoys(items) <==> NoDecoys(front) && !Collides(last) && !Foreign(last);
    assert s.tables + [] == s.tables && s.chains + [] == s.chains && s.rules + [] == s.rules;
  }

  lemma {:induction false} ScanMeans(items: seq<Item>)
    ensures ScanItems(items).Scan? <==> AllWellFormed(items)
    ensures ScanItems(items).Scan? ==> Scanned(ScanItems(items), items)
  {
    if items != [] {
      var front, last := items[..|items| - 1], items[|items| - 1];
      ScanMeans(front);
      assert items == front + [last];
      assert AllWellFormed(items) <==> AllWellFormed(front) && WellFormed(last);
      if ScanItems(front).Scan? && WellFormed(last) { ScanStep(ScanItems(front), front, last); }
    }
  }

  predicate GoodTable(table: Body) {
    table.Keys == {"family", "name", "handle"} && PositiveHandle(table) && Has(table, "family", OWNED_FAMILY)
  }

  predicate GoodChain(chain: Body) {
    && ChainGrammar(chain) && Has(chain, "name", OWNED_CHAIN) && Has(chain, "family", OWNED_FAMILY)
    && Has(chain, "type", "filter") && Has(chain, "hook", "input") && Has(chain, "policy", "accept")
    && chain["prio"] == Int(CHAIN_PRIORITY)
  }

  /** The rules state a sequence, one for one, under handles of their own. */
  predicate State(facts: seq<RuleRead>, sequence: seq<Rule>) {
    && |facts| == |sequence|
    && (forall i :: 0 <= i < |facts| ==> facts[i].Placed? && facts[i].triple == Ok(sequence[i]))
    && (forall i, j :: 0 <= i < j < |facts| ==> facts[i].handle != facts[j].handle)
  }

  function Handles(facts: seq<RuleRead>): set<int> {
    set read | read in facts && read.Placed? :: read.handle
  }

  lemma StateGrows(front: seq<RuleRead>, sequence: seq<Rule>, read: RuleRead)
    requires State(front, sequence) && read.Placed? && read.triple.Ok? && read.handle !in Handles(front)
    ensures State(front + [read], sequence + [read.triple.value])
    ensures Handles(front + [read]) == Handles(front) + {read.handle}
  {
    assert forall i :: 0 <= i < |front| ==> front[i].handle in Handles(front);
    var facts := front + [read];
    assert facts[|front|] == read && forall x :: x in facts <==> x in front || x == read;
  }

  lemma {:induction false} RuleStepsMean(facts: seq<RuleRead>)
    ensures RuleSteps(facts).errors == [] ==>
      State(facts, RuleSteps(facts).parsed) && RuleSteps(facts).handles == Handles(facts)
  {
    if facts != [] && RuleSteps(facts).errors == [] {
      var front, read := facts[..|facts| - 1], facts[|facts| - 1];
      RuleStepsMean(front);
      assert facts == front + [read];
      StateGrows(front, RuleSteps(front).parsed, read);
    }
  }

  lemma {:induction false} StatedRulesRead(facts: seq<RuleRead>, sequence: seq<Rule>)
    requires State(facts, sequence)
    ensures RuleSteps(facts) == Rules([], Handles(facts), sequence)
  {
    if facts != [] {
      var last := |facts| - 1;
      var front, read := facts[..last], facts[last];
      StatedRulesRead(front, sequence[..last]);
      assert facts == front + [read];
      assert Handles(facts) == Handles(front) + {read.handle};
      assert read.handle !in Handles(front);
      assert sequence == sequence[..last] + [sequence[last]];
    }
  }

  /** A listing of the objects after the metainfo passes. */
  predicate Installed(items: seq<Item>, interfaces: seq<string>) {
    var tables, chains := OwnedOf(items, "table"), OwnedOf(items, "chain");
    && AllWellFormed(items) && NoDecoys(items)
    && |tables| == 1 && GoodTable(tables[0])
    && |chains| == 1 && GoodChain(chains[0])
    && State(Reads(OwnedOf(items, "rule")), Expected(interfaces))
  }

  lemma ClassifyEmpty(parsed: seq<Rule>, interfaces: seq<string>)
    ensures Classify(parsed, interfaces) == [] <==> parsed == Expected(interfaces)
  {
  }

  lemma ChainErrorsEmpty(chain: Body, errors: seq<Token>)
    ensures ChainErrors(chain, errors) == [] <==> errors == [] && GoodChain(chain)
  {
  }

  lemma RulesAccepted(facts: seq<RuleRead>, interfaces: seq<string>)
    ensures (RuleSteps(facts).errors == [] && Classify(RuleSteps(facts).parsed, interfaces) == []) <==>
            State(facts, Expected(interfaces))
  {
    RuleStepsMean(facts);
    ClassifyEmpty(RuleSteps(facts).parsed, interfaces);
    if State(facts, Expected(interfaces)) { StatedRulesRead(facts, Expected(interfaces)); }
  }

  lemma OwnedAccepted(s: Scan, interfaces: seq<string>)
    requires s.Scan?
    ensures OwnedErrors(s, interfaces) == [] <==>
      && s.errors == []
      && |s.tables| == 1 && GoodTable(s.tables[0])
      && |s.chains| == 1 && GoodChain(s.chains[0])
      && State(Reads(s.rules), Expected(interfaces))
  {
    if |s.tables| == 1 && |s.chains| == 1 {
      ChainErrorsEmpty(s.chains[0], s.errors);
      RulesAccepted(Reads(s.rules), interfaces);
    }
  }

  /** Acceptance is exact: a ruleset is accepted for a list of interfaces exactly when every
      object is well formed, no decoy stands beside the guard, and the owned objects are one
      good table, one good chain, and rules that state the expected sequence in order under
      distinct handles. */
  lemma AcceptExact(document: Json, interfaces: seq<string>)
    ensures ModelErrors(document, interfaces) == [] <==>
      Envelope(document).Ok? && Installed(Envelope(document).value, interfaces)
  {
    if Envelope(document).Ok? {
      var items := Envelope(document).value;
      ScanMeans(items);
      var s := ScanItems(items);
      if s.Scan? { OwnedAccepted(s, interfaces); }
    }
  }

  /** No ruleset is accepted for two different lists of interfaces. */
  lemma AcceptedForOne(document: Json, a: seq<string>, b: seq<string>)
    requires ModelErrors(document, a) == [] && ModelErrors(document, b) == []
    ensures a == b
  {
    AcceptExact(document, a);
    AcceptExact(document, b);
    var facts := Reads(OwnedOf(Envelope(document).value, "rule"));
    StatedRulesRead(facts, Expected(a));
    StatedRulesRead(facts, Expected(b));
    ExpectedInjective(a, b);
  }

  /** What an accepted guard does to traffic: its rules, read in listed order, drop exactly
      the denied ports on exactly the declared interfaces. */
  lemma AcceptedDecides(document: Json, interfaces: seq<string>, interface: string, port: int)
    requires ModelErrors(document, interfaces) == []
    ensures Decide(RuleSteps(Reads(OwnedOf(Envelope(document).value, "rule"))).parsed, interface, port)
         == if interface in interfaces && port in DENIED_PORTS then Drop else Accept
  {
    AcceptExact(document, interfaces);
    StatedRulesRead(Reads(OwnedOf(Envelope(document).value, "rule")), Expected(interfaces));
    PermutationsDecideAlike(Expected(interfaces), interfaces, interface, port);
  }

  // --------------------------------------------------------------------------
  // Absence

  predicate NoTrace(items: seq<Item>) {
    forall item :: item in items ==> WellFormed(item) && !Preexisting(item) && !Collides(item)
  }

  lemma {:induction false} AbsenceMeans(items: seq<Item>)
    ensures AbsenceItems(items) == Absence([]) <==> NoTrace(items)
  {
    if items != [] {
      var front, last := items[..|items| - 1], items[|items| - 1];
      AbsenceMeans(front);
      assert items == front + [last];
      assert NoTrace(items) <==> NoTrace(front) && WellFormed(last) && !Preexisting(last) && !Collides(last);
    }
  }

  lemma {:induction false} DeduplicatedEmpty(errors: seq<Token>)
    ensures Deduplicated(errors) == [] <==> errors == []
  {
    if errors != [] {
      assert errors[|errors| - 1] in Note(Deduplicated(errors[..|errors| - 1]), errors[|errors| - 1], true);
    }
  }

  /** Absence is exact: every object is well formed and none carries the owned identity. */
  lemma AbsenceExact(document: Json)
    ensures AbsenceErrors(document) == [] <==> Envelope(document).Ok? && NoTrace(Envelope(document).value)
  {
    if Envelope(document).Ok? {
      var items := Envelope(document).value;
      AbsenceMeans(items);
      if AbsenceItems(items).Absence? { DeduplicatedEmpty(AbsenceItems(items).errors); }
    }
  }

  // --------------------------------------------------------------------------
  // Documents

  function Listed(item: Item): Json {
    Object(map[item.kind := item.body])
  }

  function ListedAll(items: seq<Item>): (listed: seq<Json>)
    ensures |listed| == |items| && forall i :: 0 <= i < |items| ==> listed[i] == Listed(items[i])
  {
    seq(|items|, i requires 0 <= i < |items| => Listed(items[i]))
  }

  /** The document that lists the metainfo and then the given objects. */
  function DocumentOf(metainfo: Json, items: seq<Item>): Json {
    Object(map["nftables" := List([Listed(Item("metainfo", metainfo))] + ListedAll(items))])
  }

  predicate Listable(metainfo: Json, items: seq<Item>) {
    MetainfoOk(metainfo) && forall item :: item in items ==> item.kind != "metainfo"
  }

  lemma ListedItem(item: Item)
    ensures Single(Listed(item)) && ItemOf(Listed(item)) == item
  {
    OneKey(item.kind, item.body);
    SingleKey(Listed(item).fields);
    var back := ItemOf(Listed(item));
    assert back.kind in Listed(item).fields;
  }

  lemma ListedOpens(listed: seq<Json>, all: seq<Item>)
    requires |listed| == |all| && forall i :: 0 <= i < |all| ==> listed[i] == Listed(all[i])
    ensures AllSingle(listed) && ItemsOf(listed) == all
  {
    forall i | 0 <= i < |all| ensures Single(listed[i]) && ItemOf(listed[i]) == all[i] { ListedItem(all[i]); }
    assert AllSingle(listed);
  }

  /** A document of listable objects is opened to those objects. */
  lemma EnvelopeOfDocument(metainfo: Json, items: seq<Item>)
    requires Listable(metainfo, items)
    ensures Envelope(DocumentOf(metainfo, items)) == Ok(items)
  {
    var document := DocumentOf(metainfo, items);
    assert document.fields.Keys == {"nftables"};
    var all := [Item("metainfo", metainfo)] + items;
    var listed := document.fields["nftables"].items;
    forall i | 0 <= i < |all| ensures listed[i] == Listed(all[i]) {}
    ListedOpens(listed, all);
    assert all[1..] == items;
    forall i | 1 <= i < |all| ensures all[i].kind != "metainfo" { assert all[i] in items; }
  }

  lemma ItemListed(j: Json)
    requires Single(j)
    ensures Listed(ItemOf(j)) == j
  {
    SingleKey(j.fields);
  }

  /** What an opened envelope held. */
  lemma EnvelopeHeld(document: Json) returns (listed: seq<Json>)
    requires Envelope(document).Ok?
    ensures document == Object(map["nftables" := List(listed)]) && |listed| == 1 + |Envelope(document).value|
    ensures forall i :: 0 <= i < |listed| ==> Single(listed[i])
    ensures ItemOf(listed[0]).kind == "metainfo" && MetainfoOk(ItemOf(listed[0]).body)
    ensures forall i :: 0 <= i < |Envelope(document).value| ==>
      Envelope(document).value[i] == ItemOf(listed[i + 1]) && ItemOf(listed[i + 1]).kind != "metainfo"
  {
    listed := document.fields["nftables"].items;
    assert document.fields == map["nftables" := List(listed)];
    assert forall i :: 0 <= i < |listed| ==> Single(listed[i]);
    assert AllSingle(listed) && Envelope(document).value == ItemsOf(listed)[1..];
  }

  /** Every document whose envelope opens is the listing of what it opens to. */
  lemma DocumentOfEnvelope(document: Json)
    requires Envelope(document).Ok?
    ensures exists metainfo ::
      Listable(metainfo, Envelope(document).value) && document == DocumentOf(metainfo, Envelope(document).value)
  {
    var listed := EnvelopeHeld(document);
    var items := Envelope(document).value;
    ListedBack(listed, items);
    var metainfo := ItemOf(listed[0]).body;
    assert Listable(metainfo, items) && document == DocumentOf(metainfo, items);
  }

  lemma ListedBack(listed: seq<Json>, items: seq<Item>)
    requires |listed| == 1 + |items| && forall i :: 0 <= i < |listed| ==> Single(listed[i])
    requires ItemOf(listed[0]).kind == "metainfo"
    requires forall i :: 0 <= i < |items| ==> items[i] == ItemOf(listed[i + 1])
    ensures listed == [Listed(Item("metainfo", ItemOf(listed[0]).body))] + ListedAll(items)
  {
    ItemListed(listed[0]);
    forall i | 0 <= i < |items| ensures ListedAll(items)[i] == listed[i + 1] { ItemListed(listed[i + 1]); }
  }

  // --------------------------------------------------------------------------
  // Installing

  function TableBody(handle: int): Body {
    map["family" := Str(OWNED_FAMILY), "name" := Str(OWNED_TABLE), "handle" := Int(handle)]
  }

  function ChainBody(handle: int): Body {
    map["family" := Str(OWNED_FAMILY), "table" := Str(OWNED_TABLE), "name" := Str(OWNED_CHAIN), "handle" := Int(handle),
        "type" := Str("filter"), "hook" := Str("input"), "prio" := Int(CHAIN_PRIORITY), "policy" := Str("accept")]
  }

  function RuleBody(expr: Json, handle: int): Body {
    map["family" := Str(OWNED_FAMILY), "table" := Str(OWNED_TABLE), "chain" := Str(OWNED_CHAIN),
        "handle" := Int(handle),
        "expr" := expr]
  }

  predicate Handle(n: int) { 1 <= n <= MAX_UINT64 }

  /** A kernel's readings of a rule: its handle and its counters. */
  datatype Reading = Reading(handle: int, packets: int, bytes: int)

  predicate GoodReading(m: Reading) {
    Handle(m.handle) && InRange(m.packets) && InRange(m.bytes)
  }

  function RuleBodies(rules: seq<Rule>, readings: seq<Reading>): (bodies: seq<Body>)
    requires |rules| == |readings|
    ensures |bodies| == |rules|
  {
    seq(|rules|, i requires 0 <= i < |rules| =>
      RuleBody(RuleExpr(rules[i], readings[i].packets, readings[i].bytes), readings[i].handle))
  }

  lemma TableBodyGood(handle: int)
    requires Handle(handle)
    ensures GoodTable(TableBody(handle))
  {
    assert TableBody(handle).Keys == {"family", "name", "handle"};
  }

  lemma ChainBodyGood(handle: int)
    requires Handle(handle)
    ensures GoodChain(ChainBody(handle))
  {
    assert ChainBody(handle).Keys == {"family", "table", "name", "handle", "type", "hook", "prio", "policy"};
  }

  lemma RuleBodyShape(expr: Json, handle: int)
    requires Handle(handle)
    ensures ReadRule(RuleBody(expr, handle)) == Placed(handle, ParseRuleExpr(expr))
    ensures expr.List? ==> OwnRule(RuleBody(expr, handle))
  {
    assert RuleBody(expr, handle).Keys == {"family", "table", "chain", "handle", "expr"};
  }

  lemma RuleBodyRead(r: Rule, m: Reading)
    requires Plain(r.interface) && GoodReading(m)
    ensures ReadRule(RuleBody(RuleExpr(r, m.packets, m.bytes), m.handle)) == Placed(m.handle, Ok(r))
  {
    var expr := RuleExpr(r, m.packets, m.bytes);
    assert Expresses(expr, r, m.packets, m.bytes);
    ParseRuleExact(expr, r);
    RuleBodyShape(expr, m.handle);
  }

  predicate HandlesDistinct(readings: seq<Reading>) {
    forall i, j :: 0 <= i < j < |readings| ==> readings[i].handle != readings[j].handle
  }

  lemma RuleBodiesState(rules: seq<Rule>, readings: seq<Reading>)
    requires |rules| == |readings| && HandlesDistinct(readings)
    requires forall r :: r in rules ==> Plain(r.interface)
    requires forall m :: m in readings ==> GoodReading(m)
    ensures State(Reads(RuleBodies(rules, readings)), rules)
  {
    var facts := Reads(RuleBodies(rules, readings));
    forall i | 0 <= i < |rules| ensures facts[i] == Placed(readings[i].handle, Ok(rules[i])) {
      RuleBodyRead(rules[i], readings[i]);
    }
  }

  lemma AllowedPlain(name: string)
    requires AdminIngress.Allowed(name)
    ensures Plain(name)
  {
    assert !AdminIngress.NameChar('*') && !AdminIngress.NameChar('\\');
  }

  lemma {:induction false} UnownedKeeps(items: seq<Item>, item: Item)
    ensures item in Unowned(items) <==> item in items && !Owned(item)
  {
    if items != [] {
      var front, last := items[..|items| - 1], items[|items| - 1];
      UnownedKeeps(front, item);
      assert items == front + [last];
    }
  }

  /** The objects of a freshly loaded guard, and the kernel's readings of them. */
  predicate Loaded(items: seq<Item>, interfaces: seq<string>, table: int, chain: int, readings: seq<Reading>) {
    && Handle(table) && Handle(chain) && HandlesDistinct(readings) && (forall m :: m in readings ==> GoodReading(m))
    && |readings| == |Expected(interfaces)|
    && OwnedOf(items, "table") == [TableBody(table)] && OwnedOf(items, "chain") == [ChainBody(chain)]
    && OwnedOf(items, "rule") == RuleBodies(Expected(interfaces), readings)
  }

  lemma LoadedInstalled(before: seq<Item>, after: seq<Item>, interfaces: seq<string>,
                        table: int, chain: int, readings: seq<Reading>)
    requires NoTrace(before) && Unowned(after) == before
    requires Loaded(after, interfaces, table, chain, readings)
    requires forall name :: name in interfaces ==> Plain(name)
    ensures Installed(after, interfaces)
  {
    forall item | item in after ensures WellFormed(item) && !Collides(item) && !Foreign(item) {
      UnownedKeeps(after, item);
    }
    TableBodyGood(table);
    ChainBodyGood(chain);
    forall r | r in Expected(interfaces) ensures Plain(r.interface) { ExpectedMembers(interfaces, r); }
    RuleBodiesState(Expected(interfaces), readings);
  }

  /** Applying the guard: whatever interfaces a contract declares, and wherever the guard's
      own objects come to stand among the objects of a ruleset without a trace of it, the
      ruleset with them is accepted for those interfaces. */
  lemma InstallAccepted(before: Json, after: Json, contract: string, table: int, chain: int, readings: seq<Reading>)
    requires AdminIngress.ReadContract(contract).Ok?
    requires AbsenceErrors(before) == []
    requires Envelope(before).Ok? && Envelope(after).Ok? && Unowned(Envelope(after).value) == Envelope(before).value
    requires Loaded(Envelope(after).value, AdminIngress.ReadContract(contract).value, table, chain, readings)
    ensures ModelErrors(after, AdminIngress.ReadContract(contract).value) == []
  {
    var interfaces := AdminIngress.ReadContract(contract).value;
    AdminIngress.AcceptedInterfaces(contract);
    forall name | name in interfaces ensures Plain(name) { AllowedPlain(name); }
    AbsenceExact(before);
    LoadedInstalled(Envelope(before).value, Envelope(after).value, interfaces, table, chain, readings);
    AcceptExact(after, interfaces);
  }

  // --------------------------------------------------------------------------
  // Removing and reordering

  /** A table of another name that also carries a `table` member of the owned name: the
      ruleset check never looks at that member, the absence check does. */
  predicate Impostor(item: Item) {
    WellFormed(item) && item.kind == "table" && !OwnedTable(item) && Has(item.body.fields, "table", OWNED_TABLE)
  }

  predicate NoImpostor(items: seq<Item>) {
    forall item :: item in items ==> !Impostor(item)
  }

  lemma RemovedTrace(items: seq<Item>)
    requires AllWellFormed(items) && NoDecoys(items)
    ensures NoTrace(Unowned(items)) <==> NoImpostor(items)
  {
    var rest := Unowned(items);
    if NoTrace(rest) {
      forall item | item in items ensures !Impostor(item) {
        UnownedKeeps(items, item);
        assert Impostor(item) ==> !Owned(item) && Preexisting(item);
      }
    }
    if NoImpostor(items) {
      forall item | item in rest ensures WellFormed(item) && !Preexisting(item) && !Collides(item) {
        UnownedKeeps(items, item);
        assert Preexisting(item) ==> Owned(item) || Foreign(item) || Impostor(item);
      }
    }
  }

  /** Rolling back: deleting the owned objects of an accepted ruleset restores absence
      exactly when no impostor table was listed. */
  lemma RemovalRestoresAbsence(before: Json, after: Json, interfaces: seq<string>)
    requires ModelErrors(before, interfaces) == []
    requires Envelope(before).Ok? && Envelope(after) == Ok(Unowned(Envelope(before).value))
    ensures AbsenceErrors(after) == [] <==> NoImpostor(Envelope(before).value)
  {
    AcceptExact(before, interfaces);
    RemovedTrace(Envelope(before).value);
    AbsenceExact(after);
  }

  /** Applying and then rolling back: a guard loaded over a ruleset without a trace never
      stands beside an impostor, and removing it restores absence. */
  lemma InstallThenRemove(before: Json, after: Json, removed: Json)
    requires AbsenceErrors(before) == []
    requires Envelope(before).Ok? && Envelope(after).Ok? && Unowned(Envelope(after).value) == Envelope(before).value
    requires Envelope(removed) == Ok(Unowned(Envelope(after).value))
    ensures NoImpostor(Envelope(after).value)
    ensures AbsenceErrors(removed) == []
  {
    AbsenceExact(before);
    AbsenceExact(removed);
    forall item | item in Envelope(after).value ensures !Impostor(item) {
      UnownedKeeps(Envelope(after).value, item);
      assert Impostor(item) ==> Preexisting(item) && !Owned(item);
    }
  }

  predicate SameOwned(a: seq<Item>, b: seq<Item>) {
    OwnedOf(a, "table") == OwnedOf(b, "table") && OwnedOf(a, "chain") == OwnedOf(b, "chain") &&
    OwnedOf(a, "rule") == OwnedOf(b, "rule")
  }

  /** Two rulesets with the same owned objects in the same order, and the same other objects
      in any order and any place between them, get the same verdict. */
  lemma OrderOfOthersIrrelevant(a: Json, b: Json, interfaces: seq<string>)
    requires Envelope(a).Ok? && Envelope(b).Ok?
    requires SameOwned(Envelope(a).value, Envelope(b).value)
    requires multiset(Unowned(Envelope(a).value)) == multiset(Unowned(Envelope(b).value))
    ensures ModelErrors(a, interfaces) == [] <==> ModelErrors(b, interfaces) == []
  {
    AcceptExact(a, interfaces);
    AcceptExact(b, interfaces);
    SameOthers(Envelope(a).value, Envelope(b).value);
    SameOthers(Envelope(b).value, Envelope(a).value);
  }

  lemma SameOthers(a: seq<Item>, b: seq<Item>)
    requires multiset(Unowned(a)) == multiset(Unowned(b))
    ensures AllWellFormed(a) && NoDecoys(a) ==> AllWellFormed(b) && NoDecoys(b)
  {
    if AllWellFormed(a) && NoDecoys(a) {
      forall item | item in b ensures WellFormed(item) && !Collides(item) && !Foreign(item) {
        UnownedKeeps(a, item);
        UnownedKeeps(b, item);
        assert item in Unowned(a) <==> item in multiset(Unowned(a));
        assert item in Unowned(b) <==> item in multiset(Unowned(b));
      }
    }
  }

  // --------------------------------------------------------------------------
  // The impostor, concretely

  const METAINFO: Json :=
    Object(map["version" := Str("1.0"), "release_name" := Str("release"), "json_schema_version" := Int(1)])

  const IMPOSTOR: Item :=
    Item("table", Object(
      map["family" := Str("ip"), "name" := Str("other"), "handle" := Int(1), "table" := Str(OWNED_TABLE)]))

  function TableItem(): Item { Item("table", Object(TableBody(2))) }

  function ChainItem(): Item { Item("chain", Object(ChainBody(3))) }

  /** The objects of a guard over a ruleset of the impostor alone. */
  function GuardItems(rules: seq<Body>): seq<Item> {
    if rules == [] then [IMPOSTOR, TableItem(), ChainItem()]
    else GuardItems(rules[..|rules| - 1]) + [Item("rule", Object(rules[|rules| - 1]))]
  }

  function Readings(n: nat): (readings: seq<Reading>)
    ensures |readings| == n && forall i :: 0 <= i < n ==> readings[i] == Reading(4 + i, 0, 0)
  {
    seq(n, i requires 0 <= i < n => Reading(4 + i, 0, 0))
  }

  predicate OwnRule(rule: Body) {
    IdentityValid("rule", rule) && Has(rule, "table", OWNED_TABLE)
  }

  predicate Guards(items: seq<Item>, rules: seq<Body>) {
    && OwnedOf(items, "rule") == rules
    && OwnedOf(items, "table") == [TableBody(2)] && OwnedOf(items, "chain") == [ChainBody(3)]
    && Unowned(items) == [IMPOSTOR] && AllWellFormed(items) && NoDecoys(items)
    && forall item :: item in items ==> item.kind != "metainfo"
  }

  lemma {:induction false} GuardItemsOwned(rules: seq<Body>)
    requires forall rule :: rule in rules ==> OwnRule(rule)
    ensures Guards(GuardItems(rules), rules)
  {
    if rules == [] {
      GuardBase(IMPOSTOR, TableItem(), ChainItem());
      var none: seq<Body> := [];
      assert rules == none;
    } else {
      var last := |rules| - 1;
      GuardItemsOwned(rules[..last]);
      assert OwnRule(rules[last]);
      AddRule(GuardItems(rules[..last]), rules[..last], rules[last]);
      assert rules == rules[..last] + [rules[last]];
    }
  }

  lemma AddRule(items: seq<Item>, rules: seq<Body>, rule: Body)
    requires Guards(items, rules) && OwnRule(rule)
    ensures Guards(items + [Item("rule", Object(rule))], rules + [rule])
  {
    var item := Item("rule", Object(rule));
    assert (items + [item])[..|items|] == items;
    assert OwnedRule(item);
  }

  lemma GuardBase(impostor: Item, table: Item, chain: Item)
    requires impostor == IMPOSTOR && table == TableItem() && chain == ChainItem()
    ensures Guards([impostor, table, chain], [])
    ensures Impostor(impostor)
  {
    assert OwnedTable(table) && !OwnedTable(impostor) by { assert "other" != OWNED_TABLE; }
    assert OwnedChain(chain);
    var three := [impostor, table, chain];
    GuardThree(impostor, table, chain, three);
  }

  lemma ThreeOf(a: Item, b: Item, c: Item, kind: string)
    requires !Owned(a) && Owned(b) && Owned(c)
    ensures OwnedOf([a, b, c], kind)
         == (if b.kind == kind then [b.body.fields] else []) + (if c.kind == kind then [c.body.fields] else [])
    ensures Unowned([a, b, c]) == [a]
  {
    var none: seq<Item> := [];
    Extended(none, a, kind);
    Extended([a], b, kind);
    Extended([a, b], c, kind);
    assert none + [a] == [a] && [a] + [b] == [a, b] && [a, b] + [c] == [a, b, c];
  }

  lemma KindsDiffer()
    ensures "table" != "chain" && "table" != "rule" && "chain" != "rule"
  {
    assert "table"[0] == 't' && "chain"[0] == 'c' && "rule"[0] == 'r';
  }

  lemma GuardThree(a: Item, b: Item, c: Item, three: seq<Item>)
    requires three == [a, b, c]
    requires Impostor(a) && OwnedTable(b) && OwnedChain(c)
    ensures OwnedOf(three, "rule") == [] && OwnedOf(three, "table") == [b.body.fields]
      && OwnedOf(three, "chain") == [c.body.fields]
    ensures Unowned(three) == [a]
  {
    KindsDiffer();
    assert !Owned(a) && Owned(b) && Owned(c);
    ThreeOf(a, b, c, "table");
    ThreeOf(a, b, c, "chain");
    ThreeOf(a, b, c, "rule");
  }

  /** Rollback can miss absence: for the interfaces of any contract there is an accepted
      ruleset from which deleting the guard leaves a ruleset the absence check rejects. */
  lemma RollbackCanMissAbsence(contract: string) returns (before: Json, after: Json)
    requires AdminIngress.ReadContract(contract).Ok?
    ensures ModelErrors(before, AdminIngress.ReadContract(contract).value) == []
    ensures Envelope(before).Ok? && Envelope(after) == Ok(Unowned(Envelope(before).value))
    ensures AbsenceErrors(after) != []
  {
    var interfaces := AdminIngress.ReadContract(contract).value;
    var items := ImpostorInstalled(contract, interfaces);
    assert MetainfoOk(METAINFO) by {
      assert METAINFO.fields.Keys == {"version", "release_name", "json_schema_version"};
    }
    before := DocumentOf(METAINFO, items);
    EnvelopeOfDocument(METAINFO, items);
    forall item | item in Unowned(items) ensures item.kind != "metainfo" { UnownedKeeps(items, item); }
    after := DocumentOf(METAINFO, Unowned(items));
    EnvelopeOfDocument(METAINFO, Unowned(items));
    AcceptExact(before, interfaces);
    RemovalRestoresAbsence(before, after, interfaces);
  }

  lemma PlainRules(contract: string, interfaces: seq<string>)
    requires AdminIngress.ReadContract(contract) == Ok(interfaces)
    ensures forall r :: r in Expected(interfaces) ==> Plain(r.interface)
  {
    AdminIngress.AcceptedInterfaces(contract);
    forall r | r in Expected(interfaces) ensures Plain(r.interface) {
      ExpectedMembers(interfaces, r);
      AllowedPlain(r.interface);
    }
  }

  lemma BodiesFor(sequence: seq<Rule>) returns (rules: seq<Body>)
    requires |sequence| < 1000 && forall r :: r in sequence ==> Plain(r.interface)
    ensures State(Reads(rules), sequence) && forall rule :: rule in rules ==> OwnRule(rule)
  {
    var readings := Readings(|sequence|);
    RuleBodiesState(sequence, readings);
    rules := RuleBodies(sequence, readings);
    RuleBodiesOwn(sequence, readings);
  }

  lemma RulesFor(contract: string, interfaces: seq<string>) returns (rules: seq<Body>)
    requires AdminIngress.ReadContract(contract) == Ok(interfaces)
    ensures State(Reads(rules), Expected(interfaces)) && forall rule :: rule in rules ==> OwnRule(rule)
  {
    AdminIngress.AcceptedInterfaces(contract);
    PlainRules(contract, interfaces);
    ExpectedLength(interfaces);
    rules := BodiesFor(Expected(interfaces));
  }

  lemma RuleBodiesOwn(rules: seq<Rule>, readings: seq<Reading>)
    requires |rules| == |readings| && forall m :: m in readings ==> GoodReading(m)
    ensures forall body :: body in RuleBodies(rules, readings) ==> OwnRule(body)
  {
    var bodies := RuleBodies(rules, readings);
    forall i | 0 <= i < |rules| ensures OwnRule(bodies[i]) {
      assert GoodReading(readings[i]);
      RuleBodyShape(RuleExpr(rules[i], readings[i].packets, readings[i].bytes), readings[i].handle);
    }
  }

  lemma ImpostorInstalled(contract: string, interfaces: seq<string>) returns (items: seq<Item>)
    requires AdminIngress.ReadContract(contract) == Ok(interfaces)
    ensures Installed(items, interfaces) && !NoImpostor(items)
    ensures forall item :: item in items ==> item.kind != "metainfo"
  {
    var rules := RulesFor(contract, interfaces);
    items := GuardItems(rules);
    GuardItemsOwned(rules);
    TableBodyGood(2);
    ChainBodyGood(3);
    GuardBase(IMPOSTOR, TableItem(), ChainItem());
    UnownedKeeps(items, IMPOSTOR);
    assert IMPOSTOR in Unowned(items);
  }

  lemma {:induction false} ExpectedLength(interfaces: seq<string>)
    ensures |Expected(interfaces)| == 5 * |interfaces|
  {
    if interfaces != [] { ExpectedLength(interfaces[..|interfaces| - 1]); }
  }
}
