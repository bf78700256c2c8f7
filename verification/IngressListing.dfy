/** The accepted listings, object by object: what a `nft -j list ruleset` document must hold for
    the guard to be accepted, and for its absence to be confirmed. */
module IngressListing {
  import opened Text
  import opened IngressRules
  import opened IngressGuard
  import opened IngressTransaction

  // --------------------------------------------------------------------------
  // Objects

  const LARGEST_HANDLE := 18446744073709551615

  predicate TextField(fields: Body, key: string) {
    key in fields && fields[key].Str? && fields[key].s != ""
  }

  predicate HandleField(fields: Body) {
    "handle" in fields && fields["handle"].Int? && 1 <= fields["handle"].n <= LARGEST_HANDLE
  }

  /** An object with the members that its kind must have. */
  predicate Whole(item: Item) {
    && item.body.Object?
    && var fields := item.body.fields;
       && (item.kind == "table" ==> TextField(fields, "family") && TextField(fields, "name") && HandleField(fields))
       && (item.kind == "chain" ==>
             TextField(fields, "family") && TextField(fields, "table") && TextField(fields, "name")
             && HandleField(fields))
       && (item.kind == "rule" ==>
             TextField(fields, "family") && TextField(fields, "table") && TextField(fields, "chain")
             && HandleField(fields) && "expr" in fields && fields["expr"].List?)
  }

  lemma WholeExact(item: Item)
    ensures WellFormed(item) <==> Whole(item)
  {
  }

  predicate Says(item: Item, key: string, value: string) {
    item.body.Object? && key in item.body.fields && item.body.fields[key] == Str(value)
  }

  /** Bound to the guard's table, or that table itself. */
  predicate Bears(item: Item, kind: string) {
    item.kind == kind && Says(item, if kind == "table" then "name" else "table", OWNED_TABLE)
  }

  /** A chain of the guard's name elsewhere, or an object of another kind in the guard's table. */
  predicate Decoy(item: Item) {
    || (item.kind == "chain" && !Says(item, "table", OWNED_TABLE) && Says(item, "name", OWNED_CHAIN))
    || (item.kind !in {"table", "chain", "rule"} && Says(item, "table", OWNED_TABLE))
  }

  lemma DecoyExact(item: Item)
    requires Whole(item)
    ensures Collides(item) || Foreign(item) <==> Decoy(item)
  {
    WholeExact(item);
  }

  lemma BearsExact(item: Item, kind: string)
    requires Whole(item) && kind in {"table", "chain", "rule"}
    ensures Owned(item) && item.kind == kind <==> Bears(item, kind)
  {
    WholeExact(item);
    assert "table" != "chain" && "table" != "rule" && "chain" != "rule";
  }

  function Bearing(items: seq<Item>, kind: string): seq<Body> {
    if items == [] then []
    else
      var last := items[|items| - 1];
      Bearing(items[..|items| - 1], kind) + if Bears(last, kind) then [last.body.fields] else []
  }

  predicate AllWhole(items: seq<Item>) {
    forall i :: 0 <= i < |items| ==> Whole(items[i])
  }

  lemma {:induction false} BearingExact(items: seq<Item>, kind: string)
    requires AllWhole(items) && kind in {"table", "chain", "rule"}
    ensures OwnedOf(items, kind) == Bearing(items, kind)
  {
    if items != [] {
      var front, last := items[..|items| - 1], items[|items| - 1];
      BearingExact(front, kind);
      assert Whole(items[|items| - 1]);
      BearsExact(last, kind);
    }
  }

  lemma AllWholeExact(items: seq<Item>)
    ensures AllWellFormed(items) <==> AllWhole(items)
  {
    forall item ensures WellFormed(item) <==> Whole(item) { WholeExact(item); }
    if AllWellFormed(items) {
      forall i | 0 <= i < |items| ensures Whole(items[i]) {
        assert items[i] in items;
      }
    }
  }

  ghost predicate Undecoyed(items: seq<Item>) {
    forall i :: 0 <= i < |items| ==> !Decoy(items[i])
  }

  lemma UndecoyedExact(items: seq<Item>)
    requires AllWhole(items)
    ensures NoDecoys(items) <==> Undecoyed(items)
  {
    forall i | 0 <= i < |items| ensures Collides(items[i]) || Foreign(items[i]) <==> Decoy(items[i]) {
      DecoyExact(items[i]);
    }
    if NoDecoys(items) {
      forall i | 0 <= i < |items| ensures !Decoy(items[i]) {
        assert items[i] in items;
      }
    }
  }

  // --------------------------------------------------------------------------
  // The guard

  predicate PlainNames(interfaces: seq<string>) {
    forall i :: 0 <= i < |interfaces| ==> Plain(interfaces[i])
  }

  predicate GoodReadings(readings: seq<Reading>) {
    HandlesDistinct(readings) && forall i :: 0 <= i < |readings| ==> GoodReading(readings[i])
  }

  /** One table, one chain and the expected rules in order, with readings of the kernel. */
  predicate GuardWith(items: seq<Item>, interfaces: seq<string>, table: int, chain: int, readings: seq<Reading>) {
    && 1 <= table <= LARGEST_HANDLE && 1 <= chain <= LARGEST_HANDLE && GoodReadings(readings)
    && Bearing(items, "table") == [TableBody(table)] && Bearing(items, "chain") == [ChainBody(chain)]
    && |readings| == |Expected(interfaces)| && Bearing(items, "rule") == RuleBodies(Expected(interfaces), readings)
  }

  /** The guard for these interfaces stands in a listing of whole objects without decoys. */
  ghost predicate GuardStands(items: seq<Item>, interfaces: seq<string>) {
    && AllWhole(items) && Undecoyed(items) && PlainNames(interfaces)
    && exists table, chain, readings :: GuardWith(items, interfaces, table, chain, readings)
  }

  lemma TableIs(body: Body)
    requires GoodTable(body) && Has(body, "name", OWNED_TABLE)
    ensures 1 <= body["handle"].n <= LARGEST_HANDLE && body == TableBody(body["handle"].n)
  {
    assert body.Keys == TableBody(body["handle"].n).Keys;
  }

  lemma ChainIs(body: Body)
    requires GoodChain(body) && Has(body, "table", OWNED_TABLE)
    ensures 1 <= body["handle"].n <= LARGEST_HANDLE && body == ChainBody(body["handle"].n)
  {
    assert body.Keys == ChainBody(body["handle"].n).Keys;
  }

  lemma RuleBodyIs(body: Body)
    requires RuleGrammar(body) && Has(body, "family", OWNED_FAMILY) && Has(body, "chain", OWNED_CHAIN)
    requires Has(body, "table", OWNED_TABLE)
    ensures 1 <= body["handle"].n <= LARGEST_HANDLE && body == RuleBody(body["expr"], body["handle"].n)
  {
    assert body.Keys == RuleBody(body["expr"], body["handle"].n).Keys;
  }

  /** A body states a rule: it is the rule's own expression in the guard's chain. */
  predicate StatesRule(body: Body, r: Rule, m: Reading) {
    GoodReading(m) && Plain(r.interface) && body == RuleBody(RuleExpr(r, m.packets, m.bytes), m.handle)
  }

  predicate PlacedAs(body: Body, r: Rule, handle: int) {
    ReadRule(body) == Placed(handle, Ok(r)) && Has(body, "table", OWNED_TABLE)
  }

  lemma RuleIs(body: Body, r: Rule, handle: int)
    requires PlacedAs(body, r, handle)
    ensures exists m :: StatesRule(body, r, m) && m.handle == handle
  {
    RuleBodyIs(body);
    ParseRuleExact(body["expr"], r);
    var packets, bytes :| Expresses(body["expr"], r, packets, bytes);
    assert StatesRule(body, r, Reading(handle, packets, bytes));
  }

  ghost function ReadingOf(body: Body, r: Rule, handle: int): (m: Reading)
    requires PlacedAs(body, r, handle)
    ensures StatesRule(body, r, m) && m.handle == handle
  {
    RuleIs(body, r, handle);
    var m :| StatesRule(body, r, m) && m.handle == handle;
    m
  }

  predicate AllPlaced(rules: seq<Body>, sequence: seq<Rule>, facts: seq<RuleRead>) {
    && |rules| == |sequence| == |facts|
    && forall i :: 0 <= i < |rules| ==> facts[i].Placed? && PlacedAs(rules[i], sequence[i], facts[i].handle)
  }

  predicate AllStated(rules: seq<Body>, sequence: seq<Rule>, readings: seq<Reading>, facts: seq<RuleRead>) {
    && |rules| == |sequence| == |readings| == |facts|
    && forall i :: 0 <= i < |rules| ==>
         facts[i].Placed? && StatesRule(rules[i], sequence[i], readings[i]) && readings[i].handle == facts[i].handle
  }

  lemma RulesAre(rules: seq<Body>, sequence: seq<Rule>, facts: seq<RuleRead>) returns (readings: seq<Reading>)
    requires AllPlaced(rules, sequence, facts)
    ensures AllStated(rules, sequence, readings, facts)
  {
    readings := seq(|rules|, i requires 0 <= i < |rules| && AllPlaced(rules, sequence, facts) =>
      ReadingOf(rules[i], sequence[i], facts[i].handle));
  }

  lemma {:induction false} BearingSays(items: seq<Item>, kind: string, i: nat)
    requires i < |Bearing(items, kind)|
    ensures Has(Bearing(items, kind)[i], if kind == "table" then "name" else "table", OWNED_TABLE)
  {
    var front := items[..|items| - 1];
    if i < |Bearing(front, kind)| { BearingSays(front, kind, i); }
  }

  lemma ExpectedPlain(interfaces: seq<string>)
    ensures (forall i :: 0 <= i < |Expected(interfaces)| ==> Plain(Expected(interfaces)[i].interface)) <==>
            PlainNames(interfaces)
  {
    var expected := Expected(interfaces);
    if forall i :: 0 <= i < |expected| ==> Plain(expected[i].interface) {
      forall i | 0 <= i < |interfaces| ensures Plain(interfaces[i]) {
        var r := Rule(interfaces[i], SSH_PORT, Accept);
        ExpectedMembers(interfaces, r);
        var k :| 0 <= k < |expected| && expected[k] == r;
        assert Plain(expected[k].interface);
      }
    }
    if PlainNames(interfaces) {
      forall i | 0 <= i < |expected| ensures Plain(expected[i].interface) {
        ExpectedMembers(interfaces, expected[i]);
        var k :| 0 <= k < |interfaces| && interfaces[k] == expected[i].interface;
        assert Plain(interfaces[k]);
      }
    }
  }

  lemma InstalledStands(items: seq<Item>, interfaces: seq<string>)
    requires Installed(items, interfaces)
    ensures GuardStands(items, interfaces)
  {
    AllWholeExact(items);
    UndecoyedExact(items);
    BearingExact(items, "table");
    BearingExact(items, "chain");
    BearingExact(items, "rule");
    BearingSays(items, "table", 0);
    BearingSays(items, "chain", 0);
    TableIs(Bearing(items, "table")[0]);
    ChainIs(Bearing(items, "chain")[0]);
    RulesStand(items, interfaces,
               Bearing(items, "table")[0]["handle"].n, Bearing(items, "chain")[0]["handle"].n);
  }

  lemma RulesStand(items: seq<Item>, interfaces: seq<string>, table: int, chain: int)
    requires AllWhole(items) && Undecoyed(items)
    requires 1 <= table <= LARGEST_HANDLE && 1 <= chain <= LARGEST_HANDLE
    requires Bearing(items, "table") == [TableBody(table)] && Bearing(items, "chain") == [ChainBody(chain)]
    requires State(Reads(Bearing(items, "rule")), Expected(interfaces))
    ensures GuardStands(items, interfaces)
  {
    var rules, expected := Bearing(items, "rule"), Expected(interfaces);
    var facts := Reads(rules);
    forall i | 0 <= i < |rules| ensures facts[i].Placed? && PlacedAs(rules[i], expected[i], facts[i].handle) {
      BearingSays(items, "rule", i);
      assert facts[i] == ReadRule(rules[i]);
    }
    var readings := RulesAre(rules, expected, facts);
    assert rules == RuleBodies(expected, readings);
    ExpectedPlain(interfaces);
    assert GuardWith(items, interfaces, table, chain, readings);
  }

  lemma ReadingsState(interfaces: seq<string>, readings: seq<Reading>)
    requires PlainNames(interfaces) && GoodReadings(readings) && |readings| == |Expected(interfaces)|
    ensures State(Reads(RuleBodies(Expected(interfaces), readings)), Expected(interfaces))
  {
    forall r | r in Expected(interfaces) ensures Plain(r.interface) {
      ExpectedMembers(interfaces, r);
      var k :| 0 <= k < |interfaces| && interfaces[k] == r.interface;
      assert Plain(interfaces[k]);
    }
    forall m | m in readings ensures GoodReading(m) {
      var i :| 0 <= i < |readings| && readings[i] == m;
    }
    RuleBodiesState(Expected(interfaces), readings);
  }

  lemma StandsInstalled(items: seq<Item>, interfaces: seq<string>, table: int, chain: int, readings: seq<Reading>)
    requires AllWhole(items) && Undecoyed(items) && PlainNames(interfaces)
    requires GuardWith(items, interfaces, table, chain, readings)
    ensures Installed(items, interfaces)
  {
    AllWholeExact(items);
    UndecoyedExact(items);
    BearingExact(items, "table");
    BearingExact(items, "chain");
    BearingExact(items, "rule");
    TableBodyGood(table);
    ChainBodyGood(chain);
    ReadingsState(interfaces, readings);
  }

  // --------------------------------------------------------------------------
  // Documents

  predicate Metainfo(j: Json, version: string, release: string) {
    && version != "" && release != ""
    && j == Object(map["version" := Str(version), "release_name" := Str(release), "json_schema_version" := Int(1)])
  }

  /** A document that lists a metainfo and then these objects. */
  ghost predicate Lists(document: Json, items: seq<Item>) {
    && (forall i :: 0 <= i < |items| ==> items[i].kind != "metainfo")
    && exists metainfo, version, release ::
         Metainfo(metainfo, version, release) && document == DocumentOf(metainfo, items)
  }

  lemma MetainfoExact(j: Json)
    ensures MetainfoOk(j) <==> exists version, release :: Metainfo(j, version, release)
  {
    if MetainfoOk(j) {
      var version, release := j.fields["version"].s, j.fields["release_name"].s;
      var spelled := map["version" := Str(version), "release_name" := Str(release), "json_schema_version" := Int(1)];
      assert j.fields.Keys == spelled.Keys;
      assert Metainfo(j, version, release);
    }
    if version, release :| Metainfo(j, version, release) {
      assert j.fields.Keys == {"version", "release_name", "json_schema_version"};
    }
  }

  lemma ListsExact(document: Json, items: seq<Item>)
    ensures Envelope(document) == Ok(items) <==> Lists(document, items)
  {
    if Envelope(document) == Ok(items) {
      DocumentOfEnvelope(document);
      var metainfo :| Listable(metainfo, items) && document == DocumentOf(metainfo, items);
      MetainfoExact(metainfo);
      forall i | 0 <= i < |items| ensures items[i].kind != "metainfo" {
        assert items[i] in items;
      }
    }
    if Lists(document, items) {
      var metainfo, version, release :|
        Metainfo(metainfo, version, release) && document == DocumentOf(metainfo, items);
      MetainfoExact(metainfo);
      forall item | item in items ensures item.kind != "metainfo" {
        var i :| 0 <= i < |items| && items[i] == item;
      }
      EnvelopeOfDocument(metainfo, items);
    }
  }

  /** A document is accepted for interfaces exactly when it lists whole objects among which the
      guard for them stands: its table, its chain and its rules in order, each as it is written. */
  lemma AcceptedListing(document: Json, interfaces: seq<string>)
    ensures ModelErrors(document, interfaces) == [] <==>
            exists items :: Lists(document, items) && GuardStands(items, interfaces)
  {
    AcceptExact(document, interfaces);
    if ModelErrors(document, interfaces) == [] {
      var items := Envelope(document).value;
      ListsExact(document, items);
      InstalledStands(items, interfaces);
    }
    if items :| Lists(document, items) && GuardStands(items, interfaces) {
      ListsExact(document, items);
      var table, chain, readings :| GuardWith(items, interfaces, table, chain, readings);
      StandsInstalled(items, interfaces, table, chain, readings);
    }
  }

  /** An object that neither is the guard's table or in it nor is a chain of the guard's name. */
  predicate Bystander(item: Item) {
    && Whole(item) && !Says(item, "table", OWNED_TABLE)
    && (item.kind == "table" ==> !Says(item, "name", OWNED_TABLE))
    && (item.kind == "chain" ==> !Says(item, "name", OWNED_CHAIN))
  }

  lemma BystanderExact(item: Item)
    ensures WellFormed(item) && !Preexisting(item) && !Collides(item) <==> Bystander(item)
  {
    WholeExact(item);
  }

  /** Absence is confirmed exactly for a document that lists bystanders only. */
  lemma AbsentListing(document: Json)
    ensures AbsenceErrors(document) == [] <==>
            exists items :: Lists(document, items) && forall i :: 0 <= i < |items| ==> Bystander(items[i])
  {
    AbsenceExact(document);
    forall item ensures WellFormed(item) && !Preexisting(item) && !Collides(item) <==> Bystander(item) {
      BystanderExact(item);
    }
    if AbsenceErrors(document) == [] {
      var items := Envelope(document).value;
      ListsExact(document, items);
      forall i | 0 <= i < |items| ensures Bystander(items[i]) {
        assert items[i] in items;
      }
    }
    if items :| Lists(document, items) && forall i :: 0 <= i < |items| ==> Bystander(items[i]) {
      ListsExact(document, items);
      assert NoTrace(items);
    }
  }

  predicate Holds(fields: Body, key: string, value: Json) {
    key in fields && fields[key] == value
  }

  lemma Reported(errors: seq<Token>, noted: Token, failing: bool, token: Token)
    ensures token in If(errors, noted, failing) <==> token in errors || (failing && token == noted)
  {
  }

  lemma ChainReported(chain: Body, token: Token)
    ensures token in ChainErrors(chain, []) <==>
            || (token == ChainGrammarUnsupported && !ChainGrammar(chain))
            || (token == ChainMissing && !Has(chain, "name", OWNED_CHAIN))
            || (token == TableFamilyInvalid && !Has(chain, "family", OWNED_FAMILY))
            || (token == ChainTypeInvalid && !Has(chain, "type", "filter"))
            || (token == HookInvalid && !Has(chain, "hook", "input"))
            || (token == PriorityInvalid && !("prio" in chain && chain["prio"] == Int(CHAIN_PRIORITY)))
            || (token == PolicyInvalid && !Has(chain, "policy", "accept"))
  {
    var e1 := If([], ChainGrammarUnsupported, !ChainGrammar(chain));
    var e2 := If(e1, ChainMissing, !Has(chain, "name", OWNED_CHAIN));
    var e3 := If(e2, TableFamilyInvalid, !Has(chain, "family", OWNED_FAMILY));
    var e4 := If(e3, ChainTypeInvalid, !Has(chain, "type", "filter"));
    var e5 := If(e4, HookInvalid, !Has(chain, "hook", "input"));
    var e6 := If(e5, PriorityInvalid, !("prio" in chain && chain["prio"] == Int(CHAIN_PRIORITY)));
    Reported([], ChainGrammarUnsupported, !ChainGrammar(chain), token);
    Reported(e1, ChainMissing, !Has(chain, "name", OWNED_CHAIN), token);
    Reported(e2, TableFamilyInvalid, !Has(chain, "family", OWNED_FAMILY), token);
    Reported(e3, ChainTypeInvalid, !Has(chain, "type", "filter"), token);
    Reported(e4, HookInvalid, !Has(chain, "hook", "input"), token);
    Reported(e5, PriorityInvalid, !("prio" in chain && chain["prio"] == Int(CHAIN_PRIORITY)), token);
    Reported(e6, PolicyInvalid, !Has(chain, "policy", "accept"), token);
  }

  /** Each error of a chain is reported exactly for its own member. */
  lemma ChainErrorsListed(chain: Body, token: Token)
    ensures token in ChainErrors(chain, []) <==>
            match token
            case ChainGrammarUnsupported =>
              !HandleField(chain)
              || chain.Keys != {"family", "table", "name", "handle", "type", "hook", "prio", "policy"}
            case ChainMissing => !Holds(chain, "name", Str("admin_ingress"))
            case TableFamilyInvalid => !Holds(chain, "family", Str("inet"))
            case ChainTypeInvalid => !Holds(chain, "type", Str("filter"))
            case HookInvalid => !Holds(chain, "hook", Str("input"))
            case PriorityInvalid => !Holds(chain, "prio", Int(-10))
            case PolicyInvalid => !Holds(chain, "policy", Str("accept"))
            case _ => false
  {
    ChainReported(chain, token);
  }

  /** What becomes of the table: its errors end the check before the chain is looked at. */
  lemma TableErrors(s: Scan, interfaces: seq<string>)
    requires s.Scan?
    ensures s.tables == [] ==> OwnedErrors(s, interfaces) == s.errors + [TableMissing]
    ensures |s.tables| > 1 ==> OwnedErrors(s, interfaces) == s.errors + [TableDuplicate]
    ensures |s.tables| == 1 ==>
      var table := s.tables[0];
      var keyed := table.Keys == {"family", "name", "handle"} && HandleField(table);
      && (!keyed ==> OwnedErrors(s, interfaces) == s.errors + [TableGrammarUnsupported])
      && (keyed && !Holds(table, "family", Str("inet")) ==>
            OwnedErrors(s, interfaces) == s.errors + [TableFamilyInvalid])
      && (keyed && Holds(table, "family", Str("inet")) && s.chains == [] ==>
            OwnedErrors(s, interfaces) == s.errors + [ChainMissing])
      && (keyed && Holds(table, "family", Str("inet")) && |s.chains| > 1 ==>
            OwnedErrors(s, interfaces) == s.errors + [ChainUnexpected])
  {
  }
}
