/** The hosts that pass the network gate, told from what iproute2 reports alone: the policy
    rules, the addresses on known links, and each route by itself. */
module PiNetworkHosts {
  import opened Text
  import opened PiNetwork

  // --------------------------------------------------------------------------
  // Blocks and tables

  /** The aligned block of `2^(32 - prefix)` addresses that holds `a`. */
  predicate BlockOf(n: Network, a: int, prefix: Prefix) {
    n.prefix == prefix && n.base % Size(prefix) == 0 && n.base <= a < n.base + Size(prefix)
  }

  lemma BlockExact(n: Network, a: Address, prefix: Prefix)
    ensures n == NetworkOf(a, prefix) <==> BlockOf(n, a, prefix)
  {
    NetworkOfValid(a, prefix);
    ContainsInterval(NetworkOf(a, prefix), a);
    if BlockOf(n, a, prefix) {
      ContainsInterval(n, a);
    }
  }

  ghost predicate SameBlock(a: Address, b: Address, prefix: Prefix) {
    exists n :: BlockOf(n, a, prefix) && BlockOf(n, b, prefix)
  }

  lemma SameBlockExact(a: Address, b: Address, prefix: Prefix)
    ensures Contains(NetworkOf(a, prefix), b) <==> SameBlock(a, b, prefix)
  {
    BlockExact(NetworkOf(a, prefix), a, prefix);
    BlockExact(NetworkOf(b, prefix), b, prefix);
    if n :| BlockOf(n, a, prefix) && BlockOf(n, b, prefix) {
      BlockExact(n, a, prefix);
      BlockExact(n, b, prefix);
    }
  }

  predicate KnownTable(number: int, name: string) {
    (number == 253 && name == "default") || (number == 254 && name == "main") || (number == 255 && name == "local")
  }

  /** The digits that stand for a table's number. */
  predicate KnownDigits(text: string, name: string) {
    (text == "253" && name == "default") || (text == "254" && name == "main") || (text == "255" && name == "local")
  }

  ghost predicate NameGiven(text: string, name: string) {
    exists core :: Stripped(text, core) && SmallOf(core, name)
  }

  /** A table by its number, by the digits of it, or by its name with white space around it. */
  ghost predicate TableNamed(table: Table, name: string) {
    match table
    case Numbered(number) => KnownTable(number, name)
    case Named(text) => KnownDigits(text, name) || NameGiven(text, name)
    case Untyped => false
  }

  /** All small letters. */
  predicate Small(name: string) {
    forall i :: 0 <= i < |name| ==> 'a' <= name[i] <= 'z'
  }

  lemma NamesSmall()
    ensures Small("local") && Small("main") && Small("default")
  {
  }

  lemma NameExact(text: string, name: string)
    ensures Lower(Trim(text)) == name <==> NameGiven(text, name)
  {
    StripExact(text, Trim(text));
    SmallExact(Trim(text), name);
    if core :| Stripped(text, core) && SmallOf(core, name) {
      StripExact(text, core);
    }
  }

  /** Digits are no name. */
  lemma DigitsNoName(text: string, name: string)
    requires Small(name) && text != "" && '0' <= text[0] <= '9' && '0' <= text[|text| - 1] <= '9'
    ensures !NameGiven(text, name)
  {
    TrimExact(text);
    forall core | Stripped(text, core) ensures !SmallOf(core, name) {
      StripExact(text, core);
      if |text| == |name| { assert !SmallAt(text, name, 0); }
    }
  }

  lemma TableExact(table: Table, name: string)
    requires Small(name)
    ensures NormalizeTable(table) == Some(name) <==> TableNamed(table, name)
  {
    if table.Named? {
      NameExact(table.name, name);
      if table.name == "253" || table.name == "254" || table.name == "255" {
        DigitsNoName(table.name, name);
      }
    }
  }

  // --------------------------------------------------------------------------
  // Policy rules

  predicate RuleFields(r: RuleEntry, priority: int) {
    && r.keys <= {"flags", "priority", "protocol", "src", "table"}
    && !r.flagged && r.priority == Some(priority)
    && (r.source == Some("all") || r.source == Some("0.0.0.0/0"))
  }

  ghost predicate PolicyRule(r: RuleEntry, priority: int, table: string) {
    RuleFields(r, priority) && TableNamed(r.table, table)
  }

  ghost predicate HasRule(rules: seq<RuleEntry>, priority: int, table: string) {
    exists i :: 0 <= i < |rules| && PolicyRule(rules[i], priority, table)
  }

  /** Three rules: one for each of the tables, at its own priority and for every source. */
  ghost predicate PolicyDefault(rules: seq<RuleEntry>) {
    |rules| == 3 && HasRule(rules, 0, "local") && HasRule(rules, 32766, "main") && HasRule(rules, 32767, "default")
  }

  lemma RuleExact(r: RuleEntry, priority: int, table: string)
    requires Small(table)
    ensures RuleReadable(r) && ObservedOf(r) == Observed(priority, Some("all"), Some(table)) <==>
            PolicyRule(r, priority, table)
  {
    TableExact(r.table, table);
  }

  /** Three distinct members are all there is exactly when there are three and they are members. */
  lemma ThreeMembers<T>(observed: seq<T>, a: T, b: T, c: T)
    requires a != b && b != c && a != c
    ensures |observed| == 3 && a in observed && b in observed && c in observed <==>
            multiset(observed) == multiset{a, b, c}
  {
    ThreeInOrder(observed, a, b, c);
    var members := set o | o in observed;
    if multiset(observed) == multiset{a, b, c} {
      assert a in members && b in members && c in members;
    }
    if |observed| == 3 && a in observed && b in observed && c in observed {
      assert observed == [observed[0], observed[1], observed[2]];
      Rearranged(observed[0], observed[1], observed[2], a, b, c);
    }
  }

  lemma ObservedRules(rules: seq<RuleEntry>)
    requires RulesReadable(rules) && |rules| == 3
    requires LOCAL_RULE in AllObserved(rules) && MAIN_RULE in AllObserved(rules) && DEFAULT_RULE in AllObserved(rules)
    ensures PolicyDefault(rules)
  {
    NamesSmall();
    ObservedRule(rules, LOCAL_RULE, "local");
    ObservedRule(rules, MAIN_RULE, "main");
    ObservedRule(rules, DEFAULT_RULE, "default");
  }

  lemma ThreeRules(rules: seq<RuleEntry>)
    requires DefaultRules(rules)
    ensures |rules| == 3
    ensures LOCAL_RULE in AllObserved(rules) && MAIN_RULE in AllObserved(rules) && DEFAULT_RULE in AllObserved(rules)
  {
    ThreeMembers(AllObserved(rules), LOCAL_RULE, MAIN_RULE, DEFAULT_RULE);
  }

  lemma ObservedRule(rules: seq<RuleEntry>, rule: Observed, table: string)
    requires RulesReadable(rules) && rule in AllObserved(rules)
    requires Small(table) && rule.source == Some("all") && rule.table == Some(table)
    ensures HasRule(rules, rule.priority, table)
  {
    var observed := AllObserved(rules);
    var i :| 0 <= i < |observed| && observed[i] == rule;
    RuleExact(rules[i], rule.priority, table);
  }

  lemma PolicyObserved(rules: seq<RuleEntry>)
    requires PolicyDefault(rules)
    ensures DefaultRules(rules)
  {
    NamesSmall();
    var i := RuleObserved(rules, LOCAL_RULE, "local");
    var j := RuleObserved(rules, MAIN_RULE, "main");
    var k := RuleObserved(rules, DEFAULT_RULE, "default");
    ThreeObserved(rules, i, j, k, LOCAL_RULE, MAIN_RULE, DEFAULT_RULE);
  }

  lemma ThreeObserved(
    rules: seq<RuleEntry>, i: nat, j: nat, k: nat, a: Observed, b: Observed, c: Observed)
    requires |rules| == 3 && i < 3 && j < 3 && k < 3
    requires RuleReadable(rules[i]) && RuleReadable(rules[j]) && RuleReadable(rules[k])
    requires ObservedOf(rules[i]) == a && ObservedOf(rules[j]) == b && ObservedOf(rules[k]) == c
    requires a != b && b != c && a != c
    ensures RulesReadable(rules) && multiset(AllObserved(rules)) == multiset{a, b, c}
  {
    assert i != j && j != k && i != k;
    var observed := AllObserved(rules);
    assert observed[i] == a && observed[j] == b && observed[k] == c;
    ThreeMembers(observed, a, b, c);
  }

  lemma RuleObserved(rules: seq<RuleEntry>, rule: Observed, table: string) returns (i: nat)
    requires Small(table) && rule.source == Some("all") && rule.table == Some(table)
    requires HasRule(rules, rule.priority, table)
    ensures i < |rules| && RuleReadable(rules[i]) && ObservedOf(rules[i]) == rule
  {
    i :| i < |rules| && PolicyRule(rules[i], rule.priority, table);
    RuleExact(rules[i], rule.priority, table);
  }

  lemma RulesExact(rules: seq<RuleEntry>)
    ensures DefaultRules(rules) <==> PolicyDefault(rules)
  {
    if DefaultRules(rules) {
      ThreeRules(rules);
      ObservedRules(rules);
    }
    if PolicyDefault(rules) { PolicyObserved(rules); }
  }

  // --------------------------------------------------------------------------
  // What is claimed by addresses and routes

  /** A block as it is written, by one of its addresses. */
  datatype Claim = Claim(source: Source, address: Address, prefix: Prefix)

  function InfoClaims(name: string, info: seq<AddressEntry>): seq<Claim> {
    if info == [] then []
    else
      var last := info[|info| - 1];
      InfoClaims(name, info[..|info| - 1])
      + if last.Bound? then [Claim(Interface(name), last.local, last.prefix)] else []
  }

  function ClaimsOf(e: InterfaceEntry): seq<Claim> {
    if e.name.Some? && e.info.Some? then InfoClaims(e.name.value, e.info.value) else []
  }

  function AddressClaims(entries: seq<InterfaceEntry>): seq<Claim> {
    if entries == [] then []
    else AddressClaims(entries[..|entries| - 1]) + ClaimsOf(entries[|entries| - 1])
  }

  predicate ReadableInfo(info: seq<AddressEntry>) {
    forall i :: 0 <= i < |info| ==> info[i].OtherFamily? || info[i].Bound?
  }

  predicate ReadableInterface(e: InterfaceEntry, links: map<string, bool>) {
    && e.name.Some? && e.name.value != "" && e.name.value in links
    && e.info.Some? && ReadableInfo(e.info.value)
  }

  predicate Inventoried(entries: seq<InterfaceEntry>, links: map<string, bool>) {
    forall i :: 0 <= i < |entries| ==> ReadableInterface(entries[i], links)
  }

  /** Claim `i` is the only one of that address. */
  predicate OnlyClaim(claims: seq<Claim>, address: Address, i: nat) {
    && i < |claims| && claims[i].address == address
    && forall j :: 0 <= j < |claims| && claims[j].address == address ==> j == i
  }

  /** The networks are the claimed blocks, in order. */
  predicate Marks(live: seq<Live>, claims: seq<Claim>) {
    |live| == |claims| && forall i :: 0 <= i < |live| ==> Mark(live[i], claims[i])
  }

  predicate Mark(live: Live, claim: Claim) {
    live.source == claim.source && BlockOf(live.network, claim.address, claim.prefix)
  }

  function LiveOf(claim: Claim): Live {
    Live(claim.source, NetworkOf(claim.address, claim.prefix))
  }

  function LiveBlocks(claims: seq<Claim>): (live: seq<Live>)
    ensures |live| == |claims| && forall i :: 0 <= i < |claims| ==> live[i] == LiveOf(claims[i])
  {
    seq(|claims|, i requires 0 <= i < |claims| => LiveOf(claims[i]))
  }

  lemma MarksExact(live: seq<Live>, claims: seq<Claim>)
    ensures live == LiveBlocks(claims) <==> Marks(live, claims)
  {
    if |live| == |claims| {
      forall i | 0 <= i < |live| ensures live[i] == LiveOf(claims[i]) <==> Mark(live[i], claims[i]) {
        BlockExact(live[i].network, claims[i].address, claims[i].prefix);
      }
    }
  }

  lemma LiveBlocksSum(a: seq<Claim>, b: seq<Claim>)
    ensures LiveBlocks(a + b) == LiveBlocks(a) + LiveBlocks(b)
  {
  }

  // --------------------------------------------------------------------------
  // The bindings

  function NameOf(source: Source): string {
    if source.Interface? then source.name else ""
  }

  function BindingsOf(claims: seq<Claim>, address: Address): seq<Binding> {
    if claims == [] then []
    else
      var last := claims[|claims| - 1];
      BindingsOf(claims[..|claims| - 1], address)
      + if last.address == address then [Binding(NameOf(last.source), NetworkOf(last.address, last.prefix))] else []
  }

  lemma {:induction false} BindingsSum(a: seq<Claim>, b: seq<Claim>, address: Address)
    ensures BindingsOf(a + b, address) == BindingsOf(a, address) + BindingsOf(b, address)
  {
    if b == [] {
      assert a + b == a;
    } else {
      var front, last := b[..|b| - 1], b[|b| - 1];
      assert (a + b)[..|a + b| - 1] == a + front;
      BindingsSum(a, front, address);
    }
  }

  predicate Unclaimed(claims: seq<Claim>, address: Address) {
    forall i :: 0 <= i < |claims| ==> claims[i].address != address
  }

  lemma {:induction false} NoBinding(claims: seq<Claim>, address: Address)
    ensures BindingsOf(claims, address) == [] <==> Unclaimed(claims, address)
  {
    if claims != [] {
      var front, last := claims[..|claims| - 1], claims[|claims| - 1];
      assert claims == front + [last];
      NoBinding(front, address);
      assert Unclaimed(claims, address) <==> Unclaimed(front, address) && last.address != address;
    }
  }

  lemma {:induction false} OneBinding(claims: seq<Claim>, address: Address)
    ensures |BindingsOf(claims, address)| == 1 <==> exists i: nat :: OnlyClaim(claims, address, i)
    ensures forall i: nat :: OnlyClaim(claims, address, i) ==>
      BindingsOf(claims, address) == [Binding(NameOf(claims[i].source), NetworkOf(address, claims[i].prefix))]
  {
    if claims != [] {
      var front, last := claims[..|claims| - 1], claims[|claims| - 1];
      assert claims == front + [last];
      OneBinding(front, address);
      NoBinding(front, address);
      OnlyLast(claims, front, address);
      if last.address == address {
        assert OnlyClaim(claims, address, |front|) <==> Unclaimed(front, address);
      } else if i: nat :| OnlyClaim(front, address, i) {
        assert OnlyClaim(claims, address, i);
      }
    }
  }

  lemma OnlyLast(claims: seq<Claim>, front: seq<Claim>, address: Address)
    requires claims != [] && front == claims[..|claims| - 1]
    ensures claims[|front|].address == address ==>
      forall i: nat :: OnlyClaim(claims, address, i) <==> i == |front| && Unclaimed(front, address)
    ensures claims[|front|].address != address ==>
      forall i: nat :: OnlyClaim(claims, address, i) <==> OnlyClaim(front, address, i)
  {
    if claims[|front|].address == address && Unclaimed(front, address) {
      assert forall i :: 0 <= i < |front| ==> claims[i] == front[i];
    }
    if claims[|front|].address == address {
      forall i: nat | OnlyClaim(claims, address, i) ensures i == |front| && Unclaimed(front, address) {
        forall j | 0 <= j < |front| ensures front[j].address != address {
          assert front[j] == claims[j];
        }
      }
    }
  }

  // --------------------------------------------------------------------------
  // The address inventory

  lemma {:induction false} InfoEntered(v: Inventory, name: string, info: seq<AddressEntry>, advertise: Address)
    requires v.Inventory?
    ensures EnterAddresses(v, name, info, advertise) ==
            if ReadableInfo(info) then
              Inventory(v.networks + LiveBlocks(InfoClaims(name, info)),
                        v.bindings + BindingsOf(InfoClaims(name, info), advertise))
            else Refused(AddressMalformed)
  {
    if info != [] {
      var front, last := info[..|info| - 1], info[|info| - 1];
      assert info == front + [last];
      InfoEntered(v, name, front, advertise);
      assert ReadableInfo(info) <==> ReadableInfo(front) && (last.OtherFamily? || last.Bound?);
      if ReadableInfo(info) { OneEntered(v, name, InfoClaims(name, front), last, advertise); }
    }
  }

  lemma OneEntered(v: Inventory, name: string, claims: seq<Claim>, a: AddressEntry, advertise: Address)
    requires v.Inventory? && (a.OtherFamily? || a.Bound?)
    ensures var more := if a.Bound? then [Claim(Interface(name), a.local, a.prefix)] else [];
            EnterAddress(Inventory(v.networks + LiveBlocks(claims), v.bindings + BindingsOf(claims, advertise)),
                         name, a, advertise) ==
            Inventory(v.networks + LiveBlocks(claims + more), v.bindings + BindingsOf(claims + more, advertise))
  {
    if a.Bound? {
      var claim := Claim(Interface(name), a.local, a.prefix);
      LiveBlocksSum(claims, [claim]);
      assert LiveBlocks([claim]) == [LiveOf(claim)];
      Regroup(v.networks, LiveBlocks(claims), [LiveOf(claim)]);
      assert (claims + [claim])[..|claims|] == claims;
      if a.local == advertise {
        Regroup(v.bindings, BindingsOf(claims, advertise), [Binding(name, NetworkOf(a.local, a.prefix))]);
      } else {
        assert BindingsOf(claims + [claim], advertise) == BindingsOf(claims, advertise) + [];
      }
    } else {
      assert claims + [] == claims;
    }
  }

  lemma InterfaceEntered(e: InterfaceEntry, claims: seq<Claim>, advertise: Address, links: map<string, bool>)
    ensures var w :=
              EnterInterface(Inventory(LiveBlocks(claims), BindingsOf(claims, advertise)), e, advertise, links);
            && (w.Inventory? <==> ReadableInterface(e, links))
            && (w.Inventory? ==>
                  && w.networks == LiveBlocks(claims + ClaimsOf(e))
                  && w.bindings == BindingsOf(claims + ClaimsOf(e), advertise))
  {
    if e.name.Some? && e.info.Some? {
      InfoEntered(Inventory(LiveBlocks(claims), BindingsOf(claims, advertise)), e.name.value, e.info.value, advertise);
    }
    LiveBlocksSum(claims, ClaimsOf(e));
    BindingsSum(claims, ClaimsOf(e), advertise);
  }

  lemma {:induction false} InterfacesEntered(
    entries: seq<InterfaceEntry>, advertise: Address, links: map<string, bool>)
    ensures var v := EnterInterfaces(entries, advertise, links);
            && (v.Inventory? <==> Inventoried(entries, links))
            && (v.Inventory? ==>
                  && v.networks == LiveBlocks(AddressClaims(entries))
                  && v.bindings == BindingsOf(AddressClaims(entries), advertise))
  {
    if entries != [] {
      var front, last := entries[..|entries| - 1], entries[|entries| - 1];
      InterfacesEntered(front, advertise, links);
      InventoriedLast(entries, links);
      InterfaceEntered(last, AddressClaims(front), advertise, links);
    }
  }

  lemma InventoriedLast(entries: seq<InterfaceEntry>, links: map<string, bool>)
    requires entries != []
    ensures Inventoried(entries, links) <==>
            Inventoried(entries[..|entries| - 1], links) && ReadableInterface(entries[|entries| - 1], links)
  {
  }

  /** The address inventory is taken exactly of readable addresses on known links among which
      the advertise address stands once. */
  lemma AddressesExact(host: Host, advertise: Address, networks: seq<Live>, binding: Binding)
    ensures Addresses(host.addresses, advertise, host.links) == Ok((networks, binding)) <==>
            && Inventoried(host.addresses, host.links)
            && networks == LiveBlocks(AddressClaims(host.addresses))
            && exists i: nat :: Binds(AddressClaims(host.addresses), advertise, binding, i)
  {
    var claims := AddressClaims(host.addresses);
    InterfacesEntered(host.addresses, advertise, host.links);
    OneBinding(claims, advertise);
    if |BindingsOf(claims, advertise)| == 1 {
      var i: nat :| OnlyClaim(claims, advertise, i);
      assert Binds(claims, advertise, BindingsOf(claims, advertise)[0], i);
    }
  }

  predicate Binds(claims: seq<Claim>, advertise: Address, binding: Binding, i: nat) {
    && OnlyClaim(claims, advertise, i)
    && binding == Binding(NameOf(claims[i].source), NetworkOf(advertise, claims[i].prefix))
  }

  // --------------------------------------------------------------------------
  // Routes, each by itself

  ghost predicate InTable(route: Route, name: string) {
    if route.table.None? then name == "main" else TableNamed(route.table.value, name)
  }

  predicate ToEverywhere(d: Destination) {
    d.DefaultRoute? || (d.Block? && d.prefix == 0)
  }

  /** Kept to the machine itself or to a block's broadcast address. */
  ghost predicate LocalRoute(route: Route) {
    && InTable(route, "local") && !ToEverywhere(route.destination)
    && (route.kind == Some("local") || route.kind == Some("broadcast"))
  }

  /** Through a known link that is no tunnel. */
  ghost predicate LinkRoute(route: Route, links: map<string, bool>) {
    && InTable(route, "main") && (route.kind == None || route.kind == Some("unicast"))
    && route.dev.Some? && route.dev.value != "" && route.dev.value in links && !links[route.dev.value]
  }

  /** Through a neighbour on the interface and in the block of the advertise address. */
  ghost predicate LanDefault(route: Route, advertise: Address, bound: Claim) {
    && route.dev == Some(NameOf(bound.source))
    && route.gateway.Some? && route.gateway.value != advertise
    && SameBlock(advertise, route.gateway.value, bound.prefix)
    && (route.preferred == NoPreference || route.preferred == Prefer(advertise))
    && !route.flagged
  }

  ghost predicate SimpleRoute(route: Route, links: map<string, bool>, advertise: Address, bound: Claim) {
    && !route.indirect && route.destination != BadDestination
    && (LocalRoute(route)
        || (LinkRoute(route, links) && (ToEverywhere(route.destination) ==> LanDefault(route, advertise, bound))))
  }

  ghost function RouteClaims(routes: seq<Route>): seq<Claim> {
    if routes == [] then [] else RouteClaims(routes[..|routes| - 1]) + RouteClaim(routes[|routes| - 1])
  }

  ghost function RouteClaim(route: Route): seq<Claim> {
    match route.destination
    case Block(address, prefix) =>
      if prefix == 0 then []
      else [Claim(if InTable(route, "local") then LocalTable else MainTable, address, prefix)]
    case _ => []
  }

  lemma InTableExact(route: Route, name: string)
    requires Small(name)
    ensures TableOf(route) == Some(name) <==> InTable(route, name)
  {
    if route.table.Some? { TableExact(route.table.value, name); }
  }

  lemma DefaultExact(route: Route, advertise: Address, bound: Claim)
    ensures DefaultRefusal(route, advertise, Binding(NameOf(bound.source), NetworkOf(advertise, bound.prefix))) == None
            <==> LanDefault(route, advertise, bound)
  {
    if route.gateway.Some? { SameBlockExact(advertise, route.gateway.value, bound.prefix); }
  }

  lemma RouteExact(w: Walk, route: Route, advertise: Address, binding: Binding, bound: Claim, links: map<string, bool>)
    requires w.Walk? && binding == Binding(NameOf(bound.source), NetworkOf(advertise, bound.prefix))
    ensures var next := WalkRoute(w, route, advertise, binding, links);
            && (next.Walk? <==> SimpleRoute(route, links, advertise, bound))
            && (next.Walk? ==> next.networks == w.networks + LiveBlocks(RouteClaim(route)))
            && (next.Walk? ==> next.defaults == w.defaults + if ToEverywhere(route.destination) then 1 else 0)
  {
    NamesSmall();
    InTableExact(route, "local");
    InTableExact(route, "main");
    DefaultExact(route, advertise, bound);
    assert w.networks + [] == w.networks;
  }

  ghost predicate SimpleRoutes(routes: seq<Route>, links: map<string, bool>, advertise: Address, bound: Claim) {
    forall k :: 0 <= k < |routes| ==> SimpleRoute(routes[k], links, advertise, bound)
  }

  predicate OneDefault(routes: seq<Route>) {
    forall j, k :: 0 <= j < k < |routes| ==>
      !(ToEverywhere(routes[j].destination) && ToEverywhere(routes[k].destination))
  }

  lemma {:induction false} RoutesExact(routes: seq<Route>, networks: seq<Live>, advertise: Address, binding: Binding,
                                       bound: Claim, links: map<string, bool>)
    requires binding == Binding(NameOf(bound.source), NetworkOf(advertise, bound.prefix))
    ensures var w := WalkRoutes(routes, networks, advertise, binding, links);
            && (w.Walk? <==> SimpleRoutes(routes, links, advertise, bound))
            && (w.Walk? ==> w.networks == networks + LiveBlocks(RouteClaims(routes)) && w.defaults == Defaults(routes))
  {
    if routes == [] {
      assert networks + [] == networks;
    } else {
      var front, last := routes[..|routes| - 1], routes[|routes| - 1];
      assert routes == front + [last];
      RoutesExact(front, networks, advertise, binding, bound, links);
      var before := WalkRoutes(front, networks, advertise, binding, links);
      if before.Walk? {
        RouteExact(before, last, advertise, binding, bound, links);
        LiveBlocksSum(RouteClaims(front), RouteClaim(last));
        Regroup(networks, LiveBlocks(RouteClaims(front)), LiveBlocks(RouteClaim(last)));
      }
      assert SimpleRoutes(routes, links, advertise, bound) <==>
             SimpleRoutes(front, links, advertise, bound) && SimpleRoute(last, links, advertise, bound);
    }
  }

  lemma {:induction false} NoDefaults(routes: seq<Route>)
    ensures Defaults(routes) == 0 <==> forall k :: 0 <= k < |routes| ==> !ToEverywhere(routes[k].destination)
  {
    if routes != [] {
      var front, last := routes[..|routes| - 1], routes[|routes| - 1];
      assert routes == front + [last];
      NoDefaults(front);
    }
  }

  lemma {:induction false} OneDefaultExact(routes: seq<Route>)
    ensures Defaults(routes) <= 1 <==> OneDefault(routes)
  {
    if routes != [] {
      var front, last := routes[..|routes| - 1], routes[|routes| - 1];
      assert routes == front + [last];
      OneDefaultExact(front);
      NoDefaults(front);
    }
  }

  // --------------------------------------------------------------------------
  // The hosts, and the gate

  /** Default policy rules, readable addresses on known links with the advertise address once
      among them as claim `i`, and simple routes with at most one default. */
  ghost predicate SimpleHost(host: Host, advertise: Address, i: nat) {
    && PolicyDefault(host.rules) && Inventoried(host.addresses, host.links)
    && OnlyClaim(AddressClaims(host.addresses), advertise, i)
    && SimpleRoutes(host.routes, host.links, advertise, AddressClaims(host.addresses)[i])
    && OneDefault(host.routes)
  }

  ghost function HostClaims(host: Host): seq<Claim> {
    AddressClaims(host.addresses) + RouteClaims(host.routes)
  }

  lemma SimpleAt(host: Host, advertise: Address, i: nat, networks: seq<Live>, binding: Binding)
    requires PolicyDefault(host.rules) && Binds(AddressClaims(host.addresses), advertise, binding, i)
    requires Addresses(host.addresses, advertise, host.links) == Ok((networks, binding))
    ensures LiveNetworks(host, advertise).Ok? <==> SimpleHost(host, advertise, i)
    ensures SimpleHost(host, advertise, i) ==> LiveNetworks(host, advertise) == Ok(LiveBlocks(HostClaims(host)))
  {
    RulesExact(host.rules);
    AddressesExact(host, advertise, networks, binding);
    RoutesExact(host.routes, networks, advertise, binding, AddressClaims(host.addresses)[i], host.links);
    OneDefaultExact(host.routes);
    LiveBlocksSum(AddressClaims(host.addresses), RouteClaims(host.routes));
  }

  /** The live networks are read exactly from the simple hosts, and they are the blocks that its
      addresses and its routes other than the default one claim, in that order. */
  lemma LiveExact(host: Host, advertise: Address, live: seq<Live>)
    ensures LiveNetworks(host, advertise) == Ok(live) <==>
            (exists i: nat :: SimpleHost(host, advertise, i)) && Marks(live, HostClaims(host))
  {
    RulesExact(host.rules);
    MarksExact(live, HostClaims(host));
    if i: nat :| SimpleHost(host, advertise, i) {
      var claims := AddressClaims(host.addresses);
      var binding := Binding(NameOf(claims[i].source), NetworkOf(advertise, claims[i].prefix));
      assert Binds(claims, advertise, binding, i);
      AddressesExact(host, advertise, LiveBlocks(claims), binding);
      SimpleAt(host, advertise, i, LiveBlocks(claims), binding);
    }
    if LiveNetworks(host, advertise).Ok? {
      var (networks, binding) := Addresses(host.addresses, advertise, host.links).value;
      AddressesExact(host, advertise, networks, binding);
      var i: nat :| Binds(AddressClaims(host.addresses), advertise, binding, i);
      SimpleAt(host, advertise, i, networks, binding);
    }
  }

  /** No address of the range lies in a claimed block. */
  ghost predicate Unclaiming(range: Network, claims: seq<Claim>) {
    forall k, n :: 0 <= k < |claims| && BlockOf(n, claims[k].address, claims[k].prefix) ==> !Share(range, n)
  }

  lemma ApartExact(range: Network, claims: seq<Claim>)
    ensures Apart(range, LiveBlocks(claims)) <==> Unclaiming(range, claims)
  {
    var live := LiveBlocks(claims);
    forall k, n | 0 <= k < |claims|
      ensures BlockOf(n, claims[k].address, claims[k].prefix) <==> n == live[k].network
    {
      BlockExact(n, claims[k].address, claims[k].prefix);
    }
  }

  lemma BlocksValid(claims: seq<Claim>)
    ensures AllValid(LiveBlocks(claims))
  {
    forall i | 0 <= i < |claims| ensures Valid(LiveOf(claims[i]).network) {
      NetworkOfValid(claims[i].address, claims[i].prefix);
    }
  }

  /** The gate is passed exactly on a simple host with a private advertise address, by ranges
      that share no address with each other or with a block the host claims. */
  lemma PassesExact(pod: Network, service: Network, advertise: Address, privateAdvertise: bool, host: Host)
    requires Valid(pod) && Valid(service)
    ensures Passes(pod, service, advertise, privateAdvertise, host) <==>
            && (exists i: nat :: SimpleHost(host, advertise, i))
            && privateAdvertise && !Share(pod, service)
            && Unclaiming(pod, HostClaims(host)) && Unclaiming(service, HostClaims(host))
  {
    var live := LiveBlocks(HostClaims(host));
    MarksExact(live, HostClaims(host));
    LiveExact(host, advertise, live);
    if LiveNetworks(host, advertise).Ok? {
      MarksExact(LiveNetworks(host, advertise).value, HostClaims(host));
      LiveExact(host, advertise, LiveNetworks(host, advertise).value);
    }
    BlocksValid(HostClaims(host));
    FailuresExact(pod, service, privateAdvertise, live);
    ApartExact(pod, HostClaims(host));
    ApartExact(service, HostClaims(host));
  }
}
