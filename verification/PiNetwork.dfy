/** The live network gate of scripts/validate_pi_network.py: IPv4 networks, policy rules,
    bound addresses and routes, and the separation of the cluster's ranges from them. */
module PiNetwork {
  import opened Arithmetic
  import opened Text

  // --------------------------------------------------------------------------
  // Networks

  const SPACE := 0x1_0000_0000

  type Address = a: int | 0 <= a < SPACE

  type Prefix = p: nat | p <= 32

  /** An address block: its lowest address and its prefix length. */
  datatype Network = Network(base: int, prefix: Prefix)

  function Size(prefix: Prefix): (n: nat)
    ensures n >= 1
    decreases 32 - prefix
  {
    if prefix == 32 then 1 else 2 * Size(prefix + 1)
  }

  /** The address under the network mask. */
  function Masked(a: int, prefix: Prefix): int {
    a - a % Size(prefix)
  }

  predicate Valid(n: Network) {
    0 <= n.base < SPACE && n.base % Size(n.prefix) == 0
  }

  /** `address in network`: the masked address is the network's. */
  predicate Contains(n: Network, a: int) {
    Masked(a, n.prefix) == n.base
  }

  function Broadcast(n: Network): int {
    n.base + Size(n.prefix) - 1
  }

  /** `ip_network.overlaps`: one end of either lies in the other. */
  predicate Overlaps(m: Network, n: Network) {
    Contains(m, n.base) || Contains(m, Broadcast(n)) || Contains(n, m.base) || Contains(n, Broadcast(m))
  }

  /** `ip_network(…, strict=False)`. */
  function NetworkOf(a: Address, prefix: Prefix): Network {
    Network(Masked(a, prefix), prefix)
  }

  lemma ContainsInterval(n: Network, a: int)
    requires n.base % Size(n.prefix) == 0
    ensures Contains(n, a) <==> n.base <= a <= Broadcast(n)
  {
    var s := Size(n.prefix);
    var q := Quotient(a, s);
    var k := Quotient(n.base, s);
    if n.base <= a <= Broadcast(n) {
      QuotientInBlock(q, k, s, a % s);
    }
  }

  lemma NetworkOfValid(a: Address, prefix: Prefix)
    ensures Valid(NetworkOf(a, prefix)) && Contains(NetworkOf(a, prefix), a)
  {
    var s := Size(prefix);
    var q := Quotient(a, s);
    MultipleDivides(q, s);
    if q < 0 { Mono(q + 1, 0, s); Next(q, s); }
    Mono(0, if q < 0 then 0 else q, s);
  }

  lemma Twice(k: int, s: int)
    ensures 2 * (k * s) == (2 * k) * s
  {
  }

  /** Block sizes divide one another. */
  lemma {:induction false} SizeGrows(p: Prefix, q: Prefix) returns (k: int)
    requires p <= q
    ensures k >= 1 && Size(p) == k * Size(q)
    decreases q - p
  {
    if p == q {
      k := 1;
    } else {
      var j := SizeGrows(p + 1, q);
      Twice(j, Size(q));
      k := 2 * j;
    }
  }

  lemma SizeZero()
    ensures Size(0) == SPACE
  {
    assert Size(24) == 256;
    assert Size(16) == 0x1_0000;
    assert Size(8) == 0x100_0000;
  }

  /** A block ends inside the address space. */
  lemma BlockInSpace(n: Network)
    requires Valid(n)
    ensures Broadcast(n) < SPACE
  {
    var s := Size(n.prefix);
    SizeZero();
    var k := SizeGrows(0, n.prefix);
    var b := Quotient(n.base, s);
    MultipleBelow(b, k, s);
  }

  predicate Share(m: Network, n: Network) {
    exists a: Address :: Contains(m, a) && Contains(n, a)
  }

  /** Comparing end points decides sharing: two networks overlap exactly when some address
      lies in both. */
  lemma OverlapsExact(m: Network, n: Network)
    requires Valid(m) && Valid(n)
    ensures Overlaps(m, n) <==> Share(m, n)
  {
    BlockInSpace(m);
    BlockInSpace(n);
    forall a ensures Contains(m, a) <==> m.base <= a <= Broadcast(m) { ContainsInterval(m, a); }
    forall a ensures Contains(n, a) <==> n.base <= a <= Broadcast(n) { ContainsInterval(n, a); }
    if Overlaps(m, n) {
      var a: Address := if m.base <= n.base then n.base else m.base;
      assert Contains(m, a) && Contains(n, a);
    }
  }

  /** Networks that share an address are nested: the longer prefix lies in the shorter. */
  lemma SharedNested(m: Network, n: Network, a: int)
    requires Valid(m) && Valid(n) && m.prefix <= n.prefix && Share(m, n) && Contains(n, a)
    ensures Contains(m, a)
  {
    var shared: Address :| Contains(m, shared) && Contains(n, shared);
    var s, t := Size(m.prefix), Size(n.prefix);
    var k := SizeGrows(m.prefix, n.prefix);
    ContainsInterval(m, shared);
    ContainsInterval(n, shared);
    ContainsInterval(m, a);
    ContainsInterval(n, a);
    var i := Quotient(m.base, s);
    var j := Quotient(n.base, t);
    Nested(i, j, k, t, shared);
  }

  lemma Nested(i: int, j: int, k: int, t: int, x: int)
    requires t >= 1 && k >= 1 && i * (k * t) <= x < i * (k * t) + k * t && j * t <= x < j * t + t
    ensures i * (k * t) <= j * t && j * t + t <= i * (k * t) + k * t
  {
    var u := i * k;
    assert i * (k * t) == u * t;
    assert (u + k) * t == u * t + k * t;
    Next(j, t);
    MultipleBelow(u, j + 1, t);
    Mono(u, j, t);
    MultipleBelow(j, u + k, t);
  }

  // --------------------------------------------------------------------------
  // Policy rules

  /** A routing table as iproute2 names it. */
  datatype Table = Named(name: string) | Numbered(number: int) | Untyped

  /** `normalize_table`; a table that is not a name afterwards is none of the known ones. */
  function NormalizeTable(table: Table): Option<string> {
    match table
    case Named(name) =>
      Some(if name == "253" then "default" else if name == "254" then "main" else if name == "255" then "local"
           else Lower(Trim(name)))
    case Numbered(number) =>
      if number == 253 then Some("default")
      else if number == 254 then Some("main")
      else if number == 255 then Some("local")
      else None
    case Untyped => None
  }

  datatype RuleEntry = RuleEntry(
    keys: set<string>, flagged: bool, priority: Option<int>, source: Option<string>, table: Table)

  const ALLOWED_RULE_KEYS := {"flags", "priority", "protocol", "src", "table"}

  datatype Observed = Observed(priority: int, source: Option<string>, table: Option<string>)

  const LOCAL_RULE := Observed(0, Some("all"), Some("local"))
  const MAIN_RULE := Observed(32766, Some("all"), Some("main"))
  const DEFAULT_RULE := Observed(32767, Some("all"), Some("default"))

  predicate RuleReadable(r: RuleEntry) {
    r.keys <= ALLOWED_RULE_KEYS && !r.flagged && r.priority.Some?
  }

  function ObservedOf(r: RuleEntry): Observed
    requires RuleReadable(r)
  {
    Observed(r.priority.value, if r.source == Some("0.0.0.0/0") then Some("all") else r.source, NormalizeTable(r.table))
  }

  predicate RulesReadable(rules: seq<RuleEntry>) {
    forall i :: 0 <= i < |rules| ==> RuleReadable(rules[i])
  }

  function AllObserved(rules: seq<RuleEntry>): (observed: seq<Observed>)
    requires RulesReadable(rules)
    ensures |observed| == |rules| && forall i :: 0 <= i < |rules| ==> observed[i] == ObservedOf(rules[i])
  {
    seq(|rules|, i requires 0 <= i < |rules| => ObservedOf(rules[i]))
  }

  /** The rules are readable and are, in some order, the three default ones. */
  predicate DefaultRules(rules: seq<RuleEntry>) {
    RulesReadable(rules) && multiset(AllObserved(rules)) == multiset{LOCAL_RULE, MAIN_RULE, DEFAULT_RULE}
  }

  /** `validate_default_ipv4_rules`: a length and a set comparison decide the permutation. */
  method ValidateRules(rules: seq<RuleEntry>) returns (ok: bool)
    ensures ok <==> DefaultRules(rules)
  {
    var observed: seq<Observed> := [];
    for i := 0 to |rules|
      invariant RulesReadable(rules[..i]) && observed == AllObserved(rules[..i])
    {
      if !(rules[i].keys <= ALLOWED_RULE_KEYS) { return false; }
      if rules[i].flagged { return false; }
      if rules[i].priority.None? { return false; }
      assert RuleReadable(rules[i]);
      observed := observed + [ObservedOf(rules[i])];
      assert observed == AllObserved(rules[..i + 1]);
    }
    assert rules[..|rules|] == rules;
    ok := |observed| == 3 && (set o | o in observed) == {LOCAL_RULE, MAIN_RULE, DEFAULT_RULE};
    ThreeInOrder(observed, LOCAL_RULE, MAIN_RULE, DEFAULT_RULE);
  }

  lemma Rearranged<T>(x: T, y: T, z: T, a: T, b: T, c: T)
    requires a != b && b != c && a != c && a in {x, y, z} && b in {x, y, z} && c in {x, y, z}
    ensures multiset{x, y, z} == multiset{a, b, c}
  {
  }

  lemma ThreeInOrder<T>(observed: seq<T>, a: T, b: T, c: T)
    requires a != b && b != c && a != c
    ensures |observed| == 3 && (set o | o in observed) == {a, b, c} <==> multiset(observed) == multiset{a, b, c}
  {
    var members := set o | o in observed;
    if |observed| == 3 && members == {a, b, c} {
      var x, y, z := observed[0], observed[1], observed[2];
      assert observed == [x, y, z];
      assert a in members && b in members && c in members;
      Rearranged(x, y, z, a, b, c);
    }
    if multiset(observed) == multiset{a, b, c} { PermutedMembers(observed, a, b, c); }
  }

  lemma PermutedMembers<T>(observed: seq<T>, a: T, b: T, c: T)
    requires a != b && b != c && a != c && multiset(observed) == multiset{a, b, c}
    ensures |observed| == 3 && (set o | o in observed) == {a, b, c}
  {
    assert |observed| == |multiset(observed)|;
    forall o ensures o in observed <==> o in {a, b, c} {
      assert o in observed <==> o in multiset(observed);
    }
  }

  // --------------------------------------------------------------------------
  // Addresses

  datatype Refusal =
    | RulesRefused
    | InterfaceUnnamed | InterfaceUnknown | AddressMalformed | AdvertiseNotBoundOnce
    | RouteIndirect | TableUnsupported | DestinationMalformed | LocalRouteRefused
    | RouteTypeRefused | RouteWithoutInterface | TunnelRoute
    | DefaultOffLan | GatewayMissing | GatewayOffLan | PreferredSourceRefused | DefaultFlagged
    | SeveralDefaults

  /** One address of an interface; `Bound` is an inet entry that parses. */
  datatype AddressEntry = NotObject | OtherFamily | BadAddress | Bound(local: Address, prefix: Prefix)

  datatype InterfaceEntry = InterfaceEntry(name: Option<string>, info: Option<seq<AddressEntry>>)

  datatype Source = Interface(name: string) | LocalTable | MainTable

  datatype Live = Live(source: Source, network: Network)

  /** The interface and network the advertise address is bound to. */
  datatype Binding = Binding(interface: string, lan: Network)

  datatype Inventory = Refused(why: Refusal) | Inventory(networks: seq<Live>, bindings: seq<Binding>)

  function EnterAddress(v: Inventory, name: string, a: AddressEntry, advertise: Address): Inventory {
    if v.Refused? then v
    else
      match a
      case NotObject => Refused(AddressMalformed)
      case OtherFamily => v
      case BadAddress => Refused(AddressMalformed)
      case Bound(local, prefix) =>
        var network := NetworkOf(local, prefix);
        Inventory(v.networks + [Live(Interface(name), network)],
                  if local == advertise then v.bindings + [Binding(name, network)] else v.bindings)
  }

  function EnterAddresses(v: Inventory, name: string, info: seq<AddressEntry>, advertise: Address): Inventory {
    if info == [] then v
    else EnterAddress(EnterAddresses(v, name, info[..|info| - 1], advertise), name, info[|info| - 1], advertise)
  }

  function EnterInterface(v: Inventory, e: InterfaceEntry, advertise: Address, links: map<string, bool>): Inventory {
    if v.Refused? then v
    else if e.name.None? || e.name.value == "" then Refused(InterfaceUnnamed)
    else if e.name.value !in links then Refused(InterfaceUnknown)
    else if e.info.None? then Refused(AddressMalformed)
    else EnterAddresses(v, e.name.value, e.info.value, advertise)
  }

  function EnterInterfaces(entries: seq<InterfaceEntry>, advertise: Address, links: map<string, bool>): Inventory {
    if entries == [] then Inventory([], [])
    else
      EnterInterface(
        EnterInterfaces(entries[..|entries| - 1], advertise, links), entries[|entries| - 1], advertise, links)
  }

  function Addresses(entries: seq<InterfaceEntry>, advertise: Address, links: map<string, bool>)
    : Result<(seq<Live>, Binding), Refusal>
  {
    match EnterInterfaces(entries, advertise, links)
    case Refused(why) => Err(why)
    case Inventory(networks, bindings) =>
      if |bindings| != 1 then Err(AdvertiseNotBoundOnce) else Ok((networks, bindings[0]))
  }

  /** `parse_addresses`; `links` sends each known interface to whether it is a tunnel. */
  method ParseAddresses(entries: seq<InterfaceEntry>, advertise: Address, links: map<string, bool>)
    returns (r: Result<(seq<Live>, Binding), Refusal>)
    ensures r == Addresses(entries, advertise, links)
  {
    var networks: seq<Live>, bindings: seq<Binding> := [], [];
    for i := 0 to |entries|
      invariant EnterInterfaces(entries[..i], advertise, links) == Inventory(networks, bindings)
    {
      assert entries[..i + 1][..i] == entries[..i];
      ghost var entered := EnterInterfaces(entries[..i], advertise, links);
      var e := entries[i];
      if e.name.None? || e.name.value == "" {
        InterfacesStayRefused(entries, i + 1, advertise, links);
        return Err(InterfaceUnnamed);
      }
      if e.name.value !in links {
        InterfacesStayRefused(entries, i + 1, advertise, links);
        return Err(InterfaceUnknown);
      }
      if e.info.None? {
        InterfacesStayRefused(entries, i + 1, advertise, links);
        return Err(AddressMalformed);
      }
      var info := e.info.value;
      for j := 0 to |info|
        invariant EnterAddresses(entered, e.name.value, info[..j], advertise) == Inventory(networks, bindings)
      {
        assert info[..j + 1][..j] == info[..j];
        match info[j] {
          case NotObject =>
            AddressesStayRefused(entered, e.name.value, info, j + 1, advertise);
            InterfacesStayRefused(entries, i + 1, advertise, links);
            return Err(AddressMalformed);
          case OtherFamily => {}
          case BadAddress =>
            AddressesStayRefused(entered, e.name.value, info, j + 1, advertise);
            InterfacesStayRefused(entries, i + 1, advertise, links);
            return Err(AddressMalformed);
          case Bound(local, prefix) =>
            var network := NetworkOf(local, prefix);
            networks := networks + [Live(Interface(e.name.value), network)];
            if local == advertise { bindings := bindings + [Binding(e.name.value, network)]; }
        }
      }
      assert info[..|info|] == info;
    }
    assert entries[..|entries|] == entries;
    r := if |bindings| != 1 then Err(AdvertiseNotBoundOnce) else Ok((networks, bindings[0]));
  }

  lemma {:induction false} InterfacesStayRefused(
    entries: seq<InterfaceEntry>, n: nat, advertise: Address, links: map<string, bool>)
    requires n <= |entries| && EnterInterfaces(entries[..n], advertise, links).Refused?
    ensures EnterInterfaces(entries, advertise, links) == EnterInterfaces(entries[..n], advertise, links)
    decreases |entries|
  {
    if n == |entries| {
      assert entries[..n] == entries;
    } else {
      var front := entries[..|entries| - 1];
      assert front[..n] == entries[..n];
      InterfacesStayRefused(front, n, advertise, links);
    }
  }

  lemma {:induction false} AddressesStayRefused(
    v: Inventory, name: string, info: seq<AddressEntry>, n: nat, advertise: Address)
    requires n <= |info| && EnterAddresses(v, name, info[..n], advertise).Refused?
    ensures EnterAddresses(v, name, info, advertise) == EnterAddresses(v, name, info[..n], advertise)
    decreases |info|
  {
    if n == |info| {
      assert info[..n] == info;
    } else {
      var front := info[..|info| - 1];
      assert front[..n] == info[..n];
      AddressesStayRefused(v, name, front, n, advertise);
    }
  }

  // --------------------------------------------------------------------------
  // Routes

  /** A route's destination as written, and its preferred source, parsed or not. */
  datatype Destination = DefaultRoute | Block(address: Address, prefix: Prefix) | BadDestination

  datatype Preferred = NoPreference | BadPreference | Prefer(address: Address)

  /** One route; a table, type or interface that is absent is `None`. */
  datatype Route = Route(
    indirect: bool, table: Option<Table>, destination: Destination, kind: Option<string>, dev: Option<string>,
    gateway: Option<Address>, preferred: Preferred, flagged: bool)

  function TableOf(route: Route): Option<string> {
    if route.table.None? then Some("main") else NormalizeTable(route.table.value)
  }

  function KindOf(route: Route): string {
    if route.kind.None? then "unicast" else route.kind.value
  }

  /** `parse_route_network`. */
  function RouteNetwork(destination: Destination): Option<Network> {
    match destination
    case DefaultRoute => Some(Network(0, 0))
    case Block(address, prefix) => Some(NetworkOf(address, prefix))
    case BadDestination => None
  }

  /** `validate_default_route`. */
  function DefaultRefusal(route: Route, advertise: Address, binding: Binding): Option<Refusal> {
    if route.dev != Some(binding.interface) then Some(DefaultOffLan)
    else if route.gateway.None? then Some(GatewayMissing)
    else if !Contains(binding.lan, route.gateway.value) || route.gateway.value == advertise then Some(GatewayOffLan)
    else if route.preferred.BadPreference? || (route.preferred.Prefer? && route.preferred.address != advertise) then
      Some(PreferredSourceRefused)
    else if route.flagged then Some(DefaultFlagged)
    else None
  }

  datatype Walk = Halted(why: Refusal) | Walk(networks: seq<Live>, defaults: nat)

  function WalkRoute(w: Walk, route: Route, advertise: Address, binding: Binding, links: map<string, bool>): Walk {
    if w.Halted? then w
    else if route.indirect then Halted(RouteIndirect)
    else if TableOf(route) != Some("local") && TableOf(route) != Some("main") then Halted(TableUnsupported)
    else
      match RouteNetwork(route.destination)
      case None => Halted(DestinationMalformed)
      case Some(network) =>
        if TableOf(route) == Some("local") then
          if network.prefix == 0 || (KindOf(route) != "broadcast" && KindOf(route) != "local")
            then Halted(LocalRouteRefused)
          else w.(networks := w.networks + [Live(LocalTable, network)])
        else if KindOf(route) != "unicast" then Halted(RouteTypeRefused)
        else if route.dev.None? || route.dev.value == "" then Halted(RouteWithoutInterface)
        else if route.dev.value !in links then Halted(InterfaceUnknown)
        else if links[route.dev.value] then Halted(TunnelRoute)
        else if network.prefix == 0 then
          var refusal := DefaultRefusal(route, advertise, binding);
          if refusal.Some? then Halted(refusal.value) else w.(defaults := w.defaults + 1)
        else w.(networks := w.networks + [Live(MainTable, network)])
  }

  function WalkRoutes(
    routes: seq<Route>, networks: seq<Live>, advertise: Address, binding: Binding, links: map<string, bool>): Walk {
    if routes == [] then Walk(networks, 0)
    else
      WalkRoute(WalkRoutes(routes[..|routes| - 1], networks, advertise, binding, links),
                routes[|routes| - 1], advertise, binding, links)
  }

  lemma {:induction false} WalkStaysHalted(routes: seq<Route>, n: nat, networks: seq<Live>, advertise: Address,
                                           binding: Binding, links: map<string, bool>)
    requires n <= |routes| && WalkRoutes(routes[..n], networks, advertise, binding, links).Halted?
    ensures WalkRoutes(routes, networks, advertise, binding, links) ==
            WalkRoutes(routes[..n], networks, advertise, binding, links)
    decreases |routes|
  {
    if n == |routes| {
      assert routes[..n] == routes;
    } else {
      var front := routes[..|routes| - 1];
      assert front[..n] == routes[..n];
      WalkStaysHalted(front, n, networks, advertise, binding, links);
    }
  }

  /** What iproute2 reports of a host. */
  datatype Host =
    Host(addresses: seq<InterfaceEntry>, links: map<string, bool>, rules: seq<RuleEntry>, routes: seq<Route>)

  function LiveNetworks(host: Host, advertise: Address): Result<seq<Live>, Refusal> {
    if !DefaultRules(host.rules) then Err(RulesRefused)
    else
      match Addresses(host.addresses, advertise, host.links)
      case Err(why) => Err(why)
      case Ok((networks, binding)) =>
        var w := WalkRoutes(host.routes, networks, advertise, binding, host.links);
        if w.Halted? then Err(w.why) else if w.defaults > 1 then Err(SeveralDefaults) else Ok(w.networks)
  }

  /** `live_networks`. */
  method ReadLiveNetworks(host: Host, advertise: Address) returns (r: Result<seq<Live>, Refusal>)
    ensures r == LiveNetworks(host, advertise)
  {
    var rulesOk := ValidateRules(host.rules);
    if !rulesOk { return Err(RulesRefused); }
    var addresses := ParseAddresses(host.addresses, advertise, host.links);
    if addresses.Err? { return Err(addresses.error); }
    var (networks, binding) := addresses.value;
    ghost var bound := networks;
    var defaults := 0;
    var routes := host.routes;
    for i := 0 to |routes|
      invariant WalkRoutes(routes[..i], bound, advertise, binding, host.links) == Walk(networks, defaults)
    {
      assert routes[..i + 1][..i] == routes[..i];
      var route, table := routes[i], TableOf(routes[i]);
      if WalkRoute(Walk(networks, defaults), route, advertise, binding, host.links).Halted? {
        WalkStaysHalted(routes, i + 1, bound, advertise, binding, host.links);
      }
      if route.indirect { return Err(RouteIndirect); }
      if table != Some("local") && table != Some("main") { return Err(TableUnsupported); }
      var network := RouteNetwork(route.destination);
      if network.None? { return Err(DestinationMalformed); }
      var kind := KindOf(route);
      if table == Some("local") {
        if network.value.prefix == 0 || (kind != "broadcast" && kind != "local") { return Err(LocalRouteRefused); }
        networks := networks + [Live(LocalTable, network.value)];
        continue;
      }
      if kind != "unicast" { return Err(RouteTypeRefused); }
      if route.dev.None? || route.dev.value == "" { return Err(RouteWithoutInterface); }
      if route.dev.value !in host.links { return Err(InterfaceUnknown); }
      if host.links[route.dev.value] { return Err(TunnelRoute); }
      if network.value.prefix == 0 {
        defaults := defaults + 1;
        var refusal := DefaultRefusal(route, advertise, binding);
        if refusal.Some? { return Err(refusal.value); }
        continue;
      }
      networks := networks + [Live(MainTable, network.value)];
    }
    assert routes[..|routes|] == routes;
    r := if defaults > 1 then Err(SeveralDefaults) else Ok(networks);
  }

  // --------------------------------------------------------------------------
  // The gate

  datatype Target = Pod | Service

  datatype Failure = PodServiceOverlap | AdvertiseNotPrivate | TargetOverlap(target: Target, live: Live)

  function TargetFailures(target: Target, range: Network, live: seq<Live>): seq<Failure> {
    if live == [] then []
    else
      var last := live[|live| - 1];
      TargetFailures(target, range, live[..|live| - 1])
      + if Overlaps(range, last.network) then [TargetOverlap(target, last)] else []
  }

  function TargetsFailures(targets: seq<(Target, Network)>, live: seq<Live>): seq<Failure> {
    if targets == [] then []
    else
      var (target, range) := targets[|targets| - 1];
      TargetsFailures(targets[..|targets| - 1], live) + TargetFailures(target, range, live)
  }

  function Failures(pod: Network, service: Network, privateAdvertise: bool, live: seq<Live>): seq<Failure> {
    var first := if Overlaps(pod, service) then [PodServiceOverlap] else [];
    var second := if !privateAdvertise then first + [AdvertiseNotPrivate] else first;
    second + TargetsFailures([(Pod, pod), (Service, service)], live)
  }

  /** The gate of `main`: it passes without a refusal and without a failure. */
  predicate Passes(pod: Network, service: Network, advertise: Address, privateAdvertise: bool, host: Host) {
    LiveNetworks(host, advertise).Ok? &&
    Failures(pod, service, privateAdvertise, LiveNetworks(host, advertise).value) == []
  }

  /** The overlap loop of `main`. */
  method CompareTargets(
    targets: seq<(Target, Network)>, live: seq<Live>, first: seq<Failure>)
    returns (failures: seq<Failure>)
    ensures failures == first + TargetsFailures(targets, live)
  {
    failures := first;
    for t := 0 to |targets|
      invariant failures == first + TargetsFailures(targets[..t], live)
    {
      assert targets[..t + 1][..t] == targets[..t];
      var (target, range) := targets[t];
      ghost var before := failures;
      for i := 0 to |live|
        invariant failures == before + TargetFailures(target, range, live[..i])
      {
        assert live[..i + 1][..i] == live[..i];
        if Overlaps(range, live[i].network) {
          Regroup(before, TargetFailures(target, range, live[..i]), [TargetOverlap(target, live[i])]);
          failures := failures + [TargetOverlap(target, live[i])];
        } else {
          assert TargetFailures(target, range, live[..i + 1]) == TargetFailures(target, range, live[..i]);
        }
      }
      assert live[..|live|] == live;
      Regroup(first, TargetsFailures(targets[..t], live), TargetFailures(target, range, live));
    }
    assert targets[..|targets|] == targets;
  }

  method Gate(pod: Network, service: Network, advertise: Address, privateAdvertise: bool, host: Host)
    returns (r: Result<seq<Failure>, Refusal>)
    ensures LiveNetworks(host, advertise).Err? ==> r == Err(LiveNetworks(host, advertise).error)
    ensures LiveNetworks(host, advertise).Ok? ==>
      r == Ok(Failures(pod, service, privateAdvertise, LiveNetworks(host, advertise).value))
  {
    var current := ReadLiveNetworks(host, advertise);
    if current.Err? { return Err(current.error); }
    var failures: seq<Failure> := [];
    if Overlaps(pod, service) { failures := [PodServiceOverlap]; }
    if !privateAdvertise { failures := failures + [AdvertiseNotPrivate]; }
    failures := CompareTargets([(Pod, pod), (Service, service)], current.value, failures);
    r := Ok(failures);
  }

  predicate AllValid(live: seq<Live>) {
    forall i :: 0 <= i < |live| ==> Valid(live[i].network)
  }

  predicate Apart(range: Network, live: seq<Live>) {
    forall i :: 0 <= i < |live| ==> !Share(range, live[i].network)
  }

  lemma {:induction false} TargetFailuresExact(target: Target, range: Network, live: seq<Live>)
    requires Valid(range) && AllValid(live)
    ensures TargetFailures(target, range, live) == [] <==> Apart(range, live)
  {
    if live != [] {
      var front, last := live[..|live| - 1], live[|live| - 1];
      assert live == front + [last];
      assert forall i :: 0 <= i < |front| ==> front[i] == live[i];
      TargetFailuresExact(target, range, front);
      OverlapsExact(range, last.network);
      assert Apart(range, live) <==> Apart(range, front) && !Share(range, last.network);
    }
  }

  /** The failures are exact: none is found exactly when the advertise address is private,
      the two ranges share no address, and neither shares one with a live network. */
  lemma FailuresExact(pod: Network, service: Network, privateAdvertise: bool, live: seq<Live>)
    requires Valid(pod) && Valid(service) && AllValid(live)
    ensures Failures(pod, service, privateAdvertise, live) == [] <==>
            privateAdvertise && !Share(pod, service) && Apart(pod, live) && Apart(service, live)
  {
    OverlapsExact(pod, service);
    TargetFailuresExact(Pod, pod, live);
    TargetFailuresExact(Service, service, live);
    var both := [(Pod, pod), (Service, service)];
    var none: seq<(Target, Network)> := [];
    assert both[..1] == [(Pod, pod)] && both[..1][..0] == none;
    assert TargetsFailures(both[..1], live) == TargetFailures(Pod, pod, live);
  }

  lemma {:induction false} OverlapsListed(target: Target, range: Network, live: seq<Live>, f: Failure)
    requires Valid(range) && AllValid(live)
    ensures f in TargetFailures(target, range, live) <==>
            f.TargetOverlap? && f.target == target && f.live in live && Share(range, f.live.network)
  {
    if live != [] {
      var front, last := live[..|live| - 1], live[|live| - 1];
      assert live == front + [last];
      assert forall i :: 0 <= i < |front| ==> front[i] == live[i];
      OverlapsListed(target, range, front, f);
      OverlapsExact(range, last.network);
    }
  }

  /** Each failure is reported exactly when its cause is there: which range meets which network. */
  lemma FailureListed(pod: Network, service: Network, privateAdvertise: bool, live: seq<Live>, f: Failure)
    requires Valid(pod) && Valid(service) && AllValid(live)
    ensures f in Failures(pod, service, privateAdvertise, live) <==>
            match f
            case PodServiceOverlap => Share(pod, service)
            case AdvertiseNotPrivate => !privateAdvertise
            case TargetOverlap(target, network) =>
              network in live && Share(if target == Pod then pod else service, network.network)
  {
    OverlapsExact(pod, service);
    OverlapsListed(Pod, pod, live, f);
    OverlapsListed(Service, service, live, f);
    var both := [(Pod, pod), (Service, service)];
    var none: seq<(Target, Network)> := [];
    assert both[..1] == [(Pod, pod)] && both[..1][..0] == none;
    assert TargetsFailures(both[..1], live) == TargetFailures(Pod, pod, live);
    assert TargetsFailures(both, live) == TargetFailures(Pod, pod, live) + TargetFailures(Service, service, live);
  }

  // --------------------------------------------------------------------------
  // What the live networks cover

  predicate Covered(network: Network, live: seq<Live>) {
    exists i :: 0 <= i < |live| && live[i].network == network
  }

  /** The bound addresses, wherever they are listed. */
  predicate BoundTo(entries: seq<InterfaceEntry>, local: Address, prefix: Prefix) {
    exists e, a ::
      e in entries && e.info.Some? && a in e.info.value && a == Bound(local, prefix)
  }

  predicate CoversAddresses(info: seq<AddressEntry>, live: seq<Live>) {
    forall a :: a in info && a.Bound? ==> Covered(NetworkOf(a.local, a.prefix), live)
  }

  predicate CoversInterfaces(entries: seq<InterfaceEntry>, live: seq<Live>) {
    forall e :: e in entries && e.info.Some? ==> CoversAddresses(e.info.value, live)
  }

  predicate GoodBindings(bindings: seq<Binding>, live: seq<Live>, advertise: Address) {
    forall b :: b in bindings ==> Covered(b.lan, live) && Valid(b.lan) && Contains(b.lan, advertise)
  }

  lemma CoveredGrows(network: Network, live: seq<Live>, more: seq<Live>)
    ensures Covered(network, live) ==> Covered(network, live + more)
    ensures Covered(network, more) ==> Covered(network, live + more)
  {
    if Covered(network, live) {
      var i :| 0 <= i < |live| && live[i].network == network;
      assert (live + more)[i].network == network;
    }
    if Covered(network, more) {
      var i :| 0 <= i < |more| && more[i].network == network;
      assert (live + more)[|live| + i].network == network;
    }
  }

  /** Everything an inventory has collected, and that it only ever grows. */
  predicate Sound(v: Inventory, advertise: Address) {
    v.Inventory? ==> AllValid(v.networks) && GoodBindings(v.bindings, v.networks, advertise)
  }

  lemma EnterAddressSound(v: Inventory, name: string, a: AddressEntry, advertise: Address)
    requires Sound(v, advertise)
    ensures var w := EnterAddress(v, name, a, advertise);
      && Sound(w, advertise)
      && (w.Inventory? ==>
            && v.Inventory? && v.networks <= w.networks
            && (a.Bound? ==> Covered(NetworkOf(a.local, a.prefix), w.networks)))
  {
    if v.Inventory? && a.Bound? {
      var network := NetworkOf(a.local, a.prefix);
      var added := [Live(Interface(name), network)];
      NetworkOfValid(a.local, a.prefix);
      assert added[0].network == network;
      CoveredGrows(network, v.networks, added);
      forall b | b in v.bindings ensures Covered(b.lan, v.networks + added) { CoveredGrows(b.lan, v.networks, added); }
    }
  }

  lemma CoversMore(info: seq<AddressEntry>, live: seq<Live>, all: seq<Live>)
    requires CoversAddresses(info, live) && live <= all
    ensures CoversAddresses(info, all)
  {
    assert all == live + all[|live|..];
    forall a | a in info && a.Bound? ensures Covered(NetworkOf(a.local, a.prefix), all) {
      CoveredGrows(NetworkOf(a.local, a.prefix), live, all[|live|..]);
    }
  }

  lemma {:induction false} EnterAddressesSound(v: Inventory, name: string, info: seq<AddressEntry>, advertise: Address)
    requires Sound(v, advertise)
    ensures var w := EnterAddresses(v, name, info, advertise);
      && Sound(w, advertise)
      && (w.Inventory? ==> v.Inventory? && v.networks <= w.networks && CoversAddresses(info, w.networks))
  {
    if info != [] {
      var front, last := info[..|info| - 1], info[|info| - 1];
      EnterAddressesSound(v, name, front, advertise);
      var before, w := EnterAddresses(v, name, front, advertise), EnterAddresses(v, name, info, advertise);
      EnterAddressSound(before, name, last, advertise);
      assert info == front + [last];
      if w.Inventory? { CoversMore(front, before.networks, w.networks); }
    }
  }

  lemma {:induction false} EnterInterfacesSound(
    entries: seq<InterfaceEntry>, advertise: Address, links: map<string, bool>)
    ensures var v := EnterInterfaces(entries, advertise, links);
      Sound(v, advertise) && (v.Inventory? ==> CoversInterfaces(entries, v.networks))
  {
    if entries != [] {
      var front, last := entries[..|entries| - 1], entries[|entries| - 1];
      EnterInterfacesSound(front, advertise, links);
      var before, v := EnterInterfaces(front, advertise, links), EnterInterfaces(entries, advertise, links);
      assert entries == front + [last];
      if v.Inventory? {
        EnterAddressesSound(before, last.name.value, last.info.value, advertise);
        forall e | e in entries && e.info.Some? ensures CoversAddresses(e.info.value, v.networks) {
          if e in front { CoversMore(e.info.value, before.networks, v.networks); }
        }
      }
    }
  }

  /** A route of the two consulted tables that is not a default route of the main table. */
  predicate Specific(route: Route) {
    RouteNetwork(route.destination).Some? && RouteNetwork(route.destination).value.prefix > 0
  }

  predicate IsDefault(route: Route) {
    RouteNetwork(route.destination).Some? && RouteNetwork(route.destination).value.prefix == 0
  }

  predicate Neighbour(route: Route, advertise: Address, binding: Binding) {
    route.gateway.Some? && route.gateway.value != advertise && Contains(binding.lan, route.gateway.value)
  }

  predicate GoodRoute(route: Route, live: seq<Live>, advertise: Address, binding: Binding) {
    && (TableOf(route) == Some("local") || TableOf(route) == Some("main"))
    && (Specific(route) || (IsDefault(route) && TableOf(route) == Some("main")))
    && (Specific(route) ==> Covered(RouteNetwork(route.destination).value, live))
    && (IsDefault(route) ==> Neighbour(route, advertise, binding))
  }

  function Defaults(routes: seq<Route>): nat {
    if routes == [] then 0 else Defaults(routes[..|routes| - 1]) + if IsDefault(routes[|routes| - 1]) then 1 else 0
  }

  predicate GoodRoutes(routes: seq<Route>, live: seq<Live>, advertise: Address, binding: Binding) {
    forall i :: 0 <= i < |routes| ==> GoodRoute(routes[i], live, advertise, binding)
  }

  lemma RouteNetworkValid(route: Route)
    requires RouteNetwork(route.destination).Some?
    ensures Valid(RouteNetwork(route.destination).value)
  {
    if route.destination.Block? { NetworkOfValid(route.destination.address, route.destination.prefix); }
  }

  lemma WalkRouteSound(w: Walk, route: Route, advertise: Address, binding: Binding, links: map<string, bool>)
    requires w.Walk? && WalkRoute(w, route, advertise, binding, links).Walk?
    ensures var next := WalkRoute(w, route, advertise, binding, links);
      && w.networks <= next.networks && GoodRoute(route, next.networks, advertise, binding)
      && next.defaults == w.defaults + (if IsDefault(route) then 1 else 0)
      && (AllValid(w.networks) ==> AllValid(next.networks))
  {
    var next := WalkRoute(w, route, advertise, binding, links);
    RouteNetworkValid(route);
    var network := RouteNetwork(route.destination).value;
    if Specific(route) {
      assert next.networks[|w.networks|].network == network;
      assert Covered(network, next.networks);
    }
  }

  lemma GoodRouteGrows(route: Route, live: seq<Live>, all: seq<Live>, advertise: Address, binding: Binding)
    requires GoodRoute(route, live, advertise, binding) && live <= all
    ensures GoodRoute(route, all, advertise, binding)
  {
    if Specific(route) {
      assert all == live + all[|live|..];
      CoveredGrows(RouteNetwork(route.destination).value, live, all[|live|..]);
    }
  }

  lemma GoodRoutesGrow(
    front: seq<Route>, last: Route, live: seq<Live>, all: seq<Live>, advertise: Address, binding: Binding)
    requires GoodRoutes(front, live, advertise, binding) && live <= all && GoodRoute(last, all, advertise, binding)
    ensures GoodRoutes(front + [last], all, advertise, binding)
  {
    var routes := front + [last];
    forall i | 0 <= i < |routes| ensures GoodRoute(routes[i], all, advertise, binding) {
      if i < |front| { GoodRouteGrows(front[i], live, all, advertise, binding); }
    }
  }

  predicate Walked(w: Walk, routes: seq<Route>, networks: seq<Live>, advertise: Address, binding: Binding) {
    w.Walk? ==>
      networks <= w.networks && AllValid(w.networks) && w.defaults == Defaults(routes)
        && GoodRoutes(routes, w.networks, advertise, binding)
  }

  lemma {:induction false} WalkRoutesSound(routes: seq<Route>, networks: seq<Live>, advertise: Address,
                                           binding: Binding, links: map<string, bool>)
    requires AllValid(networks)
    ensures Walked(WalkRoutes(routes, networks, advertise, binding, links), routes, networks, advertise, binding)
  {
    if routes != [] {
      var front, last := routes[..|routes| - 1], routes[|routes| - 1];
      WalkRoutesSound(front, networks, advertise, binding, links);
      WalkStepSound(
        WalkRoutes(front, networks, advertise, binding, links), front, last, networks, advertise, binding, links);
      assert routes == front + [last];
    }
  }

  lemma WalkStepSound(before: Walk, front: seq<Route>, last: Route, networks: seq<Live>, advertise: Address,
                      binding: Binding, links: map<string, bool>)
    requires Walked(before, front, networks, advertise, binding)
    ensures Walked(WalkRoute(before, last, advertise, binding, links), front + [last], networks, advertise, binding)
  {
    if before.Walk? && WalkRoute(before, last, advertise, binding, links).Walk? {
      WalkRouteSound(before, last, advertise, binding, links);
      var after := WalkRoute(before, last, advertise, binding, links).networks;
      GoodRoutesGrow(front, last, before.networks, after, advertise, binding);
      assert (front + [last])[..|front|] == front;
    }
  }

  lemma {:induction false} DefaultsUnique(routes: seq<Route>, i: nat, j: nat)
    requires i < j < |routes| && IsDefault(routes[i]) && IsDefault(routes[j])
    ensures Defaults(routes) >= 2
  {
    var front := routes[..|routes| - 1];
    if j < |front| {
      DefaultsUnique(front, i, j);
    } else {
      DefaultCounted(front, i);
    }
  }

  lemma {:induction false} DefaultCounted(routes: seq<Route>, i: nat)
    requires i < |routes| && IsDefault(routes[i])
    ensures Defaults(routes) >= 1
  {
    if i < |routes| - 1 { DefaultCounted(routes[..|routes| - 1], i); }
  }

  // --------------------------------------------------------------------------
  // Separation

  predicate InCluster(pod: Network, service: Network, x: Address) {
    Contains(pod, x) || Contains(service, x)
  }

  /** What a passed gate has established about the host. */
  lemma PassedHost(pod: Network, service: Network, advertise: Address, privateAdvertise: bool, host: Host)
    returns (live: seq<Live>, binding: Binding)
    requires Valid(pod) && Valid(service) && Passes(pod, service, advertise, privateAdvertise, host)
    ensures AllValid(live) && Apart(pod, live) && Apart(service, live) && !Share(pod, service)
    ensures CoversInterfaces(host.addresses, live) && GoodRoutes(host.routes, live, advertise, binding)
    ensures Covered(binding.lan, live) && Valid(binding.lan) && Contains(binding.lan, advertise)
    ensures Defaults(host.routes) <= 1
  {
    EnterInterfacesSound(host.addresses, advertise, host.links);
    var (networks, bound) := Addresses(host.addresses, advertise, host.links).value;
    binding := bound;
    live := LiveNetworks(host, advertise).value;
    WalkRoutesSound(host.routes, networks, advertise, binding, host.links);
    FailuresExact(pod, service, privateAdvertise, live);
    assert live == networks + live[|networks|..];
    CoveredGrows(binding.lan, networks, live[|networks|..]);
    forall e | e in host.addresses && e.info.Some? ensures CoversAddresses(e.info.value, live) {
      CoversMore(e.info.value, networks, live);
    }
  }

  lemma NotCovered(pod: Network, service: Network, live: seq<Live>, network: Network, x: Address)
    requires Apart(pod, live) && Apart(service, live) && InCluster(pod, service, x) && Covered(network, live)
    ensures !Contains(network, x)
  {
    var i :| 0 <= i < |live| && live[i].network == network;
    assert !Share(pod, live[i].network) && !Share(service, live[i].network);
  }

  /** A passed gate separates the cluster: no address lies in both ranges, and none in either
      is the advertise address, a default gateway, an address of a bound network, or an
      address of a route other than a default route. */
  lemma PassedSeparates(
    pod: Network, service: Network, advertise: Address, privateAdvertise: bool, host: Host, x: Address)
    requires Valid(pod) && Valid(service) && Passes(pod, service, advertise, privateAdvertise, host)
    requires InCluster(pod, service, x)
    ensures !(Contains(pod, x) && Contains(service, x))
    ensures x != advertise
    ensures forall local, prefix :: BoundTo(host.addresses, local, prefix) ==> !Contains(NetworkOf(local, prefix), x)
    ensures forall route :: route in host.routes && Specific(route) ==>
      !Contains(RouteNetwork(route.destination).value, x)
    ensures forall route :: route in host.routes && IsDefault(route) ==>
      route.gateway.Some? && route.gateway.value != x && route.gateway.value != advertise
  {
    var live, binding := PassedHost(pod, service, advertise, privateAdvertise, host);
    NotCovered(pod, service, live, binding.lan, x);
    assert Contains(pod, x) && Contains(service, x) ==> Share(pod, service);
    forall local, prefix | BoundTo(host.addresses, local, prefix) ensures !Contains(NetworkOf(local, prefix), x) {
      var e, a :| e in host.addresses && e.info.Some? && a in e.info.value && a == Bound(local, prefix);
      assert CoversAddresses(e.info.value, live);
      NotCovered(pod, service, live, NetworkOf(local, prefix), x);
    }
    forall route | route in host.routes
      ensures Specific(route) ==> !Contains(RouteNetwork(route.destination).value, x)
      ensures IsDefault(route) ==>
        route.gateway.Some? && route.gateway.value != x && route.gateway.value != advertise
    {
      assert GoodRoute(route, live, advertise, binding);
      if Specific(route) { NotCovered(pod, service, live, RouteNetwork(route.destination).value, x); }
    }
  }

  // --------------------------------------------------------------------------
  // Route lookup

  /** Route `i` stands in a table and matches an address. */
  predicate Matches(host: Host, i: nat, table: string, x: Address) {
    && i < |host.routes| && TableOf(host.routes[i]) == Some(table)
    && RouteNetwork(host.routes[i].destination).Some? && Contains(RouteNetwork(host.routes[i].destination).value, x)
  }

  function PrefixOf(host: Host, i: nat): nat
    requires i < |host.routes| && RouteNetwork(host.routes[i].destination).Some?
  {
    RouteNetwork(host.routes[i].destination).value.prefix
  }

  /** Route `i` is a longest match in a table. */
  ghost predicate Longest(host: Host, i: nat, table: string, x: Address) {
    Matches(host, i, table, x) && forall j :: Matches(host, j, table, x) ==> PrefixOf(host, j) <= PrefixOf(host, i)
  }

  ghost predicate Silent(host: Host, table: string, x: Address) {
    forall j :: !Matches(host, j, table, x)
  }

  predicate Consults(r: RuleEntry, priority: int, table: string) {
    RuleReadable(r) && ObservedOf(r).priority == priority && ObservedOf(r).table == Some(table)
  }

  /** Route `i` answers a lookup: some rule leads to its table, no rule of a lower priority
      number leads to a table with a match, and it is a longest match in its own. */
  ghost predicate Answers(host: Host, i: nat, x: Address) {
    exists r, priority, table ::
      && r in host.rules && Consults(r, priority, table) && Longest(host, i, table, x)
      && forall s, p, t :: s in host.rules && Consults(s, p, t) && p < priority ==> Silent(host, t, x)
  }

  lemma RulesConsult(rules: seq<RuleEntry>, priority: int, table: string)
    requires DefaultRules(rules)
    ensures (exists r :: r in rules && Consults(r, priority, table)) <==>
            (priority, table) in {(0, "local"), (32766, "main"), (32767, "default")}
  {
    var observed := AllObserved(rules);
    var three := multiset{LOCAL_RULE, MAIN_RULE, DEFAULT_RULE};
    if r :| r in rules && Consults(r, priority, table) {
      var i :| 0 <= i < |rules| && rules[i] == r;
      assert observed[i] in multiset(observed);
      assert observed[i] in three;
    }
    if (priority, table) in {(0, "local"), (32766, "main"), (32767, "default")} {
      var rule := Observed(priority, Some("all"), Some(table));
      assert rule in three;
      assert rule in multiset(observed) && rule in observed;
      var i :| 0 <= i < |observed| && observed[i] == rule;
      assert Consults(rules[i], priority, table);
    }
  }

  /** Under the default rules a lookup is a longest match in the local table, failing that in
      the main table, failing that in the default table. */
  lemma AnswersInOrder(host: Host, i: nat, x: Address)
    requires DefaultRules(host.rules)
    ensures Answers(host, i, x) <==>
      || Longest(host, i, "local", x)
      || (Silent(host, "local", x) && Longest(host, i, "main", x))
      || (Silent(host, "local", x) && Silent(host, "main", x) && Longest(host, i, "default", x))
  {
    RulesConsult(host.rules, 0, "local");
    RulesConsult(host.rules, 32766, "main");
    RulesConsult(host.rules, 32767, "default");
    forall r, p, t | r in host.rules && Consults(r, p, t)
      ensures (p, t) in {(0, "local"), (32766, "main"), (32767, "default")}
    {
      RulesConsult(host.rules, p, t);
    }
  }

  lemma MatchesOnlyDefault(pod: Network, service: Network, live: seq<Live>, advertise: Address, binding: Binding,
                           host: Host, j: nat, x: Address)
    requires Apart(pod, live) && Apart(service, live) && InCluster(pod, service, x)
    requires j < |host.routes| && GoodRoutes(host.routes, live, advertise, binding)
    ensures Matches(host, j, "main", x) <==> IsDefault(host.routes[j])
    ensures !Matches(host, j, "local", x) && !Matches(host, j, "default", x)
  {
    var route := host.routes[j];
    assert GoodRoute(route, live, advertise, binding);
    var network := RouteNetwork(route.destination).value;
    if Specific(route) {
      NotCovered(pod, service, live, network, x);
    } else {
      RouteNetworkValid(route);
      SizeZero();
      assert network.base == 0;
      ContainsInterval(network, x);
    }
    assert "local" != "default" && "main" != "default" && "local" != "main";
  }

  /** The main table's default route is the only route that matches. */
  predicate OnlyDefaultMatches(host: Host, j: nat, x: Address) {
    && (Matches(host, j, "main", x) <==> j < |host.routes| && IsDefault(host.routes[j]))
    && !Matches(host, j, "local", x) && !Matches(host, j, "default", x)
  }

  lemma OnlyDefaultAnswers(host: Host, x: Address, i: nat)
    requires DefaultRules(host.rules)
    requires forall j: nat {:trigger OnlyDefaultMatches(host, j, x)} :: OnlyDefaultMatches(host, j, x)
    ensures Answers(host, i, x) <==> i < |host.routes| && IsDefault(host.routes[i])
  {
    AnswersInOrder(host, i, x);
    assert OnlyDefaultMatches(host, i, x);
    forall j ensures !Matches(host, j, "local", x) { assert OnlyDefaultMatches(host, j, x); }
    forall j | Matches(host, j, "main", x) ensures PrefixOf(host, j) == 0 { assert OnlyDefaultMatches(host, j, x); }
  }

  /** A passed gate leaves the cluster's addresses unrouted: a lookup of one of them, through
      the policy rules and longest matches, is answered by nothing but the one default route
      of the main table, if there is one. */
  lemma PassedLookups(pod: Network, service: Network, advertise: Address, privateAdvertise: bool, host: Host,
                      x: Address, i: nat)
    requires Valid(pod) && Valid(service) && Passes(pod, service, advertise, privateAdvertise, host)
    requires InCluster(pod, service, x)
    ensures Answers(host, i, x) <==> i < |host.routes| && IsDefault(host.routes[i])
    ensures forall j :: 0 <= j < |host.routes| && IsDefault(host.routes[j]) && Answers(host, i, x) ==> i == j
  {
    var live, binding := PassedHost(pod, service, advertise, privateAdvertise, host);
    forall j: nat ensures OnlyDefaultMatches(host, j, x) {
      if j < |host.routes| { MatchesOnlyDefault(pod, service, live, advertise, binding, host, j, x); }
    }
    OnlyDefaultAnswers(host, x, i);
    forall j | 0 <= j < |host.routes| && IsDefault(host.routes[j]) && Answers(host, i, x) ensures i == j {
      if i < j { DefaultsUnique(host.routes, i, j); }
      if j < i { DefaultsUnique(host.routes, j, i); }
    }
  }
}
