/** The ownership census of scripts/validate_runtime_inventory_evidence.py: identity maps,
    the ReplicaSet chain, and the Pods counted against their controllers. */
module RuntimeInventory {
  import opened Text

  /** Namespace and name. */
  type Identity = (string, string)

  /** An object's metadata; a member that is absent or no text is empty. */
  datatype Meta = Meta(namespace: string, name: string, uid: string)

  datatype Item<T> = Item(meta: Meta, body: T)

  function IdentityOf<T>(item: Item<T>): Identity {
    (item.meta.namespace, item.meta.name)
  }

  function Identities<T>(items: seq<Item<T>>): (ids: seq<Identity>)
    ensures |ids| == |items| && forall i :: 0 <= i < |items| ==> ids[i] == IdentityOf(items[i])
  {
    seq(|items|, i requires 0 <= i < |items| => IdentityOf(items[i]))
  }

  function Members<T>(s: seq<T>): set<T> {
    set x | x in s
  }

  // --------------------------------------------------------------------------
  // Identity maps

  /** A map from identities to the items that carry them. */
  ghost predicate Indexes<T>(m: map<Identity, Item<T>>, items: seq<Item<T>>) {
    && m.Keys == Members(Identities(items))
    && forall i :: 0 <= i < |items| ==> m[IdentityOf(items[i])] == items[i]
  }

  predicate Exact<T>(items: seq<Item<T>>, expected: set<Identity>) {
    && |items| == |expected| && Members(Identities(items)) == expected
    && forall i :: 0 <= i < |items| ==> items[i].meta.uid != ""
  }

  lemma {:induction false} SetSize<T>(s: seq<T>)
    ensures |Members(s)| <= |s|
    ensures |Members(s)| == |s| <==> Distinct(s)
  {
    if s == [] {
      assert Members(s) == {};
    } else {
      var front, x := s[..|s| - 1], s[|s| - 1];
      SetSize(front);
      assert s == front + [x];
      assert Members(s) == Members(front) + {x};
      assert x in Members(front) <==> x in front;
      if Distinct(s) {
        assert Distinct(front) && x !in front;
      }
      if Distinct(front) && x !in front { AppendDistinct(front, x); }
    }
  }

  /** `exact_namespaced_map`: the count and the set decide that every expected identity is
      listed exactly once. */
  method ExactMap<T>(items: seq<Item<T>>, expected: set<Identity>) returns (r: Option<map<Identity, Item<T>>>)
    ensures r.Some? <==> Exact(items, expected)
    ensures r.Some? ==> Indexes(r.value, items) && Distinct(Identities(items)) && r.value.Keys == expected
  {
    var identities := Identities(items);
    if |identities| != |expected| || Members(identities) != expected { return None; }
    SetSize(identities);
    var result: map<Identity, Item<T>> := map[];
    for i := 0 to |items|
      invariant result.Keys == Members(identities[..i])
      invariant forall j :: 0 <= j < i ==> items[j].meta.uid != "" && result[IdentityOf(items[j])] == items[j]
    {
      if items[i].meta.uid == "" { return None; }
      assert identities[..i + 1] == identities[..i] + [identities[i]];
      assert forall j :: 0 <= j < i ==> identities[j] != identities[i];
      result := result[IdentityOf(items[i]) := items[i]];
    }
    assert identities[..|items|] == identities;
    r := Some(result);
  }

  function Uids<T>(items: seq<Item<T>>): (uids: seq<string>)
    ensures |uids| == |items| && forall i :: 0 <= i < |items| ==> uids[i] == items[i].meta.uid
  {
    seq(|items|, i requires 0 <= i < |items| => items[i].meta.uid)
  }

  predicate Named<T>(item: Item<T>) {
    item.meta.namespace != "" && item.meta.name != "" && item.meta.uid != ""
  }

  predicate Listable<T>(items: seq<Item<T>>) {
    (forall i :: 0 <= i < |items| ==> Named(items[i])) && Distinct(Identities(items)) && Distinct(Uids(items))
  }

  /** What the loop has collected from the first `n` items. */
  ghost predicate Collected<T>(m: map<Identity, Item<T>>, uids: set<string>, items: seq<Item<T>>, n: nat)
    requires n <= |items|
  {
    && m.Keys == Members(Identities(items)[..n]) && uids == Members(Uids(items)[..n])
    && (forall j :: 0 <= j < n ==> Named(items[j]) && m[IdentityOf(items[j])] == items[j])
    && Distinct(Identities(items)[..n]) && Distinct(Uids(items)[..n])
  }

  lemma PrefixGrows<T>(s: seq<T>, n: nat)
    requires n < |s| && Distinct(s[..n]) && s[n] !in Members(s[..n])
    ensures Distinct(s[..n + 1]) && Members(s[..n + 1]) == Members(s[..n]) + {s[n]}
  {
    assert s[..n + 1] == s[..n] + [s[n]];
    AppendDistinct(s[..n], s[n]);
  }

  lemma CollectedGrows<T>(m: map<Identity, Item<T>>, uids: set<string>, items: seq<Item<T>>, n: nat)
    requires n < |items| && Collected(m, uids, items, n)
    requires Named(items[n]) && IdentityOf(items[n]) !in m && items[n].meta.uid !in uids
    ensures Collected(m[IdentityOf(items[n]) := items[n]], uids + {items[n].meta.uid}, items, n + 1)
  {
    PrefixGrows(Identities(items), n);
    PrefixGrows(Uids(items), n);
    forall j | 0 <= j < n ensures IdentityOf(items[j]) != IdentityOf(items[n]) {
      assert Identities(items)[..n][j] == IdentityOf(items[j]);
    }
  }

  lemma CollectedAll<T>(m: map<Identity, Item<T>>, uids: set<string>, items: seq<Item<T>>)
    requires Collected(m, uids, items, |items|)
    ensures Listable(items) && Indexes(m, items)
  {
    assert Identities(items)[..|items|] == Identities(items) && Uids(items)[..|items|] == Uids(items);
  }

  /** `dynamic_namespaced_map`: accepted exactly when every item is named and no identity and
      no UID occurs twice. */
  method DynamicMap<T>(items: seq<Item<T>>) returns (r: Option<map<Identity, Item<T>>>)
    ensures r.Some? <==> Listable(items)
    ensures r.Some? ==> Indexes(r.value, items)
  {
    var result: map<Identity, Item<T>> := map[];
    var uids: set<string> := {};
    for i := 0 to |items|
      invariant Collected(result, uids, items, i)
    {
      var item := items[i];
      if !Named(item) || IdentityOf(item) in result || item.meta.uid in uids {
        RepeatRefused(items, i);
        return None;
      }
      CollectedGrows(result, uids, items, i);
      result := result[IdentityOf(item) := item];
      uids := uids + {item.meta.uid};
    }
    CollectedAll(result, uids, items);
    r := Some(result);
  }

  lemma RepeatRefused<T>(items: seq<Item<T>>, i: nat)
    requires i < |items|
    requires !Named(items[i]) || IdentityOf(items[i]) in Members(Identities(items)[..i])
      || items[i].meta.uid in Members(Uids(items)[..i])
    ensures !Listable(items)
  {
    if Named(items[i]) && IdentityOf(items[i]) in Members(Identities(items)[..i]) {
      var j :| 0 <= j < i && Identities(items)[j] == IdentityOf(items[i]);
    } else if Named(items[i]) {
      var j :| 0 <= j < i && Uids(items)[j] == items[i].meta.uid;
    }
  }

  /** `{uid: identity}`; of items with one UID the last is kept. */
  function UidMap<T>(items: seq<Item<T>>): map<string, Identity> {
    if items == [] then map[]
    else UidMap(items[..|items| - 1])[items[|items| - 1].meta.uid := IdentityOf(items[|items| - 1])]
  }

  lemma {:induction false} UidMapValues<T>(items: seq<Item<T>>, uid: string)
    requires uid in UidMap(items)
    ensures UidMap(items)[uid] in Identities(items)
  {
    var last := |items| - 1;
    if uid == items[last].meta.uid {
      assert Identities(items)[last] == IdentityOf(items[last]);
    } else {
      UidMapValues(items[..last], uid);
      var i :| 0 <= i < last && Identities(items[..last])[i] == UidMap(items)[uid];
      assert Identities(items)[i] == IdentityOf(items[i]);
    }
  }

  // --------------------------------------------------------------------------
  // Owners and templates

  datatype Owner = Owner(apiVersion: string, kind: string, name: string, uid: string, controller: bool)

  datatype Owners = NotList | Listed(owners: seq<Owner>)

  /** `one_controller_owner`. */
  function OneController(o: Owners): Option<Owner> {
    if o.NotList? || |o.owners| != 1 || !o.owners[0].controller then None else Some(o.owners[0])
  }

  /** A Pod template without its hash label: its container images and the rest of it. */
  datatype Template = Template(images: seq<string>, rest: string)

  /** A Deployment that is stable at a number of replicas. */
  datatype Deployment = Deployment(replicas: nat, selector: string, template: Template)

  datatype DaemonSet = DaemonSet(desired: nat, template: Template)

  /** A ReplicaSet; a hash that is absent, empty or no text is `None`, and `idle` says that no
      status field still counts a replica. */
  datatype ReplicaSet = ReplicaSet(
    owners: Owners, replicas: Option<int>, selectorHash: Option<string>, templateHash: Option<string>,
    selector: string, template: Template, ready: Option<int>, available: Option<int>, idle: bool)

  type Deployments = map<Identity, Item<Deployment>>

  /** Active ReplicaSets by Deployment, and every ReplicaSet's Deployment and name by UID. */
  datatype Chain =
    Broken | Chain(active: map<Identity, string>, parents: map<string, Identity>, names: map<string, string>)

  /** The Deployment a ReplicaSet belongs to, through its one controller. */
  function DeploymentOf(rs: Item<ReplicaSet>, uids: map<string, Identity>): Option<Identity> {
    var owner := OneController(rs.body.owners);
    if owner.None? || owner.value.uid !in uids then None
    else
      var parent := uids[owner.value.uid];
      if owner.value.apiVersion != "apps/v1" || owner.value.kind != "Deployment" || owner.value.name != parent.1
         || rs.meta.namespace != parent.0 || !(parent.1 + "-" <= rs.meta.name)
      then None
      else Some(parent)
  }

  /** An active ReplicaSet is its Deployment's, replica for replica and template for template. */
  predicate Mirrors(rs: ReplicaSet, d: Deployment) {
    && rs.selectorHash.Some? && rs.templateHash == rs.selectorHash
    && rs.selector == d.selector && rs.template == d.template
    && rs.replicas == Some(d.replicas) && rs.ready == rs.replicas && rs.available == rs.replicas
  }

  function Link(c: Chain, rs: Item<ReplicaSet>, deployments: Deployments, uids: map<string, Identity>): Chain {
    var parent := DeploymentOf(rs, uids);
    if c.Broken? || parent.None? || parent.value !in deployments then Broken
    else if rs.body.replicas.None? || rs.body.replicas.value < 0 then Broken
    else
      var parents, names := c.parents[rs.meta.uid := parent.value], c.names[rs.meta.uid := rs.meta.name];
      if rs.body.replicas.value == 0 then
        if rs.body.idle then Chain(c.active, parents, names) else Broken
      else if !Mirrors(rs.body, deployments[parent.value].body) || parent.value in c.active then Broken
      else Chain(c.active[parent.value := rs.meta.uid], parents, names)
  }

  function Links(sets: seq<Item<ReplicaSet>>, deployments: Deployments, uids: map<string, Identity>): Chain {
    if sets == [] then Chain(map[], map[], map[])
    else Link(Links(sets[..|sets| - 1], deployments, uids), sets[|sets| - 1], deployments, uids)
  }

  lemma {:induction false} LinksStayBroken(
    sets: seq<Item<ReplicaSet>>, n: nat, deployments: Deployments, uids: map<string, Identity>)
    requires n <= |sets| && Links(sets[..n], deployments, uids).Broken?
    ensures Links(sets, deployments, uids).Broken?
    decreases |sets|
  {
    if n == |sets| {
      assert sets[..n] == sets;
    } else {
      assert sets[..|sets| - 1][..n] == sets[..n];
      LinksStayBroken(sets[..|sets| - 1], n, deployments, uids);
    }
  }

  /** The chain of an accepted inventory: linked throughout, every Deployment active. */
  function AcceptedChain(sets: seq<Item<ReplicaSet>>, deployments: Deployments, uids: map<string, Identity>): Chain {
    var c := Links(sets, deployments, uids);
    if c.Chain? && c.active.Keys == deployments.Keys then c else Broken
  }

  /** The ReplicaSet loop. */
  method LinkReplicaSets(
    sets: seq<Item<ReplicaSet>>, deployments: Deployments, uids: map<string, Identity>) returns (c: Chain)
    requires forall uid :: uid in uids ==> uids[uid] in deployments
    ensures c == AcceptedChain(sets, deployments, uids)
  {
    var active: map<Identity, string>, parents: map<string, Identity>, names: map<string, string> :=
      map[], map[], map[];
    for i := 0 to |sets|
      invariant Links(sets[..i], deployments, uids) == Chain(active, parents, names)
    {
      assert sets[..i + 1][..i] == sets[..i];
      var rs := sets[i];
      if Link(Chain(active, parents, names), rs, deployments, uids).Broken? {
        LinksStayBroken(sets, i + 1, deployments, uids);
      }
      var parent := DeploymentOf(rs, uids);
      if parent.None? { return Broken; }
      var replicas := rs.body.replicas;
      if replicas.None? || replicas.value < 0 { return Broken; }
      parents := parents[rs.meta.uid := parent.value];
      names := names[rs.meta.uid := rs.meta.name];
      if replicas.value != 0 {
        if !Mirrors(rs.body, deployments[parent.value].body) { return Broken; }
        if parent.value in active { return Broken; }
        active := active[parent.value := rs.meta.uid];
      } else if !rs.body.idle {
        return Broken;
      }
    }
    assert sets[..|sets|] == sets;
    c := if active.Keys != deployments.Keys then Broken else Chain(active, parents, names);
  }

  predicate Active(rs: Item<ReplicaSet>, d: Identity, uids: map<string, Identity>) {
    DeploymentOf(rs, uids) == Some(d) && rs.body.replicas.Some? && rs.body.replicas.value > 0
  }

  /** ReplicaSet `i` is active for a Deployment. */
  predicate ActiveFor(sets: seq<Item<ReplicaSet>>, i: int, d: Identity, uids: map<string, Identity>) {
    0 <= i < |sets| && Active(sets[i], d, uids)
  }

  /** Every active entry is some ReplicaSet's. */
  ghost predicate Grounded(c: Chain, sets: seq<Item<ReplicaSet>>, uids: map<string, Identity>)
    requires c.Chain?
  {
    forall d :: d in c.active ==> exists i :: ActiveFor(sets, i, d, uids)
  }

  /** Every active ReplicaSet is entered, and mirrors its Deployment. */
  ghost predicate Entered(c: Chain, sets: seq<Item<ReplicaSet>>, deployments: Deployments, uids: map<string, Identity>)
    requires c.Chain?
  {
    forall i, d :: ActiveFor(sets, i, d, uids) ==>
      d in c.active && c.active[d] == sets[i].meta.uid && d in deployments && Mirrors(sets[i].body, deployments[d].body)
  }

  ghost predicate Single(sets: seq<Item<ReplicaSet>>, uids: map<string, Identity>) {
    forall i, j, d :: ActiveFor(sets, i, d, uids) && ActiveFor(sets, j, d, uids) ==> i == j
  }

  predicate ParentsKnown(c: Chain, deployments: Deployments)
    requires c.Chain?
  {
    forall uid :: uid in c.parents ==> c.parents[uid] in deployments
  }

  /** What the links record. */
  ghost predicate Linked(c: Chain, sets: seq<Item<ReplicaSet>>, deployments: Deployments, uids: map<string, Identity>) {
    c.Chain? && Grounded(c, sets, uids) && Entered(c, sets, deployments, uids) && Single(sets, uids)
      && ParentsKnown(c, deployments)
  }

  /** One link enters at most the Deployment its ReplicaSet is active for. */
  lemma LinkStep(c: Chain, rs: Item<ReplicaSet>, deployments: Deployments, uids: map<string, Identity>)
    requires Link(c, rs, deployments, uids).Chain?
    ensures c.Chain? && DeploymentOf(rs, uids).Some?
    ensures var next, d := Link(c, rs, deployments, uids), DeploymentOf(rs, uids).value;
      && d in deployments && next.parents == c.parents[rs.meta.uid := d]
      && (Active(rs, d, uids) ==>
            d !in c.active && next.active == c.active[d := rs.meta.uid] && Mirrors(rs.body, deployments[d].body))
      && (!Active(rs, d, uids) ==> next.active == c.active)
  {
  }

  lemma ActiveSplit(sets: seq<Item<ReplicaSet>>, rs: Item<ReplicaSet>, i: int, d: Identity, uids: map<string, Identity>)
    ensures ActiveFor(sets + [rs], i, d, uids) <==> ActiveFor(sets, i, d, uids) || (i == |sets| && Active(rs, d, uids))
    ensures ActiveFor(sets, i, d, uids) ==> (sets + [rs])[i] == sets[i]
  {
  }

  lemma GroundedGrows(
    c: Chain, next: Chain, sets: seq<Item<ReplicaSet>>, rs: Item<ReplicaSet>, d: Identity,
    uids: map<string, Identity>)
    requires c.Chain? && next.Chain? && Grounded(c, sets, uids)
    requires next.active == if Active(rs, d, uids) then c.active[d := rs.meta.uid] else c.active
    ensures Grounded(next, sets + [rs], uids)
  {
    forall e | e in next.active ensures exists i :: ActiveFor(sets + [rs], i, e, uids) {
      if e in c.active {
        var i :| ActiveFor(sets, i, e, uids);
        ActiveSplit(sets, rs, i, e, uids);
        assert ActiveFor(sets + [rs], i, e, uids);
      } else {
        ActiveSplit(sets, rs, |sets|, e, uids);
        assert ActiveFor(sets + [rs], |sets|, e, uids);
      }
    }
  }

  lemma EnteredGrows(c: Chain, next: Chain, sets: seq<Item<ReplicaSet>>, rs: Item<ReplicaSet>, d: Identity,
                     deployments: Deployments, uids: map<string, Identity>)
    requires c.Chain? && next.Chain? && Entered(c, sets, deployments, uids) && DeploymentOf(rs, uids) == Some(d)
      && d in deployments
    requires Active(rs, d, uids) ==> d !in c.active && Mirrors(rs.body, deployments[d].body)
    requires next.active == if Active(rs, d, uids) then c.active[d := rs.meta.uid] else c.active
    ensures Entered(next, sets + [rs], deployments, uids)
  {
    var all := sets + [rs];
    forall i, e | ActiveFor(all, i, e, uids)
      ensures e in next.active && next.active[e] == all[i].meta.uid && e in deployments
        && Mirrors(all[i].body, deployments[e].body)
    {
      ActiveSplit(sets, rs, i, e, uids);
    }
  }

  lemma SingleGrows(c: Chain, sets: seq<Item<ReplicaSet>>, rs: Item<ReplicaSet>, d: Identity, deployments: Deployments,
                    uids: map<string, Identity>)
    requires c.Chain? && Entered(c, sets, deployments, uids) && Single(sets, uids) && DeploymentOf(rs, uids) == Some(d)
    requires Active(rs, d, uids) ==> d !in c.active
    ensures Single(sets + [rs], uids)
  {
    var all := sets + [rs];
    forall i, j, e | ActiveFor(all, i, e, uids) && ActiveFor(all, j, e, uids) ensures i == j {
      ActiveSplit(sets, rs, i, e, uids);
      ActiveSplit(sets, rs, j, e, uids);
    }
  }

  lemma {:induction false} LinksKeep(sets: seq<Item<ReplicaSet>>, deployments: Deployments, uids: map<string, Identity>)
    requires Links(sets, deployments, uids).Chain?
    ensures Linked(Links(sets, deployments, uids), sets, deployments, uids)
  {
    if sets != [] {
      var front, rs := sets[..|sets| - 1], sets[|sets| - 1];
      var c, next := Links(front, deployments, uids), Links(sets, deployments, uids);
      LinkStep(c, rs, deployments, uids);
      LinksKeep(front, deployments, uids);
      var d := DeploymentOf(rs, uids).value;
      GroundedGrows(c, next, front, rs, d, uids);
      EnteredGrows(c, next, front, rs, d, deployments, uids);
      SingleGrows(c, front, rs, d, deployments, uids);
      assert sets == front + [rs];
    }
  }

  /** An accepted chain gives every Deployment exactly one active ReplicaSet, with the
      Deployment's own replicas and template, and no ReplicaSet is active for anything else. */
  lemma OneActiveReplicaSet(
    sets: seq<Item<ReplicaSet>>, deployments: Deployments, uids: map<string, Identity>, d: Identity)
    requires AcceptedChain(sets, deployments, uids).Chain?
    ensures d in deployments <==> exists i :: ActiveFor(sets, i, d, uids)
    ensures forall i, j :: ActiveFor(sets, i, d, uids) && ActiveFor(sets, j, d, uids) ==> i == j
    ensures forall i :: ActiveFor(sets, i, d, uids) ==>
      Mirrors(sets[i].body, deployments[d].body) && AcceptedChain(sets, deployments, uids).active[d] == sets[i].meta.uid
  {
    LinksKeep(sets, deployments, uids);
    var c := Links(sets, deployments, uids);
    assert Grounded(c, sets, uids) && Entered(c, sets, deployments, uids);
    if d in deployments { assert d in c.active; }
  }

  // --------------------------------------------------------------------------
  // Pods

  /** A Pod's evidence. `mirror` says that the mirror annotation is set, `extra` that init or
      ephemeral containers are declared, and `restricted` that the specification passes the
      port and privilege checks its kind of parent calls for. */
  datatype Pod = Pod(
    deleting: bool, images: Option<seq<string>>, owners: Owners, mirror: bool, nodeName: string, extra: bool,
    running: bool, ready: bool, restricted: bool)

  /** What Pods are compared with. */
  datatype Cluster = Cluster(
    namespaces: set<string>, nodeName: string, nodeUid: string, statics: map<Identity, seq<string>>,
    deployments: Deployments, chain: Chain,
    daemonsets: map<Identity, Item<DaemonSet>>, daemonUids: map<string, Identity>)

  datatype Parent = Node | Controller(identity: Identity)

  predicate HasOwners(o: Owners) {
    o.NotList? || o.owners != []
  }

  /** The conditions on a Pod that stands for a static Pod. */
  predicate StaticPod(pod: Item<Pod>, c: Cluster) {
    && (HasOwners(pod.body.owners) ==>
          var owner := OneController(pod.body.owners);
          owner.Some? && owner.value.apiVersion == "v1" && owner.value.kind == "Node"
          && owner.value.name == c.nodeName && owner.value.uid == c.nodeUid)
    && pod.body.nodeName == c.nodeName && !pod.body.extra
  }

  /** The active Deployment an owner leads to. */
  function DeploymentParent(pod: Item<Pod>, owner: Owner, c: Cluster): Option<Identity> {
    if c.chain.Broken? || owner.uid !in c.chain.parents then None
    else
      var parent := c.chain.parents[owner.uid];
      if parent !in c.chain.active || c.chain.active[parent] != owner.uid
         || owner.uid !in c.chain.names || owner.name != c.chain.names[owner.uid]
         || pod.meta.namespace != parent.0 || !(owner.name + "-" <= pod.meta.name)
      then None
      else Some(parent)
  }

  function DaemonParent(pod: Item<Pod>, owner: Owner, c: Cluster): Option<Identity> {
    if owner.uid !in c.daemonUids then None
    else
      var parent := c.daemonUids[owner.uid];
      if owner.name != parent.1 || pod.meta.namespace != parent.0 || !(parent.1 + "-" <= pod.meta.name) then None
      else Some(parent)
  }

  /** The one parent of a Pod. */
  function ParentOf(pod: Item<Pod>, c: Cluster): Option<Parent> {
    if IdentityOf(pod) in c.statics && pod.body.mirror then
      if StaticPod(pod, c) then Some(Node) else None
    else
      match OneController(pod.body.owners)
      case None => None
      case Some(owner) =>
        if owner.apiVersion != "apps/v1" then None
        else if owner.kind == "ReplicaSet" then
          var d := DeploymentParent(pod, owner, c);
          if d.None? then None else Some(Controller(d.value))
        else if owner.kind == "DaemonSet" then
          var d := DaemonParent(pod, owner, c);
          if d.None? then None else Some(Controller(d.value))
        else None
  }

  /** The images a parent prescribes. */
  function ImagesOf(pod: Item<Pod>, parent: Parent, c: Cluster): Option<seq<string>> {
    match parent
    case Node => if IdentityOf(pod) in c.statics then Some(c.statics[IdentityOf(pod)]) else None
    case Controller(identity) =>
      if OneController(pod.body.owners).Some? && OneController(pod.body.owners).value.kind == "ReplicaSet" then
        if identity in c.deployments then Some(c.deployments[identity].body.template.images) else None
      else if identity in c.daemonsets then Some(c.daemonsets[identity].body.template.images)
      else None
  }

  predicate GoodPod(pod: Item<Pod>, c: Cluster) {
    && pod.meta.namespace in c.namespaces && pod.meta.name != "" && pod.meta.uid != "" && !pod.body.deleting
    && pod.body.images.Some? && ParentOf(pod, c).Some? && pod.body.images == ImagesOf(pod, ParentOf(pod, c).value, c)
    && pod.body.running && pod.body.ready && pod.body.restricted
  }

  /** What one Pod brings to the census: its identity, its UID, and its parent if it passes
      every check that looks at nothing but itself and the cluster. */
  datatype Verdict = Verdict(identity: Identity, uid: string, parent: Option<Parent>)

  function VerdictOf(pod: Item<Pod>, c: Cluster): Verdict {
    Verdict(IdentityOf(pod), pod.meta.uid, if GoodPod(pod, c) then ParentOf(pod, c) else None)
  }

  function VerdictsOf(pods: seq<Item<Pod>>, c: Cluster): (vs: seq<Verdict>)
    ensures |vs| == |pods|
  {
    if pods == [] then [] else VerdictsOf(pods[..|pods| - 1], c) + [VerdictOf(pods[|pods| - 1], c)]
  }

  lemma {:induction false} VerdictAt(pods: seq<Item<Pod>>, c: Cluster, i: nat)
    requires i < |pods|
    ensures VerdictsOf(pods, c)[i] == VerdictOf(pods[i], c)
  {
    if i < |pods| - 1 { VerdictAt(pods[..|pods| - 1], c, i); }
  }

  datatype Census = Refused | Census(counts: map<Identity, int>, seen: set<Identity>, uids: set<string>)

  function CountPod(s: Census, v: Verdict): Census {
    if s.Refused? || v.parent.None? || v.uid in s.uids then Refused
    else
      match v.parent.value
      case Node => if v.identity in s.seen then Refused else Census(s.counts, s.seen + {v.identity}, s.uids + {v.uid})
      case Controller(d) =>
        if d !in s.counts then Refused
        else Census(s.counts[d := s.counts[d] + 1], s.seen, s.uids + {v.uid})
  }

  function CountPods(vs: seq<Verdict>, ids: set<Identity>): Census {
    if vs == [] then Census(map d | d in ids :: 0, {}, {})
    else CountPod(CountPods(vs[..|vs| - 1], ids), vs[|vs| - 1])
  }

  lemma {:induction false} CountsStayRefused(vs: seq<Verdict>, n: nat, ids: set<Identity>)
    requires n <= |vs| && CountPods(vs[..n], ids).Refused?
    ensures CountPods(vs, ids).Refused?
    decreases |vs|
  {
    if n == |vs| {
      assert vs[..n] == vs;
    } else {
      assert vs[..|vs| - 1][..n] == vs[..n];
      CountsStayRefused(vs[..|vs| - 1], n, ids);
    }
  }

  function Controllers(c: Cluster): set<Identity> {
    c.deployments.Keys + c.daemonsets.Keys
  }

  /** Every parent the lookups lead to is a key of the counts. */
  predicate Closed(c: Cluster) {
    && c.chain.Chain?
    && (forall uid :: uid in c.chain.parents ==> c.chain.parents[uid] in c.deployments)
    && (forall uid :: uid in c.daemonUids ==> c.daemonUids[uid] in c.daemonsets)
  }

  /** The counts a stable cluster calls for. */
  function ExpectedCounts(c: Cluster): map<Identity, int> {
    (map d | d in c.deployments :: c.deployments[d].body.replicas as int)
    + (map d | d in c.daemonsets :: c.daemonsets[d].body.desired as int)
  }

  predicate CensusAccepted(pods: seq<Item<Pod>>, c: Cluster) {
    var s := CountPods(VerdictsOf(pods, c), Controllers(c));
    s.Census? && s.seen == c.statics.Keys && s.counts == ExpectedCounts(c)
  }

  /** The owner checks of one Pod: its parent, and the images that prescribes. */
  method ResolveParent(pod: Item<Pod>, c: Cluster) returns (parent: Option<Parent>, expected: seq<string>)
    requires Closed(c)
    ensures parent == ParentOf(pod, c)
    ensures parent.Some? ==> ImagesOf(pod, parent.value, c) == Some(expected)
    ensures parent.Some? && parent.value.Controller? ==> parent.value.identity in c.deployments.Keys + c.daemonsets.Keys
  {
    var identity := IdentityOf(pod);
    expected := [];
    if identity in c.statics && pod.body.mirror {
      if !StaticPod(pod, c) { return None, expected; }
      return Some(Node), c.statics[identity];
    }
    var controller := OneController(pod.body.owners);
    if controller.None? { return None, expected; }
    var owner := controller.value;
    if owner.apiVersion != "apps/v1"
      || (owner.kind != "ReplicaSet" && owner.kind != "DaemonSet")
    {
      return None, expected;
    }
    if owner.kind == "ReplicaSet" {
      var d := DeploymentParent(pod, owner, c);
      if d.None? { return None, expected; }
      return Some(Controller(d.value)), c.deployments[d.value].body.template.images;
    }
    var d := DaemonParent(pod, owner, c);
    if d.None? { return None, expected; }
    return Some(Controller(d.value)), c.daemonsets[d.value].body.template.images;
  }

  /** The checks of one Pod that look at nothing but itself and the cluster: its parent, if it
      passes them all. */
  method CheckPod(pods: seq<Item<Pod>>, i: nat, c: Cluster, ghost vs: seq<Verdict>) returns (parent: Option<Parent>)
    requires Closed(c) && i < |pods| && vs == VerdictsOf(pods, c)
    ensures vs[i] == Verdict(IdentityOf(pods[i]), pods[i].meta.uid, parent)
    ensures parent.Some? && parent.value.Controller? ==> parent.value.identity in Controllers(c)
  {
    VerdictAt(pods, c, i);
    var pod := pods[i];
    if pod.meta.namespace !in c.namespaces || pod.meta.name == "" || pod.meta.uid == ""
      || pod.body.deleting
    {
      return None;
    }
    if pod.body.images.None? { return None; }
    var expected: seq<string>;
    parent, expected := ResolveParent(pod, c);
    if parent.None? { return; }
    if pod.body.images.value != expected { return None; }
    if !pod.body.running || !pod.body.ready || !pod.body.restricted { return None; }
  }

  /** The Pod loop and the comparisons after it. */
  method CheckPods(pods: seq<Item<Pod>>, c: Cluster) returns (ok: bool)
    requires Closed(c)
    ensures ok <==> CensusAccepted(pods, c)
  {
    var counts := map d | d in Controllers(c) :: 0;
    var seen: set<Identity>, uids: set<string> := {}, {};
    ghost var vs := VerdictsOf(pods, c);
    for i := 0 to |pods|
      invariant CountPods(vs[..i], Controllers(c)) == Census(counts, seen, uids)
      invariant counts.Keys == Controllers(c)
    {
      assert vs[..i + 1][..i] == vs[..i];
      var parent := CheckPod(pods, i, c, vs);
      if CountPod(Census(counts, seen, uids), vs[i]).Refused? { CountsStayRefused(vs, i + 1, Controllers(c)); }
      var uid, identity := pods[i].meta.uid, IdentityOf(pods[i]);
      if uid in uids || parent.None? { return false; }
      uids := uids + {uid};
      if parent.value.Node? {
        if identity in seen { return false; }
        seen := seen + {identity};
      } else {
        counts := counts[parent.value.identity := counts[parent.value.identity] + 1];
      }
    }
    assert vs[..|pods|] == vs;
    ok := seen == c.statics.Keys && counts == ExpectedCounts(c);
  }

  // --------------------------------------------------------------------------
  // Conservation

  /** How many Pods have a parent. */
  function CountOf(pods: seq<Item<Pod>>, parent: Parent, c: Cluster): nat {
    if pods == [] then 0
    else CountOf(pods[..|pods| - 1], parent, c) + if ParentOf(pods[|pods| - 1], c) == Some(parent) then 1 else 0
  }

  predicate CountsRight(counts: map<Identity, int>, pods: seq<Item<Pod>>, c: Cluster) {
    counts.Keys == c.deployments.Keys + c.daemonsets.Keys &&
    forall d :: d in counts ==> counts[d] == CountOf(pods, Controller(d), c)
  }

  predicate AllGood(pods: seq<Item<Pod>>, c: Cluster) {
    forall i :: 0 <= i < |pods| ==> GoodPod(pods[i], c)
  }

  predicate Tallied(s: Census, pods: seq<Item<Pod>>, c: Cluster) {
    s.Census? ==>
      && CountsRight(s.counts, pods, c) && |s.seen| == CountOf(pods, Node, c) && AllGood(pods, c)
      && s.uids == Members(Uids(pods)) && Distinct(Uids(pods))
  }

  lemma CountOfAppend(pods: seq<Item<Pod>>, pod: Item<Pod>, parent: Parent, c: Cluster)
    ensures CountOf(pods + [pod], parent, c) ==
            CountOf(pods, parent, c) + if ParentOf(pod, c) == Some(parent) then 1 else 0
  {
    assert (pods + [pod])[..|pods|] == pods;
  }

  lemma CountsAppend(
    counts: map<Identity, int>, next: map<Identity, int>, pods: seq<Item<Pod>>, pod: Item<Pod>, c: Cluster)
    requires CountsRight(counts, pods, c) && next.Keys == counts.Keys
    requires forall d :: d in counts ==> next[d] == counts[d] + if ParentOf(pod, c) == Some(Controller(d)) then 1 else 0
    ensures CountsRight(next, pods + [pod], c)
  {
    forall d | d in next ensures next[d] == CountOf(pods + [pod], Controller(d), c) {
      CountOfAppend(pods, pod, Controller(d), c);
    }
  }

  lemma UidsAppend(pods: seq<Item<Pod>>, pod: Item<Pod>)
    requires Distinct(Uids(pods)) && pod.meta.uid !in Members(Uids(pods))
    ensures Distinct(Uids(pods + [pod])) && Members(Uids(pods + [pod])) == Members(Uids(pods)) + {pod.meta.uid}
  {
    assert Uids(pods + [pod]) == Uids(pods) + [pod.meta.uid];
    AppendDistinct(Uids(pods), pod.meta.uid);
  }

  lemma TallyStep(s: Census, pods: seq<Item<Pod>>, pod: Item<Pod>, c: Cluster, next: Census)
    requires Tallied(s, pods, c) && next == CountPod(s, VerdictOf(pod, c))
    ensures Tallied(next, pods + [pod], c)
  {
    if next.Census? {
      assert GoodPod(pod, c);
      CountsAppend(s.counts, next.counts, pods, pod, c);
      CountOfAppend(pods, pod, Node, c);
      UidsAppend(pods, pod);
    }
  }

  lemma {:induction false} TallyPods(pods: seq<Item<Pod>>, c: Cluster)
    ensures Tallied(CountPods(VerdictsOf(pods, c), Controllers(c)), pods, c)
  {
    if pods == [] {
      assert Members(Uids(pods)) == {};
    } else {
      var front, pod := pods[..|pods| - 1], pods[|pods| - 1];
      TallyPods(front, c);
      var vs := VerdictsOf(front, c);
      assert VerdictsOf(pods, c)[..|pods| - 1] == vs;
      var s := CountPods(vs, Controllers(c));
      TallyStep(s, front, pod, c, CountPod(s, VerdictOf(pod, c)));
      assert pods == front + [pod];
    }
  }

  /** A named Pod of the release that is not going away, runs, and is ready and restricted. */
  predicate Serving(pod: Item<Pod>, c: Cluster) {
    && pod.meta.namespace in c.namespaces && pod.meta.name != "" && pod.meta.uid != ""
    && !pod.body.deleting && pod.body.running && pod.body.ready && pod.body.restricted
  }

  /** In an accepted census every Pod is serving, has one parent and carries the images that
      prescribes, no UID occurs twice, and every parent has exactly the Pods it calls for. */
  lemma PodsPerParent(pods: seq<Item<Pod>>, c: Cluster)
    requires CensusAccepted(pods, c) && c.deployments.Keys !! c.daemonsets.Keys
    ensures forall i :: 0 <= i < |pods| ==> Serving(pods[i], c)
    ensures forall i :: 0 <= i < |pods| ==>
      ParentOf(pods[i], c).Some? && pods[i].body.images == ImagesOf(pods[i], ParentOf(pods[i], c).value, c)
    ensures Distinct(Uids(pods))
    ensures forall d :: d in c.deployments ==> CountOf(pods, Controller(d), c) == c.deployments[d].body.replicas
    ensures forall d :: d in c.daemonsets ==> CountOf(pods, Controller(d), c) == c.daemonsets[d].body.desired
    ensures CountOf(pods, Node, c) == |c.statics|
  {
    TallyPods(pods, c);
    var counts := ExpectedCounts(c);
    forall d | d in c.deployments ensures counts[d] == c.deployments[d].body.replicas {}
    assert |c.statics.Keys| == |c.statics|;
    forall i | 0 <= i < |pods| ensures GoodPod(pods[i], c) {}
  }

  /** The Pods of a list of controllers. */
  function CountAll(pods: seq<Item<Pod>>, ids: seq<Identity>, c: Cluster): nat {
    if ids == [] then 0 else CountAll(pods, ids[..|ids| - 1], c) + CountOf(pods, Controller(ids[|ids| - 1]), c)
  }

  lemma {:induction false} CountAllNothing(pods: seq<Item<Pod>>, ids: seq<Identity>, c: Cluster)
    requires pods == []
    ensures CountAll(pods, ids, c) == 0
  {
    if ids != [] { CountAllNothing(pods, ids[..|ids| - 1], c); }
  }

  lemma {:induction false} CountAllStep(pods: seq<Item<Pod>>, pod: Item<Pod>, ids: seq<Identity>, c: Cluster)
    requires Distinct(ids)
    ensures CountAll(pods + [pod], ids, c) == CountAll(pods, ids, c)
         + if ParentOf(pod, c).Some? && ParentOf(pod, c).value.Controller? && ParentOf(pod, c).value.identity in ids
           then 1 else 0
  {
    if ids != [] {
      var front, last := ids[..|ids| - 1], ids[|ids| - 1];
      CountAllStep(pods, pod, front, c);
      assert ids == front + [last] && last !in front;
      assert (pods + [pod])[..|pods|] == pods;
    }
  }

  /** Every Pod is counted exactly once, for the node or for one of the controllers. */
  lemma {:induction false} EveryPodCounted(pods: seq<Item<Pod>>, ids: seq<Identity>, c: Cluster)
    requires Distinct(ids)
    requires forall i :: 0 <= i < |pods| ==>
      ParentOf(pods[i], c).Some?
        && (ParentOf(pods[i], c).value.Controller? ==> ParentOf(pods[i], c).value.identity in ids)
    ensures |pods| == CountAll(pods, ids, c) + CountOf(pods, Node, c)
  {
    if pods == [] {
      CountAllNothing(pods, ids, c);
    } else {
      var front, pod := pods[..|pods| - 1], pods[|pods| - 1];
      assert forall i :: 0 <= i < |front| ==> front[i] == pods[i];
      EveryPodCounted(front, ids, c);
      CountAllStep(front, pod, ids, c);
      assert pods == front + [pod];
    }
  }

  function SumReplicas(items: seq<Item<Deployment>>): nat {
    if items == [] then 0 else SumReplicas(items[..|items| - 1]) + items[|items| - 1].body.replicas
  }

  function SumDesired(items: seq<Item<DaemonSet>>): nat {
    if items == [] then 0 else SumDesired(items[..|items| - 1]) + items[|items| - 1].body.desired
  }

  lemma {:induction false} DeploymentPods(pods: seq<Item<Pod>>, items: seq<Item<Deployment>>, c: Cluster)
    requires forall i :: 0 <= i < |items| ==>
      CountOf(pods, Controller(IdentityOf(items[i])), c) == items[i].body.replicas
    ensures CountAll(pods, Identities(items), c) == SumReplicas(items)
  {
    if items != [] {
      DeploymentPods(pods, items[..|items| - 1], c);
      assert Identities(items)[..|items| - 1] == Identities(items[..|items| - 1]);
    }
  }

  lemma {:induction false} DaemonPods(pods: seq<Item<Pod>>, items: seq<Item<DaemonSet>>, c: Cluster)
    requires forall i :: 0 <= i < |items| ==>
      CountOf(pods, Controller(IdentityOf(items[i])), c) == items[i].body.desired
    ensures CountAll(pods, Identities(items), c) == SumDesired(items)
  {
    if items != [] {
      DaemonPods(pods, items[..|items| - 1], c);
      assert Identities(items)[..|items| - 1] == Identities(items[..|items| - 1]);
    }
  }

  lemma {:induction false} CountAllSum(pods: seq<Item<Pod>>, a: seq<Identity>, b: seq<Identity>, c: Cluster)
    ensures CountAll(pods, a + b, c) == CountAll(pods, a, c) + CountAll(pods, b, c)
  {
    if b == [] {
      assert a + b == a;
    } else {
      CountAllSum(pods, a, b[..|b| - 1], c);
      assert (a + b)[..|a + b| - 1] == a + b[..|b| - 1];
    }
  }

  lemma DisjointDistinct<T>(a: seq<T>, b: seq<T>)
    requires Distinct(a) && Distinct(b) && Members(a) !! Members(b)
    ensures Distinct(a + b)
  {
    forall i, j | 0 <= i < j < |a + b| ensures (a + b)[i] != (a + b)[j] {
      if i < |a| <= j {
        assert a[i] in Members(a) && b[j - |a|] in Members(b);
      }
    }
  }

  lemma ParentsListed(pod: Item<Pod>, ids: seq<Identity>, c: Cluster)
    requires Closed(c) && ParentOf(pod, c).Some? && ParentOf(pod, c).value.Controller?
    requires Members(ids) == c.deployments.Keys + c.daemonsets.Keys
    ensures ParentOf(pod, c).value.identity in ids
  {
    assert ParentOf(pod, c).value.identity in Members(ids);
  }

  lemma AllParentsListed(pods: seq<Item<Pod>>, ids: seq<Identity>, c: Cluster)
    requires Closed(c) && Members(ids) == c.deployments.Keys + c.daemonsets.Keys
    requires forall i :: 0 <= i < |pods| ==> ParentOf(pods[i], c).Some?
    ensures forall i :: 0 <= i < |pods| ==> ParentOf(pods[i], c).value.Controller? ==>
      ParentOf(pods[i], c).value.identity in ids
  {
    forall i | 0 <= i < |pods| && ParentOf(pods[i], c).value.Controller?
      ensures ParentOf(pods[i], c).value.identity in ids
    {
      ParentsListed(pods[i], ids, c);
    }
  }

  lemma AllDeploymentPods(pods: seq<Item<Pod>>, items: seq<Item<Deployment>>, c: Cluster)
    requires Indexes(c.deployments, items)
    requires forall d :: d in c.deployments ==> CountOf(pods, Controller(d), c) == c.deployments[d].body.replicas
    ensures CountAll(pods, Identities(items), c) == SumReplicas(items)
  {
    forall i | 0 <= i < |items| ensures CountOf(pods, Controller(IdentityOf(items[i])), c) == items[i].body.replicas {
      assert Identities(items)[i] in Members(Identities(items));
    }
    DeploymentPods(pods, items, c);
  }

  lemma AllDaemonPods(pods: seq<Item<Pod>>, items: seq<Item<DaemonSet>>, c: Cluster)
    requires Indexes(c.daemonsets, items)
    requires forall d :: d in c.daemonsets ==> CountOf(pods, Controller(d), c) == c.daemonsets[d].body.desired
    ensures CountAll(pods, Identities(items), c) == SumDesired(items)
  {
    forall i | 0 <= i < |items| ensures CountOf(pods, Controller(IdentityOf(items[i])), c) == items[i].body.desired {
      assert Identities(items)[i] in Members(Identities(items));
    }
    DaemonPods(pods, items, c);
  }

  /** Conservation: in an accepted census the number of Pods is the replicas of all
      Deployments, the desired Pods of all DaemonSets, and one for each static Pod. */
  lemma PodsConserved(
    pods: seq<Item<Pod>>, deployments: seq<Item<Deployment>>, daemonsets: seq<Item<DaemonSet>>, c: Cluster)
    requires Closed(c) && CensusAccepted(pods, c) && c.deployments.Keys !! c.daemonsets.Keys
    requires Indexes(c.deployments, deployments) && Distinct(Identities(deployments))
    requires Indexes(c.daemonsets, daemonsets) && Distinct(Identities(daemonsets))
    ensures |pods| == SumReplicas(deployments) + SumDesired(daemonsets) + |c.statics|
  {
    PodsPerParent(pods, c);
    AllDeploymentPods(pods, deployments, c);
    AllDaemonPods(pods, daemonsets, c);
    EveryPodSummed(pods, Identities(deployments), Identities(daemonsets), c);
  }

  lemma EveryPodSummed(pods: seq<Item<Pod>>, a: seq<Identity>, b: seq<Identity>, c: Cluster)
    requires Closed(c) && Distinct(a) && Distinct(b) && Members(a) !! Members(b)
    requires Members(a) == c.deployments.Keys && Members(b) == c.daemonsets.Keys
    requires forall i :: 0 <= i < |pods| ==> ParentOf(pods[i], c).Some?
    ensures |pods| == CountAll(pods, a, c) + CountAll(pods, b, c) + CountOf(pods, Node, c)
  {
    DisjointDistinct(a, b);
    assert Members(a + b) == Members(a) + Members(b);
    AllParentsListed(pods, a + b, c);
    EveryPodCounted(pods, a + b, c);
    CountAllSum(pods, a, b, c);
  }

  // --------------------------------------------------------------------------
  // The release inventory

  const BASE_DEPLOYMENTS: set<Identity> := {
    ("naranjo-online", "naranjo-online"), ("lidersea-com", "lidersea-com"), ("cloudflare-public", "cloudflared"),
    ("flux-system", "source-controller"), ("flux-system", "kustomize-controller"), ("flux-system", "helm-controller"),
    ("kube-system", "coredns")}

  datatype Provider = Cilium | Calico

  function ProviderDeployment(p: Provider): Identity {
    ("kube-system", if p == Cilium then "cilium-operator" else "calico-kube-controllers")
  }

  function ProviderDaemonSet(p: Provider): Identity {
    ("kube-system", if p == Cilium then "cilium" else "calico-node")
  }

  function ExpectedDeployments(p: Provider): set<Identity> { BASE_DEPLOYMENTS + {ProviderDeployment(p)} }

  function ExpectedDaemonSets(p: Provider): set<Identity> { {("kube-system", "kube-proxy"), ProviderDaemonSet(p)} }

  /** The controllers that depend on the network provider. */
  lemma ControllersSpelled()
    ensures ExpectedDeployments(Cilium) == BASE_DEPLOYMENTS + {("kube-system", "cilium-operator")}
    ensures ExpectedDeployments(Calico) == BASE_DEPLOYMENTS + {("kube-system", "calico-kube-controllers")}
    ensures ExpectedDaemonSets(Cilium) == {("kube-system", "kube-proxy"), ("kube-system", "cilium")}
    ensures ExpectedDaemonSets(Calico) == {("kube-system", "kube-proxy"), ("kube-system", "calico-node")}
  {
  }

  lemma InventoriesDisjoint(p: Provider)
    ensures ExpectedDeployments(p) !! ExpectedDaemonSets(p)
  {
    assert |"coredns"| == 7 && |"cilium-operator"| == 15 && |"calico-kube-controllers"| == 23;
    assert |"cilium"| == 6 && |"calico-node"| == 11 && |"kube-proxy"| == 10;
    assert "naranjo-online"[0] == 'n' && "lidersea-com"[0] == 'l' && "cloudflare-public"[0] == 'c'
      && "flux-system"[0] == 'f';
  }

  function StaticIdentity(component: string, node: string): Identity {
    ("kube-system", component + "-" + node)
  }

  /** The four static Pods of a node and their images. */
  function Statics(node: string, etcd: seq<string>, api: seq<string>, manager: seq<string>, scheduler: seq<string>)
    : map<Identity, seq<string>>
  {
    map[StaticIdentity("etcd", node) := etcd, StaticIdentity("kube-apiserver", node) := api,
        StaticIdentity("kube-controller-manager", node) := manager, StaticIdentity("kube-scheduler", node) := scheduler]
  }

  lemma FourStatics(node: string, etcd: seq<string>, api: seq<string>, manager: seq<string>, scheduler: seq<string>)
    ensures |Statics(node, etcd, api, manager, scheduler)| == 4
  {
    var a, b, c, d := StaticIdentity("etcd", node), StaticIdentity("kube-apiserver", node),
                      StaticIdentity("kube-controller-manager", node), StaticIdentity("kube-scheduler", node);
    assert |a.1| == 5 + |node| && |b.1| == 15 + |node| && |c.1| == 24 + |node| && |d.1| == 15 + |node|;
    assert b.1[5] == 'a' && d.1[5] == 's';
    assert Statics(node, etcd, api, manager, scheduler).Keys == {a, b, c, d};
  }

  /** The evidence of one inventory. */
  datatype Evidence = Evidence(
    deployments: seq<Item<Deployment>>, daemonsets: seq<Item<DaemonSet>>, replicasets: seq<Item<ReplicaSet>>,
    pods: seq<Item<Pod>>)

  ghost predicate InventoryAccepted(e: Evidence, p: Provider, c: Cluster) {
    && Exact(e.deployments, ExpectedDeployments(p)) && Exact(e.daemonsets, ExpectedDaemonSets(p))
    && Listable(e.replicasets)
    && Indexes(c.deployments, e.deployments) && Indexes(c.daemonsets, e.daemonsets)
    && c.daemonUids == UidMap(e.daemonsets)
    && c.chain == AcceptedChain(e.replicasets, c.deployments, UidMap(e.deployments)) && c.chain.Chain?
    && CensusAccepted(e.pods, c)
  }

  /** The inventory checks in the order the script runs them. */
  method CheckInventory(e: Evidence, p: Provider, namespaces: set<string>, nodeName: string, nodeUid: string,
                        statics: map<Identity, seq<string>>) returns (ok: bool, ghost c: Cluster)
    ensures ok ==> InventoryAccepted(e, p, c) && Closed(c) && c.statics == statics
    ensures !ok ==> forall other: Cluster ::
      !(InventoryAccepted(e, p, other) && other.namespaces == namespaces && other.nodeName == nodeName
        && other.nodeUid == nodeUid && other.statics == statics)
  {
    c := Cluster(namespaces, nodeName, nodeUid, statics, map[], Broken, map[], map[]);
    var deployments := ExactMap(e.deployments, ExpectedDeployments(p));
    if deployments.None? { return false, c; }
    var daemonsets := ExactMap(e.daemonsets, ExpectedDaemonSets(p));
    if daemonsets.None? { return false, c; }
    var replicasets := DynamicMap(e.replicasets);
    if replicasets.None? { return false, c; }
    var uids, daemonUids := UidMap(e.deployments), UidMap(e.daemonsets);
    forall uid | uid in uids ensures uids[uid] in deployments.value { UidMapValues(e.deployments, uid); }
    forall uid | uid in daemonUids ensures daemonUids[uid] in daemonsets.value { UidMapValues(e.daemonsets, uid); }
    var chain := LinkReplicaSets(e.replicasets, deployments.value, uids);
    forall other: Cluster | InventoryAccepted(e, p, other)
      ensures other.deployments == deployments.value && other.daemonsets == daemonsets.value
    {
      IndexUnique(other.deployments, deployments.value, e.deployments);
      IndexUnique(other.daemonsets, daemonsets.value, e.daemonsets);
    }
    if chain.Broken? { return false, c; }
    LinksKeep(e.replicasets, deployments.value, uids);
    var cluster := Cluster(namespaces, nodeName, nodeUid, statics, deployments.value, chain, daemonsets.value,
      daemonUids);
    c := cluster;
    ok := CheckPods(e.pods, cluster);
  }

  lemma IndexUnique<T>(a: map<Identity, Item<T>>, b: map<Identity, Item<T>>, items: seq<Item<T>>)
    requires Indexes(a, items) && Indexes(b, items)
    ensures a == b
  {
    forall d | d in a ensures a[d] == b[d] {
      var i :| 0 <= i < |items| && Identities(items)[i] == d;
      assert IdentityOf(items[i]) == d;
    }
  }

  lemma AcceptedParts(e: Evidence, p: Provider, c: Cluster)
    requires InventoryAccepted(e, p, c)
    ensures Closed(c) && c.deployments.Keys !! c.daemonsets.Keys
    ensures Distinct(Identities(e.deployments)) && Distinct(Identities(e.daemonsets))
  {
    InventoriesDisjoint(p);
    SetSize(Identities(e.deployments));
    SetSize(Identities(e.daemonsets));
    LinksKeep(e.replicasets, c.deployments, UidMap(e.deployments));
    forall uid | uid in c.daemonUids ensures c.daemonUids[uid] in c.daemonsets { UidMapValues(e.daemonsets, uid); }
  }

  /** What an accepted inventory guarantees: every Pod is serving, has one parent and that
      parent's images, every Deployment has its replicas, and the Pods are as many as the controllers
      and the static Pods account for. */
  lemma AcceptedInventory(e: Evidence, p: Provider, c: Cluster)
    requires InventoryAccepted(e, p, c)
    ensures forall i :: 0 <= i < |e.pods| ==> Serving(e.pods[i], c)
    ensures forall i :: 0 <= i < |e.pods| ==>
      ParentOf(e.pods[i], c).Some? && e.pods[i].body.images == ImagesOf(e.pods[i], ParentOf(e.pods[i], c).value, c)
    ensures forall d :: d in c.deployments ==> CountOf(e.pods, Controller(d), c) == c.deployments[d].body.replicas
    ensures |e.pods| == SumReplicas(e.deployments) + SumDesired(e.daemonsets) + |c.statics|
  {
    AcceptedParts(e, p, c);
    PodsPerParent(e.pods, c);
    PodsConserved(e.pods, e.deployments, e.daemonsets, c);
  }

  /** On a node with its four static Pods, four Pods stand outside the controllers. */
  lemma AcceptedOnNode(e: Evidence, p: Provider, c: Cluster, etcd: seq<string>, api: seq<string>, manager: seq<string>,
                       scheduler: seq<string>)
    requires InventoryAccepted(e, p, c) && c.statics == Statics(c.nodeName, etcd, api, manager, scheduler)
    ensures |e.pods| == SumReplicas(e.deployments) + SumDesired(e.daemonsets) + 4
  {
    AcceptedInventory(e, p, c);
    FourStatics(c.nodeName, etcd, api, manager, scheduler);
  }
}
