/** Accepted inventories, told from the evidence lists alone: which ReplicaSet belongs to which
    Deployment, where each Pod stands, and how many Pods each place has. */
module RuntimeCensus {
  import opened Text
  import opened RuntimeInventory

  // --------------------------------------------------------------------------
  // Owners in the lists

  /** The item a UID leads to; of several with one UID it is the last. */
  predicate Holds<T>(items: seq<Item<T>>, i: nat, uid: string) {
    && i < |items| && items[i].meta.uid == uid
    && forall j :: i < j < |items| ==> items[j].meta.uid != uid
  }

  lemma {:induction false} HolderExact<T>(items: seq<Item<T>>, uid: string, id: Identity)
    ensures uid in UidMap(items) && UidMap(items)[uid] == id <==>
            exists i: nat :: Holds(items, i, uid) && IdentityOf(items[i]) == id
  {
    if items != [] {
      var front, last := items[..|items| - 1], |items| - 1;
      HolderExact(front, uid, id);
      if items[last].meta.uid == uid {
        assert Holds(items, last, uid);
        assert forall i: nat :: Holds(items, i, uid) ==> i == last;
      } else {
        forall i: nat ensures Holds(items, i, uid) <==> Holds(front, i, uid) {
          HoldsBefore(items, i, uid);
        }
        if i: nat :| Holds(front, i, uid) && IdentityOf(front[i]) == id {
          assert Holds(items, i, uid) && items[i] == front[i];
        }
      }
    }
  }

  lemma HoldsBefore<T>(items: seq<Item<T>>, i: nat, uid: string)
    requires items != [] && items[|items| - 1].meta.uid != uid
    ensures Holds(items, i, uid) <==> Holds(items[..|items| - 1], i, uid)
  {
    var front := items[..|items| - 1];
    assert forall j :: 0 <= j < |front| ==> front[j] == items[j];
  }

  /** One owner, and it controls. */
  predicate ControlledBy(o: Owners, owner: Owner) {
    o == Listed([owner]) && owner.controller
  }

  lemma ControllerExact(o: Owners, owner: Owner)
    ensures OneController(o) == Some(owner) <==> ControlledBy(o, owner)
  {
    if o.Listed? && |o.owners| == 1 { assert o.owners == [o.owners[0]]; }
  }

  /** Named after its parent, in its namespace. */
  predicate Within(child: Meta, namespace: string, name: string) {
    child.namespace == namespace && name + "-" <= child.name
  }

  /** The owner reference names a parent of this kind. */
  predicate Names(owner: Owner, kind: string, name: string) {
    owner.apiVersion == "apps/v1" && owner.kind == kind && owner.name == name
  }

  /** A ReplicaSet belongs to Deployment `d` of the list. */
  ghost predicate SetOf(rs: Item<ReplicaSet>, deployments: seq<Item<Deployment>>, d: nat) {
    exists owner :: ControlledBy(rs.body.owners, owner) && SetOwned(rs, deployments, d, owner)
  }

  predicate SetOwned(rs: Item<ReplicaSet>, deployments: seq<Item<Deployment>>, d: nat, owner: Owner) {
    && Holds(deployments, d, owner.uid)
    && Names(owner, "Deployment", deployments[d].meta.name)
    && Within(rs.meta, deployments[d].meta.namespace, deployments[d].meta.name)
  }

  lemma DeploymentExact(rs: Item<ReplicaSet>, deployments: seq<Item<Deployment>>, id: Identity)
    ensures DeploymentOf(rs, UidMap(deployments)) == Some(id) <==>
            exists d: nat :: SetOf(rs, deployments, d) && IdentityOf(deployments[d]) == id
  {
    var uids := UidMap(deployments);
    var found := OneController(rs.body.owners);
    if DeploymentOf(rs, uids) == Some(id) {
      var owner := found.value;
      ControllerExact(rs.body.owners, owner);
      HolderExact(deployments, owner.uid, id);
      var d: nat :| Holds(deployments, d, owner.uid) && IdentityOf(deployments[d]) == id;
      assert SetOwned(rs, deployments, d, owner);
    }
    if d: nat :| SetOf(rs, deployments, d) && IdentityOf(deployments[d]) == id {
      var owner :| ControlledBy(rs.body.owners, owner) && SetOwned(rs, deployments, d, owner);
      ControllerExact(rs.body.owners, owner);
      HolderExact(deployments, owner.uid, id);
    }
  }

  // --------------------------------------------------------------------------
  // The ReplicaSets

  /** The Deployment's own selector, template and replicas, all of them ready and available,
      under one hash. */
  predicate Copies(rs: ReplicaSet, d: Deployment) {
    && rs.selectorHash.Some? && rs.templateHash == rs.selectorHash
    && rs.selector == d.selector && rs.template == d.template
    && rs.replicas == Some(d.replicas) && rs.ready == Some(d.replicas) && rs.available == Some(d.replicas)
  }

  predicate Runs(rs: ReplicaSet) {
    rs.replicas.Some? && rs.replicas.value > 0
  }

  predicate Rests(rs: ReplicaSet) {
    rs.replicas == Some(0) && rs.idle
  }

  ghost predicate SetFits(rs: Item<ReplicaSet>, deployments: seq<Item<Deployment>>) {
    exists d: nat ::
      SetOf(rs, deployments, d) && (Rests(rs.body) || (Runs(rs.body) && Copies(rs.body, deployments[d].body)))
  }

  /** ReplicaSet `r` runs the Pods of Deployment `d`. */
  ghost predicate RunsFor(e: Evidence, r: nat, d: nat) {
    r < |e.replicasets| && Runs(e.replicasets[r].body) && SetOf(e.replicasets[r], e.deployments, d)
  }

  ghost predicate HasRunner(e: Evidence, d: nat) {
    exists r: nat :: RunsFor(e, r, d)
  }

  ghost predicate AllFit(e: Evidence) {
    forall r :: 0 <= r < |e.replicasets| ==> SetFits(e.replicasets[r], e.deployments)
  }

  ghost predicate NoTwoRun(e: Evidence) {
    forall r: nat, q: nat, d: nat :: RunsFor(e, r, d) && RunsFor(e, q, d) ==> r == q
  }

  ghost predicate AllRun(e: Evidence) {
    forall d: nat :: d < |e.deployments| ==> HasRunner(e, d)
  }

  /** Every ReplicaSet rests or runs its Deployment, and every Deployment has exactly one that runs. */
  ghost predicate SetsFit(e: Evidence) {
    AllFit(e) && NoTwoRun(e) && AllRun(e)
  }

  // The links, exactly

  /** What one link asks of its ReplicaSet, whatever came before. */
  predicate LinkFits(rs: Item<ReplicaSet>, deployments: Deployments, uids: map<string, Identity>) {
    && DeploymentOf(rs, uids).Some? && DeploymentOf(rs, uids).value in deployments
    && (Rests(rs.body) || (Runs(rs.body) && Mirrors(rs.body, deployments[DeploymentOf(rs, uids).value].body)))
  }

  ghost predicate AllLink(sets: seq<Item<ReplicaSet>>, deployments: Deployments, uids: map<string, Identity>) {
    (forall i :: 0 <= i < |sets| ==> LinkFits(sets[i], deployments, uids)) && Single(sets, uids)
  }

  lemma LinkFitsExact(c: Chain, rs: Item<ReplicaSet>, deployments: Deployments, uids: map<string, Identity>)
    requires c.Chain?
    ensures Link(c, rs, deployments, uids).Chain? <==>
            && LinkFits(rs, deployments, uids)
            && (Runs(rs.body) ==> DeploymentOf(rs, uids).value !in c.active)
  {
  }

  lemma SingleSplit(sets: seq<Item<ReplicaSet>>, rs: Item<ReplicaSet>, uids: map<string, Identity>)
    ensures Single(sets + [rs], uids) <==>
            Single(sets, uids) && forall i, d :: Active(rs, d, uids) ==> !ActiveFor(sets, i, d, uids)
  {
    var all := sets + [rs];
    forall i, d ensures ActiveFor(all, i, d, uids) <==>
                        ActiveFor(sets, i, d, uids) || (i == |sets| && Active(rs, d, uids))
    {
      ActiveSplit(sets, rs, i, d, uids);
    }
    if Single(all, uids) {
      forall i, d | Active(rs, d, uids) ensures !ActiveFor(sets, i, d, uids) {
        assert ActiveFor(all, |sets|, d, uids);
      }
    }
  }

  lemma {:induction false} LinksExact(
    sets: seq<Item<ReplicaSet>>, deployments: Deployments, uids: map<string, Identity>)
    ensures Links(sets, deployments, uids).Chain? <==> AllLink(sets, deployments, uids)
  {
    if sets != [] {
      var front, rs := sets[..|sets| - 1], sets[|sets| - 1];
      LinksExact(front, deployments, uids);
      assert sets == front + [rs];
      SingleSplit(front, rs, uids);
      var c := Links(front, deployments, uids);
      if c.Chain? {
        LinksKeep(front, deployments, uids);
        LinkFitsExact(c, rs, deployments, uids);
        ActiveIffRuns(c, front, rs, deployments, uids);
      }
    }
  }

  lemma ActiveIffRuns(c: Chain, sets: seq<Item<ReplicaSet>>, rs: Item<ReplicaSet>, deployments: Deployments,
                      uids: map<string, Identity>)
    requires Linked(c, sets, deployments, uids)
    ensures LinkFits(rs, deployments, uids) ==>
      ((Runs(rs.body) ==> DeploymentOf(rs, uids).value !in c.active) <==>
       forall i, d :: Active(rs, d, uids) ==> !ActiveFor(sets, i, d, uids))
  {
    if LinkFits(rs, deployments, uids) && Runs(rs.body) {
      var d := DeploymentOf(rs, uids).value;
      assert Active(rs, d, uids);
      if d in c.active { var i :| ActiveFor(sets, i, d, uids); }
    }
  }

  /** The chain knows every ReplicaSet by its UID. */
  ghost predicate Recorded(c: Chain, sets: seq<Item<ReplicaSet>>, uids: map<string, Identity>) {
    && c.Chain? && c.parents.Keys == Members(Uids(sets)) && c.names.Keys == Members(Uids(sets))
    && forall i :: 0 <= i < |sets| ==> RecordedAt(c, sets[i], uids)
  }

  predicate RecordedAt(c: Chain, rs: Item<ReplicaSet>, uids: map<string, Identity>)
    requires c.Chain?
  {
    && rs.meta.uid in c.parents && DeploymentOf(rs, uids) == Some(c.parents[rs.meta.uid])
    && rs.meta.uid in c.names && c.names[rs.meta.uid] == rs.meta.name
  }

  lemma RecordedGrows(c: Chain, next: Chain, sets: seq<Item<ReplicaSet>>, rs: Item<ReplicaSet>,
                      uids: map<string, Identity>)
    requires Recorded(c, sets, uids) && next.Chain? && DeploymentOf(rs, uids).Some?
    requires rs.meta.uid !in Members(Uids(sets))
    requires next.parents == c.parents[rs.meta.uid := DeploymentOf(rs, uids).value]
    requires next.names == c.names[rs.meta.uid := rs.meta.name]
    ensures Recorded(next, sets + [rs], uids)
  {
    var all := sets + [rs];
    assert Uids(all) == Uids(sets) + [rs.meta.uid];
    assert Members(Uids(all)) == Members(Uids(sets)) + {rs.meta.uid};
    forall i | 0 <= i < |all| ensures RecordedAt(next, all[i], uids) {
      if i < |sets| { assert Uids(sets)[i] in Members(Uids(sets)) && RecordedAt(c, sets[i], uids); }
    }
  }

  lemma LastUidIsNew<T>(items: seq<Item<T>>)
    requires items != [] && Distinct(Uids(items))
    ensures var front := items[..|items| - 1];
            Distinct(Uids(front)) && items[|items| - 1].meta.uid !in Members(Uids(front))
  {
    var front, uid := items[..|items| - 1], items[|items| - 1].meta.uid;
    assert Uids(items) == Uids(front) + [uid];
    AppendDistinct(Uids(front), uid);
  }

  lemma {:induction false} LinksRecord(
    sets: seq<Item<ReplicaSet>>, deployments: Deployments, uids: map<string, Identity>)
    requires Links(sets, deployments, uids).Chain? && Distinct(Uids(sets))
    ensures Recorded(Links(sets, deployments, uids), sets, uids)
  {
    if sets == [] {
      assert Members(Uids(sets)) == {};
    } else {
      var front, rs := sets[..|sets| - 1], sets[|sets| - 1];
      LastUidIsNew(sets);
      var before := Links(front, deployments, uids);
      LinkRecords(before, rs, deployments, uids);
      LinksRecord(front, deployments, uids);
      RecordedGrows(before, Link(before, rs, deployments, uids), front, rs, uids);
      assert sets == front + [rs];
    }
  }

  lemma LinkRecords(c: Chain, rs: Item<ReplicaSet>, deployments: Deployments, uids: map<string, Identity>)
    requires Link(c, rs, deployments, uids).Chain?
    ensures c.Chain? && DeploymentOf(rs, uids).Some?
    ensures var next := Link(c, rs, deployments, uids);
            && next.parents == c.parents[rs.meta.uid := DeploymentOf(rs, uids).value]
            && next.names == c.names[rs.meta.uid := rs.meta.name]
  {
  }

  /** The items under their identities. */
  function IndexOf<T>(items: seq<Item<T>>): map<Identity, Item<T>> {
    if items == [] then map[]
    else IndexOf(items[..|items| - 1])[IdentityOf(items[|items| - 1]) := items[|items| - 1]]
  }

  lemma {:induction false} IndexOfIndexes<T>(items: seq<Item<T>>)
    requires Distinct(Identities(items))
    ensures Indexes(IndexOf(items), items)
  {
    if items == [] {
      assert Members(Identities(items)) == {};
    } else {
      var front, last := items[..|items| - 1], items[|items| - 1];
      assert Identities(items) == Identities(front) + [IdentityOf(last)];
      AppendDistinct(Identities(front), IdentityOf(last));
      IndexOfIndexes(front);
      assert Members(Identities(items)) == Members(Identities(front)) + {IdentityOf(last)};
      forall i | 0 <= i < |items| ensures IndexOf(items)[IdentityOf(items[i])] == items[i] {
        if i < |front| { assert Identities(front)[i] == IdentityOf(items[i]); }
      }
    }
  }

  /** Two places of one list that share an identity are one. */
  lemma SameIdentity<T>(items: seq<Item<T>>, i: nat, j: nat)
    requires Distinct(Identities(items)) && i < |items| && j < |items| && IdentityOf(items[i]) == IdentityOf(items[j])
    ensures i == j
  {
    assert Identities(items)[i] == Identities(items)[j];
  }

  lemma IndexedAt<T>(m: map<Identity, Item<T>>, items: seq<Item<T>>, id: Identity) returns (i: nat)
    requires Indexes(m, items) && id in m
    ensures i < |items| && IdentityOf(items[i]) == id && m[id] == items[i]
  {
    i :| i < |items| && Identities(items)[i] == id;
  }

  /** What the lists and the maps built from them have in common. */
  ghost predicate Indexed(e: Evidence, c: Cluster) {
    && Distinct(Identities(e.deployments)) && Distinct(Identities(e.daemonsets)) && Distinct(Uids(e.replicasets))
    && Indexes(c.deployments, e.deployments) && Indexes(c.daemonsets, e.daemonsets)
    && c.daemonUids == UidMap(e.daemonsets)
  }

  lemma FitsExact(e: Evidence, c: Cluster, rs: Item<ReplicaSet>)
    requires Indexed(e, c)
    ensures LinkFits(rs, c.deployments, UidMap(e.deployments)) <==> SetFits(rs, e.deployments)
  {
    var uids := UidMap(e.deployments);
    if LinkFits(rs, c.deployments, uids) {
      var id := DeploymentOf(rs, uids).value;
      DeploymentExact(rs, e.deployments, id);
      var d: nat :| SetOf(rs, e.deployments, d) && IdentityOf(e.deployments[d]) == id;
      assert c.deployments[id] == e.deployments[d];
    }
    if SetFits(rs, e.deployments) {
      var d: nat :| SetOf(rs, e.deployments, d)
                    && (Rests(rs.body) || (Runs(rs.body) && Copies(rs.body, e.deployments[d].body)));
      DeploymentExact(rs, e.deployments, IdentityOf(e.deployments[d]));
      assert Identities(e.deployments)[d] in Members(Identities(e.deployments));
    }
  }

  lemma RunsForExact(e: Evidence, r: nat, d: nat)
    requires Distinct(Identities(e.deployments)) && d < |e.deployments|
    ensures ActiveFor(e.replicasets, r, IdentityOf(e.deployments[d]), UidMap(e.deployments)) <==> RunsFor(e, r, d)
  {
    if r < |e.replicasets| {
      var rs, id := e.replicasets[r], IdentityOf(e.deployments[d]);
      DeploymentExact(rs, e.deployments, id);
      if DeploymentOf(rs, UidMap(e.deployments)) == Some(id) {
        var k: nat :| SetOf(rs, e.deployments, k) && IdentityOf(e.deployments[k]) == id;
        SameIdentity(e.deployments, k, d);
      }
    }
  }

  lemma SingleExact(e: Evidence, c: Cluster)
    requires Indexed(e, c)
    ensures Single(e.replicasets, UidMap(e.deployments)) <==> NoTwoRun(e)
  {
    var uids := UidMap(e.deployments);
    if Single(e.replicasets, uids) {
      forall r: nat, q: nat, d: nat | RunsFor(e, r, d) && RunsFor(e, q, d) ensures r == q {
        RunsForExact(e, r, d);
        RunsForExact(e, q, d);
      }
    }
    if NoTwoRun(e) {
      forall i, j, id | ActiveFor(e.replicasets, i, id, uids) && ActiveFor(e.replicasets, j, id, uids) ensures i == j {
        DeploymentExact(e.replicasets[i], e.deployments, id);
        var d: nat :| SetOf(e.replicasets[i], e.deployments, d) && IdentityOf(e.deployments[d]) == id;
        RunsForExact(e, i, d);
        RunsForExact(e, j, d);
      }
    }
  }

  /** Every Deployment of the map is active exactly when every one of the list has a runner. */
  lemma RunnersExact(e: Evidence, c: Cluster, chain: Chain)
    requires Indexed(e, c) && Linked(chain, e.replicasets, c.deployments, UidMap(e.deployments))
    ensures chain.active.Keys == c.deployments.Keys <==> AllRun(e)
  {
    var uids := UidMap(e.deployments);
    if chain.active.Keys == c.deployments.Keys {
      forall d: nat | d < |e.deployments| ensures HasRunner(e, d) {
        var id := Identities(e.deployments)[d];
        assert id in Members(Identities(e.deployments)) && id in chain.active;
        var i :| ActiveFor(e.replicasets, i, id, uids);
        RunsForExact(e, i, d);
      }
    }
    if AllRun(e) {
      forall id | id in c.deployments ensures id in chain.active {
        var d := IndexedAt(c.deployments, e.deployments, id);
        assert HasRunner(e, d);
        var r: nat :| RunsFor(e, r, d);
        RunsForExact(e, r, d);
      }
      forall id | id in chain.active ensures id in c.deployments {
        var i :| ActiveFor(e.replicasets, i, id, uids);
      }
    }
  }

  lemma LinkedExact(e: Evidence, c: Cluster)
    requires Indexed(e, c)
    ensures Links(e.replicasets, c.deployments, UidMap(e.deployments)).Chain? <==> AllFit(e) && NoTwoRun(e)
  {
    var uids := UidMap(e.deployments);
    LinksExact(e.replicasets, c.deployments, uids);
    SingleExact(e, c);
    forall r | 0 <= r < |e.replicasets|
      ensures LinkFits(e.replicasets[r], c.deployments, uids) <==> SetFits(e.replicasets[r], e.deployments)
    {
      FitsExact(e, c, e.replicasets[r]);
    }
  }

  lemma ChainExact(e: Evidence, c: Cluster)
    requires Indexed(e, c)
    ensures AcceptedChain(e.replicasets, c.deployments, UidMap(e.deployments)).Chain? <==> SetsFit(e)
  {
    LinkedExact(e, c);
    var chain := Links(e.replicasets, c.deployments, UidMap(e.deployments));
    if chain.Chain? {
      LinksKeep(e.replicasets, c.deployments, UidMap(e.deployments));
      RunnersExact(e, c, chain);
    }
  }

  // --------------------------------------------------------------------------
  // Where a Pod stands

  /** The node, a Deployment of the list, or a DaemonSet of it. */
  datatype Place = AtNode | Deployed(d: nat) | Daemon(d: nat)

  /** What a release fixes before it looks at the evidence. */
  datatype Site =
    Site(namespaces: set<string>, nodeName: string, nodeUid: string, statics: map<Identity, seq<string>>)

  predicate StandsIn(place: Place, e: Evidence) {
    match place
    case AtNode => true
    case Deployed(d) => d < |e.deployments|
    case Daemon(d) => d < |e.daemonsets|
  }

  function PlaceParent(place: Place, e: Evidence): Parent
    requires StandsIn(place, e)
  {
    match place
    case AtNode => Node
    case Deployed(d) => Controller(IdentityOf(e.deployments[d]))
    case Daemon(d) => Controller(IdentityOf(e.daemonsets[d]))
  }

  /** The images of the place. */
  function PlaceImages(pod: Item<Pod>, place: Place, e: Evidence, s: Site): seq<string>
    requires StandsIn(place, e) && (place.AtNode? ==> IdentityOf(pod) in s.statics)
  {
    match place
    case AtNode => s.statics[IdentityOf(pod)]
    case Deployed(d) => e.deployments[d].body.template.images
    case Daemon(d) => e.daemonsets[d].body.template.images
  }

  predicate Static(pod: Item<Pod>, s: Site) {
    IdentityOf(pod) in s.statics && pod.body.mirror
  }

  /** On the node, and owned by nothing or by the node alone. */
  predicate Mirrored(pod: Item<Pod>, s: Site) {
    && pod.body.nodeName == s.nodeName && !pod.body.extra
    && (pod.body.owners == Listed([])
        || pod.body.owners == Listed([Owner("v1", "Node", s.nodeName, s.nodeUid, true)]))
  }

  /** Owned by the ReplicaSet that runs the Deployment. */
  ghost predicate OfDeployment(pod: Item<Pod>, e: Evidence, d: nat) {
    exists owner, r: nat :: ControlledBy(pod.body.owners, owner) && OwnedBySet(pod, e, d, owner, r)
  }

  ghost predicate OwnedBySet(pod: Item<Pod>, e: Evidence, d: nat, owner: Owner, r: nat) {
    && d < |e.deployments| && RunsFor(e, r, d) && owner.uid == e.replicasets[r].meta.uid
    && Names(owner, "ReplicaSet", e.replicasets[r].meta.name)
    && Within(pod.meta, e.deployments[d].meta.namespace, e.replicasets[r].meta.name)
  }

  ghost predicate OfDaemonSet(pod: Item<Pod>, e: Evidence, d: nat) {
    exists owner :: ControlledBy(pod.body.owners, owner) && OwnedByDaemon(pod, e, d, owner)
  }

  predicate OwnedByDaemon(pod: Item<Pod>, e: Evidence, d: nat, owner: Owner) {
    && Holds(e.daemonsets, d, owner.uid) && Names(owner, "DaemonSet", e.daemonsets[d].meta.name)
    && Within(pod.meta, e.daemonsets[d].meta.namespace, e.daemonsets[d].meta.name)
  }

  ghost predicate At(pod: Item<Pod>, place: Place, e: Evidence, s: Site) {
    match place
    case AtNode => Static(pod, s) && Mirrored(pod, s)
    case Deployed(d) => !Static(pod, s) && OfDeployment(pod, e, d)
    case Daemon(d) => !Static(pod, s) && OfDaemonSet(pod, e, d)
  }

  /** A named Pod of the release that runs and is ready and restricted, with the images of its place. */
  ghost predicate PodFits(pod: Item<Pod>, place: Place, e: Evidence, s: Site) {
    && pod.meta.namespace in s.namespaces && pod.meta.name != "" && pod.meta.uid != ""
    && !pod.body.deleting && pod.body.running && pod.body.ready && pod.body.restricted
    && At(pod, place, e, s) && StandsIn(place, e) && pod.body.images == Some(PlaceImages(pod, place, e, s))
  }

  /** The cluster that the inventory checks build from the evidence. */
  ghost predicate Built(e: Evidence, c: Cluster, s: Site) {
    && Indexed(e, c) && c.deployments.Keys !! c.daemonsets.Keys
    && c.namespaces == s.namespaces && c.nodeName == s.nodeName && c.nodeUid == s.nodeUid && c.statics == s.statics
    && c.chain == AcceptedChain(e.replicasets, c.deployments, UidMap(e.deployments)) && c.chain.Chain?
  }

  lemma StaticExact(pod: Item<Pod>, c: Cluster, s: Site)
    requires c.nodeName == s.nodeName && c.nodeUid == s.nodeUid
    ensures StaticPod(pod, c) <==> Mirrored(pod, s)
  {
    var owners := pod.body.owners;
    if owners.Listed? && |owners.owners| == 1 { assert owners.owners == [owners.owners[0]]; }
    assert owners == Listed([]) <==> owners.Listed? && |owners.owners| == 0;
  }

  /** The active ReplicaSet of a Deployment is known by its UID. */
  lemma ActiveExact(e: Evidence, c: Cluster, s: Site, r: nat, id: Identity)
    requires Built(e, c, s) && r < |e.replicasets|
    ensures id in c.chain.active && c.chain.active[id] == e.replicasets[r].meta.uid <==>
            ActiveFor(e.replicasets, r, id, UidMap(e.deployments))
  {
    LinksKeep(e.replicasets, c.deployments, UidMap(e.deployments));
    ActiveByUid(c.chain, e.replicasets, c.deployments, UidMap(e.deployments), r, id);
  }

  lemma ActiveByUid(c: Chain, sets: seq<Item<ReplicaSet>>, deployments: Deployments, uids: map<string, Identity>,
                    r: nat, id: Identity)
    requires Linked(c, sets, deployments, uids) && Distinct(Uids(sets)) && r < |sets|
    ensures id in c.active && c.active[id] == sets[r].meta.uid <==> ActiveFor(sets, r, id, uids)
  {
    if id in c.active && c.active[id] == sets[r].meta.uid {
      var i :| ActiveFor(sets, i, id, uids);
      assert Uids(sets)[i] == Uids(sets)[r];
    }
  }

  /** The ReplicaSet that a UID leads to. */
  lemma SetByUid(e: Evidence, c: Cluster, s: Site, uid: string) returns (r: nat)
    requires Built(e, c, s) && uid in c.chain.parents
    ensures r < |e.replicasets| && e.replicasets[r].meta.uid == uid
    ensures RecordedAt(c.chain, e.replicasets[r], UidMap(e.deployments))
  {
    LinksRecord(e.replicasets, c.deployments, UidMap(e.deployments));
    r := UidRecorded(c.chain, e.replicasets, UidMap(e.deployments), uid);
  }

  lemma UidRecorded(c: Chain, sets: seq<Item<ReplicaSet>>, uids: map<string, Identity>, uid: string)
    returns (r: nat)
    requires Recorded(c, sets, uids) && uid in c.parents
    ensures r < |sets| && sets[r].meta.uid == uid && RecordedAt(c, sets[r], uids)
  {
    assert uid in Members(Uids(sets));
    r :| r < |sets| && Uids(sets)[r] == uid;
  }

  /** The ReplicaSet that runs a Deployment is recorded as the active one. */
  lemma RunnerRecorded(e: Evidence, c: Cluster, s: Site, r: nat, d: nat)
    requires Built(e, c, s) && d < |e.deployments| && RunsFor(e, r, d)
    ensures var uid, id := e.replicasets[r].meta.uid, IdentityOf(e.deployments[d]);
            && uid in c.chain.parents && c.chain.parents[uid] == id
            && uid in c.chain.names && c.chain.names[uid] == e.replicasets[r].meta.name
            && id in c.chain.active && c.chain.active[id] == uid
  {
    var uids, id := UidMap(e.deployments), IdentityOf(e.deployments[d]);
    LinksRecord(e.replicasets, c.deployments, uids);
    assert RecordedAt(c.chain, e.replicasets[r], uids);
    RunsForExact(e, r, d);
    ActiveExact(e, c, s, r, id);
  }

  lemma DeploymentParentExact(pod: Item<Pod>, owner: Owner, e: Evidence, c: Cluster, s: Site, d: nat)
    requires Built(e, c, s) && d < |e.deployments| && owner.apiVersion == "apps/v1" && owner.kind == "ReplicaSet"
    ensures DeploymentParent(pod, owner, c) == Some(IdentityOf(e.deployments[d])) <==>
            exists r: nat :: OwnedBySet(pod, e, d, owner, r)
  {
    var id := IdentityOf(e.deployments[d]);
    if DeploymentParent(pod, owner, c) == Some(id) {
      var r := SetByUid(e, c, s, owner.uid);
      ActiveExact(e, c, s, r, id);
      RunsForExact(e, r, d);
      assert OwnedBySet(pod, e, d, owner, r);
    }
    if r: nat :| OwnedBySet(pod, e, d, owner, r) {
      RunnerRecorded(e, c, s, r, d);
    }
  }

  lemma DaemonParentExact(pod: Item<Pod>, owner: Owner, e: Evidence, c: Cluster, s: Site, d: nat)
    requires Built(e, c, s) && d < |e.daemonsets| && owner.apiVersion == "apps/v1" && owner.kind == "DaemonSet"
    ensures DaemonParent(pod, owner, c) == Some(IdentityOf(e.daemonsets[d])) <==> OwnedByDaemon(pod, e, d, owner)
  {
    var id := IdentityOf(e.daemonsets[d]);
    HolderExact(e.daemonsets, owner.uid, id);
    if owner.uid in c.daemonUids && c.daemonUids[owner.uid] == id {
      var i: nat :| Holds(e.daemonsets, i, owner.uid) && IdentityOf(e.daemonsets[i]) == id;
      SameIdentity(e.daemonsets, i, d);
    }
  }

  lemma OwnerIs(o: Owners, owner: Owner)
    requires OneController(o) == Some(owner)
    ensures forall other :: ControlledBy(o, other) ==> other == owner
    ensures ControlledBy(o, owner)
  {
    ControllerExact(o, owner);
  }

  lemma DeployedExact(pod: Item<Pod>, e: Evidence, c: Cluster, s: Site, d: nat, owner: Owner)
    requires Built(e, c, s) && d < |e.deployments| && !Static(pod, s) && OneController(pod.body.owners) == Some(owner)
    requires owner.apiVersion == "apps/v1" && owner.kind == "ReplicaSet"
    ensures ParentOf(pod, c) == Some(PlaceParent(Deployed(d), e)) <==> OfDeployment(pod, e, d)
  {
    OwnerIs(pod.body.owners, owner);
    DeploymentParentExact(pod, owner, e, c, s, d);
    if r: nat :| OwnedBySet(pod, e, d, owner, r) {
      assert ControlledBy(pod.body.owners, owner) && OwnedBySet(pod, e, d, owner, r);
    }
  }

  lemma DaemonExact(pod: Item<Pod>, e: Evidence, c: Cluster, s: Site, d: nat, owner: Owner)
    requires Built(e, c, s) && d < |e.daemonsets| && !Static(pod, s) && OneController(pod.body.owners) == Some(owner)
    requires owner.apiVersion == "apps/v1" && owner.kind == "DaemonSet"
    ensures ParentOf(pod, c) == Some(PlaceParent(Daemon(d), e)) <==> OfDaemonSet(pod, e, d)
  {
    OwnerIs(pod.body.owners, owner);
    DaemonParentExact(pod, owner, e, c, s, d);
  }

  /** The controllers of the two kinds have no identity in common. */
  lemma KindsApart(e: Evidence, c: Cluster, s: Site, place: Place, id: Identity)
    requires Built(e, c, s) && StandsIn(place, e) && PlaceParent(place, e) == Controller(id)
    ensures place.Deployed? <==> id in c.deployments
    ensures place.Daemon? <==> id in c.daemonsets
  {
    match place {
      case Deployed(d) => assert Identities(e.deployments)[d] in Members(Identities(e.deployments));
      case Daemon(d) => assert Identities(e.daemonsets)[d] in Members(Identities(e.daemonsets));
    }
  }

  lemma DaemonParentListed(pod: Item<Pod>, owner: Owner, e: Evidence, c: Cluster)
    requires Indexed(e, c) && DaemonParent(pod, owner, c).Some?
    ensures DaemonParent(pod, owner, c).value in c.daemonsets
  {
    UidMapValues(e.daemonsets, owner.uid);
    assert c.daemonUids[owner.uid] in Members(Identities(e.daemonsets));
  }

  lemma DeploymentParentListed(pod: Item<Pod>, owner: Owner, e: Evidence, c: Cluster, s: Site)
    requires Built(e, c, s) && DeploymentParent(pod, owner, c).Some?
    ensures DeploymentParent(pod, owner, c).value in c.deployments
  {
    LinksKeep(e.replicasets, c.deployments, UidMap(e.deployments));
  }

  /** The owner checks lead a Pod to a place exactly when it stands there. */
  lemma ParentExact(pod: Item<Pod>, e: Evidence, c: Cluster, s: Site, place: Place)
    requires Built(e, c, s) && StandsIn(place, e)
    ensures ParentOf(pod, c) == Some(PlaceParent(place, e)) <==> At(pod, place, e, s)
  {
    StaticExact(pod, c, s);
    if !place.AtNode? && !Static(pod, s) {
      if ParentOf(pod, c) == Some(PlaceParent(place, e)) { ControllerPlace(pod, e, c, s, place); }
      if At(pod, place, e, s) { PlaceController(pod, e, c, s, place); }
    }
  }

  lemma ControllerPlace(pod: Item<Pod>, e: Evidence, c: Cluster, s: Site, place: Place)
    requires Built(e, c, s) && StandsIn(place, e) && !place.AtNode? && !Static(pod, s)
    requires ParentOf(pod, c) == Some(PlaceParent(place, e))
    ensures At(pod, place, e, s)
  {
    var owner := OneController(pod.body.owners).value;
    KindsApart(e, c, s, place, PlaceParent(place, e).identity);
    if owner.kind == "ReplicaSet" {
      DeploymentParentListed(pod, owner, e, c, s);
      DeployedExact(pod, e, c, s, place.d, owner);
    } else {
      DaemonParentListed(pod, owner, e, c);
      DaemonExact(pod, e, c, s, place.d, owner);
    }
  }

  lemma PlaceController(pod: Item<Pod>, e: Evidence, c: Cluster, s: Site, place: Place)
    requires Built(e, c, s) && StandsIn(place, e) && !place.AtNode? && At(pod, place, e, s)
    ensures ParentOf(pod, c) == Some(PlaceParent(place, e))
  {
    if place.Deployed? {
      var owner, r: nat :| ControlledBy(pod.body.owners, owner) && OwnedBySet(pod, e, place.d, owner, r);
      ControllerExact(pod.body.owners, owner);
      DeployedExact(pod, e, c, s, place.d, owner);
    } else {
      var owner :| ControlledBy(pod.body.owners, owner) && OwnedByDaemon(pod, e, place.d, owner);
      ControllerExact(pod.body.owners, owner);
      DaemonExact(pod, e, c, s, place.d, owner);
    }
  }

  /** Every parent that the checks find is a place of the evidence. */
  lemma ParentPlaced(pod: Item<Pod>, e: Evidence, c: Cluster, s: Site) returns (place: Place)
    requires Built(e, c, s) && ParentOf(pod, c).Some?
    ensures StandsIn(place, e) && ParentOf(pod, c) == Some(PlaceParent(place, e))
  {
    place := AtNode;
    if !Static(pod, s) {
      var owner := OneController(pod.body.owners).value;
      var id := ParentOf(pod, c).value.identity;
      if owner.kind == "ReplicaSet" {
        DeploymentParentListed(pod, owner, e, c, s);
        var d := IndexedAt(c.deployments, e.deployments, id);
        place := Deployed(d);
      } else {
        DaemonParentListed(pod, owner, e, c);
        var d := IndexedAt(c.daemonsets, e.daemonsets, id);
        place := Daemon(d);
      }
    }
  }

  lemma PlacesApart(e: Evidence, c: Cluster, s: Site, a: Place, b: Place)
    requires Built(e, c, s) && StandsIn(a, e) && StandsIn(b, e) && PlaceParent(a, e) == PlaceParent(b, e)
    ensures a == b
  {
    if !a.AtNode? {
      KindsApart(e, c, s, a, PlaceParent(a, e).identity);
      KindsApart(e, c, s, b, PlaceParent(b, e).identity);
      if a.Deployed? { SameIdentity(e.deployments, a.d, b.d); } else { SameIdentity(e.daemonsets, a.d, b.d); }
    }
  }

  lemma ImagesExact(pod: Item<Pod>, e: Evidence, c: Cluster, s: Site, place: Place)
    requires Built(e, c, s) && StandsIn(place, e) && At(pod, place, e, s)
    ensures ImagesOf(pod, PlaceParent(place, e), c) == Some(PlaceImages(pod, place, e, s))
  {
    match place {
      case AtNode =>
      case Deployed(d) =>
        KindsApart(e, c, s, place, IdentityOf(e.deployments[d]));
        var owner, r: nat :| ControlledBy(pod.body.owners, owner) && OwnedBySet(pod, e, d, owner, r);
        ControllerExact(pod.body.owners, owner);
      case Daemon(d) =>
        KindsApart(e, c, s, place, IdentityOf(e.daemonsets[d]));
        var owner :| ControlledBy(pod.body.owners, owner) && OwnedByDaemon(pod, e, d, owner);
        ControllerExact(pod.body.owners, owner);
    }
  }

  /** A Pod passes its own checks and is counted for a place exactly when it fits there. */
  lemma GoodExact(pod: Item<Pod>, e: Evidence, c: Cluster, s: Site, place: Place)
    requires Built(e, c, s) && StandsIn(place, e)
    ensures GoodPod(pod, c) && ParentOf(pod, c) == Some(PlaceParent(place, e)) <==> PodFits(pod, place, e, s)
  {
    ParentExact(pod, e, c, s, place);
    if At(pod, place, e, s) { ImagesExact(pod, e, c, s, place); }
  }

  // --------------------------------------------------------------------------
  // The census of all Pods

  /** Pod `i` is a mirror Pod of that identity. */
  predicate MirrorAt(pods: seq<Item<Pod>>, places: seq<Place>, id: Identity, i: nat) {
    i < |pods| && i < |places| && places[i] == AtNode && IdentityOf(pods[i]) == id
  }

  ghost predicate SomeMirror(pods: seq<Item<Pod>>, places: seq<Place>, id: Identity) {
    exists i: nat :: MirrorAt(pods, places, id, i)
  }

  ghost predicate MirrorsApart(pods: seq<Item<Pod>>, places: seq<Place>) {
    forall id, i: nat, j: nat :: MirrorAt(pods, places, id, i) && MirrorAt(pods, places, id, j) ==> i == j
  }

  /** Every Pod fits its place, no UID occurs twice, every static Pod has exactly one mirror,
      and every controller of the lists has as many Pods as it calls for. */
  ghost predicate CensusFits(e: Evidence, s: Site, places: seq<Place>) {
    && |places| == |e.pods|
    && (forall i :: 0 <= i < |places| ==> PodFits(e.pods[i], places[i], e, s))
    && Distinct(Uids(e.pods))
    && (forall id :: id in s.statics ==> SomeMirror(e.pods, places, id)) && MirrorsApart(e.pods, places)
    && Filled(e, places)
  }

  predicate Filled(e: Evidence, places: seq<Place>) {
    && (forall d: nat :: d < |e.deployments| ==> multiset(places)[Deployed(d)] == e.deployments[d].body.replicas)
    && (forall d: nat :: d < |e.daemonsets| ==> multiset(places)[Daemon(d)] == e.daemonsets[d].body.desired)
  }

  /** The identities of the Pods that the owner checks lead to the node. */
  function NodeIds(pods: seq<Item<Pod>>, c: Cluster): seq<Identity> {
    if pods == [] then []
    else
      var last := pods[|pods| - 1];
      NodeIds(pods[..|pods| - 1], c) + if ParentOf(last, c) == Some(Node) then [IdentityOf(last)] else []
  }

  ghost predicate Countable(pods: seq<Item<Pod>>, c: Cluster) {
    AllGood(pods, c) && Distinct(Uids(pods)) && Distinct(NodeIds(pods, c))
  }

  ghost predicate Seen(s: Census, pods: seq<Item<Pod>>, c: Cluster) {
    s.Census? ==> s.seen == Members(NodeIds(pods, c))
  }

  lemma CountableStep(pods: seq<Item<Pod>>, pod: Item<Pod>, c: Cluster)
    ensures Countable(pods + [pod], c) <==>
            && Countable(pods, c) && GoodPod(pod, c) && pod.meta.uid !in Members(Uids(pods))
            && (ParentOf(pod, c) == Some(Node) ==> IdentityOf(pod) !in Members(NodeIds(pods, c)))
  {
    var all := pods + [pod];
    assert all[..|pods|] == pods;
    assert AllGood(all, c) <==> AllGood(pods, c) && GoodPod(pod, c) by {
      assert all[|pods|] == pod && forall i :: 0 <= i < |pods| ==> all[i] == pods[i];
    }
    assert Uids(all) == Uids(pods) + [pod.meta.uid];
    AppendDistinct(Uids(pods), pod.meta.uid);
    assert NodeIds(pods, c) + [] == NodeIds(pods, c);
    if ParentOf(pod, c) == Some(Node) { AppendDistinct(NodeIds(pods, c), IdentityOf(pod)); }
  }

  lemma SeenStep(s: Census, pods: seq<Item<Pod>>, pod: Item<Pod>, c: Cluster)
    requires s.Census? && Seen(s, pods, c) && Tallied(s, pods, c) && Closed(c)
    ensures CountPod(s, VerdictOf(pod, c)).Census? <==>
            && GoodPod(pod, c) && pod.meta.uid !in Members(Uids(pods))
            && (ParentOf(pod, c) == Some(Node) ==> IdentityOf(pod) !in Members(NodeIds(pods, c)))
    ensures Seen(CountPod(s, VerdictOf(pod, c)), pods + [pod], c)
  {
    assert (pods + [pod])[..|pods|] == pods;
    var ids := NodeIds(pods, c);
    assert Members(ids + [IdentityOf(pod)]) == Members(ids) + {IdentityOf(pod)};
    assert ids + [] == ids;
  }

  lemma {:induction false} CountableExact(pods: seq<Item<Pod>>, c: Cluster)
    requires Closed(c)
    ensures CountPods(VerdictsOf(pods, c), Controllers(c)).Census? <==> Countable(pods, c)
    ensures Seen(CountPods(VerdictsOf(pods, c), Controllers(c)), pods, c)
  {
    if pods == [] {
      assert Members(NodeIds(pods, c)) == {};
    } else {
      var front, pod := pods[..|pods| - 1], pods[|pods| - 1];
      var vs := VerdictsOf(front, c);
      var before := CountPods(vs, Controllers(c));
      CountableExact(front, c);
      TallyPods(front, c);
      assert pods == front + [pod];
      assert VerdictsOf(pods, c) == vs + [VerdictOf(pod, c)];
      CountsLast(vs, VerdictOf(pod, c), Controllers(c));
      CountableStep(front, pod, c);
      if before.Census? { SeenStep(before, front, pod, c); }
    }
  }

  lemma CountsLast(vs: seq<Verdict>, v: Verdict, ids: set<Identity>)
    ensures CountPods(vs + [v], ids) == CountPod(CountPods(vs, ids), v)
  {
    assert (vs + [v])[..|vs|] == vs;
  }

  lemma CensusExact(pods: seq<Item<Pod>>, c: Cluster)
    requires Closed(c)
    ensures CensusAccepted(pods, c) <==>
            Countable(pods, c) && Members(NodeIds(pods, c)) == c.statics.Keys && CountsRight(ExpectedCounts(c), pods, c)
  {
    CountableExact(pods, c);
    TallyPods(pods, c);
    var census := CountPods(VerdictsOf(pods, c), Controllers(c));
    if census.Census? && CountsRight(ExpectedCounts(c), pods, c) {
      assert census.counts == ExpectedCounts(c);
    }
  }

  /** The owner checks lead every Pod to its place. */
  ghost predicate Led(pods: seq<Item<Pod>>, places: seq<Place>, e: Evidence, c: Cluster) {
    |places| == |pods| && forall i :: 0 <= i < |pods| ==> LedTo(pods[i], places[i], e, c)
  }

  predicate LedTo(pod: Item<Pod>, place: Place, e: Evidence, c: Cluster) {
    StandsIn(place, e) && ParentOf(pod, c) == Some(PlaceParent(place, e))
  }

  lemma {:induction false} PlacesFound(pods: seq<Item<Pod>>, e: Evidence, c: Cluster, s: Site)
    returns (places: seq<Place>)
    requires Built(e, c, s) && AllGood(pods, c)
    ensures Led(pods, places, e, c)
  {
    if pods == [] {
      places := [];
    } else {
      var front, pod := pods[..|pods| - 1], pods[|pods| - 1];
      var before := PlacesFound(front, e, c, s);
      var place := ParentPlaced(pod, e, c, s);
      places := before + [place];
      LedAppend(front, before, pod, place, e, c);
      assert pods == front + [pod];
    }
  }

  lemma LedAppend(
    pods: seq<Item<Pod>>, places: seq<Place>, pod: Item<Pod>, place: Place, e: Evidence, c: Cluster)
    requires Led(pods, places, e, c) && LedTo(pod, place, e, c)
    ensures Led(pods + [pod], places + [place], e, c)
  {
    forall i | 0 <= i < |pods + [pod]| ensures LedTo((pods + [pod])[i], (places + [place])[i], e, c) {
      if i < |pods| { assert LedTo(pods[i], places[i], e, c); }
    }
  }

  lemma LedFront(pods: seq<Item<Pod>>, places: seq<Place>, e: Evidence, c: Cluster)
    requires Led(pods, places, e, c) && pods != []
    ensures Led(pods[..|pods| - 1], places[..|pods| - 1], e, c)
    ensures LedTo(pods[|pods| - 1], places[|pods| - 1], e, c)
  {
    var front := pods[..|pods| - 1];
    forall i | 0 <= i < |front| ensures LedTo(front[i], places[..|pods| - 1][i], e, c) {
      assert LedTo(pods[i], places[i], e, c);
    }
  }

  lemma LedOnce(pod: Item<Pod>, place: Place, other: Place, e: Evidence, c: Cluster, s: Site)
    requires Built(e, c, s) && LedTo(pod, place, e, c) && StandsIn(other, e)
    ensures ParentOf(pod, c) == Some(PlaceParent(other, e)) <==> place == other
  {
    if ParentOf(pod, c) == Some(PlaceParent(other, e)) { PlacesApart(e, c, s, place, other); }
  }

  lemma MultisetLast<T>(front: seq<T>, last: T, x: T)
    ensures multiset(front + [last])[x] == multiset(front)[x] + if last == x then 1 else 0
  {
  }

  /** Exactly the Pods with this parent are at this place. */
  predicate Alike(pods: seq<Item<Pod>>, places: seq<Place>, c: Cluster, parent: Parent, place: Place) {
    |places| == |pods| && forall i :: 0 <= i < |pods| ==> (ParentOf(pods[i], c) == Some(parent) <==> places[i] == place)
  }

  lemma AlikeFront(pods: seq<Item<Pod>>, places: seq<Place>, c: Cluster, parent: Parent, place: Place)
    requires Alike(pods, places, c, parent, place) && pods != []
    ensures Alike(pods[..|pods| - 1], places[..|pods| - 1], c, parent, place)
  {
  }

  lemma {:induction false} AlikeCounted(
    pods: seq<Item<Pod>>, places: seq<Place>, c: Cluster, parent: Parent, place: Place)
    requires Alike(pods, places, c, parent, place)
    ensures CountOf(pods, parent, c) == multiset(places)[place]
  {
    if pods != [] {
      var front, before := pods[..|pods| - 1], places[..|pods| - 1];
      AlikeFront(pods, places, c, parent, place);
      AlikeCounted(front, before, c, parent, place);
      assert places == before + [places[|pods| - 1]];
      MultisetLast(before, places[|pods| - 1], place);
    }
  }

  lemma PlaceCounted(pods: seq<Item<Pod>>, places: seq<Place>, e: Evidence, c: Cluster, s: Site, place: Place)
    requires Built(e, c, s) && Led(pods, places, e, c) && StandsIn(place, e)
    ensures CountOf(pods, PlaceParent(place, e), c) == multiset(places)[place]
  {
    var parent := PlaceParent(place, e);
    forall i | 0 <= i < |pods| ensures ParentOf(pods[i], c) == Some(parent) <==> places[i] == place {
      LedOnce(pods[i], places[i], place, e, c, s);
    }
    AlikeCounted(pods, places, c, parent, place);
  }

  lemma SomeMirrorLast(pods: seq<Item<Pod>>, places: seq<Place>, id: Identity)
    requires pods != [] && |places| == |pods|
    ensures var last := |pods| - 1;
            SomeMirror(pods, places, id) <==>
            || SomeMirror(pods[..last], places[..last], id)
            || (places[last] == AtNode && IdentityOf(pods[last]) == id)
  {
    var last := |pods| - 1;
    var front, before := pods[..last], places[..last];
    if i: nat :| MirrorAt(front, before, id, i) {
      assert MirrorAt(pods, places, id, i);
    }
    if i: nat :| MirrorAt(pods, places, id, i) {
      if i < last { assert MirrorAt(front, before, id, i); }
    }
    if places[last] == AtNode && IdentityOf(pods[last]) == id {
      assert MirrorAt(pods, places, id, last);
    }
  }

  lemma {:induction false} MirrorsListed(
    pods: seq<Item<Pod>>, places: seq<Place>, e: Evidence, c: Cluster, id: Identity)
    requires Led(pods, places, e, c)
    ensures id in NodeIds(pods, c) <==> SomeMirror(pods, places, id)
  {
    if pods != [] {
      var last := |pods| - 1;
      LedFront(pods, places, e, c);
      MirrorsListed(pods[..last], places[..last], e, c, id);
      SomeMirrorLast(pods, places, id);
    }
  }

  lemma {:induction false} MirrorsDistinct(pods: seq<Item<Pod>>, places: seq<Place>, e: Evidence, c: Cluster)
    requires Led(pods, places, e, c)
    ensures Distinct(NodeIds(pods, c)) <==> MirrorsApart(pods, places)
  {
    if pods != [] {
      var last := |pods| - 1;
      var front, before := pods[..last], places[..last];
      LedFront(pods, places, e, c);
      MirrorsDistinct(front, before, e, c);
      MirrorsListed(front, before, e, c, IdentityOf(pods[last]));
      AppendDistinct(NodeIds(front, c), IdentityOf(pods[last]));
      assert NodeIds(front, c) + [] == NodeIds(front, c);
      MirrorsLast(pods, places);
    }
  }

  lemma MirrorsLast(pods: seq<Item<Pod>>, places: seq<Place>)
    requires pods != [] && |places| == |pods|
    ensures var last := |pods| - 1;
            MirrorsApart(pods, places) <==>
            && MirrorsApart(pods[..last], places[..last])
            && (places[last] == AtNode ==> !SomeMirror(pods[..last], places[..last], IdentityOf(pods[last])))
  {
    var last := |pods| - 1;
    var front, before := pods[..last], places[..last];
    forall id, i: nat ensures MirrorAt(front, before, id, i) <==> MirrorAt(pods, places, id, i) && i < last {
    }
    if MirrorsApart(pods, places) && places[last] == AtNode {
      assert MirrorAt(pods, places, IdentityOf(pods[last]), last);
    }
  }

  /** A controller of the list is expected to have this many Pods, and has that many. */
  predicate Expects(c: Cluster, pods: seq<Item<Pod>>, id: Identity, expected: nat, found: nat) {
    && id in ExpectedCounts(c) && ExpectedCounts(c)[id] == expected
    && CountOf(pods, Controller(id), c) == found
  }

  lemma RightFilled(e: Evidence, c: Cluster, s: Site, places: seq<Place>)
    requires Built(e, c, s) && Led(e.pods, places, e, c) && CountsRight(ExpectedCounts(c), e.pods, c)
    ensures Filled(e, places)
  {
    forall d: nat | d < |e.deployments|
      ensures multiset(places)[Deployed(d)] == e.deployments[d].body.replicas
    {
      DeployedCount(e, c, s, places, d);
    }
    forall d: nat | d < |e.daemonsets| ensures multiset(places)[Daemon(d)] == e.daemonsets[d].body.desired {
      DaemonCount(e, c, s, places, d);
    }
  }

  lemma FilledRight(e: Evidence, c: Cluster, s: Site, places: seq<Place>)
    requires Built(e, c, s) && Led(e.pods, places, e, c) && Filled(e, places)
    ensures CountsRight(ExpectedCounts(c), e.pods, c)
  {
    var counts := ExpectedCounts(c);
    forall id | id in counts ensures counts[id] == CountOf(e.pods, Controller(id), c) {
      if id in c.deployments {
        var d := IndexedAt(c.deployments, e.deployments, id);
        DeployedCount(e, c, s, places, d);
      } else {
        var d := IndexedAt(c.daemonsets, e.daemonsets, id);
        DaemonCount(e, c, s, places, d);
      }
    }
  }

  lemma DeployedCount(e: Evidence, c: Cluster, s: Site, places: seq<Place>, d: nat)
    requires Built(e, c, s) && Led(e.pods, places, e, c) && d < |e.deployments|
    ensures Expects(c, e.pods, IdentityOf(e.deployments[d]), e.deployments[d].body.replicas,
                    multiset(places)[Deployed(d)])
  {
    KindsApart(e, c, s, Deployed(d), IdentityOf(e.deployments[d]));
    PlaceCounted(e.pods, places, e, c, s, Deployed(d));
  }

  lemma DaemonCount(e: Evidence, c: Cluster, s: Site, places: seq<Place>, d: nat)
    requires Built(e, c, s) && Led(e.pods, places, e, c) && d < |e.daemonsets|
    ensures Expects(c, e.pods, IdentityOf(e.daemonsets[d]), e.daemonsets[d].body.desired, multiset(places)[Daemon(d)])
  {
    KindsApart(e, c, s, Daemon(d), IdentityOf(e.daemonsets[d]));
    PlaceCounted(e.pods, places, e, c, s, Daemon(d));
  }

  lemma AcceptedFits(e: Evidence, c: Cluster, s: Site)
    requires Built(e, c, s) && Closed(c) && CensusAccepted(e.pods, c)
    ensures exists places :: CensusFits(e, s, places)
  {
    CensusExact(e.pods, c);
    var places := PlacesFound(e.pods, e, c, s);
    forall i | 0 <= i < |places| ensures PodFits(e.pods[i], places[i], e, s) {
      assert LedTo(e.pods[i], places[i], e, c);
      GoodExact(e.pods[i], e, c, s, places[i]);
    }
    forall id | id in s.statics ensures SomeMirror(e.pods, places, id) {
      assert id in Members(NodeIds(e.pods, c));
      MirrorsListed(e.pods, places, e, c, id);
    }
    MirrorsDistinct(e.pods, places, e, c);
    RightFilled(e, c, s, places);
    assert CensusFits(e, s, places);
  }

  lemma FitsAccepted(e: Evidence, c: Cluster, s: Site, places: seq<Place>)
    requires Built(e, c, s) && Closed(c) && CensusFits(e, s, places)
    ensures CensusAccepted(e.pods, c)
  {
    forall i | 0 <= i < |places| ensures LedTo(e.pods[i], places[i], e, c) && GoodPod(e.pods[i], c) {
      GoodExact(e.pods[i], e, c, s, places[i]);
    }
    MirrorsDistinct(e.pods, places, e, c);
    forall id ensures id in Members(NodeIds(e.pods, c)) <==> id in c.statics.Keys {
      MirrorsListed(e.pods, places, e, c, id);
      if i: nat :| MirrorAt(e.pods, places, id, i) { assert PodFits(e.pods[i], places[i], e, s); }
    }
    FilledRight(e, c, s, places);
    CensusExact(e.pods, c);
  }

  lemma BuiltClosed(e: Evidence, c: Cluster, s: Site)
    requires Built(e, c, s)
    ensures Closed(c)
  {
    LinksKeep(e.replicasets, c.deployments, UidMap(e.deployments));
    forall uid | uid in c.daemonUids ensures c.daemonUids[uid] in c.daemonsets {
      UidMapValues(e.daemonsets, uid);
      assert c.daemonUids[uid] in Members(Identities(e.daemonsets));
    }
  }

  predicate Stands<T>(items: seq<Item<T>>, i: nat, id: Identity) {
    i < |items| && items[i].meta.namespace == id.0 && items[i].meta.name == id.1
  }

  /** The items are the expected ones, once each, and all have a UID. */
  ghost predicate OnceEach<T>(items: seq<Item<T>>, expected: set<Identity>) {
    && (forall i: nat, id :: Stands(items, i, id) ==> id in expected && items[i].meta.uid != "")
    && (forall id :: id in expected ==> Occurs(items, id))
    && (forall i: nat, j: nat, id :: Stands(items, i, id) && Stands(items, j, id) ==> i == j)
  }

  ghost predicate Occurs<T>(items: seq<Item<T>>, id: Identity) {
    exists i: nat :: Stands(items, i, id)
  }

  lemma OnceExact<T>(items: seq<Item<T>>, expected: set<Identity>)
    ensures Exact(items, expected) <==> OnceEach(items, expected)
  {
    var ids := Identities(items);
    SetSize(ids);
    forall i: nat, id ensures Stands(items, i, id) <==> i < |items| && ids[i] == id {}
    if Exact(items, expected) { ExactOnce(items, expected); }
    if OnceEach(items, expected) { OnceCounted(items, expected); }
  }

  lemma ExactOnce<T>(items: seq<Item<T>>, expected: set<Identity>)
    requires Exact(items, expected)
    ensures OnceEach(items, expected)
  {
    var ids := Identities(items);
    SetSize(ids);
    forall i: nat, id | Stands(items, i, id) ensures id in expected && items[i].meta.uid != "" {
      assert ids[i] == id && id in Members(ids);
    }
    forall id | id in expected ensures Occurs(items, id) {
      assert id in Members(ids);
      var i: nat :| i < |ids| && ids[i] == id;
      assert Stands(items, i, id);
    }
    forall i: nat, j: nat, id | Stands(items, i, id) && Stands(items, j, id) ensures i == j {
      assert ids[i] == ids[j];
    }
  }

  lemma OnceCounted<T>(items: seq<Item<T>>, expected: set<Identity>)
    requires OnceEach(items, expected)
    ensures Exact(items, expected)
  {
    var ids := Identities(items);
    forall i, j | 0 <= i < j < |ids| ensures ids[i] != ids[j] {
      assert Stands(items, i, ids[i]) && Stands(items, j, ids[j]);
    }
    forall id ensures id in Members(ids) <==> id in expected {
      if id in expected {
        assert Occurs(items, id);
        var i: nat :| Stands(items, i, id);
        assert ids[i] == id;
      }
      if id in ids {
        var i: nat :| i < |ids| && ids[i] == id;
        assert Stands(items, i, id);
      }
    }
    forall i | 0 <= i < |items| ensures items[i].meta.uid != "" {
      assert Stands(items, i, ids[i]);
    }
    SetSize(ids);
    assert Members(ids) == expected;
  }

  /** All named and with a UID, and no two alike in name and namespace, or in UID. */
  predicate NamedApart<T>(items: seq<Item<T>>) {
    && (forall i :: 0 <= i < |items| ==>
          items[i].meta.namespace != "" && items[i].meta.name != "" && items[i].meta.uid != "")
    && (forall i, j :: 0 <= i < j < |items| ==>
          && (items[i].meta.namespace != items[j].meta.namespace || items[i].meta.name != items[j].meta.name)
          && items[i].meta.uid != items[j].meta.uid)
  }

  lemma ListableExact<T>(items: seq<Item<T>>)
    ensures Listable(items) <==> NamedApart(items)
  {
    var ids, uids := Identities(items), Uids(items);
    forall i | 0 <= i < |items|
      ensures ids[i] == (items[i].meta.namespace, items[i].meta.name) && uids[i] == items[i].meta.uid
    {
    }
    if Listable(items) {
      forall i, j | 0 <= i < j < |items|
        ensures items[i].meta.namespace != items[j].meta.namespace || items[i].meta.name != items[j].meta.name
        ensures items[i].meta.uid != items[j].meta.uid
      {
        assert ids[i] != ids[j] && uids[i] != uids[j];
      }
    }
  }

  /** What the evidence alone must say: the release's controllers once each, ReplicaSets that
      fit them, and places that all Pods fit. */
  ghost predicate EvidenceFits(e: Evidence, p: Provider, s: Site) {
    && OnceEach(e.deployments, ExpectedDeployments(p)) && OnceEach(e.daemonsets, ExpectedDaemonSets(p))
    && NamedApart(e.replicasets) && SetsFit(e)
    && exists places :: CensusFits(e, s, places)
  }

  predicate Sited(c: Cluster, s: Site) {
    c.namespaces == s.namespaces && c.nodeName == s.nodeName && c.nodeUid == s.nodeUid && c.statics == s.statics
  }

  lemma ExactIndexed(e: Evidence, p: Provider, c: Cluster)
    requires Exact(e.deployments, ExpectedDeployments(p)) && Exact(e.daemonsets, ExpectedDaemonSets(p))
    requires Listable(e.replicasets)
    requires Indexes(c.deployments, e.deployments) && Indexes(c.daemonsets, e.daemonsets)
    requires c.daemonUids == UidMap(e.daemonsets)
    ensures Indexed(e, c) && c.deployments.Keys !! c.daemonsets.Keys
  {
    InventoriesDisjoint(p);
    SetSize(Identities(e.deployments));
    SetSize(Identities(e.daemonsets));
  }

  lemma ListsExact(e: Evidence, p: Provider)
    ensures Exact(e.deployments, ExpectedDeployments(p)) <==> OnceEach(e.deployments, ExpectedDeployments(p))
    ensures Exact(e.daemonsets, ExpectedDaemonSets(p)) <==> OnceEach(e.daemonsets, ExpectedDaemonSets(p))
    ensures Listable(e.replicasets) <==> NamedApart(e.replicasets)
  {
    OnceExact(e.deployments, ExpectedDeployments(p));
    OnceExact(e.daemonsets, ExpectedDaemonSets(p));
    ListableExact(e.replicasets);
  }

  lemma InventoryFits(e: Evidence, p: Provider, c: Cluster, s: Site)
    requires InventoryAccepted(e, p, c) && Sited(c, s)
    ensures EvidenceFits(e, p, s)
  {
    ListsExact(e, p);
    ExactIndexed(e, p, c);
    ChainExact(e, c);
    BuiltClosed(e, c, s);
    AcceptedFits(e, c, s);
  }

  lemma FitsInventory(e: Evidence, p: Provider, s: Site)
    requires EvidenceFits(e, p, s)
    ensures exists c :: InventoryAccepted(e, p, c) && Sited(c, s)
  {
    ListsExact(e, p);
    SetSize(Identities(e.deployments));
    SetSize(Identities(e.daemonsets));
    IndexOfIndexes(e.deployments);
    IndexOfIndexes(e.daemonsets);
    var deployments := IndexOf(e.deployments);
    var chain := AcceptedChain(e.replicasets, deployments, UidMap(e.deployments));
    var c := Cluster(s.namespaces, s.nodeName, s.nodeUid, s.statics, deployments, chain, IndexOf(e.daemonsets),
                     UidMap(e.daemonsets));
    ExactIndexed(e, p, c);
    ChainExact(e, c);
    BuiltClosed(e, c, s);
    var places :| CensusFits(e, s, places);
    FitsAccepted(e, c, s, places);
    assert InventoryAccepted(e, p, c) && Sited(c, s);
  }

  /** An inventory is accepted exactly when its evidence fits. */
  lemma AcceptedExactly(e: Evidence, p: Provider, s: Site)
    ensures (exists c :: InventoryAccepted(e, p, c) && Sited(c, s)) <==> EvidenceFits(e, p, s)
  {
    if c :| InventoryAccepted(e, p, c) && Sited(c, s) { InventoryFits(e, p, c, s); }
    if EvidenceFits(e, p, s) { FitsInventory(e, p, s); }
  }

  /** Accepted evidence has no UID on two Deployments, though nothing compares them. */
  lemma DeploymentUidsDistinct(e: Evidence, p: Provider, s: Site)
    requires EvidenceFits(e, p, s)
    ensures Distinct(Uids(e.deployments))
  {
    forall i, j | 0 <= i < j < |e.deployments| ensures Uids(e.deployments)[i] != Uids(e.deployments)[j] {
      assert HasRunner(e, i);
      var r: nat :| RunsFor(e, r, i);
      var owner :|
        ControlledBy(e.replicasets[r].body.owners, owner) && SetOwned(e.replicasets[r], e.deployments, i, owner);
      assert e.deployments[j].meta.uid != owner.uid;
    }
  }
}
