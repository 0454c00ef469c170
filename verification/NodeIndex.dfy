/**
 The node indexes that updateNodeCaches keeps up to date (pkg/provider/azure.go).  Node names are lower-case,
 as Kubernetes names are; a nil set and an empty one are the same here, as they are to every reader.
 */
module NodeIndex {
  import opened Lists
  import opened Text

  /** The labels and addresses that matter; ips are the internal addresses. */
  datatype Node = Node(
    name: string, zone: Option<string>, group: Option<string>, managed: Option<string>, excludeLabel: bool, ips: seq<string>)
  {
    predicate HasGroup() {
      group.Some? && group.value != ""
    }

    predicate Unmanaged() {
      managed.Some? && EqualFold(managed.value, "false")
    }

    predicate Excluded() {
      Unmanaged() || excludeLabel
    }
  }

  /** isAvailabilityZone. */
  predicate IsAvailabilityZone(location: string, zone: string) {
    location + "-" <= zone
  }

  datatype Index = Index(
    names: set<string>, zones: map<string, set<string>>, groups: map<string, string>, unmanaged: set<string>,
    ips: map<string, set<string>>, owner: map<string, string>, excluded: set<string>, marks: set<string>)

  function At(m: map<string, set<string>>, k: string): set<string> {
    if k in m then m[k] else {}
  }

  function AllTo(ips: set<string>, name: string): map<string, string> {
    map a | a in ips :: name
  }

  // ---------- One event ----------

  function DropZone(zones: map<string, set<string>>, location: string, n: Node): map<string, set<string>> {
    if n.zone.Some? && IsAvailabilityZone(location, n.zone.value)
    then zones[n.zone.value := At(zones, n.zone.value) - {n.name}] else zones
  }

  function PutZone(zones: map<string, set<string>>, location: string, n: Node): map<string, set<string>> {
    if n.zone.Some? && IsAvailabilityZone(location, n.zone.value)
    then zones[n.zone.value := At(zones, n.zone.value) + {n.name}] else zones
  }

  function DropIPs(ips: map<string, set<string>>, n: Node, deleted: bool): map<string, set<string>> {
    if deleted then ips - {n.name}
    else if n.name in ips then ips[n.name := ips[n.name] - FoldSet(n.ips)] else ips
  }

  function PutIPs(ips: map<string, set<string>>, n: Node): map<string, set<string>> {
    if n.ips == [] then ips else ips[n.name := At(ips, n.name) + FoldSet(n.ips)]
  }

  /** The part of updateNodeCaches that takes the previous node out. */
  function Drop(ix: Index, location: string, n: Node, deleted: bool): Index {
    Index(
      ix.names - {n.name},
      DropZone(ix.zones, location, n),
      if n.group.Some? then ix.groups - {n.name} else ix.groups,
      if n.Unmanaged() then ix.unmanaged - {n.name} else ix.unmanaged,
      DropIPs(ix.ips, n, deleted),
      ix.owner - Elements(n.ips),
      if deleted then ix.excluded + {n.name} else ix.excluded,
      if deleted then ix.marks - {n.name} else ix.marks)
  }

  function PutGroup(groups: map<string, string>, n: Node): map<string, string> {
    if n.HasGroup() then groups[n.name := Lower(n.group.value)] else groups
  }

  /** The part that puts the new node in. */
  function Put(ix: Index, location: string, n: Node): Index {
    Index(
      ix.names + {n.name},
      PutZone(ix.zones, location, n),
      PutGroup(ix.groups, n),
      if n.Unmanaged() then ix.unmanaged + {n.name} else ix.unmanaged,
      PutIPs(ix.ips, n),
      ix.owner + AllTo(Elements(n.ips), n.name),
      if n.Excluded() then ix.excluded + {n.name} else ix.excluded - {n.name},
      ix.marks)
  }

  datatype Event = AddNode(node: Node) | UpdateNode(node: Node) | DeleteNode(name: string)

  type Live = map<string, Node>

  /** The informer reports changes of the nodes it knows. */
  predicate Legal(live: Live, e: Event) {
    match e
    case AddNode(n) => n.name !in live && OwnIPs(live[n.name := n])
    case UpdateNode(n) => n.name in live && OwnIPs(live[n.name := n])
    case DeleteNode(name) => name in live
  }

  /** No two live nodes share an address. */
  predicate OwnIPs(live: Live) {
    forall m, n, a :: m in live && n in live && m != n && a in live[m].ips ==> a !in live[n].ips
  }

  function Step(ix: Index, location: string, live: Live, e: Event): Index {
    match e
    case AddNode(n) => Put(ix, location, n)
    case UpdateNode(n) => if n.name in live then Put(Drop(ix, location, live[n.name], false), location, n) else ix
    case DeleteNode(name) => if name in live then Drop(ix, location, live[name], true) else ix
  }

  function NextLive(live: Live, e: Event): Live {
    match e
    case AddNode(n) => live[n.name := n]
    case UpdateNode(n) => live[n.name := n]
    case DeleteNode(name) => live - {name}
  }

  /** Deleted nodes that have not come back. */
  function NextGone(gone: set<string>, e: Event): set<string> {
    match e
    case AddNode(n) => gone - {n.name}
    case UpdateNode(n) => gone
    case DeleteNode(name) => gone + {name}
  }

  // ---------- Agreement with the live nodes ----------

  /** The zone label is one of the location's availability zones. */
  predicate LiesIn(n: Node, location: string, z: string) {
    n.zone == Some(z) && location + "-" <= z
  }

  ghost predicate ZonesRight(zones: map<string, set<string>>, location: string, live: Live) {
    forall z, n :: n in At(zones, z) <==> n in live && LiesIn(live[n], location, z)
  }

  ghost predicate GroupsRight(groups: map<string, string>, live: Live) {
    && (forall n :: n in groups <==> n in live && live[n].group.Some? && live[n].group.value != "")
    && (forall n :: n in groups ==> groups[n] == Lower(live[n].group.value))
  }

  ghost predicate UnmanagedRight(unmanaged: set<string>, live: Live) {
    forall n :: n in unmanaged <==> n in live && live[n].managed.Some? && EqualFold(live[n].managed.value, "false")
  }

  ghost predicate IPsRight(ips: map<string, set<string>>, live: Live) {
    forall n :: At(ips, n) == if n in live then FoldSet(live[n].ips) else {}
  }

  ghost predicate OwnersRight(owner: map<string, string>, live: Live) {
    && (forall a :: a in owner ==> owner[a] in live && a in live[owner[a]].ips)
    && (forall n, a :: n in live && a in live[n].ips ==> a in owner && owner[a] == n)
  }

  /** Every index is what recomputing it from the live nodes would give. */
  ghost predicate Right(ix: Index, location: string, live: Live) {
    && ix.names == live.Keys
    && ZonesRight(ix.zones, location, live)
    && GroupsRight(ix.groups, live)
    && UnmanagedRight(ix.unmanaged, live)
    && IPsRight(ix.ips, live)
    && OwnersRight(ix.owner, live)
  }

  ghost predicate ExcludedRight(ix: Index, live: Live, gone: set<string>) {
    forall n :: n in ix.excluded <==>
      || n in gone
      || (n in live && (live[n].excludeLabel || (live[n].managed.Some? && EqualFold(live[n].managed.value, "false"))))
  }

  ghost predicate WellNamed(live: Live) {
    forall n :: n in live ==> live[n].name == n
  }

  lemma DropZonesRight(zones: map<string, set<string>>, location: string, live: Live, n: Node)
    requires n.name in live && live[n.name] == n && ZonesRight(zones, location, live)
    ensures ZonesRight(DropZone(zones, location, n), location, live - {n.name})
  {
    forall z, m
      ensures m in At(DropZone(zones, location, n), z) <==>
              m in live - {n.name} && LiesIn(live[m], location, z)
    {
      assert m in At(zones, z) <==> m in live && LiesIn(live[m], location, z);
    }
  }

  lemma PutZonesRight(zones: map<string, set<string>>, location: string, live: Live, n: Node)
    requires n.name !in live && ZonesRight(zones, location, live)
    ensures ZonesRight(PutZone(zones, location, n), location, live[n.name := n])
  {
  }

  lemma DropIPsRight(ips: map<string, set<string>>, live: Live, n: Node, deleted: bool)
    requires n.name in live && live[n.name] == n && IPsRight(ips, live)
    ensures IPsRight(DropIPs(ips, n, deleted), live - {n.name})
  {
  }

  lemma PutIPsRight(ips: map<string, set<string>>, live: Live, n: Node)
    requires n.name !in live && IPsRight(ips, live)
    ensures IPsRight(PutIPs(ips, n), live[n.name := n])
  {
  }

  lemma DropOwnersRight(owner: map<string, string>, live: Live, n: Node)
    requires n.name in live && live[n.name] == n && OwnIPs(live) && OwnersRight(owner, live)
    ensures OwnersRight(owner - Elements(n.ips), live - {n.name})
  {
  }

  lemma PutOwnersRight(owner: map<string, string>, live: Live, n: Node)
    requires n.name !in live && OwnIPs(live[n.name := n]) && OwnersRight(owner, live)
    ensures OwnersRight(owner + AllTo(Elements(n.ips), n.name), live[n.name := n])
  {
  }

  lemma PutGroupsRight(groups: map<string, string>, live: Live, n: Node)
    requires n.name !in live && GroupsRight(groups, live)
    ensures GroupsRight(PutGroup(groups, n), live[n.name := n])
  {
  }

  lemma PutUnmanagedRight(unmanaged: set<string>, live: Live, n: Node)
    requires n.name !in live && UnmanagedRight(unmanaged, live)
    ensures UnmanagedRight(if n.Unmanaged() then unmanaged + {n.name} else unmanaged, live[n.name := n])
  {
  }

  lemma DropRight(ix: Index, location: string, live: Live, n: Node, deleted: bool)
    requires n.name in live && live[n.name] == n && OwnIPs(live) && Right(ix, location, live)
    ensures Right(Drop(ix, location, n, deleted), location, live - {n.name})
  {
    DropZonesRight(ix.zones, location, live, n);
    DropIPsRight(ix.ips, live, n, deleted);
    DropOwnersRight(ix.owner, live, n);
  }

  lemma PutRight(ix: Index, location: string, live: Live, n: Node)
    requires n.name !in live && OwnIPs(live[n.name := n]) && Right(ix, location, live)
    ensures Right(Put(ix, location, n), location, live[n.name := n])
  {
    PutZonesRight(ix.zones, location, live, n);
    PutGroupsRight(ix.groups, live, n);
    PutUnmanagedRight(ix.unmanaged, live, n);
    PutIPsRight(ix.ips, live, n);
    PutOwnersRight(ix.owner, live, n);
  }

  lemma StepRight(ix: Index, location: string, live: Live, e: Event)
    requires WellNamed(live) && OwnIPs(live) && Legal(live, e) && Right(ix, location, live)
    ensures Right(Step(ix, location, live, e), location, NextLive(live, e))
  {
    match e {
      case AddNode(n) => PutRight(ix, location, live, n);
      case UpdateNode(n) =>
        DropRight(ix, location, live, live[n.name], false);
        assert (live - {n.name})[n.name := n] == live[n.name := n];
        PutRight(Drop(ix, location, live[n.name], false), location, live - {n.name}, n);
      case DeleteNode(name) => DropRight(ix, location, live, live[name], true);
    }
  }

  // ---------- Whole runs ----------

  datatype State = State(ix: Index, live: Live, gone: set<string>)

  const EMPTY := State(Index({}, map[], map[], {}, map[], map[], {}, {}), map[], {})

  function Run(location: string, es: seq<Event>): State {
    if es == [] then EMPTY
    else
      var s, e := Run(location, es[..|es| - 1]), es[|es| - 1];
      State(Step(s.ix, location, s.live, e), NextLive(s.live, e), NextGone(s.gone, e))
  }

  ghost predicate LegalRun(location: string, es: seq<Event>) {
    es != [] ==> LegalRun(location, es[..|es| - 1]) && Legal(Run(location, es[..|es| - 1]).live, es[|es| - 1])
  }

  ghost predicate Agrees(location: string, s: State) {
    && WellNamed(s.live) && OwnIPs(s.live) && s.gone !! s.live.Keys
    && Right(s.ix, location, s.live)
    && ExcludedRight(s.ix, s.live, s.gone)
  }

  /**
   After every run of node events the indexes equal their recomputation from the live nodes, and the
   excluded nodes are the live ones that say so and the deleted ones that have not come back.
   */
  lemma {:induction false} IndexesAgree(location: string, es: seq<Event>)
    requires LegalRun(location, es)
    ensures Agrees(location, Run(location, es))
  {
    if es != [] {
      var s, e := Run(location, es[..|es| - 1]), es[|es| - 1];
      IndexesAgree(location, es[..|es| - 1]);
      StepRight(s.ix, location, s.live, e);
      LiveStep(s, location, e);
      ExcludedStep(s, location, e);
    }
  }

  lemma ExcludedStep(s: State, location: string, e: Event)
    requires Agrees(location, s) && Legal(s.live, e)
    ensures ExcludedRight(Step(s.ix, location, s.live, e), NextLive(s.live, e), NextGone(s.gone, e))
  {
  }

  lemma LiveStep(s: State, location: string, e: Event)
    requires Agrees(location, s) && Legal(s.live, e)
    ensures WellNamed(NextLive(s.live, e)) && OwnIPs(NextLive(s.live, e)) && NextGone(s.gone, e) !! NextLive(s.live, e).Keys
  {
  }

  // ---------- The placement's marks ----------

  function RunFrom(location: string, start: State, es: seq<Event>): State {
    if es == [] then start
    else
      var s, e := RunFrom(location, start, es[..|es| - 1]), es[|es| - 1];
      State(Step(s.ix, location, s.live, e), NextLive(s.live, e), NextGone(s.gone, e))
  }

  ghost predicate LegalFrom(location: string, start: State, es: seq<Event>) {
    es != [] ==>
      && LegalFrom(location, start, es[..|es| - 1])
      && Legal(RunFrom(location, start, es[..|es| - 1]).live, es[|es| - 1])
  }

  /** A node keeps the mark that the placement gave it over every run of events, unless it is deleted. */
  lemma {:induction false} MarksStay(location: string, start: State, es: seq<Event>, n: string)
    requires WellNamed(start.live) && LegalFrom(location, start, es)
    ensures WellNamed(RunFrom(location, start, es).live)
    ensures n in RunFrom(location, start, es).ix.marks <==> n in start.ix.marks && DeleteNode(n) !in es
  {
    if es != [] {
      var k := |es| - 1;
      assert es == es[..k] + [es[k]];
      MarksStay(location, start, es[..k], n);
    }
  }

  // ---------- Nodes that share addresses ----------

  /** Every address of a live node leads to a live node that has it. */
  ghost predicate Covers(owner: map<string, string>, live: Live) {
    forall n, a :: n in live && a in live[n].ips ==> a in owner && owner[a] in live && a in live[owner[a]].ips
  }

  /** Adding a node keeps every address covered, shared or not. */
  lemma AddKeepsCover(ix: Index, location: string, live: Live, n: Node)
    requires n.name !in live && Covers(ix.owner, live)
    ensures Covers(Put(ix, location, n).owner, live[n.name := n])
  {
    var owner, now := Put(ix, location, n).owner, live[n.name := n];
    forall m, a | m in now && a in now[m].ips
      ensures a in owner && owner[a] in now && a in now[owner[a]].ips
    {
      if a !in n.ips {
        assert m in live && live[m] == now[m];
      }
    }
  }

  /** Deleting a node keeps the others' addresses covered if and only if none of them shares one with it. */
  lemma SharedAddressIsLost(ix: Index, location: string, live: Live, name: string)
    requires WellNamed(live) && name in live && Covers(ix.owner, live)
    ensures Covers(Drop(ix, location, live[name], true).owner, live - {name}) <==>
            forall n, a :: n in live && n != name && a in live[n].ips ==> a !in live[name].ips
  {
    var owner, rest := Drop(ix, location, live[name], true).owner, live - {name};
    if Covers(owner, rest) {
      forall n, a | n in live && n != name && a in live[n].ips
        ensures a !in live[name].ips
      {
        assert n in rest && rest[n] == live[n];
        assert a in owner;
      }
    } else {
      var n, a :| n in rest && a in rest[n].ips && !(a in owner && owner[a] in rest && a in rest[owner[a]].ips);
      assert n in live && live[n] == rest[n];
      assert a in ix.owner && ix.owner[a] in live && a in live[ix.owner[a]].ips;
    }
  }

  /** Updating a node keeps the others' addresses covered if and only if it gives up none that they share. */
  lemma GivenUpAddressIsLost(ix: Index, location: string, live: Live, n: Node)
    requires WellNamed(live) && n.name in live && Covers(ix.owner, live)
    ensures Covers(Put(Drop(ix, location, live[n.name], false), location, n).owner, live[n.name := n]) <==>
            forall m, a :: m in live && m != n.name && a in live[m].ips ==> a !in live[n.name].ips || a in n.ips
  {
    var owner, now := Put(Drop(ix, location, live[n.name], false), location, n).owner, live[n.name := n];
    assert forall a :: a in owner <==> a in n.ips || (a in ix.owner && a !in live[n.name].ips);
    if Covers(owner, now) {
      forall m, a | m in live && m != n.name && a in live[m].ips
        ensures a !in live[n.name].ips || a in n.ips
      {
        assert m in now && now[m] == live[m];
        assert a in owner;
      }
    } else {
      var m, a :| m in now && a in now[m].ips && !(a in owner && owner[a] in now && a in now[owner[a]].ips);
      assert a !in n.ips && m in live && live[m] == now[m];
      assert a in ix.owner && ix.owner[a] in live && a in live[ix.owner[a]].ips;
    }
  }
}
