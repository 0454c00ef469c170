/** The node indexes as fields that updateNodeCaches changes step by step (pkg/provider/azure.go). */
module NodeCaches {
  import opened Lists
  import opened Text
  import opened NodeIndex

  lemma AddressTaken(ips: seq<string>, k: nat)
    requires k < |ips|
    ensures FoldSet(ips[..k + 1]) == FoldSet(ips[..k]) + {Lower(ips[k])}
    ensures Elements(ips[..k + 1]) == Elements(ips[..k]) + {ips[k]}
  {
  }

  /** The indexes by node and by address when the first k addresses are taken out, or put in. */
  function ShrunkIPs(ips: map<string, set<string>>, n: Node, k: nat): map<string, set<string>>
    requires k <= |n.ips|
  {
    if n.name in ips then ips[n.name := ips[n.name] - FoldSet(n.ips[..k])] else ips
  }

  function GrownIPs(ips: map<string, set<string>>, n: Node, k: nat): map<string, set<string>>
    requires k <= |n.ips|
  {
    if k == 0 then ips else ips[n.name := At(ips, n.name) + FoldSet(n.ips[..k])]
  }

  lemma ShrinkStart(ips: map<string, set<string>>, n: Node)
    ensures ShrunkIPs(ips, n, 0) == ips
  {
    assert n.name in ips ==> ips[n.name] - FoldSet([]) == ips[n.name];
  }

  lemma ShrinkStep(ips: map<string, set<string>>, n: Node, k: nat)
    requires k < |n.ips|
    ensures var now := ShrunkIPs(ips, n, k);
            ShrunkIPs(ips, n, k + 1) == if n.name in now then now[n.name := now[n.name] - {Lower(n.ips[k])}] else now
  {
    AddressTaken(n.ips, k);
    if n.name in ips {
      assert ips[n.name] - FoldSet(n.ips[..k]) - {Lower(n.ips[k])} == ips[n.name] - FoldSet(n.ips[..k + 1]);
    }
  }

  lemma GrowStep(ips: map<string, set<string>>, n: Node, k: nat)
    requires k < |n.ips|
    ensures var now := GrownIPs(ips, n, k);
            GrownIPs(ips, n, k + 1) == now[n.name := At(now, n.name) + {Lower(n.ips[k])}]
  {
    AddressTaken(n.ips, k);
    assert At(ips, n.name) + FoldSet(n.ips[..k]) + {Lower(n.ips[k])} == At(ips, n.name) + FoldSet(n.ips[..k + 1]);
    if k == 0 {
      assert FoldSet(n.ips[..1]) == {Lower(n.ips[0])};
    }
  }

  lemma DropWhole(ips: map<string, set<string>>, n: Node)
    ensures DropIPs(ips, n, false) - {n.name} == DropIPs(ips, n, true)
  {
  }

  lemma OwnerStep(owner: map<string, string>, n: Node, k: nat)
    requires k < |n.ips|
    ensures owner - Elements(n.ips[..k]) - {n.ips[k]} == owner - Elements(n.ips[..k + 1])
    ensures (owner + AllTo(Elements(n.ips[..k]), n.name))[n.ips[k] := n.name] == owner + AllTo(Elements(n.ips[..k + 1]), n.name)
  {
    AddressTaken(n.ips, k);
  }

  class Caches {
    const location: string
    var nodeNames: set<string>
    var nodeZones: map<string, set<string>>
    var nodeResourceGroups: map<string, string>
    var unmanagedNodes: set<string>
    var nodePrivateIPs: map<string, set<string>>
    var nodePrivateIPToNodeNameMap: map<string, string>
    var excludeLoadBalancerNodes: set<string>
    var marks: set<string>

    ghost function View(): Index
      reads this
    {
      Index(nodeNames, nodeZones, nodeResourceGroups, unmanagedNodes, nodePrivateIPs, nodePrivateIPToNodeNameMap,
            excludeLoadBalancerNodes, marks)
    }

    constructor (location: string)
      ensures this.location == location && View() == EMPTY.ix
    {
      this.location := location;
      nodeNames, nodeZones, nodeResourceGroups, unmanagedNodes := {}, map[], map[], {};
      nodePrivateIPs, nodePrivateIPToNodeNameMap := map[], map[];
      excludeLoadBalancerNodes, marks := {}, {};
    }

    method DropAddresses(n: Node)
      modifies this`nodePrivateIPs, this`nodePrivateIPToNodeNameMap
      ensures nodePrivateIPs == DropIPs(old(nodePrivateIPs), n, false)
      ensures nodePrivateIPToNodeNameMap == old(nodePrivateIPToNodeNameMap) - Elements(n.ips)
    {
      ShrinkStart(nodePrivateIPs, n);
      for k := 0 to |n.ips|
        invariant nodePrivateIPs == ShrunkIPs(old(nodePrivateIPs), n, k)
        invariant nodePrivateIPToNodeNameMap == old(nodePrivateIPToNodeNameMap) - Elements(n.ips[..k])
      {
        ShrinkStep(old(nodePrivateIPs), n, k);
        OwnerStep(old(nodePrivateIPToNodeNameMap), n, k);
        if n.name in nodePrivateIPs {
          nodePrivateIPs := nodePrivateIPs[n.name := nodePrivateIPs[n.name] - {Lower(n.ips[k])}];
        }
        nodePrivateIPToNodeNameMap := nodePrivateIPToNodeNameMap - {n.ips[k]};
      }
      assert n.ips[..|n.ips|] == n.ips;
    }

    method PutAddresses(n: Node)
      modifies this`nodePrivateIPs, this`nodePrivateIPToNodeNameMap
      ensures nodePrivateIPs == PutIPs(old(nodePrivateIPs), n)
      ensures nodePrivateIPToNodeNameMap == old(nodePrivateIPToNodeNameMap) + AllTo(Elements(n.ips), n.name)
    {
      for k := 0 to |n.ips|
        invariant nodePrivateIPs == GrownIPs(old(nodePrivateIPs), n, k)
        invariant nodePrivateIPToNodeNameMap == old(nodePrivateIPToNodeNameMap) + AllTo(Elements(n.ips[..k]), n.name)
      {
        GrowStep(old(nodePrivateIPs), n, k);
        OwnerStep(old(nodePrivateIPToNodeNameMap), n, k);
        nodePrivateIPs := nodePrivateIPs[n.name := At(nodePrivateIPs, n.name) + {Lower(n.ips[k])}];
        nodePrivateIPToNodeNameMap := nodePrivateIPToNodeNameMap[n.ips[k] := n.name];
      }
      assert n.ips[..|n.ips|] == n.ips;
    }

    method RemoveLabels(n: Node)
      modifies this`nodeNames, this`nodeZones, this`nodeResourceGroups, this`unmanagedNodes
      ensures nodeNames == old(nodeNames) - {n.name} && nodeZones == DropZone(old(nodeZones), location, n)
      ensures nodeResourceGroups == if n.group.Some? then old(nodeResourceGroups) - {n.name} else old(nodeResourceGroups)
      ensures unmanagedNodes == if n.Unmanaged() then old(unmanagedNodes) - {n.name} else old(unmanagedNodes)
    {
      nodeNames := nodeNames - {n.name};
      if n.zone.Some? && IsAvailabilityZone(location, n.zone.value) {
        nodeZones := nodeZones[n.zone.value := At(nodeZones, n.zone.value) - {n.name}];
      }
      if n.group.Some? {
        nodeResourceGroups := nodeResourceGroups - {n.name};
      }
      if n.Unmanaged() {
        unmanagedNodes := unmanagedNodes - {n.name};
      }
    }

    method RemoveNode(n: Node, deleted: bool)
      modifies this
      ensures View() == Drop(old(View()), location, n, deleted)
    {
      RemoveLabels(n);
      DropAddresses(n);
      if deleted {
        excludeLoadBalancerNodes := excludeLoadBalancerNodes + {n.name};
        marks := marks - {n.name};
        DropWhole(old(nodePrivateIPs), n);
        nodePrivateIPs := nodePrivateIPs - {n.name};
      }
    }

    method InsertLabels(n: Node)
      modifies this`nodeNames, this`nodeZones, this`nodeResourceGroups, this`unmanagedNodes
      ensures nodeNames == old(nodeNames) + {n.name} && nodeZones == PutZone(old(nodeZones), location, n)
      ensures nodeResourceGroups == PutGroup(old(nodeResourceGroups), n)
      ensures unmanagedNodes == if n.Unmanaged() then old(unmanagedNodes) + {n.name} else old(unmanagedNodes)
    {
      nodeNames := nodeNames + {n.name};
      if n.zone.Some? && IsAvailabilityZone(location, n.zone.value) {
        nodeZones := nodeZones[n.zone.value := At(nodeZones, n.zone.value) + {n.name}];
      }
      if n.group.Some? && |n.group.value| > 0 {
        nodeResourceGroups := nodeResourceGroups[n.name := Lower(n.group.value)];
      }
      if n.Unmanaged() {
        unmanagedNodes := unmanagedNodes + {n.name};
      }
    }

    method InsertNode(n: Node)
      modifies this
      ensures View() == Put(old(View()), location, n)
    {
      InsertLabels(n);
      if n.Unmanaged() {
        excludeLoadBalancerNodes := excludeLoadBalancerNodes + {n.name};
      } else if n.excludeLabel {
        excludeLoadBalancerNodes := excludeLoadBalancerNodes + {n.name};
      } else {
        excludeLoadBalancerNodes := excludeLoadBalancerNodes - {n.name};
      }
      PutAddresses(n);
    }

    /** updateNodeCaches: for the informer's three kinds of events. */
    method UpdateNodeCaches(prev: Option<Node>, next: Option<Node>)
      modifies this
      ensures var dropped := if prev.Some? then Drop(old(View()), location, prev.value, next.None?) else old(View());
              View() == if next.Some? then Put(dropped, location, next.value) else dropped
    {
      if prev.Some? {
        RemoveNode(prev.value, next.None?);
      }
      if next.Some? {
        InsertNode(next.value);
      }
    }

    /** One event of the informer keeps every index equal to its recomputation from the live nodes. */
    method HandleEvent(e: Event, ghost live: Live, prev: Option<Node>)
      requires WellNamed(live) && OwnIPs(live) && Legal(live, e) && Right(View(), location, live)
      requires prev == match e
                       case AddNode(_) => None
                       case UpdateNode(n) => Some(live[n.name])
                       case DeleteNode(name) => Some(live[name])
      modifies this
      ensures View() == Step(old(View()), location, live, e) && Right(View(), location, NextLive(live, e))
    {
      StepRight(View(), location, live, e);
      UpdateNodeCaches(prev, if e.DeleteNode? then None else Some(e.node));
    }

    /** GetActiveZones: an error without an informer, or before it is synchronised. */
    method GetActiveZones(synced: Option<bool>) returns (zones: set<string>, err: bool)
      ensures err <==> synced != Some(true)
      ensures !err ==> zones == set z | z in nodeZones && nodeZones[z] != {} :: Lower(z)
    {
      zones, err := {}, false;
      if synced.None? {
        return zones, true;
      }
      if !synced.value {
        return zones, true;
      }
      var todo := nodeZones.Keys;
      while todo != {}
        invariant todo <= nodeZones.Keys
        invariant forall y :: y in zones <==> exists z :: z in nodeZones && z !in todo && nodeZones[z] != {} && Lower(z) == y
        decreases |todo|
      {
        var z :| z in todo;
        todo := todo - {z};
        if |nodeZones[z]| > 0 {
          zones := zones + {Lower(z)};
        }
      }
    }
  }

  /** The active zones are the availability zones of the live nodes. */
  lemma ActiveZonesAreLive(ix: Index, location: string, live: Live, z: string)
    requires Right(ix, location, live)
    ensures (z in ix.zones && ix.zones[z] != {}) <==>
            exists n :: n in live && LiesIn(live[n], location, z)
  {
    assert forall n :: n in At(ix.zones, z) <==> n in live && LiesIn(live[n], location, z);
    if z in ix.zones && ix.zones[z] != {} {
      var n :| n in ix.zones[z];
      assert n in At(ix.zones, z);
    }
  }
}
