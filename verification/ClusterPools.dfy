/**
 The parts together: the node indexes after any run of node events, the placement after any run of
 arrangements, and the backend pools aligned with both.
 */
module ClusterPools {
  import opened Text
  import opened BackendPool
  import opened HostsInPool
  import opened Placement
  import opened PlacementSafety
  import opened PlacementTargets
  import NodeIndex
  import PlacementRuns

  /** The listed hosts are live nodes with one of their addresses, or none of the pool's IP family. */
  predicate FromLive(nodes: seq<Host>, live: NodeIndex.Live) {
    forall h :: h in nodes ==> h.name in live && (h.ip == "" || h.ip in live[h.name].ips)
  }

  /** Addresses are spelled in lower case. */
  predicate LowerAddresses(s: seq<Address>, nodes: seq<Host>) {
    (forall a :: a in s ==> Lower(a.ip) == a.ip) && forall h :: h in nodes ==> Lower(h.ip) == h.ip
  }

  /** The index by address, as kept over node events, is the one that aligning a pool relies on. */
  lemma IndexServesPools(
      s: seq<Address>, nodes: seq<Host>, live: NodeIndex.Live, ix: NodeIndex.Index, active: Option<set<string>>)
    requires NodeIndex.OwnersRight(ix.owner, live) && FromLive(nodes, live) && LowerAddresses(s, nodes)
    ensures Indexed(s, Pass(nodes, active, ix.owner))
    ensures OneNodePerIP(nodes)
  {
    forall h | h in nodes && h.ip != ""
      ensures h.ip in ix.owner && ix.owner[h.ip] == h.name
    {
      assert h.name in live && h.ip in live[h.name].ips;
    }
    forall g, h | g in nodes && h in nodes && g.ip != "" && Lower(g.ip) == Lower(h.ip)
      ensures g.name == h.name
    {
      assert g.ip == h.ip;
    }
  }

  /**
   After any run of node events and any run of arrangements, load balancer deletions and restarts, aligning
   the cluster pools of two load balancers that belong to different configurations gives pools without a
   common node IP, and each pool holds exactly the IPs of the nodes active on its configuration.
   */
  lemma NodeIPInOnePool(location: string, nodeEvents: seq<NodeIndex.Event>, cfgs: seq<SlbConfig>, start: Place,
      events: seq<PlacementRuns.Event>, nodes: seq<Host>, svc: Service, svc': Service, lb: string, lb': string,
      i: nat, j: nat, s: seq<Address>, s': seq<Address>)
    requires NodeIndex.LegalRun(location, nodeEvents)
    requires |start.active| == |cfgs| && AtMostOne(start.active) && PlacementRuns.LegalRun(cfgs, start, events)
    requires FromLive(nodes, NodeIndex.Run(location, nodeEvents).live)
    requires AllHaveProperties(s) && AllHaveProperties(s') && LowerAddresses(s, nodes) && LowerAddresses(s', nodes)
    requires !svc.local && !svc'.local && FirstCalled(cfgs, lb, i) && FirstCalled(cfgs, lb', j) && i != j
    requires var active := PlacementRuns.Run(cfgs, start, events).active; active[i].Some? && active[j].Some?
    ensures var active := PlacementRuns.Run(cfgs, start, events).active;
            var names := NodeIndex.Run(location, nodeEvents).ix.owner;
            var mine := Ensured(s, Pass(nodes, HostsInPool.Selected(true, svc, cfgs, active, lb), names), true);
            var other := Ensured(s', Pass(nodes, HostsInPool.Selected(true, svc', cfgs, active, lb'), names), true);
            && IPs(mine) !! IPs(other)
            && HoldsExactly(mine, nodes, active[i].value)
            && HoldsExactly(other, nodes, active[j].value)
  {
    NodeIndex.IndexesAgree(location, nodeEvents);
    PlacementRuns.OnePlacePerNode(cfgs, start, events);
    var index := NodeIndex.Run(location, nodeEvents);
    var active, names := PlacementRuns.Run(cfgs, start, events).active, index.ix.owner;
    IndexServesPools(s, nodes, index.live, index.ix, active[i]);
    IndexServesPools(s', nodes, index.live, index.ix, active[j]);
    ActiveOfFirst(cfgs, active, lb, 0);
    ActiveOfFirst(cfgs, active, lb', 0);
    EnsuredHolds(s, nodes, active[i].value, names);
    EnsuredHolds(s', nodes, active[j].value, names);
    if i < j {
      NoIPInTwoPools(s, s', nodes, active, i, j, names);
    } else {
      NoIPInTwoPools(s', s, nodes, active, j, i, names);
    }
  }
}
