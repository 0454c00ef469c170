/**
 EnsureHostsInPool (pkg/provider/azure_loadbalancer_backendpool.go): the IPs of one backend pool follow the
 nodes that are active on its load balancer.  Every address of the pool has its properties: the Go code
 dereferences them.
 */
module HostsInPool {
  import opened Text
  import opened Lists
  import opened BackendPool
  import opened Placement
  import opened PlacementSafety
  import opened PlacementTargets
  import opened PoolNames

  /** ip is the private address of the pool's IP family, "" when the node has none. */
  datatype Host = Host(name: string, controlPlane: bool, ip: string)

  /** Which nodes count: all of them when active is None, Go's nil. */
  datatype Pass = Pass(nodes: seq<Host>, active: Option<set<string>>, names: map<string, string>) {
    predicate Counts(name: string) {
      active.None? || name in active.value
    }

    /** The address is dropped: no listed node has it, or its node does not count. */
    predicate Drops(ip: string) {
      Lower(ip) !in NodeIPs(nodes) || (active.Some? && ip in names && names[ip] !in active.value)
    }
  }

  function NodeIPs(nodes: seq<Host>): set<string> {
    set h | h in nodes && !h.controlPlane && h.ip != "" :: Lower(h.ip)
  }

  /** The IPs of the non-control-plane nodes that count. */
  function Wanted(p: Pass): set<string> {
    set h | h in p.nodes && !h.controlPlane && h.ip != "" && p.Counts(h.name) :: Lower(h.ip)
  }

  function ToAdd(present: set<string>, p: Pass, nodes: seq<Host>): seq<string> {
    if nodes == [] then []
    else
      var n := |nodes| - 1;
      ToAdd(present, p, nodes[..n]) +
      if !nodes[n].controlPlane && p.Counts(nodes[n].name) && Lower(nodes[n].ip) !in present then [nodes[n].ip] else []
  }

  function ToDelete(s: seq<Address>, p: Pass): seq<string> {
    if s == [] then []
    else
      var n := |s| - 1;
      ToDelete(s[..n], p) + if p.Drops(s[n].ip) then [s[n].ip] else []
  }

  function Extended(s: seq<Address>, p: Pass): seq<Address> {
    s + Missing(s, ToAdd(IPs(s), p, p.nodes), p.names)
  }

  /** The address list that the call leaves. */
  function Ensured(s: seq<Address>, p: Pass, mayBeEmpty: bool): seq<Address> {
    var t := Extended(s, p);
    var kept := Kept(t, Removal(ToDelete(t, p), false, true));
    if kept == [] && !mayBeEmpty then t else kept
  }

  predicate AllHaveProperties(s: seq<Address>) {
    forall a :: a in s ==> a.hasProperties
  }

  // ---------- What the lists hold ----------

  lemma LowerEmpty()
    ensures forall x: string :: Lower(x) == "" <==> x == ""
  {
  }

  predicate Adds(p: Pass, h: Host, present: set<string>) {
    !h.controlPlane && p.Counts(h.name) && Lower(h.ip) !in present
  }

  lemma {:induction false} AddedIPs(present: set<string>, p: Pass, nodes: seq<Host>)
    ensures forall h :: h in nodes && Adds(p, h, present) ==> h.ip in ToAdd(present, p, nodes)
    ensures forall ip :: ip in ToAdd(present, p, nodes) ==> exists h :: h in nodes && h.ip == ip && Adds(p, h, present)
  {
    if nodes != [] {
      var n := |nodes| - 1;
      AddedIPs(present, p, nodes[..n]);
      assert nodes == nodes[..n] + [nodes[n]];
    }
  }

  lemma {:induction false} DeletedIPs(s: seq<Address>, p: Pass)
    ensures forall a :: a in s && p.Drops(a.ip) ==> a.ip in ToDelete(s, p)
    ensures forall ip :: ip in ToDelete(s, p) ==> p.Drops(ip) && exists a :: a in s && a.ip == ip
  {
    if s != [] {
      var n := |s| - 1;
      DeletedIPs(s[..n], p);
      assert s == s[..n] + [s[n]];
    }
  }

  /** When some nodes do not count, the listed nodes' addresses, as spelled, are in the index under their nodes. */
  predicate Indexed(s: seq<Address>, p: Pass) {
    p.active.Some? ==>
    && (forall h, a :: h in p.nodes && !h.controlPlane && a in s && Lower(a.ip) == Lower(h.ip) && h.ip != "" ==>
          a.ip in p.names && p.names[a.ip] == h.name)
    && (forall h, g :: h in p.nodes && g in p.nodes && !h.controlPlane && !g.controlPlane && h.ip != "" &&
                       Lower(h.ip) == Lower(g.ip) ==>
          g.ip in p.names && p.names[g.ip] == h.name)
  }

  lemma ExtendedMembers(s: seq<Address>, p: Pass)
    requires AllHaveProperties(s)
    ensures AllHaveProperties(Extended(s, p))
    ensures IPs(Extended(s, p)) == IPs(s) + Wanted(p)
    ensures forall a :: a in Extended(s, p) ==> a in s || exists h :: h in p.nodes && !h.controlPlane && h.ip == a.ip
  {
    var ips := ToAdd(IPs(s), p, p.nodes);
    MissingMembers(s, ips, p.names);
    IPsAfterAdd(s, ips, p.names);
    AddedIPs(IPs(s), p, p.nodes);
    LowerEmpty();
    forall y | y in Wanted(p) && y !in IPs(s)
      ensures y in FoldSet(ips)
    {
      var h :| h in p.nodes && !h.controlPlane && h.ip != "" && p.Counts(h.name) && Lower(h.ip) == y;
      assert Adds(p, h, IPs(s));
    }
  }

  /** Which of the addresses are dropped, with the index in order. */
  lemma DropsExactly(s: seq<Address>, p: Pass, a: Address)
    requires Indexed(s, p) && AllHaveProperties(s) && a in Extended(s, p) && a.ip != ""
    ensures p.Drops(a.ip) <==> Lower(a.ip) !in Wanted(p)
  {
    ExtendedMembers(s, p);
    LowerEmpty();
    if p.active.Some? && Lower(a.ip) in NodeIPs(p.nodes) {
      var h :| h in p.nodes && !h.controlPlane && h.ip != "" && Lower(h.ip) == Lower(a.ip);
      assert a.ip in p.names && p.names[a.ip] == h.name;
    }
  }

  /** After the call the pool holds exactly the IPs of the nodes that count. */
  lemma KeptIsWanted(s: seq<Address>, p: Pass)
    requires Indexed(s, p) && AllHaveProperties(s)
    ensures var t := Extended(s, p); IPs(Kept(t, Removal(ToDelete(t, p), false, true))) == Wanted(p)
  {
    var t := Extended(s, p);
    var r := Removal(ToDelete(t, p), false, true);
    ExtendedMembers(s, p);
    DeletedIPs(t, p);
    IPsAfterRemove(t, r);
    forall y | y in IPs(t)
      ensures y in FoldSet(r.ips) <==> y !in Wanted(p)
    {
      LowerEmpty();
      var b :| b in t && b.ip != "" && Lower(b.ip) == y;
      DropsExactly(s, p, b);
      if y in FoldSet(r.ips) {
        var a :| a in t && p.Drops(a.ip) && Lower(a.ip) == y;
        DropsExactly(s, p, a);
      }
    }
  }

  // ---------- What the call guarantees ----------

  /** The IPs of the listed nodes with these names. */
  function ActiveIPs(nodes: seq<Host>, active: set<string>): set<string> {
    Wanted(Pass(nodes, Some(active), map[]))
  }

  /**
   With multiple load balancers the pool ends with exactly the IPs of the nodes active on its load balancer,
   if and only if the set of active nodes exists or there is nothing to add: a nil set counts as every node.
   */
  lemma ExactWithMultiple(s: seq<Address>, nodes: seq<Host>, active: Option<set<string>>, names: map<string, string>)
    requires AllHaveProperties(s) && Indexed(s, Pass(nodes, active, names))
    ensures IPs(Ensured(s, Pass(nodes, active, names), true)) == ActiveIPs(nodes, Members(active)) <==>
            active.Some? || NodeIPs(nodes) == {}
  {
    var p := Pass(nodes, active, names);
    KeptIsWanted(s, p);
    if active.Some? {
      assert Wanted(p) == ActiveIPs(nodes, active.value);
    } else {
      assert Wanted(p) == NodeIPs(nodes);
    }
  }

  /** Without multiple load balancers a pool is not emptied, so there has to be a node IP or no IP before. */
  lemma ExactWithOne(s: seq<Address>, nodes: seq<Host>, names: map<string, string>)
    requires AllHaveProperties(s)
    ensures IPs(Ensured(s, Pass(nodes, None, names), false)) == NodeIPs(nodes) <==> NodeIPs(nodes) != {} || IPs(s) == {}
  {
    var p := Pass(nodes, None, names);
    var t := Extended(s, p);
    var r := Removal(ToDelete(t, p), false, true);
    var kept := Kept(t, r);
    KeptIsWanted(s, p);
    assert Wanted(p) == NodeIPs(nodes);
    ExtendedMembers(s, p);
    if NodeIPs(nodes) == {} {
      NothingKept(t, r);
    }
  }

  lemma NothingKept(t: seq<Address>, r: Removal)
    requires AllHaveProperties(t) && r.isNodeIP && IPs(Kept(t, r)) == {}
    ensures Kept(t, r) == []
  {
    var kept := Kept(t, r);
    FilterMembers(t, r.Leaves);
    assert forall a :: a in kept ==> Lower(a.ip) in IPs(kept);
    assert forall a :: a in t ==> !r.Leaves(a);
    FilterNone(t, r.Leaves);
  }

  /** When the call decides not to write, the list it would have written is the one already there. */
  lemma SkippedWriteIsRight(s: seq<Address>, p: Pass, mayBeEmpty: bool)
    requires AllHaveProperties(s) && Extended(s, p) == s && ToDelete(s, p) == []
    ensures Ensured(s, p, mayBeEmpty) == s
  {
    var r := Removal([], false, true);
    DeletedIPs(s, p);
    LowerEmpty();
    forall a | a in s
      ensures r.Leaves(a)
    {
      assert !p.Drops(a.ip);
    }
    FilterMembers(s, r.Leaves);
  }

  /**
   The cluster pools of two configurations have no node IP in common, given the placement invariant, exactly
   when neither set of active nodes is nil, unless the other pool is empty anyway.
   */
  lemma NoIPInTwoPools(
      s: seq<Address>, s': seq<Address>, nodes: seq<Host>, active: Active, i: nat, j: nat, names: map<string, string>)
    requires i < j < |active| && AtMostOne(active)
    requires AllHaveProperties(s) && Indexed(s, Pass(nodes, active[i], names))
    requires AllHaveProperties(s') && Indexed(s', Pass(nodes, active[j], names))
    requires OneNodePerIP(nodes)
    ensures var mine, other := Pass(nodes, active[i], names), Pass(nodes, active[j], names);
            IPs(Ensured(s, mine, true)) !! IPs(Ensured(s', other, true)) <==>
            (active[i].Some? || Wanted(other) == {}) && (active[j].Some? || Wanted(mine) == {})
  {
    var mine, other := Pass(nodes, active[i], names), Pass(nodes, active[j], names);
    KeptIsWanted(s, mine);
    KeptIsWanted(s', other);
    assert active[i].None? ==> Wanted(other) <= Wanted(mine);
    assert active[j].None? ==> Wanted(mine) <= Wanted(other);
    if active[i].Some? && active[j].Some? {
      assert Members(active[i]) !! Members(active[j]);
      DisjointNames(mine, other);
    }
  }

  lemma DisjointNames(p: Pass, q: Pass)
    requires p.nodes == q.nodes && OneNodePerIP(p.nodes)
    requires p.active.Some? && q.active.Some? && p.active.value !! q.active.value
    ensures Wanted(p) !! Wanted(q)
  {
  }

  /** No two listed nodes share an IP. */
  predicate OneNodePerIP(nodes: seq<Host>) {
    forall g, h :: g in nodes && h in nodes && g.ip != "" && Lower(g.ip) == Lower(h.ip) ==> g.name == h.name
  }

  /** A nil set of active nodes puts a node of another load balancer into the pool as well. */
  lemma NilActiveNodesShareANode(name: string, ip: string)
    requires ip != ""
    ensures var nodes, names := [Host(name, false, ip)], map[ip := name];
            var active: Active := [Some({name}), None];
            && AtMostOne(active)
            && Lower(ip) in IPs(Ensured([], Pass(nodes, active[0], names), true))
            && Lower(ip) in IPs(Ensured([], Pass(nodes, active[1], names), true))
  {
    var nodes, names := [Host(name, false, ip)], map[ip := name];
    KeptIsWanted([], Pass(nodes, Some({name}), names));
    KeptIsWanted([], Pass(nodes, None, names));
    assert nodes[0] in nodes;
  }

  // ---------- The pool's contents ----------

  predicate Holds(s: seq<Address>, ip: string) {
    exists a :: a in s && a.ip != "" && Lower(a.ip) == ip
  }

  /** A listed node with one of the names, not of the control plane, has the address. */
  predicate HasIP(nodes: seq<Host>, counting: set<string>, ip: string) {
    exists h :: h in nodes && !h.controlPlane && h.ip != "" && h.name in counting && Lower(h.ip) == ip
  }

  ghost predicate HoldsExactly(s: seq<Address>, nodes: seq<Host>, counting: set<string>) {
    forall ip :: Holds(s, ip) <==> HasIP(nodes, counting, ip)
  }

  lemma EnsuredHolds(s: seq<Address>, nodes: seq<Host>, counting: set<string>, names: map<string, string>)
    requires AllHaveProperties(s) && Indexed(s, Pass(nodes, Some(counting), names))
    ensures HoldsExactly(Ensured(s, Pass(nodes, Some(counting), names), true), nodes, counting)
  {
    var p := Pass(nodes, Some(counting), names);
    var t := Extended(s, p);
    KeptIsWanted(s, p);
    ExtendedMembers(s, p);
    var r := Removal(ToDelete(t, p), false, true);
    FilterMembers(t, r.Leaves);
    var kept := Kept(t, r);
    assert forall ip :: Holds(kept, ip) <==> ip in IPs(kept);
    assert forall ip :: HasIP(nodes, counting, ip) <==> ip in Wanted(p);
  }

  // ---------- The call ----------

  /** endpoints is None when no EndpointSlice of the service is known. */
  datatype Service = Service(name: string, local: bool, recordedLB: Option<string>, endpoints: Option<set<string>>)

  /** getActiveNodesByLoadBalancerName. */
  function ActiveOn(cfgs: seq<SlbConfig>, active: Active, lb: string, from: nat): Option<set<string>>
    requires |active| == |cfgs|
    decreases |cfgs| - from
  {
    if from >= |cfgs| then Some({})
    else if Names(lb, cfgs[from]) then active[from]
    else ActiveOn(cfgs, active, lb, from + 1)
  }

  /** It is the set of the first configuration that the load balancer belongs to; a stray one has no nodes. */
  lemma {:induction false} ActiveOfFirst(cfgs: seq<SlbConfig>, active: Active, lb: string, from: nat)
    requires |active| == |cfgs| && forall k :: 0 <= k < from && k < |cfgs| ==> !Called(lb, cfgs[k].name)
    ensures forall i: nat :: FirstCalled(cfgs, lb, i) ==> ActiveOn(cfgs, active, lb, from) == active[i]
    ensures (forall k :: 0 <= k < |cfgs| ==> !Called(lb, cfgs[k].name)) ==> ActiveOn(cfgs, active, lb, from) == Some({})
    decreases |cfgs| - from
  {
    if from < |cfgs| {
      NamesExactly(lb, cfgs[from]);
      if !Called(lb, cfgs[from].name) {
        ActiveOfFirst(cfgs, active, lb, from + 1);
      }
    }
  }

  /** isNICPool. */
  predicate IsNICPool(s: seq<Address>) {
    exists a :: a in s && a.ip == ""
  }

  /** How the service and load balancer select the nodes that count. */
  function Selected(multi: bool, svc: Service, cfgs: seq<SlbConfig>, active: Active, lb: string): Option<set<string>>
    requires |active| == |cfgs|
  {
    if !multi then None else if svc.local then svc.endpoints else ActiveOn(cfgs, active, lb, 0)
  }

  method ActiveNodes(cfgs: seq<SlbConfig>, active: Active, lb: string) returns (r: Option<set<string>>)
    requires |active| == |cfgs|
    ensures r == ActiveOn(cfgs, active, lb, 0)
    ensures forall i: nat :: FirstCalled(cfgs, lb, i) ==> r == active[i]
    ensures (forall k :: 0 <= k < |cfgs| ==> !Called(lb, cfgs[k].name)) ==> r == Some({})
  {
    ActiveOfFirst(cfgs, active, lb, 0);
    for i := 0 to |cfgs|
      invariant ActiveOn(cfgs, active, lb, 0) == ActiveOn(cfgs, active, lb, i)
    {
      if Names(lb, cfgs[i]) {
        return active[i];
      }
    }
    return Some({});
  }

  /** The nodes' IPs, and those to add. */
  method ScanNodes(present: set<string>, p: Pass) returns (ips: seq<string>, all: set<string>)
    ensures ips == ToAdd(present, p, p.nodes) && all == NodeIPs(p.nodes)
  {
    var nodes := p.nodes;
    ips, all := [], {};
    for k := 0 to |nodes|
      invariant ips == ToAdd(present, p, nodes[..k]) && all == NodeIPs(nodes[..k])
    {
      assert nodes[..k + 1] == nodes[..k] + [nodes[k]] && nodes[..k + 1][..k] == nodes[..k];
      if nodes[k].controlPlane {
        continue;
      }
      if nodes[k].ip != "" {
        all := all + {Lower(nodes[k].ip)};
      }
      if p.Counts(nodes[k].name) && Lower(nodes[k].ip) !in present {
        ips := ips + [nodes[k].ip];
      }
    }
    assert nodes[..|nodes|] == nodes;
  }

  method ScanAddresses(s: seq<Address>, p: Pass, all: set<string>) returns (ips: seq<string>)
    requires all == NodeIPs(p.nodes)
    ensures ips == ToDelete(s, p)
  {
    ips := [];
    for k := 0 to |s|
      invariant ips == ToDelete(s[..k], p)
    {
      assert s[..k + 1][..k] == s[..k];
      if Lower(s[k].ip) !in all {
        ips := ips + [s[k].ip];
      } else if p.active.Some? {
        if s[k].ip in p.names && p.names[s[k].ip] !in p.active.value {
          ips := ips + [s[k].ip];
        }
      }
    }
    assert s[..|s|] == s;
  }

  method PresentIPs(s: seq<Address>) returns (present: set<string>)
    ensures present == IPs(s)
  {
    present := {};
    for k := 0 to |s|
      invariant present == IPs(s[..k])
    {
      assert s[..k + 1] == s[..k] + [s[k]];
      if s[k].hasProperties && s[k].ip != "" {
        present := present + {Lower(s[k].ip)};
      }
    }
    assert s[..|s|] == s;
  }

  /** The edits of EnsureHostsInPool; changed says whether the pool is written back. */
  method AlignPool(pool: BackendAddressPool, p: Pass, multi: bool, vnet: string) returns (changed: bool)
    requires pool.Valid() && pool.hasProperties && pool.addresses && AllHaveProperties(pool.View())
    modifies pool, pool.arr
    ensures pool.Valid() && pool.hasProperties && pool.addresses
    ensures pool.View() == Ensured(old(pool.View()), p, multi)
    ensures !changed ==> pool.View() == old(pool.View())
  {
    ghost var s := pool.View();
    var present := PresentIPs(pool.View());
    var add, all := ScanNodes(present, p);
    changed := pool.AddNodeIPAddresses(vnet, p.names, add);
    var delete := ScanAddresses(pool.View(), p, all);
    ghost var t := pool.View();
    assert t == Extended(s, p);
    if delete != [] {
      changed := true;
    }
    if !changed {
      assert s + [] == s;
      SkippedWriteIsRight(s, p, multi);
    }
    var _ := pool.RemoveNodeIPAddresses(delete, false, multi, true);
  }

  /** The call leaves the pool alone: not its pool, another load balancer's, or one with NIC members. */
  ghost predicate Skips(own: bool, hasProperties: bool, multi: bool, svc: Service, lb: string, before: seq<Address>) {
    || !own || !hasProperties
    || (multi && svc.local && svc.recordedLB.Some? && !EqualFold(svc.recordedLB.value, lb))
    || (multi && exists a :: a in before && a.ip == "")
  }

  /**
   With multiple load balancers the pool of a local service holds its endpoints' nodes, and any other pool
   those active on the first configuration that the load balancer belongs to.
   */
  ghost predicate HoldsItsNodes(after: seq<Address>, before: seq<Address>, svc: Service, lb: string,
      cfgs: seq<SlbConfig>, active: Active, nodes: seq<Host>, names: map<string, string>)
    requires |active| == |cfgs|
  {
    && (svc.local && svc.endpoints.Some? && Indexed(before, Pass(nodes, svc.endpoints, names)) ==>
          HoldsExactly(after, nodes, svc.endpoints.value))
    && (forall i: nat :: !svc.local && FirstCalled(cfgs, lb, i) && active[i].Some? &&
                         Indexed(before, Pass(nodes, active[i], names)) ==>
          HoldsExactly(after, nodes, active[i].value))
  }

  lemma SelectedHolds(s: seq<Address>, svc: Service, lb: string, cfgs: seq<SlbConfig>, active: Active,
      nodes: seq<Host>, names: map<string, string>)
    requires |active| == |cfgs| && AllHaveProperties(s)
    ensures var p := Pass(nodes, Selected(true, svc, cfgs, active, lb), names);
            HoldsItsNodes(Ensured(s, p, true), s, svc, lb, cfgs, active, nodes, names)
  {
    var selected := Selected(true, svc, cfgs, active, lb);
    ActiveOfFirst(cfgs, active, lb, 0);
    if selected.Some? && Indexed(s, Pass(nodes, selected, names)) {
      EnsuredHolds(s, nodes, selected.value, names);
    }
  }

  /**
   EnsureHostsInPool for the pool of that name; the nodes' addresses are those of the IP family that the name
   says.  sent is the list that is written back, if the pool is written; refused says that this fails.
   */
  method EnsureHostsInPool(
      pool: BackendAddressPool, poolName: string, cluster: string, multi: bool, svc: Service, lb: string,
      cfgs: seq<SlbConfig>, active: Active, nodes: seq<Host>, names: map<string, string>, vnet: string, refused: bool)
    returns (sent: Option<seq<Address>>, err: bool)
    requires pool.Valid() && |active| == |cfgs|
    requires pool.hasProperties && pool.addresses ==> AllHaveProperties(pool.View())
    modifies pool, pool.arr
    ensures pool.Valid() && (err <==> sent.Some? && refused)
    ensures var before := if old(pool.addresses) then old(pool.View()) else [];
            var own := EqualFold(poolName, PoolNameFor(svc.name, svc.local, multi, cluster, IsIPv6Pool(poolName)));
            if Skips(own, old(pool.hasProperties), multi, svc, lb, before) then
              sent == None && pool.hasProperties == old(pool.hasProperties) && pool.addresses == old(pool.addresses) &&
              pool.View() == old(pool.View())
            else
              && pool.View() == Ensured(before, Pass(nodes, Selected(multi, svc, cfgs, active, lb), names), multi)
              && (if sent.None? then pool.View() == before else sent == Some(pool.View()))
              && (multi ==> HoldsItsNodes(pool.View(), before, svc, lb, cfgs, active, nodes, names))
  {
    sent, err := None, false;
    var selected := None;
    if multi {
      if !svc.local {
        selected := ActiveNodes(cfgs, active, lb);
      } else if svc.recordedLB.Some? && !EqualFold(svc.recordedLB.value, lb) {
        return;
      } else {
        selected := svc.endpoints;
      }
      if pool.hasProperties && pool.addresses {
        var nic := ScanForNIC(pool.View());
        if nic {
          return;
        }
      }
    }
    var ownName := PoolNameFor(svc.name, svc.local, multi, cluster, IsIPv6Pool(poolName));
    if !EqualFold(poolName, ownName) || !pool.hasProperties {
      return;
    }
    if !pool.addresses {
      pool.addresses, pool.len := true, 0;
      pool.arr := new Address[0];
    }
    SelectedHolds(pool.View(), svc, lb, cfgs, active, nodes, names);
    var changed := AlignPool(pool, Pass(nodes, selected, names), multi, vnet);
    if changed {
      sent, err := Some(pool.View()), refused;
    }
  }

  method ScanForNIC(s: seq<Address>) returns (nic: bool)
    ensures nic == IsNICPool(s)
  {
    for k := 0 to |s|
      invariant !IsNICPool(s[..k])
    {
      if s[k].ip == "" {
        return true;
      }
    }
    return false;
  }
}
