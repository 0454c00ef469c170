/**
 Aligning the backend pools of a local service with its endpoints
 (pkg/provider/azure_local_services.go): removals and additions are queued for the batch updater.
 */
module LocalServices {
  import opened Text
  import opened Lists
  import opened BackendPool
  import opened PoolUpdater
  import opened PoolRuns
  import opened PoolHistory

  /** The IPs in previous and not in current, each once. */
  method CompareNodeIPs(previous: seq<string>, current: seq<string>) returns (gone: seq<string>)
    ensures Distinct(gone)
    ensures forall x :: x in gone <==> x in previous && x !in current
  {
    gone := [];
    for i := 0 to |previous|
      invariant Distinct(gone)
      invariant forall x :: x in gone <==> x in previous[..i] && x !in current
    {
      if previous[i] !in current && previous[i] !in gone {
        gone := gone + [previous[i]];
      }
    }
  }

  datatype PoolIPs = PoolIPs(pool: string, ips: seq<string>)

  ghost predicate Gone(gone: seq<string>, previous: seq<string>, current: seq<string>) {
    forall x :: x in gone <==> x in previous && x !in current
  }

  /** The test that ends the reconciliation: nothing to delete, and lists of the same length. */
  predicate Skips(p: PoolIPs, expected: seq<string>) {
    (forall x :: x in p.ips ==> x in expected) && |p.ips| == |expected|
  }

  /** The operations queued for one pool, with the removals given. */
  function OpsFor(lb: string, service: string, p: PoolIPs, gone: seq<string>, expected: seq<string>): seq<Op> {
    (if gone == [] then [] else [Op(0, service, lb, p.pool, RemoveIPs, gone)]) +
    (if expected == [] then [] else [Op(0, service, lb, p.pool, AddIPs, expected)])
  }

  /** The operations for the first pools, with one list of removals each. */
  function AllOps(
      lb: string, service: string, pools: seq<PoolIPs>, gone: seq<seq<string>>, expected: seq<string>): seq<Op>
    requires |gone| <= |pools|
  {
    if gone == [] then []
    else
      var n := |gone| - 1;
      AllOps(lb, service, pools, gone[..n], expected) + OpsFor(lb, service, pools[n], gone[n], expected)
  }

  /** The first skipped pool ends the whole call, also for the pools behind it. */
  method ReconcileIPs(
      updater: LoadBalancerBackendPoolUpdater, lb: string, service: string, pools: seq<PoolIPs>, expected: seq<string>)
    returns (ghost gone: seq<seq<string>>)
    modifies updater`operations
    ensures |gone| <= |pools| && (|gone| < |pools| ==> Skips(pools[|gone|], expected))
    ensures forall i :: 0 <= i < |gone| ==> Handled(pools[i], gone[i], expected)
    ensures updater.operations == old(updater.operations) + AllOps(lb, service, pools, gone, expected)
  {
    gone := [];
    for i := 0 to |pools|
      invariant |gone| == i && forall k :: 0 <= k < i ==> Handled(pools[k], gone[k], expected)
      invariant updater.operations == old(updater.operations) + AllOps(lb, service, pools, gone, expected)
    {
      var ips, skip := Compare(pools[i], expected);
      if skip {
        return;
      }
      QueuePool(updater, lb, service, pools[i], ips, expected);
      AllOpsNext(lb, service, pools, gone, ips, expected);
      gone := gone + [ips];
    }
  }

  /** A pool that is not skipped, with the IPs to remove from it. */
  ghost predicate Handled(p: PoolIPs, gone: seq<string>, expected: seq<string>) {
    !Skips(p, expected) && Gone(gone, p.ips, expected)
  }

  method Compare(p: PoolIPs, expected: seq<string>) returns (ips: seq<string>, skip: bool)
    ensures skip <==> Skips(p, expected)
    ensures !skip ==> Handled(p, ips, expected)
  {
    ips := CompareNodeIPs(p.ips, expected);
    NothingGone(ips, p.ips, expected);
    skip := ips == [] && |p.ips| == |expected|;
  }

  lemma AllOpsNext(
      lb: string, service: string, pools: seq<PoolIPs>, gone: seq<seq<string>>, ips: seq<string>, expected: seq<string>)
    requires |gone| < |pools|
    ensures AllOps(lb, service, pools, gone + [ips], expected) ==
            AllOps(lb, service, pools, gone, expected) + OpsFor(lb, service, pools[|gone|], ips, expected)
  {
  }

  lemma NothingGone(gone: seq<string>, previous: seq<string>, current: seq<string>)
    requires Gone(gone, previous, current)
    ensures gone == [] <==> forall x :: x in previous ==> x in current
  {
    if gone != [] {
      assert gone[0] in gone;
    }
  }

  method QueuePool(
      updater: LoadBalancerBackendPoolUpdater, lb: string, service: string, p: PoolIPs, gone: seq<string>,
      expected: seq<string>)
    modifies updater`operations
    ensures updater.operations == old(updater.operations) + OpsFor(lb, service, p, gone, expected)
  {
    if gone != [] {
      updater.AddOperation(Op(0, service, lb, p.pool, RemoveIPs, gone));
    }
    if expected != [] {
      updater.AddOperation(Op(0, service, lb, p.pool, AddIPs, expected));
    }
  }

  // ---------- The result ----------

  /** The queued operations turn the current IPs into the expected ones. */
  lemma OpsReachExpected(lb: string, service: string, p: PoolIPs, gone: seq<string>, expected: seq<string>)
    requires Gone(gone, p.ips, expected)
    ensures SetAll(FoldSet(p.ips) - {""}, OpsFor(lb, service, p, gone, expected)) == FoldSet(expected) - {""}
  {
    var start, ops := FoldSet(p.ips) - {""}, OpsFor(lb, service, p, gone, expected);
    var removal := if gone == [] then [] else [Op(0, service, lb, p.pool, RemoveIPs, gone)];
    var addition := if expected == [] then [] else [Op(0, service, lb, p.pool, AddIPs, expected)];
    SetAllConcat(start, removal, addition);
    var s := start - FoldSet(gone);
    assert SetAll(start, removal) == s;
    assert SetAll(s, addition) == s + (FoldSet(expected) - {""});
    forall y | y in s
      ensures y in FoldSet(expected)
    {
      var x :| x in p.ips && Lower(x) == y;
      assert x in gone ==> y in FoldSet(gone);
    }
  }

  /** Pools have different names without colons, and the remote pools hold the IPs that were listed. */
  ghost predicate Listed(remote: Remote, lb: string, pools: seq<PoolIPs>) {
    && (forall i, j :: 0 <= i < j < |pools| ==> pools[i].pool != pools[j].pool)
    && (forall i :: 0 <= i < |pools| ==>
          && ColonFree(PoolId(lb, pools[i].pool)) && PoolId(lb, pools[i].pool) in remote
          && IPs(remote[PoolId(lb, pools[i].pool)]) == FoldSet(pools[i].ips) - {""})
  }

  lemma OpsForPending(lb: string, service: string, p: PoolIPs, gone: seq<string>, expected: seq<string>, id: PoolId)
    ensures var ops := OpsFor(lb, service, p, gone, expected);
            PendingFor(ops, id) == if PoolId(lb, p.pool) == id then ops else []
  {
    var ops := OpsFor(lb, service, p, gone, expected);
    assert forall op :: op in ops ==> PoolOf(op) == PoolId(lb, p.pool);
    if PoolId(lb, p.pool) == id {
      FilterMembers(ops, ForPool(id).Picks);
    } else {
      FilterNone(ops, ForPool(id).Picks);
    }
  }

  /** Of everything that is queued, a pool's part is its own operations, or nothing if the call ended before it. */
  lemma {:induction false} AllOpsPending(
      lb: string, service: string, pools: seq<PoolIPs>, gone: seq<seq<string>>, expected: seq<string>, i: nat)
    requires |gone| <= |pools| && i < |pools|
    requires forall j, k :: 0 <= j < k < |pools| ==> pools[j].pool != pools[k].pool
    ensures PendingFor(AllOps(lb, service, pools, gone, expected), PoolId(lb, pools[i].pool)) ==
            if i < |gone| then OpsFor(lb, service, pools[i], gone[i], expected) else []
  {
    if gone != [] {
      var n, id := |gone| - 1, PoolId(lb, pools[i].pool);
      AllOpsPending(lb, service, pools, gone[..n], expected, i);
      OpsForPending(lb, service, pools[n], gone[n], expected, id);
      var before := AllOps(lb, service, pools, gone[..n], expected);
      var last := OpsFor(lb, service, pools[n], gone[n], expected);
      FilterConcat(before, last, ForPool(id).Picks);
      assert pools[i].pool == pools[n].pool <==> i == n;
    }
  }

  lemma {:induction false} AllOpsMembers(
      lb: string, service: string, pools: seq<PoolIPs>, gone: seq<seq<string>>, expected: seq<string>)
    requires |gone| <= |pools|
    requires forall i :: 0 <= i < |pools| ==> ColonFree(PoolId(lb, pools[i].pool))
    ensures var ops := AllOps(lb, service, pools, gone, expected);
            WellNamed(ops) && forall op :: op in ops ==> op.service == service && op.lb == lb
  {
    if gone != [] {
      AllOpsMembers(lb, service, pools, gone[..|gone| - 1], expected);
    }
  }

  /** A fault-free batch applies to a pool what is queued for it, when all services are live. */
  lemma LiveBatch(b: Batch, remote: Remote, order: seq<string>, id: PoolId)
    requires WellNamed(b.ops) && ColonFree(id) && b.Iterates(order) && id in remote
    requires forall k :: b.faults(k) == Fault(Accepted, Accepted, true)
    requires forall op :: op in b.ops ==> Live(b.services, op)
    ensures id in b.Remote(remote, order)
    ensures IPs(b.Remote(remote, order)[id]) == SetAll(IPs(remote[id]), PendingFor(b.ops, id))
  {
    FilterMembers(b.ops, LiveIn(b.services).Picks);
    BatchEqualsOneByOne(b, remote, order, id);
    OneByOneAt(remote, b.ops, b.names, id);
    IPsAfterAll(remote[id], PendingFor(b.ops, id), b.names);
  }

  /**
   Processing all that one call queues, in whatever order the groups are handled, leaves a pool with exactly
   the expected IPs if and only if neither it nor a pool in front of it passes the skip test, or it had them
   before.
   */
  lemma PoolRightExactlyWhen(
      services: Services, remote: Remote, names: Names, faults: string -> Fault, order: seq<string>,
      lb: string, service: string, pools: seq<PoolIPs>, gone: seq<seq<string>>, expected: seq<string>, i: nat)
    requires Listed(remote, lb, pools) && i < |pools| && |gone| <= |pools|
    requires Lower(service) in services && EqualFold(services[Lower(service)], lb)
    requires forall k :: 0 <= k < |gone| ==> Handled(pools[k], gone[k], expected)
    requires |gone| < |pools| ==> Skips(pools[|gone|], expected)
    requires forall k :: faults(k) == Fault(Accepted, Accepted, true)
    requires Batch(AllOps(lb, service, pools, gone, expected), services, faults, names).Iterates(order)
    ensures var b := Batch(AllOps(lb, service, pools, gone, expected), services, faults, names);
            var after := b.Remote(remote, order);
            var id, want := PoolId(lb, pools[i].pool), FoldSet(expected) - {""};
            && id in after
            && (IPs(after[id]) == want <==>
                  (forall k :: 0 <= k <= i ==> !Skips(pools[k], expected)) || FoldSet(pools[i].ips) - {""} == want)
  {
    var id, ops := PoolId(lb, pools[i].pool), AllOps(lb, service, pools, gone, expected);
    AllOpsMembers(lb, service, pools, gone, expected);
    LiveBatch(Batch(ops, services, faults, names), remote, order, id);
    AllOpsPending(lb, service, pools, gone, expected, i);
    if i < |gone| {
      OpsReachExpected(lb, service, pools[i], gone[i], expected);
    }
  }

  /** A pool that needs nothing ends the call, and a pool behind it that lacks the expected IP gets nothing. */
  lemma PoolBehindIsForgotten(lb: string, service: string, first: string, second: string, ip: string)
    requires ip != ""
    ensures var pools, expected := [PoolIPs(first, [ip]), PoolIPs(second, [])], [ip];
            && Skips(pools[0], expected)
            && AllOps(lb, service, pools, [], expected) == []
            && FoldSet(pools[1].ips) - {""} != FoldSet(expected) - {""}
  {
    var none: seq<string> := [];
    assert ip in [ip] && |Lower(ip)| == |ip|;
    assert Lower(ip) in FoldSet([ip]) - {""} && Lower(ip) !in FoldSet(none);
  }

  // ---------- The length test ----------

  lemma {:induction false} AtMostLength(s: seq<string>)
    ensures |Elements(s)| <= |s|
    ensures Distinct(s) ==> |Elements(s)| == |s|
  {
    if s != [] {
      var n := |s| - 1;
      AtMostLength(s[..n]);
      assert Elements(s) == Elements(s[..n]) + {s[n]};
    }
  }

  /**
   Where the test skips a pool, the pool has the expected IPs exactly when it lists as many different IPs as
   are expected; a current list without duplicates is enough.
   */
  lemma SkipIsRight(p: PoolIPs, expected: seq<string>)
    requires Skips(p, expected)
    ensures Elements(p.ips) == Elements(expected) <==> |Elements(p.ips)| == |Elements(expected)|
    ensures Distinct(p.ips) ==> Elements(p.ips) == Elements(expected)
  {
    AtMostLength(p.ips);
    AtMostLength(expected);
    var a, b := Elements(p.ips), Elements(expected);
    assert a <= b;
    assert b == a + (b - a);
    if a != b {
      assert |b - a| > 0;
    }
    assert |b| == |a| + |b - a|;
  }

  /** Two endpoints on one node against two nodes: skipped, and the second node's IP is missing. */
  lemma SkipCanBeWrong()
    ensures var p, expected := PoolIPs("ns-svc", ["10.0.0.4", "10.0.0.4"]), ["10.0.0.4", "10.0.0.5"];
            Skips(p, expected) && Elements(p.ips) != Elements(expected)
  {
    var expected := ["10.0.0.4", "10.0.0.5"];
    assert expected[0] == "10.0.0.4" && expected[1] == "10.0.0.5";
    assert "10.0.0.4" != "10.0.0.5" by {
      assert "10.0.0.4"[7] == '4' && "10.0.0.5"[7] == '5';
    }
    assert "10.0.0.5" in Elements(expected);
  }
}
