/**
 What batching keeps: the order in which groups are handled does not matter, and a batch equals its operations
 one by one.
 */
module PoolRuns {
  import opened Lists
  import opened BackendPool
  import opened PoolUpdater

  function PoolOf(op: Op): PoolId {
    PoolId(op.lb, op.pool)
  }

  function Key(id: PoolId): string {
    JoinKey(id.lb, id.pool)
  }

  predicate ColonFree(id: PoolId) {
    ':' !in id.lb && ':' !in id.pool
  }

  predicate WellNamed(ops: seq<Op>) {
    forall op :: op in ops ==> ColonFree(PoolOf(op))
  }

  datatype ForPool = ForPool(id: PoolId) {
    predicate Picks(op: Op) {
      PoolOf(op) == id
    }
  }

  function PendingFor(ops: seq<Op>, id: PoolId): seq<Op> {
    Filter(ops, ForPool(id).Picks)
  }

  lemma KeysTellPoolsApart(a: PoolId, b: PoolId)
    requires ColonFree(a) && ColonFree(b)
    ensures Key(a) == Key(b) <==> a == b
    ensures SplitKey(Key(a)) == a
  {
    KeyRoundTrip(a.lb, a.pool);
    KeyRoundTrip(b.lb, b.pool);
  }

  // ---------- The order of groups ----------

  predicate SameAt(r: Remote, r': Remote, id: PoolId) {
    (id in r <==> id in r') && (id in r ==> r[id] == r'[id])
  }

  /** Handling the group of one key touches no other pool and queues nothing for it. */
  lemma OtherGroup(b: Batch, key: string, id: PoolId)
    requires WellNamed(b.ops) && ColonFree(id)
    requires key in LiveKeys(b.ops, b.services) && key != Key(id)
    ensures SplitKey(key) != id
    ensures PendingFor(b.GroupOf(key), id) == []
  {
    var op :| op in b.ops && Live(b.services, op) && KeyOf(op) == key;
    KeysTellPoolsApart(PoolOf(op), id);
    FilterMembers(b.ops, Wanted(b.services, key).Picks);
    forall o | o in b.GroupOf(key)
      ensures !ForPool(id).Picks(o)
    {
      KeysTellPoolsApart(PoolOf(o), id);
    }
    FilterNone(b.GroupOf(key), ForPool(id).Picks);
  }

  lemma OwnGroup(b: Batch, id: PoolId)
    requires WellNamed(b.ops) && ColonFree(id)
    ensures PendingFor(b.GroupOf(Key(id)), id) == b.GroupOf(Key(id))
    ensures forall op :: op in b.GroupOf(Key(id)) ==> PoolOf(op) == id
  {
    var group := b.GroupOf(Key(id));
    FilterMembers(b.ops, Wanted(b.services, Key(id)).Picks);
    forall op | op in group
      ensures PoolOf(op) == id
    {
      KeysTellPoolsApart(PoolOf(op), id);
    }
    FilterMembers(group, ForPool(id).Picks);
  }

  /** What a group does to its pool depends on that pool alone. */
  lemma GroupIsLocal(r: Remote, r': Remote, id: PoolId, group: seq<Op>, f: Fault, names: Names)
    requires SameAt(r, r', id)
    ensures SameAt(AfterGroup(r, id, group, f, names), AfterGroup(r', id, group, f, names), id)
    ensures Requeues(r, id, group, f, names) == Requeues(r', id, group, f, names)
  {
  }

  lemma QueuedFor(q: seq<Op>, more: bool, group: seq<Op>, id: PoolId)
    ensures PendingFor(q + if more then group else [], id) == PendingFor(q, id) + if more then PendingFor(group, id) else []
  {
    FilterConcat(q, if more then group else [], ForPool(id).Picks);
  }

  lemma {:induction false} BatchPrefix(b: Batch, remote: Remote, order: seq<string>, id: PoolId)
    requires WellNamed(b.ops) && ColonFree(id) && Distinct(order)
    requires forall k :: k in order ==> k in LiveKeys(b.ops, b.services)
    ensures var done := Key(id) in order;
            var group, f := b.GroupOf(Key(id)), b.faults(Key(id));
            && SameAt(b.Remote(remote, order), if done then AfterGroup(remote, id, group, f, b.names) else remote, id)
            && PendingFor(b.Queue(remote, order), id) ==
               if done && Requeues(remote, id, group, f, b.names) then group else []
  {
    if order != [] {
      var n := |order| - 1;
      var before, key := order[..n], order[n];
      assert order == before + [key];
      BatchPrefix(b, remote, before, id);
      HandleNext(b, remote, before, key);
      var r, group, f := b.Remote(remote, before), b.GroupOf(key), b.faults(key);
      QueuedFor(b.Queue(remote, before), Requeues(r, SplitKey(key), group, f, b.names), group, id);
      if key == Key(id) {
        KeysTellPoolsApart(id, id);
        OwnGroup(b, id);
        assert key !in before;
        GroupIsLocal(r, remote, id, group, f, b.names);
      } else {
        assert Key(id) in order <==> Key(id) in before;
        OtherGroup(b, key, id);
        assert SameAt(b.Remote(remote, order), r, id);
      }
    }
  }

  /**
   In whatever order the groups are handled, a pool ends as its own group and its own faults leave it, and
   its part of the new queue is its group or nothing.
   */
  lemma OrderOfGroupsIsIrrelevant(b: Batch, remote: Remote, order: seq<string>, id: PoolId)
    requires WellNamed(b.ops) && ColonFree(id) && b.Iterates(order)
    ensures var group, f := b.GroupOf(Key(id)), b.faults(Key(id));
            && SameAt(b.Remote(remote, order), AfterGroup(remote, id, group, f, b.names), id)
            && PendingFor(b.Queue(remote, order), id) == if Requeues(remote, id, group, f, b.names) then group else []
  {
    BatchPrefix(b, remote, order, id);
    if Key(id) !in order {
      forall op | op in b.ops
        ensures !Wanted(b.services, Key(id)).Picks(op)
      {
      }
      FilterNone(b.ops, Wanted(b.services, Key(id)).Picks);
    }
  }

  // ---------- One by one ----------

  function OneByOne(remote: Remote, ops: seq<Op>, names: Names): Remote {
    if ops == [] then remote
    else
      var r := OneByOne(remote, ops[..|ops| - 1], names);
      var op := ops[|ops| - 1];
      if PoolOf(op) in r then r[PoolOf(op) := ApplyOp(r[PoolOf(op)], op, names)] else r
  }

  datatype LiveIn = LiveIn(services: Services) {
    predicate Picks(op: Op) {
      Live(services, op)
    }
  }

  lemma ApplySnoc(s: seq<Address>, ops: seq<Op>, op: Op, names: Names)
    ensures ApplyAll(s, ops + [op], names) == ApplyOp(ApplyAll(s, ops, names), op, names)
  {
  }

  lemma {:induction false} OneByOneAt(remote: Remote, ops: seq<Op>, names: Names, id: PoolId)
    ensures OneByOne(remote, ops, names).Keys == remote.Keys
    ensures id in remote ==> OneByOne(remote, ops, names)[id] == ApplyAll(remote[id], PendingFor(ops, id), names)
  {
    if ops != [] {
      var n := |ops| - 1;
      OneByOneAt(remote, ops[..n], names, id);
      FilterSnoc(ops[..n], ops[n], ForPool(id).Picks);
      assert ops == ops[..n] + [ops[n]];
      if id in remote {
        ApplySnoc(remote[id], PendingFor(ops[..n], id), ops[n], names);
        assert PendingFor(ops, id) == PendingFor(ops[..n], id) + if PoolOf(ops[n]) == id then [ops[n]] else [];
        assert PoolOf(ops[n]) != id ==> PendingFor(ops, id) == PendingFor(ops[..n], id);
      }
    }
  }

  /** A batch whose calls all succeed leaves every pool as its live operations, applied in queue order, do. */
  lemma BatchEqualsOneByOne(b: Batch, remote: Remote, order: seq<string>, id: PoolId)
    requires WellNamed(b.ops) && ColonFree(id) && b.Iterates(order)
    requires forall k :: b.faults(k) == Fault(Accepted, Accepted, true)
    ensures SameAt(b.Remote(remote, order), OneByOne(remote, Filter(b.ops, LiveIn(b.services).Picks), b.names), id)
    ensures PendingFor(b.Queue(remote, order), id) == []
  {
    OrderOfGroupsIsIrrelevant(b, remote, order, id);
    var live := Filter(b.ops, LiveIn(b.services).Picks);
    OneByOneAt(remote, live, b.names, id);
    var group := b.GroupOf(Key(id));
    LiveGroup(b, id);
    if id in remote && !Changes(remote[id], group, b.names) {
      NoChange(remote[id], group, b.names);
    }
  }

  lemma LiveGroup(b: Batch, id: PoolId)
    requires WellNamed(b.ops) && ColonFree(id)
    ensures PendingFor(Filter(b.ops, LiveIn(b.services).Picks), id) == b.GroupOf(Key(id))
  {
    var live := Filter(b.ops, LiveIn(b.services).Picks);
    FilterMembers(b.ops, LiveIn(b.services).Picks);
    FilterFilter(b.ops, LiveIn(b.services).Picks, Wanted(b.services, Key(id)).Picks);
    forall op | op in live
      ensures ForPool(id).Picks(op) == Wanted(b.services, Key(id)).Picks(op)
    {
      KeysTellPoolsApart(PoolOf(op), id);
    }
    FilterSame(live, ForPool(id).Picks, Wanted(b.services, Key(id)).Picks);
  }
}
