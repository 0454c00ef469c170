/**
 The batch updater of local services' backend pools (pkg/provider/azure_local_services.go): operations queue
 up, are grouped by pool, applied to a copy of the pool in one write, and queued again when the failure is
 retriable.
 */
module PoolUpdater {
  import opened Text
  import opened Lists
  import opened BackendPool

  datatype Kind = AddIPs | RemoveIPs

  /** ticket is the arrival number that tells queued operations apart. */
  datatype Op = Op(ticket: nat, service: string, lb: string, pool: string, kind: Kind, ips: seq<string>)

  datatype PoolId = PoolId(lb: string, pool: string)

  type Remote = map<PoolId, seq<Address>>

  /** Local services by lower-case name, with the load balancer each is on. */
  type Services = map<string, string>

  type Names = map<string, string>

  // ---------- Group keys are text ----------

  function JoinKey(lb: string, pool: string): string {
    lb + ":" + pool
  }

  function Upto(s: string, c: char): string {
    if s == [] || s[0] == c then [] else [s[0]] + Upto(s[1..], c)
  }

  /** The first two parts of strings.Split(key, ":"). */
  function SplitKey(key: string): PoolId {
    var a := Upto(key, ':');
    PoolId(a, if |a| < |key| then Upto(key[|a| + 1..], ':') else "")
  }

  lemma {:induction false} UptoIs(s: string, t: string, c: char)
    requires c !in s
    ensures Upto(s + [c] + t, c) == s
    ensures Upto(s, c) == s
  {
    if s != [] {
      assert (s + [c] + t)[1..] == s[1..] + [c] + t;
      UptoIs(s[1..], t, c);
    }
  }

  lemma {:induction false} UptoStops(s: string, c: char)
    ensures c !in Upto(s, c) && |Upto(s, c)| <= |s|
  {
    if s != [] && s[0] != c {
      UptoStops(s[1..], c);
    }
  }

  /** The key leads back to the pool exactly when neither name contains a colon. */
  lemma KeyRoundTrip(lb: string, pool: string)
    ensures SplitKey(JoinKey(lb, pool)) == PoolId(lb, pool) <==> ':' !in lb && ':' !in pool
  {
    var key := JoinKey(lb, pool);
    UptoStops(key, ':');
    if ':' !in lb {
      UptoIs(lb, pool, ':');
      assert key == lb + [':'] + pool;
      assert key[|lb| + 1..] == pool;
      UptoStops(pool, ':');
      if ':' !in pool {
        UptoIs(pool, "", ':');
      }
    }
  }

  function KeyOf(op: Op): string {
    JoinKey(op.lb, op.pool)
  }

  // ---------- One pool ----------

  predicate Live(services: Services, op: Op) {
    Lower(op.service) in services && EqualFold(services[Lower(op.service)], op.lb)
  }

  function RemovalOf(op: Op): Removal {
    Removal(op.ips, false, true)
  }

  function ApplyOp(s: seq<Address>, op: Op, names: Names): seq<Address> {
    match op.kind
    case RemoveIPs => Kept(s, RemovalOf(op))
    case AddIPs => s + Missing(s, op.ips, names)
  }

  function ApplyAll(s: seq<Address>, ops: seq<Op>, names: Names): seq<Address> {
    if ops == [] then s else ApplyOp(ApplyAll(s, ops[..|ops| - 1], names), ops[|ops| - 1], names)
  }

  /** The changed flag: some operation altered the list it saw. */
  predicate Changes(s: seq<Address>, ops: seq<Op>, names: Names) {
    if ops == [] then false
    else
      var t := ApplyAll(s, ops[..|ops| - 1], names);
      Changes(s, ops[..|ops| - 1], names) || ApplyOp(t, ops[|ops| - 1], names) != t
  }

  lemma {:induction false} NoChange(s: seq<Address>, ops: seq<Op>, names: Names)
    requires !Changes(s, ops, names)
    ensures ApplyAll(s, ops, names) == s
  {
    if ops != [] {
      NoChange(s, ops[..|ops| - 1], names);
    }
  }

  // ---------- A batch ----------

  datatype Reply = Accepted | NotFound | Retriable | Fatal

  /** How the calls for one group end; a write that is not accepted may still have been applied. */
  datatype Fault = Fault(get: Reply, put: Reply, applied: bool)

  datatype Wanted = Wanted(services: Services, key: string) {
    predicate Picks(op: Op) {
      Live(services, op) && KeyOf(op) == key
    }
  }

  function Group(ops: seq<Op>, services: Services, key: string): seq<Op> {
    Filter(ops, Wanted(services, key).Picks)
  }

  function LiveKeys(ops: seq<Op>, services: Services): set<string> {
    set op | op in ops && Live(services, op) :: KeyOf(op)
  }

  function GetReply(remote: Remote, id: PoolId, f: Fault): Reply {
    if f.get != Accepted then f.get else if id in remote then Accepted else NotFound
  }

  predicate Writes(remote: Remote, id: PoolId, group: seq<Op>, f: Fault, names: Names) {
    GetReply(remote, id, f) == Accepted && id in remote && Changes(remote[id], group, names)
  }

  /** The group's operations go back into the queue. */
  predicate Requeues(remote: Remote, id: PoolId, group: seq<Op>, f: Fault, names: Names) {
    GetReply(remote, id, f) == Retriable || (Writes(remote, id, group, f, names) && f.put == Retriable)
  }

  function AfterGroup(remote: Remote, id: PoolId, group: seq<Op>, f: Fault, names: Names): Remote {
    if Writes(remote, id, group, f, names) && (f.put == Accepted || f.applied)
    then remote[id := ApplyAll(remote[id], group, names)]
    else remote
  }

  /** The groups of a batch, handled in the given order. */
  datatype Batch = Batch(ops: seq<Op>, services: Services, faults: string -> Fault, names: Names) {
    function GroupOf(key: string): seq<Op> {
      Group(ops, services, key)
    }

    function Remote(remote: Remote, order: seq<string>): Remote {
      if order == [] then remote
      else
        var n := |order| - 1;
        AfterGroup(Remote(remote, order[..n]), SplitKey(order[n]), GroupOf(order[n]), faults(order[n]), names)
    }

    function Queue(remote: Remote, order: seq<string>): seq<Op> {
      if order == [] then []
      else
        var n := |order| - 1;
        var before := Remote(remote, order[..n]);
        Queue(remote, order[..n]) +
        if Requeues(before, SplitKey(order[n]), GroupOf(order[n]), faults(order[n]), names) then GroupOf(order[n]) else []
    }

    /** Go iterates over a map in any order, each key once. */
    ghost predicate Iterates(order: seq<string>) {
      && Distinct(order)
      && forall k :: k in order <==> k in LiveKeys(ops, services)
    }
  }

  lemma HandleNext(b: Batch, remote: Remote, order: seq<string>, key: string)
    ensures var before := b.Remote(remote, order);
            var id, group, f := SplitKey(key), b.GroupOf(key), b.faults(key);
            && b.Remote(remote, order + [key]) == AfterGroup(before, id, group, f, b.names)
            && b.Queue(remote, order + [key]) ==
               b.Queue(remote, order) + if Requeues(before, id, group, f, b.names) then group else []
  {
  }

  class LoadBalancerBackendPoolUpdater {
    var operations: seq<Op>
    var services: Services
    var remote: Remote

    constructor (services: Services, remote: Remote)
      ensures operations == [] && this.services == services && this.remote == remote
    {
      operations := [];
      this.services := services;
      this.remote := remote;
    }

    method AddOperation(op: Op)
      modifies this`operations
      ensures operations == old(operations) + [op]
    {
      operations := operations + [op];
    }

    /** Backwards through the queue, as the slice deletion requires. */
    method RemoveOperation(service: string)
      modifies this`operations
      ensures operations == Filter(old(operations), OtherService(service).Leaves)
    {
      var dropped;
      operations, dropped := FilterBackwards(operations, OtherService(service).Leaves);
    }

    /** The groups in a map; operations of services that are gone or have moved are skipped. */
    method GroupOperations() returns (groups: map<string, seq<Op>>)
      ensures groups.Keys == LiveKeys(operations, services)
      ensures forall k :: k in groups ==> groups[k] == Group(operations, services, k)
    {
      groups := map[];
      for i := 0 to |operations|
        invariant groups.Keys == LiveKeys(operations[..i], services)
        invariant forall k :: k in groups ==> groups[k] == Group(operations[..i], services, k)
        invariant forall k :: k !in groups ==> Group(operations[..i], services, k) == []
      {
        var op := operations[i];
        ghost var prefix := operations[..i];
        assert operations[..i + 1] == prefix + [op];
        forall k ensures Group(operations[..i + 1], services, k) ==
                         Group(prefix, services, k) + if Wanted(services, k).Picks(op) then [op] else []
        {
          FilterConcat(prefix, [op], Wanted(services, k).Picks);
        }
        if Live(services, op) {
          var key := KeyOf(op);
          groups := groups[key := (if key in groups then groups[key] else []) + [op]];
        }
      }
      assert operations[..|operations|] == operations;
    }

    static method EditPool(bp: BackendAddressPool, op: Op, names: Names, vnet: string) returns (edited: bool)
      requires bp.Valid() && bp.hasProperties && bp.addresses
      modifies bp, bp.arr
      ensures bp.Valid() && bp.hasProperties && bp.addresses && (bp.arr == old(bp.arr) || fresh(bp.arr))
      ensures bp.View() == ApplyOp(old(bp.View()), op, names)
      ensures edited == (bp.View() != old(bp.View()))
    {
      ghost var before := bp.View();
      if op.kind.RemoveIPs? {
        edited := bp.RemoveNodeIPAddresses(op.ips, false, true, true);
      } else {
        edited := bp.AddNodeIPAddresses(vnet, names, op.ips);
        assert before + [] == before;
      }
    }

    /** The pool object the group's operations edit in place, one after the other. */
    method ApplyGroup(
        s: seq<Address>, ops: seq<Op>, names: Names, vnet: string)
      returns (t: seq<Address>, changed: bool)
      ensures t == ApplyAll(s, ops, names)
      ensures changed == Changes(s, ops, names)
    {
      var bp := new BackendAddressPool(s);
      changed := false;
      for j := 0 to |ops|
        invariant bp.Valid() && bp.hasProperties && bp.addresses && fresh(bp) && fresh(bp.arr)
        invariant bp.View() == ApplyAll(s, ops[..j], names)
        invariant changed == Changes(s, ops[..j], names)
      {
        assert ops[..j + 1][..j] == ops[..j];
        var edited := EditPool(bp, ops[j], names, vnet);
        changed := changed || edited;
      }
      assert ops[..|ops|] == ops;
      t := bp.View();
    }

    /**
     One round: the new pools and the new queue are those of handling the groups in some order, each once.
     */
    method Process(faults: string -> Fault, names: Names, vnet: string) returns (ghost order: seq<string>)
      modifies this`operations, this`remote
      ensures var b := Batch(old(operations), services, faults, names);
              && b.Iterates(order)
              && remote == b.Remote(old(remote), order)
              && operations == b.Queue(old(remote), order)
    {
      ghost var b := Batch(operations, services, faults, names);
      var groups := GroupOperations();
      operations := [];
      order := [];
      var keys := groups.Keys;
      while keys != {}
        invariant keys <= groups.Keys
        invariant forall k :: k in order <==> k in groups.Keys && k !in keys
        invariant Distinct(order)
        invariant remote == b.Remote(old(remote), order)
        invariant operations == b.Queue(old(remote), order)
        decreases keys
      {
        var key :| key in keys;
        keys := keys - {key};
        HandleNext(b, old(remote), order, key);
        HandleGroup(key, groups[key], faults(key), names, vnet);
        order := order + [key];
      }
    }

    method HandleGroup(key: string, ops: seq<Op>, f: Fault, names: Names, vnet: string)
      modifies this`operations, this`remote
      ensures remote == AfterGroup(old(remote), SplitKey(key), ops, f, names)
      ensures operations == old(operations) + if Requeues(old(remote), SplitKey(key), ops, f, names) then ops else []
    {
      var id := SplitKey(key);
      var reply := GetReply(remote, id, f);
      if reply != Accepted {
        ProcessError(reply, ops);
        return;
      }
      var bp, changed := ApplyGroup(remote[id], ops, names, vnet);
      if changed {
        if f.put == Accepted || f.applied {
          remote := remote[id := bp];
        }
        if f.put != Accepted {
          ProcessError(f.put, ops);
        }
      }
    }

    /** Not found drops the operations, retriable queues them again, anything else fails them. */
    method ProcessError(reply: Reply, ops: seq<Op>)
      modifies this`operations
      ensures operations == old(operations) + if reply == Retriable then ops else []
    {
      if reply == Retriable {
        operations := operations + ops;
      }
    }
  }

  datatype OtherService = OtherService(service: string) {
    predicate Leaves(op: Op) {
      !EqualFold(op.service, service)
    }
  }
}
