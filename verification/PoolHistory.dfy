/** Whole runs of the updater, seen from one pool. */
module PoolHistory {
  import opened Text
  import opened Lists
  import opened BackendPool
  import opened PoolUpdater
  import opened PoolRuns

  // ---------- Sets of IPs ----------

  function SetOp(s: set<string>, op: Op): set<string> {
    match op.kind
    case RemoveIPs => s - FoldSet(op.ips)
    case AddIPs => s + (FoldSet(op.ips) - {""})
  }

  function SetAll(s: set<string>, ops: seq<Op>): set<string> {
    if ops == [] then s else SetOp(SetAll(s, ops[..|ops| - 1]), ops[|ops| - 1])
  }

  lemma {:induction false} IPsAfterAll(s: seq<Address>, ops: seq<Op>, names: Names)
    ensures IPs(ApplyAll(s, ops, names)) == SetAll(IPs(s), ops)
  {
    if ops != [] {
      var n := |ops| - 1;
      IPsAfterAll(s, ops[..n], names);
      var t := ApplyAll(s, ops[..n], names);
      IPsAfterRemove(t, RemovalOf(ops[n]));
      IPsAfterAdd(t, ops[n].ips, names);
    }
  }

  lemma {:induction false} SetAllConcat(s: set<string>, a: seq<Op>, b: seq<Op>)
    ensures SetAll(s, a + b) == SetAll(SetAll(s, a), b)
  {
    if b == [] {
      assert a + b == a;
    } else {
      var n := |b| - 1;
      assert (a + b)[..|a + b| - 1] == a + b[..n];
      SetAllConcat(s, a, b[..n]);
    }
  }

  predicate Mentions(ops: seq<Op>, x: string) {
    exists op :: op in ops && x in FoldSet(op.ips)
  }

  /** Where operations mention an IP they decide about it alone; elsewhere they change nothing. */
  lemma {:induction false} Decided(s: set<string>, t: set<string>, ops: seq<Op>, x: string)
    requires x != ""
    ensures if Mentions(ops, x) then x in SetAll(s, ops) <==> x in SetAll(t, ops)
            else (x in SetAll(s, ops) <==> x in s)
  {
    if ops != [] {
      var n := |ops| - 1;
      Decided(s, t, ops[..n], x);
      assert ops == ops[..n] + [ops[n]];
    }
  }

  /** Redoing operations that may already have been applied gives the same IPs. */
  lemma RedoIsHarmless(s: set<string>, ops: seq<Op>)
    requires "" !in s
    ensures SetAll(SetAll(s, ops), ops) == SetAll(s, ops)
  {
    forall x | x != ""
      ensures x in SetAll(SetAll(s, ops), ops) <==> x in SetAll(s, ops)
    {
      Decided(SetAll(s, ops), s, ops, x);
      Decided(s, s, ops, x);
    }
    NoEmpty(s, ops);
    NoEmpty(SetAll(s, ops), ops);
  }

  lemma {:induction false} NoEmpty(s: set<string>, ops: seq<Op>)
    requires "" !in s
    ensures "" !in SetAll(s, ops)
  {
    if ops != [] {
      NoEmpty(s, ops[..|ops| - 1]);
    }
  }

  // ---------- Runs ----------

  datatype St = St(ops: seq<Op>, services: Services, remote: Remote, next: nat)

  datatype Event =
    | Enqueue(op: Op)
    | Withdraw(service: string)
    | SetService(name: string, lb: string)
    | DropService(name: string)
    | Process(faults: string -> Fault, names: Names, order: seq<string>)

  function Step(st: St, e: Event): St {
    match e
    case Enqueue(op) => st.(ops := st.ops + [op.(ticket := st.next)], next := st.next + 1)
    case Withdraw(s) => st.(ops := Filter(st.ops, OtherService(s).Leaves))
    case SetService(name, lb) => st.(services := st.services[Lower(name) := lb])
    case DropService(name) => st.(services := st.services - {Lower(name)})
    case Process(faults, names, order) =>
      var b := Batch(st.ops, st.services, faults, names);
      st.(remote := b.Remote(st.remote, order), ops := b.Queue(st.remote, order))
  }

  function Run(st: St, es: seq<Event>): St {
    if es == [] then st else Step(Run(st, es[..|es| - 1]), es[|es| - 1])
  }

  /** Names without colons; the pool is used by one service; a batch handles each group once. */
  ghost predicate Legal(st: St, e: Event, id: PoolId, owner: string) {
    match e
    case Enqueue(op) => ColonFree(PoolOf(op)) && (PoolOf(op) == id ==> Lower(op.service) == owner)
    case Process(faults, names, order) => Batch(st.ops, st.services, faults, names).Iterates(order)
    case _ => true
  }

  ghost predicate LegalRun(st: St, es: seq<Event>, id: PoolId, owner: string) {
    es != [] ==>
      LegalRun(st, es[..|es| - 1], id, owner) && Legal(Run(st, es[..|es| - 1]), es[|es| - 1], id, owner)
  }

  /** The pool's operations in arrival order. */
  function Arrived(st: St, es: seq<Event>, id: PoolId): seq<Op> {
    if es == [] then []
    else
      var n := |es| - 1;
      Arrived(st, es[..n], id) + Arrival(Run(st, es[..n]), es[n], id)
  }

  function Arrival(st: St, e: Event, id: PoolId): seq<Op> {
    if e.Enqueue? && PoolOf(e.op) == id then [e.op.(ticket := st.next)] else []
  }

  /** Operations that took effect: settled ones, and those applied by a write reported as failed and queued again. */
  datatype Effects = Effects(settled: seq<Op>, again: seq<Op>) {
    function All(): seq<Op> {
      settled + again
    }

    function Settle(): Effects {
      Effects(settled + again, [])
    }
  }

  predicate OwnerLive(st: St, id: PoolId, owner: string) {
    owner in st.services && EqualFold(st.services[owner], id.lb)
  }

  /** The pool is read, and what the group makes of it is already there or is written. */
  predicate Applies(remote: Remote, id: PoolId, group: seq<Op>, f: Fault, names: Names) {
    GetReply(remote, id, f) == Accepted && (Writes(remote, id, group, f, names) ==> f.put == Accepted || f.applied)
  }

  function BatchEffects(st: St, eff: Effects, id: PoolId, owner: string, f: Fault, names: Names): Effects {
    var group := PendingFor(st.ops, id);
    if !OwnerLive(st, id, owner) then eff.Settle()
    else
      var requeued, applied := Requeues(st.remote, id, group, f, names), Applies(st.remote, id, group, f, names);
      if applied && requeued then Effects(eff.settled, group)
      else if applied then Effects(eff.settled + group, [])
      else if requeued then eff
      else eff.Settle()
  }

  function EffectsAfter(st: St, es: seq<Event>, id: PoolId, owner: string): Effects {
    if es == [] then Effects([], [])
    else
      var n := |es| - 1;
      var st', eff := Run(st, es[..n]), EffectsAfter(st, es[..n], id, owner);
      EffectStep(st', eff, id, owner, es[n])
  }

  function EffectStep(st: St, eff: Effects, id: PoolId, owner: string, e: Event): Effects {
    match e
    case Withdraw(s) => if Lower(s) == owner then eff.Settle() else eff
    case Process(faults, names, _) => BatchEffects(st, eff, id, owner, faults(Key(id)), names)
    case _ => eff
  }

  predicate Increasing(ops: seq<Op>) {
    forall i, j :: 0 <= i < j < |ops| ==> ops[i].ticket < ops[j].ticket
  }

  ghost predicate Inv(st0: St, st: St, eff: Effects, id: PoolId, owner: string) {
    var pending := PendingFor(st.ops, id);
    && ColonFree(id) && id in st0.remote && id in st.remote
    && WellNamed(st.ops)
    && (forall op :: op in pending ==> Lower(op.service) == owner)
    && eff.again <= pending
    && Increasing(eff.settled + pending)
    && (forall op :: op in eff.settled + pending ==> op.ticket < st.next)
    && IPs(st.remote[id]) == SetAll(IPs(st0.remote[id]), eff.All())
  }

  // ---------- Steps ----------

  lemma EnqueueStep(st0: St, st: St, eff: Effects, id: PoolId, owner: string, op: Op)
    requires Inv(st0, st, eff, id, owner) && Legal(st, Enqueue(op), id, owner)
    ensures Inv(st0, Step(st, Enqueue(op)), eff, id, owner)
    ensures PendingFor(Step(st, Enqueue(op)).ops, id) ==
            PendingFor(st.ops, id) + if PoolOf(op) == id then [op.(ticket := st.next)] else []
  {
    var added := op.(ticket := st.next);
    FilterSnoc(st.ops, added, ForPool(id).Picks);
    var pending := PendingFor(st.ops, id);
    assert eff.settled + (pending + [added]) == (eff.settled + pending) + [added];
    assert forall o :: o in (eff.settled + pending) + [added] ==> o in eff.settled + pending || o == added;
    assert pending + [] == pending;
  }

  lemma WithdrawStep(st0: St, st: St, eff: Effects, id: PoolId, owner: string, s: string)
    requires Inv(st0, st, eff, id, owner)
    ensures Inv(st0, Step(st, Withdraw(s)), if Lower(s) == owner then eff.Settle() else eff, id, owner)
    ensures PendingFor(Step(st, Withdraw(s)).ops, id) == if Lower(s) == owner then [] else PendingFor(st.ops, id)
  {
    var st' := Step(st, Withdraw(s));
    var pending := PendingFor(st.ops, id);
    FilterMembers(st.ops, OtherService(s).Leaves);
    FilterMembers(st.ops, ForPool(id).Picks);
    if Lower(s) == owner {
      FilterMembers(st'.ops, ForPool(id).Picks);
      forall op | op in st'.ops
        ensures !ForPool(id).Picks(op)
      {
        assert ForPool(id).Picks(op) ==> op in pending;
      }
      FilterNone(st'.ops, ForPool(id).Picks);
      SettledAlone(eff, pending, st.next);
      assert eff.Settle().All() == eff.All();
    } else {
      forall op | op in st.ops && ForPool(id).Picks(op)
        ensures OtherService(s).Leaves(op)
      {
        assert op in pending;
      }
      FilterFilter(st.ops, OtherService(s).Leaves, ForPool(id).Picks);
    }
  }

  /** Dropping what is pending leaves the effects in arrival order. */
  lemma SettledAlone(eff: Effects, pending: seq<Op>, next: nat)
    requires eff.again <= pending && Increasing(eff.settled + pending)
    requires forall op :: op in eff.settled + pending ==> op.ticket < next
    ensures Increasing(eff.Settle().settled + [])
    ensures forall op :: op in eff.Settle().settled + [] ==> op.ticket < next
  {
    var all := eff.settled + pending;
    assert eff.Settle().settled + [] == all[..|eff.settled| + |eff.again|];
  }

  /** All of the pool's operations are live, or none is. */
  lemma LiveTogether(st: St, id: PoolId, owner: string)
    requires ColonFree(id) && WellNamed(st.ops)
    requires forall op :: op in PendingFor(st.ops, id) ==> Lower(op.service) == owner
    ensures Group(st.ops, st.services, Key(id)) == if OwnerLive(st, id, owner) then PendingFor(st.ops, id) else []
  {
    FilterMembers(st.ops, ForPool(id).Picks);
    forall op | op in st.ops
      ensures Wanted(st.services, Key(id)).Picks(op) == (OwnerLive(st, id, owner) && ForPool(id).Picks(op))
    {
      KeysTellPoolsApart(PoolOf(op), id);
      if PoolOf(op) == id {
        assert op in PendingFor(st.ops, id);
      }
    }
    if OwnerLive(st, id, owner) {
      FilterSame(st.ops, Wanted(st.services, Key(id)).Picks, ForPool(id).Picks);
    } else {
      FilterNone(st.ops, Wanted(st.services, Key(id)).Picks);
    }
  }

  /** After a write, the pool holds what all effects together make of it. */
  lemma AppliedBatch(st0: St, st: St, eff: Effects, id: PoolId, owner: string, names: Names)
    requires Inv(st0, st, eff, id, owner)
    ensures var pending := PendingFor(st.ops, id);
            IPs(ApplyAll(st.remote[id], pending, names)) == SetAll(IPs(st0.remote[id]), eff.settled + pending)
  {
    var start, pending := IPs(st0.remote[id]), PendingFor(st.ops, id);
    var rest := pending[|eff.again|..];
    assert pending == eff.again + rest;
    var before := SetAll(start, eff.settled);
    NoEmpty(start, eff.settled);
    calc {
      IPs(ApplyAll(st.remote[id], pending, names));
      { IPsAfterAll(st.remote[id], pending, names); }
      SetAll(SetAll(start, eff.All()), pending);
      { SetAllConcat(start, eff.settled, eff.again); SetAllConcat(SetAll(before, eff.again), eff.again, rest); }
      SetAll(SetAll(SetAll(before, eff.again), eff.again), rest);
      { RedoIsHarmless(before, eff.again); }
      SetAll(SetAll(before, eff.again), rest);
      { SetAllConcat(before, eff.again, rest); SetAllConcat(start, eff.settled, pending); }
      SetAll(start, eff.settled + pending);
    }
  }

  lemma QueueWellNamed(b: Batch, remote: Remote, order: seq<string>)
    requires WellNamed(b.ops)
    ensures WellNamed(b.Queue(remote, order))
  {
    if order != [] {
      var n := |order| - 1;
      QueueWellNamed(b, remote, order[..n]);
      FilterMembers(b.ops, Wanted(b.services, order[n]).Picks);
    }
  }

  lemma ProcessStep(st0: St, st: St, eff: Effects, id: PoolId, owner: string, e: Event)
    requires Inv(st0, st, eff, id, owner) && e.Process? && Legal(st, e, id, owner)
    ensures Inv(st0, Step(st, e), BatchEffects(st, eff, id, owner, e.faults(Key(id)), e.names), id, owner)
  {
    var b := Batch(st.ops, st.services, e.faults, e.names);
    var pending, f := PendingFor(st.ops, id), e.faults(Key(id));
    QueueWellNamed(b, st.remote, e.order);
    OrderOfGroupsIsIrrelevant(b, st.remote, e.order, id);
    LiveTogether(st, id, owner);
    SettledAlone(eff, pending, st.next);
    AppliedBatch(st0, st, eff, id, owner, e.names);
    if !Changes(st.remote[id], pending, e.names) {
      NoChange(st.remote[id], pending, e.names);
    }
    assert eff.settled + pending + [] == eff.settled + pending;
    assert eff.Settle().All() == eff.All();
  }

  lemma InvStep(st0: St, st: St, eff: Effects, id: PoolId, owner: string, e: Event)
    requires Inv(st0, st, eff, id, owner) && Legal(st, e, id, owner)
    ensures Inv(st0, Step(st, e), EffectStep(st, eff, id, owner, e), id, owner)
  {
    match e {
      case Enqueue(op) => EnqueueStep(st0, st, eff, id, owner, op);
      case Withdraw(s) => WithdrawStep(st0, st, eff, id, owner, s);
      case Process(_, _, _) => ProcessStep(st0, st, eff, id, owner, e);
      case _ =>
    }
  }

  lemma {:induction false} InvRun(st: St, es: seq<Event>, id: PoolId, owner: string)
    requires st.ops == [] && id in st.remote && ColonFree(id) && LegalRun(st, es, id, owner)
    ensures Inv(st, Run(st, es), EffectsAfter(st, es, id, owner), id, owner)
  {
    if es != [] {
      var n := |es| - 1;
      InvRun(st, es[..n], id, owner);
      InvStep(st, Run(st, es[..n]), EffectsAfter(st, es[..n], id, owner), id, owner, es[n]);
    }
  }

  // ---------- What became of each arrival ----------

  /** Why an operation is dropped: its service was withdrawn, is gone or has moved, or a call failed for good. */
  datatype Reason = Withdrawn | ServiceGone | Failed

  /** The reason why an event drops what is pending for the pool and has not taken effect. */
  function Drops(st: St, id: PoolId, owner: string, e: Event): Option<Reason> {
    match e
    case Withdraw(s) => if Lower(s) == owner then Some(Withdrawn) else None
    case Process(faults, names, _) =>
      var f, group := faults(Key(id)), PendingFor(st.ops, id);
      if !OwnerLive(st, id, owner) then Some(ServiceGone)
      else if Applies(st.remote, id, group, f, names) || Requeues(st.remote, id, group, f, names) then None
      else Some(Failed)
    case _ => None
  }

  function Without(pending: seq<Op>, eff: Effects): seq<Op> {
    if |eff.again| <= |pending| then pending[|eff.again|..] else []
  }

  function Lost(st: St, es: seq<Event>, id: PoolId, owner: string, why: Reason): seq<Op> {
    if es == [] then []
    else
      var n := |es| - 1;
      var st', eff := Run(st, es[..n]), EffectsAfter(st, es[..n], id, owner);
      Lost(st, es[..n], id, owner, why) +
      if Drops(st', id, owner, es[n]) == Some(why) then Without(PendingFor(st'.ops, id), eff) else []
  }

  function Dropped(st: St, es: seq<Event>, id: PoolId, owner: string): multiset<Op> {
    multiset(Lost(st, es, id, owner, Withdrawn)) + multiset(Lost(st, es, id, owner, ServiceGone)) +
    multiset(Lost(st, es, id, owner, Failed))
  }

  /** What an event drops. */
  function DroppedBy(st: St, eff: Effects, id: PoolId, owner: string, e: Event): seq<Op> {
    if Drops(st, id, owner, e).Some? then Without(PendingFor(st.ops, id), eff) else []
  }

  /** One event moves operations between the effects, the queue and what is dropped; only arrivals are new. */
  ghost predicate Balances(st: St, eff: Effects, eff': Effects, id: PoolId, owner: string, e: Event) {
    multiset(eff'.settled + PendingFor(Step(st, e).ops, id)) + multiset(DroppedBy(st, eff, id, owner, e)) ==
    multiset(eff.settled + PendingFor(st.ops, id)) + multiset(Arrival(st, e, id))
  }

  lemma SettleBalances(eff: Effects, pending: seq<Op>)
    requires eff.again <= pending
    ensures multiset(eff.Settle().settled + []) + multiset(Without(pending, eff)) == multiset(eff.settled + pending)
  {
    assert eff.Settle().settled + [] == eff.settled + eff.again;
    assert eff.settled + pending == (eff.settled + eff.again) + Without(pending, eff);
  }

  lemma ProcessBalances(st0: St, st: St, eff: Effects, id: PoolId, owner: string, e: Event)
    requires Inv(st0, st, eff, id, owner) && e.Process? && Legal(st, e, id, owner)
    ensures Balances(st, eff, BatchEffects(st, eff, id, owner, e.faults(Key(id)), e.names), id, owner, e)
  {
    var b := Batch(st.ops, st.services, e.faults, e.names);
    var pending := PendingFor(st.ops, id);
    OrderOfGroupsIsIrrelevant(b, st.remote, e.order, id);
    LiveTogether(st, id, owner);
    SettleBalances(eff, pending);
    assert eff.settled + pending + [] == eff.settled + pending;
  }

  lemma EnqueueBalances(st0: St, st: St, eff: Effects, id: PoolId, owner: string, op: Op)
    requires Inv(st0, st, eff, id, owner) && Legal(st, Enqueue(op), id, owner)
    ensures Balances(st, eff, eff, id, owner, Enqueue(op))
  {
    EnqueueStep(st0, st, eff, id, owner, op);
    var pending, more := PendingFor(st.ops, id), Arrival(st, Enqueue(op), id);
    assert eff.settled + (pending + more) == (eff.settled + pending) + more;
  }

  lemma WithdrawBalances(st0: St, st: St, eff: Effects, id: PoolId, owner: string, s: string)
    requires Inv(st0, st, eff, id, owner)
    ensures Balances(st, eff, if Lower(s) == owner then eff.Settle() else eff, id, owner, Withdraw(s))
  {
    WithdrawStep(st0, st, eff, id, owner, s);
    SettleBalances(eff, PendingFor(st.ops, id));
  }

  lemma StepBalances(st0: St, st: St, eff: Effects, id: PoolId, owner: string, e: Event)
    requires Inv(st0, st, eff, id, owner) && Legal(st, e, id, owner)
    ensures Balances(st, eff, EffectStep(st, eff, id, owner, e), id, owner, e)
  {
    match e {
      case Enqueue(op) => EnqueueBalances(st0, st, eff, id, owner, op);
      case Withdraw(s) => WithdrawBalances(st0, st, eff, id, owner, s);
      case Process(_, _, _) => ProcessBalances(st0, st, eff, id, owner, e);
      case _ =>
    }
  }

  lemma DroppedNext(st: St, es: seq<Event>, id: PoolId, owner: string)
    requires es != []
    ensures var n := |es| - 1;
            var st', eff := Run(st, es[..n]), EffectsAfter(st, es[..n], id, owner);
            Dropped(st, es, id, owner) ==
            Dropped(st, es[..n], id, owner) + multiset(DroppedBy(st', eff, id, owner, es[n]))
  {
  }

  function Held(st: St, es: seq<Event>, id: PoolId, owner: string): seq<Op> {
    EffectsAfter(st, es, id, owner).settled + PendingFor(Run(st, es).ops, id)
  }

  lemma HeldNext(st: St, es: seq<Event>, id: PoolId, owner: string)
    requires es != [] && st.ops == [] && id in st.remote && ColonFree(id) && LegalRun(st, es, id, owner)
    ensures var n := |es| - 1;
            var st', eff := Run(st, es[..n]), EffectsAfter(st, es[..n], id, owner);
            multiset(Held(st, es, id, owner)) + multiset(DroppedBy(st', eff, id, owner, es[n])) ==
            multiset(Held(st, es[..n], id, owner)) + multiset(Arrival(st', es[n], id))
  {
    var n := |es| - 1;
    InvRun(st, es[..n], id, owner);
    StepBalances(st, Run(st, es[..n]), EffectsAfter(st, es[..n], id, owner), id, owner, es[n]);
  }

  lemma Moved(
      all: multiset<Op>, held: multiset<Op>, lost: multiset<Op>, held': multiset<Op>, drop: multiset<Op>,
      more: multiset<Op>)
    requires held + lost == all && held' + drop == held + more
    ensures held' + (lost + drop) == all + more
  {
    assert held' + (lost + drop) == (held' + drop) + lost;
    assert (held + more) + lost == (held + lost) + more;
  }

  /**
   Over every run, each operation that arrived for the pool is exactly one of: settled, still queued, or
   dropped for a reason.
   */
  lemma {:induction false} EveryArrivalAccounted(st: St, es: seq<Event>, id: PoolId, owner: string)
    requires st.ops == [] && id in st.remote && ColonFree(id) && LegalRun(st, es, id, owner)
    ensures multiset(Held(st, es, id, owner)) + Dropped(st, es, id, owner) == multiset(Arrived(st, es, id))
  {
    if es != [] {
      var n := |es| - 1;
      var st', eff := Run(st, es[..n]), EffectsAfter(st, es[..n], id, owner);
      EveryArrivalAccounted(st, es[..n], id, owner);
      HeldNext(st, es, id, owner);
      DroppedNext(st, es, id, owner);
      Moved(multiset(Arrived(st, es[..n], id)), multiset(Held(st, es[..n], id, owner)), Dropped(st, es[..n], id, owner),
            multiset(Held(st, es, id, owner)), multiset(DroppedBy(st', eff, id, owner, es[n])),
            multiset(Arrival(st', es[n], id)));
    }
  }

  /**
   Over every run of arrivals, withdrawals, service changes and batches, with refused writes and writes that
   were applied but reported as failed: the pool's IPs are what the operations in EffectsAfter make of the
   initial ones; these are operations that arrived, each applied once and in arrival order; and what is still
   queued arrived after what has settled.
   */
  lemma EffectsInArrivalOrder(st: St, es: seq<Event>, id: PoolId, owner: string)
    requires st.ops == [] && id in st.remote && ColonFree(id) && LegalRun(st, es, id, owner)
    ensures var st', eff := Run(st, es), EffectsAfter(st, es, id, owner);
            && id in st'.remote
            && IPs(st'.remote[id]) == SetAll(IPs(st.remote[id]), eff.settled + eff.again)
            && (forall op :: op in eff.settled + eff.again ==> op in Arrived(st, es, id))
            && eff.again <= PendingFor(st'.ops, id)
            && Increasing(eff.settled + PendingFor(st'.ops, id))
  {
    InvRun(st, es, id, owner);
    EveryArrivalAccounted(st, es, id, owner);
    var eff, pending := EffectsAfter(st, es, id, owner), PendingFor(Run(st, es).ops, id);
    forall op | op in eff.settled + eff.again
      ensures op in Arrived(st, es, id)
    {
      assert op in eff.settled + pending;
      assert op in multiset(eff.settled + pending) && op in multiset(Arrived(st, es, id));
    }
  }

  /** Operations are dropped for a failed call exactly when a call fails for good and the write is not applied. */
  lemma FailedExactlyWhen(st: St, id: PoolId, owner: string, e: Event)
    requires e.Process? && id in st.remote
    ensures var f := e.faults(Key(id));
            Drops(st, id, owner, e) == Some(Failed) <==>
            && owner in st.services && EqualFold(st.services[owner], id.lb)
            && (|| f.get == NotFound || f.get == Fatal
                || (&& f.get == Accepted && Changes(st.remote[id], PendingFor(st.ops, id), e.names)
                    && !f.applied && (f.put == NotFound || f.put == Fatal)))
  {
  }

  // ---------- Nothing is lost ----------

  /** The service stays, and calls either succeed or fail retriably. */
  ghost predicate Lossless(st: St, e: Event, id: PoolId, owner: string) {
    match e
    case Withdraw(s) => Lower(s) != owner
    case Process(faults, _, _) =>
      var f := faults(Key(id));
      && OwnerLive(st, id, owner)
      && (f.get == Accepted || f.get == Retriable)
      && (f.put == Accepted || f.put == Retriable)
    case _ => true
  }

  ghost predicate LosslessRun(st: St, es: seq<Event>, id: PoolId, owner: string) {
    es != [] ==>
      LosslessRun(st, es[..|es| - 1], id, owner) && Lossless(Run(st, es[..|es| - 1]), es[|es| - 1], id, owner)
  }

  lemma KeptByBatch(st0: St, st: St, eff: Effects, id: PoolId, owner: string, e: Event)
    requires Inv(st0, st, eff, id, owner) && e.Process? && Legal(st, e, id, owner) && Lossless(st, e, id, owner)
    ensures BatchEffects(st, eff, id, owner, e.faults(Key(id)), e.names).settled + PendingFor(Step(st, e).ops, id) ==
            eff.settled + PendingFor(st.ops, id)
  {
    var b := Batch(st.ops, st.services, e.faults, e.names);
    OrderOfGroupsIsIrrelevant(b, st.remote, e.order, id);
    LiveTogether(st, id, owner);
    var pending := PendingFor(st.ops, id);
    assert eff.settled + pending + [] == eff.settled + pending;
  }

  /** Then every operation that arrived is settled or still queued. */
  lemma {:induction false} AllAccountedFor(st: St, es: seq<Event>, id: PoolId, owner: string)
    requires st.ops == [] && id in st.remote && ColonFree(id)
    requires LegalRun(st, es, id, owner) && LosslessRun(st, es, id, owner)
    ensures EffectsAfter(st, es, id, owner).settled + PendingFor(Run(st, es).ops, id) == Arrived(st, es, id)
  {
    if es != [] {
      var n := |es| - 1;
      var st', eff, e := Run(st, es[..n]), EffectsAfter(st, es[..n], id, owner), es[n];
      AllAccountedFor(st, es[..n], id, owner);
      InvRun(st, es[..n], id, owner);
      match e {
        case Enqueue(op) => EnqueueStep(st, st', eff, id, owner, op);
        case Withdraw(s) => WithdrawStep(st, st', eff, id, owner, s);
        case Process(_, _, _) => KeptByBatch(st, st', eff, id, owner, e);
        case _ =>
      }
    }
  }

  /** And an empty queue means that everything that arrived took effect. */
  lemma NothingIsLost(st: St, es: seq<Event>, id: PoolId, owner: string)
    requires st.ops == [] && id in st.remote && ColonFree(id)
    requires LegalRun(st, es, id, owner) && LosslessRun(st, es, id, owner)
    ensures id in Run(st, es).remote
    ensures PendingFor(Run(st, es).ops, id) == [] ==>
              IPs(Run(st, es).remote[id]) == SetAll(IPs(st.remote[id]), Arrived(st, es, id))
  {
    AllAccountedFor(st, es, id, owner);
    EffectsInArrivalOrder(st, es, id, owner);
    var eff := EffectsAfter(st, es, id, owner);
    if PendingFor(Run(st, es).ops, id) == [] {
      assert eff.settled + eff.again == eff.settled + [];
    }
  }

  // ---------- The last word on an IP ----------

  /** The last operation that names the IP, up to case. */
  predicate LastOn(ops: seq<Op>, x: string, i: nat) {
    && i < |ops| && (exists ip :: ip in ops[i].ips && Lower(ip) == x)
    && forall j, ip :: i < j < |ops| && ip in ops[j].ips ==> Lower(ip) != x
  }

  lemma {:induction false} LastDecides(s: set<string>, ops: seq<Op>, x: string, i: nat)
    requires x != "" && LastOn(ops, x, i)
    ensures x in SetAll(s, ops) <==> ops[i].kind.AddIPs?
  {
    var n := |ops| - 1;
    if i < n {
      assert ops[..n][i] == ops[i];
      LastDecides(s, ops[..n], x, i);
      assert x !in FoldSet(ops[n].ips);
    }
  }

  /**
   When nothing is pending after such a run, the pool has an IP exactly when the last operation that named it
   adds it, and, if none did, exactly when it had it before.
   */
  lemma LastWordOnIP(st: St, es: seq<Event>, id: PoolId, owner: string, x: string)
    requires st.ops == [] && id in st.remote && ColonFree(id)
    requires LegalRun(st, es, id, owner) && LosslessRun(st, es, id, owner) && PendingFor(Run(st, es).ops, id) == []
    requires x != ""
    ensures id in Run(st, es).remote
    ensures var ops, now := Arrived(st, es, id), IPs(Run(st, es).remote[id]);
            && (forall i: nat :: LastOn(ops, x, i) ==> (x in now <==> ops[i].kind.AddIPs?))
            && ((forall op, ip :: op in ops && ip in op.ips ==> Lower(ip) != x) ==>
                  (x in now <==> x in IPs(st.remote[id])))
  {
    NothingIsLost(st, es, id, owner);
    var ops, start := Arrived(st, es, id), IPs(st.remote[id]);
    forall i: nat | LastOn(ops, x, i)
      ensures x in SetAll(start, ops) <==> ops[i].kind.AddIPs?
    {
      LastDecides(start, ops, x, i);
    }
    Decided(start, start, ops, x);
  }
}
