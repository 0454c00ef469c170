/**
 What two local services with one backend pool (PoolNames) do to the order of the updater's operations
 (pkg/provider/azure_local_services.go).
 */
module SharedPools {
  import opened Text
  import opened Lists
  import opened BackendPool
  import opened PoolUpdater
  import opened PoolRuns
  import opened PoolHistory

  /**
   Operations of several services were applied and only a part of them, those whose services are left, is done
   again: the IPs stay if and only if part and whole decide alike about every IP that the part mentions.
   */
  lemma RedoPartExactlyWhen(s: set<string>, all: seq<Op>, part: seq<Op>)
    requires "" !in s && forall op :: op in part ==> op in all
    ensures SetAll(SetAll(s, all), part) == SetAll(s, all) <==>
            forall x :: x != "" && Mentions(part, x) ==> (x in SetAll({}, part) <==> x in SetAll({}, all))
  {
    var done := SetAll(s, all);
    forall x | x != ""
      ensures Mentions(part, x) ==> (x in SetAll(done, part) <==> x in SetAll({}, part))
      ensures !Mentions(part, x) ==> (x in SetAll(done, part) <==> x in done)
      ensures Mentions(part, x) ==> (x in done <==> x in SetAll({}, all))
    {
      Decided(done, {}, part, x);
      Decided(s, {}, all, x);
    }
    NoEmpty(s, all);
    NoEmpty(done, part);
  }

  /** One pool, two services, and two operations: a adds x, then b removes x and y. */
  datatype Case = Case(lb: string, pool: string, a: string, b: string, x: string, y: string) {
    predicate Valid() {
      && ':' !in lb && ':' !in pool && Lower(a) != Lower(b)
      && x != "" && y != "" && Lower(x) != Lower(y)
    }

    function Id(): PoolId {
      PoolId(lb, pool)
    }

    function Add(): Op {
      Op(0, a, lb, pool, AddIPs, [x])
    }

    function Remove(): Op {
      Op(1, b, lb, pool, RemoveIPs, [x, y])
    }

    function Start(): St {
      St([], map[Lower(a) := lb, Lower(b) := lb], map[Id() := [Address("", true, y)]], 0)
    }

    /** Both arrive; a write is applied but reported as failed; b goes away; what is left is done again. */
    function Events(): seq<Event> {
      [Enqueue(Add()), Enqueue(Remove()),
       Process(k => Fault(Accepted, Retriable, true), map[], [Key(Id())]),
       DropService(b),
       Process(k => Fault(Accepted, Accepted, true), map[], [Key(Id())])]
    }
  }

  /** A batch of which one group is handled. */
  lemma OneGroup(st: St, id: PoolId, f: Fault, group: seq<Op>)
    requires ColonFree(id) && id in st.remote && Group(st.ops, st.services, Key(id)) == group
    ensures var st' := Step(st, Process(k => f, map[], [Key(id)]));
            && st'.remote == AfterGroup(st.remote, id, group, f, map[])
            && st'.ops == (if Requeues(st.remote, id, group, f, map[]) then group else [])
            && st'.services == st.services
  {
    var b := Batch(st.ops, st.services, k => f, map[]);
    KeysTellPoolsApart(id, id);
    HandleNext(b, st.remote, [], Key(id));
    assert [] + [Key(id)] == [Key(id)];
  }

  lemma TwoOps(c: Case)
    requires c.Valid()
    ensures var both, id := [c.Add(), c.Remove()], c.Id();
            && Group(both, c.Start().services, Key(id)) == both
            && Group(both, c.Start().services - {Lower(c.b)}, Key(id)) == [c.Add()]
  {
    var both, key, all := [c.Add(), c.Remove()], Key(c.Id()), c.Start().services;
    assert Wanted(all, key).Picks(c.Add()) && Wanted(all, key).Picks(c.Remove());
    FilterMembers(both, Wanted(all, key).Picks);
    var left := all - {Lower(c.b)};
    assert Wanted(left, key).Picks(c.Add()) && !Wanted(left, key).Picks(c.Remove());
    FilterSnoc([c.Add()], c.Remove(), Wanted(left, key).Picks);
    FilterMembers([c.Add()], Wanted(left, key).Picks);
    assert both == [c.Add()] + [c.Remove()];
  }

  lemma SetsOf(c: Case)
    requires c.Valid()
    ensures var start, add, remove := {Lower(c.y)}, c.Add(), c.Remove();
            && SetAll(start, []) == {Lower(c.y)}
            && SetAll(start, [add]) == {Lower(c.x), Lower(c.y)}
            && SetAll(start, [remove]) == {}
            && SetAll(start, [add, remove]) == {}
            && SetAll({}, [add]) == {Lower(c.x)}
  {
    var start: set<string>, add, remove := {Lower(c.y)}, c.Add(), c.Remove();
    assert |Lower(c.x)| == |c.x| && |Lower(c.y)| == |c.y|;
    assert [add][..0] == [] && [remove][..0] == [] && [add, remove][..1] == [add];
    assert FoldSet([c.x]) == {Lower(c.x)};
    assert FoldSet([c.x, c.y]) == {Lower(c.x), Lower(c.y)};
  }

  /** The first batch: both operations are applied, and both are queued again. */
  lemma FirstBatch(c: Case, st: St)
    requires c.Valid() && st == c.Start().(ops := [c.Add(), c.Remove()], next := 2)
    ensures var st' := Step(st, c.Events()[2]);
            && st'.ops == st.ops && st'.services == st.services && c.Id() in st'.remote
            && IPs(st'.remote[c.Id()]) == {}
  {
    var id, s, f := c.Id(), st.remote[c.Id()], Fault(Accepted, Retriable, true);
    TwoOps(c);
    OneGroup(st, id, f, st.ops);
    IPsAfterAll(s, st.ops, map[]);
    SetsOf(c);
    assert IPs(s) == {Lower(c.y)};
    if !Changes(s, st.ops, map[]) {
      NoChange(s, st.ops, map[]);
    }
  }

  /** The second batch: only the first operation is done again. */
  lemma SecondBatch(c: Case, st: St)
    requires c.Valid() && st.ops == [c.Add(), c.Remove()] && st.services == c.Start().services - {Lower(c.b)}
    requires c.Id() in st.remote && IPs(st.remote[c.Id()]) == {}
    ensures var st' := Step(st, c.Events()[4]); c.Id() in st'.remote && IPs(st'.remote[c.Id()]) == {Lower(c.x)}
  {
    var id, s, f := c.Id(), st.remote[c.Id()], Fault(Accepted, Accepted, true);
    TwoOps(c);
    OneGroup(st, id, f, [c.Add()]);
    IPsAfterAll(s, [c.Add()], map[]);
    SetsOf(c);
    if !Changes(s, [c.Add()], map[]) {
      NoChange(s, [c.Add()], map[]);
    }
  }

  lemma FinalIPs(c: Case)
    requires c.Valid()
    ensures var st := Run(c.Start(), c.Events()); c.Id() in st.remote && IPs(st.remote[c.Id()]) == {Lower(c.x)}
  {
    var es, st0 := c.Events(), c.Start();
    Prefixes(st0, es);
    var st2 := Step(Step(st0, es[0]), es[1]);
    assert st2 == st0.(ops := [c.Add(), c.Remove()], next := 2) by {
      assert [] + [c.Add()] + [c.Remove()] == [c.Add(), c.Remove()];
    }
    FirstBatch(c, st2);
    var st3 := Step(st2, es[2]);
    AfterDrop(c, st3);
    SecondBatch(c, Step(st3, es[3]));
  }

  lemma AfterDrop(c: Case, st: St)
    ensures Step(st, c.Events()[3]) == st.(services := st.services - {Lower(c.b)})
  {
  }

  /**
   Two services with one pool can break the order: the pool ends with IPs that no selection of the arrived
   operations, each once and in arrival order, makes of the initial ones.
   */
  lemma SharedPoolBreaksOrder(c: Case)
    requires c.Valid()
    ensures var st, id := Run(c.Start(), c.Events()), c.Id();
            && id in st.remote
            && forall ops :: ops in [[], [c.Add()], [c.Remove()], [c.Add(), c.Remove()]] ==>
                 SetAll(IPs(c.Start().remote[id]), ops) != IPs(st.remote[id])
  {
    FinalIPs(c);
    SetsOf(c);
    assert IPs(c.Start().remote[c.Id()]) == {Lower(c.y)};
    assert Lower(c.y) in {Lower(c.x), Lower(c.y)} && Lower(c.y) !in {Lower(c.x)};
  }

  lemma Prefixes(st: St, es: seq<Event>)
    requires |es| == 5
    ensures Run(st, es) == Step(Step(Step(Step(Step(st, es[0]), es[1]), es[2]), es[3]), es[4])
  {
    assert es[..4][..3] == es[..3] && es[..3][..2] == es[..2] && es[..2][..1] == es[..1] && es[..1][..0] == [];
    assert Run(st, es[..1]) == Step(st, es[0]);
    assert Run(st, es[..2]) == Step(Run(st, es[..1]), es[1]);
    assert Run(st, es[..3]) == Step(Run(st, es[..2]), es[2]);
    assert Run(st, es[..4]) == Step(Run(st, es[..3]), es[3]);
  }
}
