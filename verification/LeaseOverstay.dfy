/** Why the controller's cache needs the other components to release in time. */
module LeaseOverstay {
  import opened Text
  import opened LeaseLock
  import opened LeaseFreshness

  lemma RunNext(cfg: Config, w: World, acts: seq<Action>, a: Action)
    ensures Run(cfg, w, acts + [a]) == Apply(cfg, Run(cfg, w, acts), a)
  {
  }

  lemma {:induction false} RunConcat(cfg: Config, w: World, acts: seq<Action>, more: seq<Action>)
    ensures Run(cfg, w, acts + more) == Run(cfg, Run(cfg, w, acts), more)
  {
    if more == [] {
      assert acts + more == acts;
    } else {
      var n := |more| - 1;
      RunConcat(cfg, w, acts, more[..n]);
      assert acts + more == (acts + more[..n]) + [more[n]];
      RunNext(cfg, w, acts + more[..n], more[n]);
    }
  }

  /** The beginning of a Lock without failures or interference, after the lease exists; six steps complete it. */
  function LockActs(p: Pid, k: nat): seq<Action> {
    if k == 0 then [Lock(p)] else LockActs(p, k - 1) + [Step(p, Done)]
  }

  function AfterLock(cfg: Config, w: World, p: Pid, l: Lease): World {
    var taken := AcquiredBy(l, cfg(p).holder, w.clock);
    w.(lease := Some(taken), version := w.version + 1, log := w.log + [Acquired(p, l, w.clock, Expiration(taken))])
     .Move(p, Held(|w.log|))
  }

  lemma MoveTwice(w: World, p: Pid, a: Phase, b: Phase)
    ensures w.Move(p, a).Move(p, b) == w.Move(p, b)
  {
  }

  /** The phases on the way to the write. */
  function OnTheWay(w: World, l: Lease, k: nat): Phase {
    if k == 0 then Ensure
    else if k == 1 then ReadToAcquire
    else if k == 2 then CheckToAcquire(l, w.version)
    else if k == 3 then Stamp(l, w.version)
    else WriteToAcquire(l, w.version, w.clock)
  }

  predicate Free(cfg: Config, w: World, p: Pid, l: Lease) {
    w.lease == Some(l) && MayAcquire(l, cfg(p).holder, w.clock) && !ForeignRelease(l)
  }

  lemma Moves(cfg: Config, w: World, p: Pid, l: Lease, k: nat)
    requires Free(cfg, w, p, l) && k < 4
    ensures Apply(cfg, w.Move(p, OnTheWay(w, l, k)), Step(p, Done)) == w.Move(p, OnTheWay(w, l, k + 1))
  {
    MoveTwice(w, p, OnTheWay(w, l, k), OnTheWay(w, l, k + 1));
  }

  lemma Writes(cfg: Config, w: World, p: Pid, l: Lease)
    requires Free(cfg, w, p, l)
    ensures var ready := w.Move(p, OnTheWay(w, l, 4));
            Apply(cfg, Apply(cfg, ready, Step(p, Done)), Step(p, Done)) == AfterLock(cfg, w, p, l)
  {
    var phases := w.phases[p := OnTheWay(w, l, 4)][p := Refresh(l, |w.log|)][p := Held(|w.log|)];
    assert phases == w.phases[p := Held(|w.log|)];
  }

  lemma {:induction false} Approaches(cfg: Config, w: World, p: Pid, l: Lease, k: nat)
    requires Free(cfg, w, p, l) && w.At(p).Idle? && k <= 4
    ensures Run(cfg, w, LockActs(p, k)) == w.Move(p, OnTheWay(w, l, k))
  {
    if k == 0 {
      assert [Lock(p)] == [] + [Lock(p)];
      RunNext(cfg, w, [], Lock(p));
    } else {
      Approaches(cfg, w, p, l, k - 1);
      RunNext(cfg, w, LockActs(p, k - 1), Step(p, Done));
      Moves(cfg, w, p, l, k - 1);
    }
  }

  lemma UndisturbedLock(cfg: Config, w: World, p: Pid, l: Lease)
    requires w.At(p).Idle? && Free(cfg, w, p, l)
    ensures Run(cfg, w, LockActs(p, 6)) == AfterLock(cfg, w, p, l)
  {
    Approaches(cfg, w, p, l, 4);
    RunNext(cfg, w, LockActs(p, 4), Step(p, Done));
    RunNext(cfg, w, LockActs(p, 5), Step(p, Done));
    Writes(cfg, w, p, l);
  }

  /**
   A component that neither releases nor renews in time: the controller ends inside its own window with a
   read that is older than the other's whole tenure still in its cache.
   */
  lemma OverstayLeavesOldReads(cfg: Config, other: Pid, start: Time) returns (w: World, acts: seq<Action>)
    requires OneController(cfg) && other != CONTROLLER && cfg(other).seconds >= 1
    ensures Initial(w)
    ensures var w' := Run(cfg, w, acts);
            && w'.At(CONTROLLER).Held? && w'.At(CONTROLLER).window == 1 && WindowOpen(cfg, w', 1)
            && |w'.log| == 2 && w'.log[0].Acquired? && w'.log[0].who == other
            && start in w'.cache && start < w'.log[0].at
  {
    var l := Lease("", cfg(other).seconds, None, None);
    w := World(start, Some(l), 0, map[], {}, []);
    var first := [Fetch, Tick(1)];
    var w1 := w.(clock := start + 1, cache := {start});
    assert first == [Fetch] + [Tick(1)] && [Fetch] == [] + [Fetch];
    RunNext(cfg, w, [], Fetch);
    RunNext(cfg, w, [Fetch], Tick(1));
    assert Run(cfg, w, first) == w1;

    UndisturbedLock(cfg, w1, other, l);
    RunConcat(cfg, w, first, LockActs(other, 6));
    var w2 := AfterLock(cfg, w1, other, l);
    var late := Tick(cfg(other).seconds * SECOND + MICROSECOND);
    RunNext(cfg, w, first + LockActs(other, 6), late);
    var w3 := Apply(cfg, w2, late);

    UndisturbedLock(cfg, w3, CONTROLLER, w3.lease.value);
    RunConcat(cfg, w, first + LockActs(other, 6) + [late], LockActs(CONTROLLER, 6));
    acts := first + LockActs(other, 6) + [late] + LockActs(CONTROLLER, 6);
  }
}
