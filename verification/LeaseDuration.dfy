/** How long a lease lasts, and what taking it and giving it back write, with all numbers and texts written out. */
module LeaseDuration {
  import opened Text
  import opened LeaseLock
  import opened LeaseSafety
  import opened LeaseOverstay

  // ---------- Taking a lease ----------

  /** A window that lasts for so many seconds from a time on, to the microsecond. */
  predicate LastsFor(e: Event, from: Time, seconds: int) {
    e.Acquired? && e.until <= from + seconds * 1_000_000_000 < e.until + 1_000
  }

  /** Nobody holds the lease, or the component itself does, or its time has passed. */
  predicate Takeable(l: Lease, holder: string, now: Time) {
    || l.holder == "" || EqualFold(l.holder, holder)
    || (if l.renewTime.Some? then now > l.renewTime.value + l.seconds * 1_000_000_000 else now > 0)
  }

  /** No component released the lease before, or the controller did. */
  predicate Familiar(l: Lease) {
    l.annotations.Some? ==>
      && "aks-managed-resource-locker-previous-holder" in l.annotations.value
      && EqualFold(l.annotations.value["aks-managed-resource-locker-previous-holder"], "cloud-controller-manager")
  }

  /** An undisturbed Lock takes such a lease for its number of seconds, to the microsecond, and keeps its notes. */
  lemma LockTakesTheLease(cfg: Config, w: World, p: Pid, l: Lease)
    requires w.At(p).Idle? && w.lease == Some(l) && Takeable(l, cfg(p).holder, w.clock) && Familiar(l)
    ensures var w' := Run(cfg, w, LockActs(p, 6));
            && w'.clock == w.clock && w'.cache == w.cache
            && w'.lease.Some? && w'.lease.value.holder == cfg(p).holder
            && w'.lease.value.seconds == l.seconds && w'.lease.value.annotations == l.annotations
            && w'.At(p) == Held(|w.log|) && |w'.log| == |w.log| + 1
            && LastsFor(w'.log[|w.log|], w.clock, l.seconds)
  {
    UndisturbedLock(cfg, w, p, l);
  }

  /** And it leaves any other lease alone. */
  lemma LockLeavesOthers(cfg: Config, w: World, p: Pid, l: Lease)
    requires w.At(p).Idle? && w.lease == Some(l) && !Takeable(l, cfg(p).holder, w.clock)
    ensures var w' := Run(cfg, w, LockActs(p, 3)); w'.At(p).Idle? && w'.lease == Some(l) && w'.log == w.log
  {
    assert [Lock(p)] == [] + [Lock(p)];
    RunNext(cfg, w, [], Lock(p));
    RunNext(cfg, w, LockActs(p, 0), Step(p, Done));
    RunNext(cfg, w, LockActs(p, 1), Step(p, Done));
    RunNext(cfg, w, LockActs(p, 2), Step(p, Done));
  }

  /** Where no lease exists, Lock creates one that lasts for the component's configured number of seconds. */
  lemma NewLeaseLasts(cfg: Config, w: World, p: Pid)
    requires w.At(p).Idle? && w.lease.None?
    ensures var w' := Run(cfg, w, LockActs(p, 7));
            && w'.clock == w.clock && w'.At(p) == Held(|w.log|) && |w'.log| == |w.log| + 1
            && w'.lease.Some? && w'.lease.value.seconds == cfg(p).seconds
            && LastsFor(w'.log[|w.log|], w.clock, cfg(p).seconds)
  {
    var l := Lease("", cfg(p).seconds, None, None);
    var created := w.(lease := Some(l), version := w.version + 1);
    CreatesLease(cfg, w, p);
    LaterSteps(p, 2, 5);
    RunConcat(cfg, w, LockActs(p, 2), Steps(p, 5));
    FromRead(cfg, created, p, l);
  }

  lemma CreatesLease(cfg: Config, w: World, p: Pid)
    requires w.At(p).Idle? && w.lease.None?
    ensures Run(cfg, w, LockActs(p, 2)) ==
            w.(lease := Some(Lease("", cfg(p).seconds, None, None)), version := w.version + 1).Move(p, ReadToAcquire)
  {
    assert [Lock(p)] == [] + [Lock(p)];
    RunNext(cfg, w, [], Lock(p));
    RunNext(cfg, w, LockActs(p, 0), Step(p, Done));
    RunNext(cfg, w, LockActs(p, 1), Step(p, Done));
    var phases := w.phases[p := Ensure][p := Create][p := ReadToAcquire];
    assert phases == w.phases[p := ReadToAcquire];
  }

  function Steps(p: Pid, k: nat): seq<Action> {
    if k == 0 then [] else Steps(p, k - 1) + [Step(p, Done)]
  }

  lemma {:induction false} LaterSteps(p: Pid, n: nat, k: nat)
    ensures LockActs(p, n + k) == LockActs(p, n) + Steps(p, k)
  {
    if k > 0 {
      LaterSteps(p, n, k - 1);
    }
  }

  /** From the read on, an undisturbed Lock of a free lease. */
  lemma FromRead(cfg: Config, w: World, p: Pid, l: Lease)
    requires Free(cfg, w, p, l)
    ensures Run(cfg, w.Move(p, ReadToAcquire), Steps(p, 5)) == AfterLock(cfg, w, p, l)
  {
    var start := w.Move(p, ReadToAcquire);
    Moves(cfg, w, p, l, 1);
    RunNext(cfg, start, Steps(p, 0), Step(p, Done));
    Moves(cfg, w, p, l, 2);
    RunNext(cfg, start, Steps(p, 1), Step(p, Done));
    Moves(cfg, w, p, l, 3);
    RunNext(cfg, start, Steps(p, 2), Step(p, Done));
    RunNext(cfg, start, Steps(p, 3), Step(p, Done));
    RunNext(cfg, start, Steps(p, 4), Step(p, Done));
    Writes(cfg, w, p, l);
  }

  // ---------- Giving it back ----------

  function UnlockActs(p: Pid): seq<Action> {
    [Unlock(p), Step(p, Done), Step(p, Done), Step(p, Done)]
  }

  lemma UnlockSteps(cfg: Config, w: World, p: Pid)
    ensures Run(cfg, w, UnlockActs(p)) ==
            Apply(cfg, Apply(cfg, Apply(cfg, Apply(cfg, w, Unlock(p)), Step(p, Done)), Step(p, Done)), Step(p, Done))
  {
    var a, s := Unlock(p), Step(p, Done);
    assert [a] == [] + [a] && [a, s] == [a] + [s] && [a, s, s] == [a, s] + [s] && UnlockActs(p) == [a, s, s] + [s];
    RunNext(cfg, w, [], a);
    RunNext(cfg, w, [a], s);
    RunNext(cfg, w, [a, s], s);
    RunNext(cfg, w, [a, s, s], s);
  }

  /** An undisturbed Unlock of an own lease that still runs empties it, signs it, and keeps everything else. */
  lemma UnlockGivesBack(cfg: Config, w: World, p: Pid, l: Lease, renewed: Time)
    requires w.At(p).Held? && w.lease == Some(l) && EqualFold(l.holder, cfg(p).holder) && l.holder != ""
    requires l.renewTime == Some(renewed) && w.clock <= renewed + l.seconds * 1_000_000_000
    ensures var w' := Run(cfg, w, UnlockActs(p));
            && w'.At(p).Idle? && w'.lease.Some?
            && var l' := w'.lease.value;
               && l'.holder == "" && l'.seconds == l.seconds && l'.renewTime == l.renewTime && l'.annotations.Some?
               && "aks-managed-resource-locker-previous-holder" in l'.annotations.value
               && l'.annotations.value["aks-managed-resource-locker-previous-holder"] == cfg(p).name
               && forall k :: k != "aks-managed-resource-locker-previous-holder" && l.annotations.Some? ==>
                    (k in l'.annotations.value <==> k in l.annotations.value) &&
                    (k in l.annotations.value ==> l'.annotations.value[k] == l.annotations.value[k])
  {
    UnlockSteps(cfg, w, p);
  }

  /** An Unlock leaves a lease alone that has run out or is another's. */
  lemma UnlockLeavesOthers(cfg: Config, w: World, p: Pid, l: Lease)
    requires w.At(p).Held? && w.lease == Some(l)
    requires || !EqualFold(l.holder, cfg(p).holder)
             || (l.renewTime.Some? && w.clock > l.renewTime.value + l.seconds * 1_000_000_000)
    ensures var w' := Run(cfg, w, UnlockActs(p)); w'.At(p).Idle? && w'.lease == Some(l) && w'.log == w.log
  {
    UnlockSteps(cfg, w, p);
  }

  // ---------- Over whole runs ----------

  predicate ReadsLast(ph: Phase, seconds: int) {
    match ph
    case CheckToAcquire(l, _) => l.seconds == seconds
    case Stamp(l, _) => l.seconds == seconds
    case WriteToAcquire(l, _, _) => l.seconds == seconds
    case CheckToRelease(l, _) => l.seconds == seconds
    case WriteToRelease(l, _) => l.seconds == seconds
    case _ => true
  }

  /** Every lease, stored or read, is for that many seconds, and no window is longer. */
  ghost predicate Lasts(w: World, seconds: int) {
    && (w.lease.Some? ==> w.lease.value.seconds == seconds)
    && (forall p: Pid :: ReadsLast(w.At(p), seconds))
    && (forall e :: e in w.log && e.Acquired? ==>
          e.before.seconds == seconds && e.until <= e.at + seconds * 1_000_000_000)
  }

  lemma LastsStep(cfg: Config, w: World, a: Action, seconds: int)
    requires Inv(cfg, w) && Lasts(w, seconds) && forall p: Pid :: cfg(p).seconds == seconds
    ensures Lasts(Apply(cfg, w, a), seconds)
  {
    var w' := Apply(cfg, w, a);
    if a.Step? {
      assert PhaseOk(cfg, w, a.p, w.At(a.p)) && ReadsLast(w.At(a.p), seconds);
    }
    forall q: Pid
      ensures ReadsLast(w'.At(q), seconds)
    {
      assert ReadsLast(w.At(q), seconds);
      assert w'.At(q) == w.At(q) || (!a.Tick? && !a.Fetch? && a.p == q);
    }
  }

  /**
   If all components are configured with the same duration and no lease existed, then over every run the lease
   has that duration and no window is longer.
   */
  lemma {:induction false} ConfiguredSeconds(cfg: Config, w: World, acts: seq<Action>, seconds: int)
    requires Initial(w) && NamedHolders(cfg) && w.lease.None? && forall p: Pid :: cfg(p).seconds == seconds
    ensures Lasts(Run(cfg, w, acts), seconds)
  {
    if acts != [] {
      var n := |acts| - 1;
      ConfiguredSeconds(cfg, w, acts[..n], seconds);
      InvRun(cfg, w, acts[..n]);
      LastsStep(cfg, Run(cfg, w, acts[..n]), acts[n], seconds);
    }
  }
}
