/**
 What the lock buys the controller: inside its window, its load balancer cache holds nothing older than the
 last time another component gave the lease back.
 */
module LeaseFreshness {
  import opened Text
  import opened LeaseLock
  import opened LeaseSafety

  /** One controller process; the others have other identities and sign their releases as such. */
  ghost predicate OneController(cfg: Config) {
    && cfg(CONTROLLER).holder == CONTROLLER_NAME
    && cfg(CONTROLLER).name == CONTROLLER_NAME
    && (forall p: Pid :: p != CONTROLLER ==>
          cfg(p).holder != "" && !EqualFold(cfg(p).holder, CONTROLLER_NAME) && !EqualFold(cfg(p).name, CONTROLLER_NAME))
  }

  predicate OtherRelease(e: Event) {
    e.Released? && e.who != CONTROLLER
  }

  /** No cached read began before another component's release. */
  ghost predicate Fresh(w: World) {
    forall t, e :: t in w.cache && e in w.log && OtherRelease(e) ==> e.at <= t
  }

  predicate ControllerHolds(w: World) {
    w.lease.Some? && EqualFold(w.lease.value.holder, CONTROLLER_NAME)
  }

  ghost predicate FreshInv(w: World) {
    && (Fresh(w) || (w.lease.Some? && ForeignRelease(w.lease.value)))
    && (ControllerHolds(w) ==>
          match w.At(CONTROLLER)
          case Refresh(l, _) => Fresh(w) || ForeignRelease(l)
          case Held(_) => Fresh(w)
          case ReadToRelease => Fresh(w)
          case CheckToRelease(_, _) => Fresh(w)
          case WriteToRelease(_, _) => Fresh(w)
          case _ => true)
  }

  lemma FreshAcquire(cfg: Config, w: World, p: Pid, outcome: Outcome)
    requires OneController(cfg) && Inv(cfg, w) && FreshInv(w) && w.At(p).WriteToAcquire?
    ensures FreshInv(Apply(cfg, w, Step(p, outcome)))
  {
    assert PhaseOk(cfg, w, p, w.At(p));
    var w' := Advance(cfg, w, p, outcome);
    assert forall e :: e in w'.log && OtherRelease(e) ==> e in w.log;
  }

  lemma FreshRelease(cfg: Config, w: World, p: Pid, outcome: Outcome)
    requires OneController(cfg) && Inv(cfg, w) && FreshInv(w) && w.At(p).WriteToRelease?
    ensures FreshInv(Apply(cfg, w, Step(p, outcome)))
  {
    assert PhaseOk(cfg, w, p, w.At(p));
    var w' := Advance(cfg, w, p, outcome);
    assert |Lower("")| == 0 && |Lower(CONTROLLER_NAME)| > 0;
    if w'.log != w.log {
      assert w'.lease.value.annotations.value[PREVIOUS_HOLDER] == cfg(p).name;
      if p == CONTROLLER {
        assert forall e :: e in w'.log && OtherRelease(e) ==> e in w.log;
      }
    }
  }

  lemma FreshQuiet(cfg: Config, w: World, p: Pid, outcome: Outcome)
    requires Inv(cfg, w) && FreshInv(w) && !w.At(p).WriteToAcquire? && !w.At(p).WriteToRelease?
    ensures FreshInv(Apply(cfg, w, Step(p, outcome)))
  {
    var w' := Apply(cfg, w, Step(p, outcome));
    assert |Lower("")| == 0 && |Lower(CONTROLLER_NAME)| > 0;
    assert w'.log == w.log && (w'.cache == w.cache || w'.cache == {});
    assert Fresh(w) ==> Fresh(w');
  }

  lemma FreshOther(cfg: Config, w: World, a: Action)
    requires Inv(cfg, w) && FreshInv(w) && !a.Step?
    ensures FreshInv(Apply(cfg, w, a))
  {
    assert Fresh(w) ==> Fresh(Apply(cfg, w, a));
  }

  lemma FreshStep(cfg: Config, w: World, a: Action)
    requires OneController(cfg) && Inv(cfg, w) && FreshInv(w)
    ensures FreshInv(Apply(cfg, w, a))
  {
    match a {
      case Step(p, outcome) =>
        match w.At(p) {
          case WriteToAcquire(_, _, _) => FreshAcquire(cfg, w, p, outcome);
          case WriteToRelease(_, _) => FreshRelease(cfg, w, p, outcome);
          case _ => FreshQuiet(cfg, w, p, outcome);
        }
      case _ => FreshOther(cfg, w, a);
    }
  }

  lemma {:induction false} FreshRun(cfg: Config, w: World, acts: seq<Action>)
    requires Initial(w) && OneController(cfg)
    ensures FreshInv(Run(cfg, w, acts))
  {
    if acts != [] {
      var n := |acts| - 1;
      FreshRun(cfg, w, acts[..n]);
      InvRun(cfg, w, acts[..n]);
      FreshStep(cfg, Run(cfg, w, acts[..n]), acts[n]);
    }
  }

  /**
   Whenever the controller's Lock has returned without error and its window is neither over nor released,
   no entry of its load balancer cache was read before the last release of another component.
   */
  lemma FreshInsideWindow(cfg: Config, w: World, acts: seq<Action>)
    requires Initial(w) && OneController(cfg)
    requires var w' := Run(cfg, w, acts);
             w'.At(CONTROLLER).Held? && WindowOpen(cfg, w', w'.At(CONTROLLER).window)
    ensures Fresh(Run(cfg, w, acts))
  {
    FreshRun(cfg, w, acts);
    InvRun(cfg, w, acts);
    var w' := Run(cfg, w, acts);
    assert PhaseOk(cfg, w', CONTROLLER, w'.At(CONTROLLER));
  }

  // ---------- Components that never let the lease run out ----------

  ghost predicate Timely(w: World) {
    w.lease.Some? && w.lease.value.holder != "" && !ControllerHolds(w) ==> w.clock <= Expiration(w.lease.value)
  }

  ghost predicate TimelyRun(cfg: Config, w: World, acts: seq<Action>) {
    forall n :: 0 <= n <= |acts| ==> Timely(Run(cfg, w, acts[..n]))
  }

  ghost predicate GivenBack(cfg: Config, log: seq<Event>, i: nat)
    requires i < |log|
  {
    ReleasedBetween(cfg, log, i, |log|)
  }

  /** Every other component that acquired still holds the lease or has given it back. */
  ghost predicate TenureInv(cfg: Config, w: World) {
    forall i: nat :: i < |w.log| && w.log[i].Acquired? && w.log[i].who != CONTROLLER ==>
      || (w.lease.Some? && EqualFold(w.lease.value.holder, cfg(w.log[i].who).holder))
      || GivenBack(cfg, w.log, i)
  }

  /** After a write by p, with Timely before it. */
  lemma TenureKept(cfg: Config, w: World, w': World, i: nat)
    requires OneController(cfg) && Timely(w) && TenureInv(cfg, w)
    requires w.lease.Some? && w'.lease.Some? && |w'.log| == |w.log| + 1 && w.log <= w'.log
    requires var e := w'.log[|w.log|];
             && e.before == w.lease.value
             && (e.Acquired? ==> MayAcquire(e.before, cfg(e.who).holder, w.clock) && w'.lease.value.holder == cfg(e.who).holder)
             && (e.Released? ==> EqualFold(e.before.holder, cfg(e.who).holder))
    requires i < |w.log| && w.log[i].Acquired? && w.log[i].who != CONTROLLER
    ensures EqualFold(w'.lease.value.holder, cfg(w.log[i].who).holder) || GivenBack(cfg, w'.log, i)
  {
  }

  lemma TenureStep(cfg: Config, w: World, a: Action)
    requires OneController(cfg) && Inv(cfg, w) && TenureInv(cfg, w) && Timely(w)
    ensures TenureInv(cfg, Apply(cfg, w, a))
  {
    var w' := Apply(cfg, w, a);
    if w'.log != w.log {
      assert PhaseOk(cfg, w, a.p, w.At(a.p));
      forall i: nat | i < |w.log| && w.log[i].Acquired? && w.log[i].who != CONTROLLER
        ensures EqualFold(w'.lease.value.holder, cfg(w.log[i].who).holder) || GivenBack(cfg, w'.log, i)
      {
        TenureKept(cfg, w, w', i);
      }
    } else {
      assert w.lease.Some? ==> w'.lease == w.lease;
    }
  }

  lemma {:induction false} TenureRun(cfg: Config, w: World, acts: seq<Action>)
    requires Initial(w) && OneController(cfg) && TimelyRun(cfg, w, acts)
    ensures TenureInv(cfg, Run(cfg, w, acts))
  {
    if acts != [] {
      var n := |acts| - 1;
      forall m | 0 <= m <= n ensures Timely(Run(cfg, w, acts[..n][..m])) {
        assert acts[..n][..m] == acts[..m];
      }
      TenureRun(cfg, w, acts[..n]);
      InvRun(cfg, w, acts[..n]);
      TenureStep(cfg, Run(cfg, w, acts[..n]), acts[n]);
    }
  }

  /**
   If the others never let the lease run out, then inside the controller's window every earlier tenure of
   another component ended with a release, and nothing cached is older than that release.
   */
  lemma NothingCachedFromAnothersTenure(cfg: Config, w: World, acts: seq<Action>, i: nat) returns (k: nat)
    requires Initial(w) && OneController(cfg) && TimelyRun(cfg, w, acts)
    requires var w' := Run(cfg, w, acts);
             && w'.At(CONTROLLER).Held? && WindowOpen(cfg, w', w'.At(CONTROLLER).window)
             && i < |w'.log| && w'.log[i].Acquired? && w'.log[i].who != CONTROLLER
    ensures var w' := Run(cfg, w, acts);
            && i < k < |w'.log| && w'.log[k].Released? && SameIdentity(cfg, w'.log[k].who, w'.log[i].who)
            && (forall t :: t in w'.cache ==> w'.log[k].at <= t)
  {
    var w' := Run(cfg, w, acts);
    TenureRun(cfg, w, acts);
    InvRun(cfg, w, acts);
    FreshInsideWindow(cfg, w, acts);
    assert PhaseOk(cfg, w', CONTROLLER, w'.At(CONTROLLER));
    assert GivenBack(cfg, w'.log, i);
    k :| i < k < |w'.log| && w'.log[k].Released? && SameIdentity(cfg, w'.log[k].who, w'.log[i].who);
    assert OtherRelease(w'.log[k]);
  }
}
