/** Mutual exclusion of the lease lock over every interleaving. */
module LeaseSafety {
  import opened Text
  import opened LeaseLock

  /** A component moves on, or the controller's cache changes, without a write to the lease. */
  lemma QuietStep(cfg: Config, w: World, p: Pid, phase: Phase, cache: set<Time>)
    requires Inv(cfg, w) && PhaseOk(cfg, w, p, phase)
    ensures Inv(cfg, w.(cache := cache).Move(p, phase))
  {
    var w' := w.(cache := cache).Move(p, phase);
    forall q: Pid ensures PhaseOk(cfg, w', q, w'.At(q)) {
      assert PhaseOk(cfg, w, q, w.At(q));
    }
    forall i: nat | WindowOpen(cfg, w', i)
      ensures WindowOpen(cfg, w, i)
    {
    }
  }

  /** Time passes, or the controller reads a load balancer. */
  lemma PassStep(cfg: Config, w: World, d: nat, cache: set<Time>)
    requires Inv(cfg, w)
    ensures Inv(cfg, w.(clock := w.clock + d, cache := cache))
  {
    var w' := w.(clock := w.clock + d, cache := cache);
    forall q: Pid ensures PhaseOk(cfg, w', q, w'.At(q)) {
      assert PhaseOk(cfg, w, q, w.At(q));
    }
    forall i: nat | WindowOpen(cfg, w', i)
      ensures WindowOpen(cfg, w, i)
    {
    }
  }

  lemma CreateStep(cfg: Config, w: World, p: Pid, outcome: Outcome)
    requires Inv(cfg, w) && w.At(p).Create?
    ensures Inv(cfg, CreateLease(cfg, w, p, outcome))
  {
    var w' := CreateLease(cfg, w, p, outcome);
    if outcome.Refused? || w.lease.Some? {
      QuietStep(cfg, w, p, Idle, w.cache);
    } else {
      forall q: Pid ensures PhaseOk(cfg, w', q, w'.At(q)) {
        assert PhaseOk(cfg, w, q, w.At(q));
      }
      forall i: nat | WindowOpen(cfg, w', i)
        ensures WindowOpen(cfg, w, i)
      {
      }
    }
  }

  /** Phases survive another component's write: reads taken before it are out of date for good. */
  lemma PhasesAfterWrite(cfg: Config, w: World, w': World, p: Pid)
    requires Inv(cfg, w)
    requires w'.version == w.version + 1 && w'.clock == w.clock
    requires w.log <= w'.log
    requires forall q: Pid :: q != p ==> w'.At(q) == w.At(q)
    requires PhaseOk(cfg, w', p, w'.At(p))
    ensures forall q: Pid :: PhaseOk(cfg, w', q, w'.At(q))
  {
  }

  lemma AcquireStep(cfg: Config, w: World, p: Pid, outcome: Outcome)
    requires Inv(cfg, w) && NamedHolders(cfg) && w.At(p).WriteToAcquire?
    ensures Inv(cfg, Advance(cfg, w, p, outcome))
  {
    var WriteToAcquire(l, v, t) := w.At(p);
    var w' := WriteAcquire(cfg, w, p, outcome, l, v, t);
    assert PhaseOk(cfg, w, p, w.At(p));
    if outcome.Refused? || v != w.version {
      QuietStep(cfg, w, p, Idle, w.cache);
    } else {
      var l' := AcquiredBy(l, cfg(p).holder, t);
      var n := |w.log|;
      PhasesAfterWrite(cfg, w, w', p);
      OpenBefore(cfg, w, w');
      forall i: nat | WindowOpen(cfg, w', i)
        ensures EqualFold(l'.holder, cfg(w'.log[i].who).holder) && w'.log[i].until <= Expiration(l')
      {
        if i < n {
          NotTakenOver(cfg, w, p, l, i);
          RenewedLater(l, cfg(p).holder, t);
        }
      }
      forall i: nat | i < n && w.log[i].Acquired? && !SameIdentity(cfg, w.log[i].who, p)
        ensures w.clock > w.log[i].until || ReleasedBetween(cfg, w'.log, i, n)
      {
        if w.clock <= w.log[i].until && Unreleased(cfg, w.log, i) {
          assert WindowOpen(cfg, w, i);
          NotTakenOver(cfg, w, p, l, i);
        } else if w.clock <= w.log[i].until {
          var k :| i < k < n && w.log[k].Released? && SameIdentity(cfg, w.log[k].who, w.log[i].who);
          assert w'.log[k] == w.log[k] && w'.log[i] == w.log[i];
        }
      }
      ExclusiveExtends(cfg, w.log, w'.log[n]);
    }
  }

  /** A window open after an event was already open before it. */
  lemma OpenBefore(cfg: Config, w: World, w': World)
    requires w.log <= w'.log && w'.clock == w.clock
    ensures forall i: nat :: i < |w.log| && WindowOpen(cfg, w', i) ==> WindowOpen(cfg, w, i)
  {
  }

  /** Whoever may acquire the current lease has the identity of every open window. */
  lemma NotTakenOver(cfg: Config, w: World, p: Pid, l: Lease, i: nat)
    requires Guarded(cfg, w) && NamedHolders(cfg)
    requires w.lease == Some(l) && MayAcquire(l, cfg(p).holder, w.clock)
    requires WindowOpen(cfg, w, i)
    ensures SameIdentity(cfg, w.log[i].who, p)
    ensures l.renewTime.Some? && w.log[i].until <= Expiration(l)
  {
  }

  /** Renewing does not bring the expiry forward. */
  lemma RenewedLater(l: Lease, holder: string, t: Time)
    requires WellTimed(l, t)
    ensures l.renewTime.Some? ==> Expiration(l) <= Expiration(AcquiredBy(l, holder, t))
  {
  }

  lemma ExclusiveExtends(cfg: Config, log: seq<Event>, e: Event)
    requires Exclusive(cfg, log)
    requires e.Acquired? ==>
               forall i: nat :: i < |log| && log[i].Acquired? && !SameIdentity(cfg, log[i].who, e.who) ==>
                 e.at > log[i].until || ReleasedBetween(cfg, log + [e], i, |log|)
    ensures Exclusive(cfg, log + [e])
  {
    var log' := log + [e];
    forall i, j | 0 <= i < j < |log'| && log'[i].Acquired? && log'[j].Acquired? && !SameIdentity(cfg, log'[i].who, log'[j].who)
      ensures log'[j].at > log'[i].until || ReleasedBetween(cfg, log', i, j)
    {
      if j < |log| && log[j].at <= log[i].until {
        var k :| i < k < j && log[k].Released? && SameIdentity(cfg, log[k].who, log[i].who);
        assert log'[k] == log[k];
      }
    }
  }

  lemma ReleaseStep(cfg: Config, w: World, p: Pid, outcome: Outcome)
    requires Inv(cfg, w) && NamedHolders(cfg) && w.At(p).WriteToRelease?
    ensures Inv(cfg, Advance(cfg, w, p, outcome))
  {
    var WriteToRelease(l, v) := w.At(p);
    var w' := WriteRelease(cfg, w, p, outcome, l, v);
    assert PhaseOk(cfg, w, p, w.At(p));
    if outcome.Refused? || v != w.version {
      QuietStep(cfg, w, p, Idle, w.cache);
    } else {
      var n := |w.log|;
      PhasesAfterWrite(cfg, w, w', p);
      forall i: nat | WindowOpen(cfg, w, i)
        ensures !Unreleased(cfg, w'.log, i)
      {
        assert w'.log[n].Released? && SameIdentity(cfg, w'.log[n].who, w'.log[i].who);
      }
      OpenBefore(cfg, w, w');
      ExclusiveExtends(cfg, w.log, w'.log[n]);
    }
  }

  lemma AdvanceStep(cfg: Config, w: World, p: Pid, outcome: Outcome)
    requires Inv(cfg, w) && NamedHolders(cfg)
    ensures Inv(cfg, Advance(cfg, w, p, outcome))
  {
    assert PhaseOk(cfg, w, p, w.At(p));
    match w.At(p) {
      case Create => CreateStep(cfg, w, p, outcome);
      case WriteToAcquire(_, _, _) => AcquireStep(cfg, w, p, outcome);
      case WriteToRelease(_, _) => ReleaseStep(cfg, w, p, outcome);
      case _ =>
        var w' := Advance(cfg, w, p, outcome);
        if w' != w {
          QuietStep(cfg, w, p, w'.At(p), w'.cache);
        }
    }
  }

  lemma InvStep(cfg: Config, w: World, a: Action)
    requires Inv(cfg, w) && NamedHolders(cfg)
    ensures Inv(cfg, Apply(cfg, w, a))
  {
    match a {
      case Tick(d) => PassStep(cfg, w, d, w.cache);
      case Fetch => PassStep(cfg, w, 0, w.cache + {w.clock});
      case Lock(p) => QuietStep(cfg, w, p, Ensure, w.cache);
      case Unlock(p) => QuietStep(cfg, w, p, ReadToRelease, w.cache);
      case Step(p, outcome) => AdvanceStep(cfg, w, p, outcome);
    }
  }

  lemma {:induction false} InvRun(cfg: Config, w: World, acts: seq<Action>)
    requires Initial(w) && NamedHolders(cfg)
    ensures Inv(cfg, Run(cfg, w, acts))
  {
    if acts != [] {
      var n := |acts| - 1;
      InvRun(cfg, w, acts[..n]);
      InvStep(cfg, Run(cfg, w, acts[..n]), acts[n]);
    }
  }

  /**
   Over every interleaving, with clocks advancing at will, writes refused, and writes applied but reported as
   failed: an acquire replaced only an empty, expired or own lease, a release cleared only an own lease, no
   window was opened over another identity's window that was neither expired nor released, and at no time
   are two components of different identity both inside such a window.
   */
  lemma MutualExclusion(cfg: Config, w: World, acts: seq<Action>)
    requires Initial(w) && NamedHolders(cfg)
    ensures var w' := Run(cfg, w, acts);
            && Orderly(cfg, w'.log)
            && Exclusive(cfg, w'.log)
            && (forall i: nat, j: nat :: WindowOpen(cfg, w', i) && WindowOpen(cfg, w', j) ==>
                  SameIdentity(cfg, w'.log[i].who, w'.log[j].who))
            && (forall p: Pid :: w'.At(p).Held? ==>
                  w'.At(p).window < |w'.log| && w'.log[w'.At(p).window].Acquired? && w'.log[w'.At(p).window].who == p)
  {
    InvRun(cfg, w, acts);
    var w' := Run(cfg, w, acts);
    forall p: Pid | w'.At(p).Held?
      ensures w'.At(p).window < |w'.log| && w'.log[w'.At(p).window].Acquired? && w'.log[w'.At(p).window].who == p
    {
      assert PhaseOk(cfg, w', p, w'.At(p));
    }
  }

  /** Two holders inside their unexpired, unreleased windows have the same identity. */
  lemma OneIdentityInside(cfg: Config, w: World, acts: seq<Action>, p: Pid, q: Pid)
    requires Initial(w) && NamedHolders(cfg)
    requires var w' := Run(cfg, w, acts);
             && w'.At(p).Held? && WindowOpen(cfg, w', w'.At(p).window)
             && w'.At(q).Held? && WindowOpen(cfg, w', w'.At(q).window)
    ensures SameIdentity(cfg, p, q)
  {
    MutualExclusion(cfg, w, acts);
  }
}
