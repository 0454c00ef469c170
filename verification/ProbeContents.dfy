/**
 What the health probes of a load balancer hold, field by field, after any sequence of services' calls
 (pkg/provider/azure_loadbalancer.go, pkg/provider/azure_loadbalancer_healthprobe.go).
 */
module ProbeContents {
  import opened Text
  import opened Lists
  import opened OwnedLists
  import opened LbRules
  import opened RuleContents
  import opened SharedProbe

  /** References do not count. */
  predicate ProbesAgree(a: Probe, b: Probe) {
    && EqualFold(a.name, b.name) && EqualFold(a.protocol, b.protocol) && EqualFold(a.path, b.path)
    && a.port == b.port && a.interval == b.interval && a.threshold == b.threshold
  }

  predicate Matches(probes: seq<Probe>, x: Probe) {
    exists e :: e in probes && ProbesAgree(e, x)
  }

  /** The shared probe is an HTTP probe of the configured port and path, every 5 seconds, failing twice. */
  predicate IsSharedProbe(p: Probe, cfg: Config) {
    && EqualFold(p.name, "cluster-service-shared-health-probe")
    && EqualFold(p.protocol, "Http") && p.port == cfg.port && EqualFold(p.path, cfg.path)
    && p.interval == 5 && p.threshold == 2
  }

  lemma FoundIsMatch(probes: seq<Probe>, x: Probe)
    ensures Found(probes, x, SameProbe) <==> Matches(probes, x)
  {
    if Found(probes, x, SameProbe) {
      var k :| 0 <= k < |probes| && SameProbe(probes[k], x);
      assert probes[k] in probes && ProbesAgree(probes[k], x);
    }
  }

  // ---------- What keepSharedProbe finds ----------

  /** The k-th reference is unreadable, and none before it is unreadable or decides that the probe is needed. */
  predicate BrokenAt(refs: seq<string>, ok: string -> bool, wants: string -> bool, k: nat) {
    k < |refs| && !ok(refs[k]) && forall j :: 0 <= j < k ==> ok(refs[j]) && !wants(refs[j])
  }

  ghost predicate Breaks(refs: seq<string>, ok: string -> bool, wants: string -> bool) {
    exists k: nat :: BrokenAt(refs, ok, wants, k)
  }

  lemma {:induction false} BrokenExactly(refs: seq<string>, ok: string -> bool, wants: string -> bool)
    ensures Judge(refs, ok, wants) == Broken <==> Breaks(refs, ok, wants)
  {
    if refs != [] {
      var rest := refs[1..];
      BrokenExactly(rest, ok, wants);
      if !ok(refs[0]) {
        assert BrokenAt(refs, ok, wants, 0);
      } else if !wants(refs[0]) {
        forall k: nat | BrokenAt(rest, ok, wants, k)
          ensures BrokenAt(refs, ok, wants, k + 1)
        {
          assert forall j :: 1 <= j < k + 1 ==> refs[j] == rest[j - 1];
        }
        forall k: nat | BrokenAt(refs, ok, wants, k)
          ensures k > 0 && BrokenAt(rest, ok, wants, k - 1)
        {
          assert forall j :: 0 <= j < k - 1 ==> rest[j] == refs[j + 1];
        }
      }
    }
  }

  ghost predicate Demands(refs: seq<string>, ok: string -> bool, wants: string -> bool) {
    exists k: nat :: WantedAt(refs, ok, wants, k)
  }

  lemma NeededExactly(refs: seq<string>, ok: string -> bool, wants: string -> bool)
    ensures Judge(refs, ok, wants) == Needed <==> Demands(refs, ok, wants)
  {
    if Judge(refs, ok, wants) == Needed {
      var k := NeededIsWanted(refs, ok, wants);
    }
    forall k: nat | WantedAt(refs, ok, wants, k)
      ensures Judge(refs, ok, wants) == Needed
    {
      WantedIsNeeded(refs, ok, wants, k);
    }
  }

  /** A need is found exactly when the scan looks for one and the reference of another service decides. */
  lemma NeedExactly(refs: seq<string>, s: Service, cfg: Config, wantLB: bool)
    ensures Judge(refs, Readable, s.Wants(Considered(cfg, wantLB))) == Needed <==>
            (!wantLB || !cfg.sharedMode) && Demands(refs, Readable, s.Foreign)
  {
    if Considered(cfg, wantLB) {
      NeededExactly(refs, Readable, s.Foreign);
    } else {
      NeededExactly(refs, Readable, s.Never);
    }
  }

  /** The name is what follows the last "/" of the reference, or all of it. */
  predicate Names(ref: string, name: string) {
    && '/' !in name && |name| <= |ref| && ref[|ref| - |name|..] == name
    && (|name| < |ref| ==> ref[|ref| - |name| - 1] == '/')
  }

  lemma SlashInside(ref: string, name: string, longer: string)
    requires |name| < |longer| <= |ref| && ref[|ref| - |longer|..] == longer && ref[|ref| - |name| - 1] == '/'
    ensures '/' in longer
  {
    assert longer[|longer| - |name| - 1] == ref[|ref| - |name| - 1];
  }

  lemma OneName(ref: string, name: string)
    requires Names(ref, name)
    ensures name == LastSegment(ref)
  {
    var last := LastSegment(ref);
    if |name| < |last| {
      SlashInside(ref, name, last);
    } else if |last| < |name| {
      SlashInside(ref, last, name);
    }
  }

  /** A readable reference to a rule that is not the service's. */
  lemma ForeignExactly(s: Service, ref: string, name: string)
    requires Names(ref, name)
    ensures Readable(ref) <==> name != ""
    ensures s.Foreign(ref) <==> name != "" && !Carries(name, s.prefix) &&
                                (s.local || name != "cluster-service-shared-health-probe")
  {
    OneName(ref, name);
    OwnsExactly(s.prefix, s.local, name);
  }

  // ---------- One call ----------

  datatype ProbeCall = ProbeCall(
    s: Service, cfg: Config, wantLB: bool, expected: seq<Probe>, refs: string -> seq<string>)

  /** Before a call Azure has set the references of each probe; refs tells them by the probe's name. */
  function Seen(probes: seq<Probe>, c: ProbeCall): seq<Probe> {
    seq(|probes|, i requires 0 <= i < |probes| => probes[i].(refs := c.refs(probes[i].name)))
  }

  function After(probes: seq<Probe>, c: ProbeCall): seq<Probe> {
    AfterReconcile(Seen(probes, c), c.s, c.cfg, c.wantLB, c.expected)
  }

  /** Expected probes carry the service's prefix or are the shared one, whose name does not carry it. */
  predicate WellFormedCall(c: ProbeCall) {
    && !Carries("cluster-service-shared-health-probe", c.s.prefix)
    && forall e :: e in c.expected ==> Carries(e.name, c.s.prefix) || IsShared(e)
  }

  /** A reference that cannot be read, with none in front of it that decides, fails the scan. */
  ghost predicate Unreadable(probes: seq<Probe>, c: ProbeCall) {
    Breaks(SharedRefs(Seen(probes, c)), Readable, c.s.Wants(!c.wantLB || !c.cfg.sharedMode))
  }

  lemma ExpectedExactly(probes: seq<Probe>, s: Service, cfg: Config, wantLB: bool, expected: seq<Probe>)
    ensures var all := Expected(probes, s, cfg, wantLB, expected);
            && (forall e :: e in all ==> e in expected || e == cfg.Build())
            && (if Breaks(SharedRefs(probes), Readable, s.Wants(!wantLB || !cfg.sharedMode)) then all == []
                else forall e :: e in expected ==> e in all)
  {
    BrokenExactly(SharedRefs(probes), Readable, s.Wants(Considered(cfg, wantLB)));
  }

  /** The probes with the service's prefix are among the expected ones. */
  predicate NoneUnexpected(probes: seq<Probe>, c: ProbeCall) {
    forall x :: x in probes && Carries(x.name, c.s.prefix) ==> Matches(c.expected, x)
  }

  /** The expected probes with the service's prefix are there. */
  predicate NoneMissing(probes: seq<Probe>, c: ProbeCall) {
    forall e :: e in c.expected && Carries(e.name, c.s.prefix) ==> Matches(probes, e)
  }

  lemma ProbesAfterCall(probes: seq<Probe>, c: ProbeCall)
    requires WellFormedCall(c)
    ensures NoneUnexpected(After(probes, c), c)
    ensures !Unreadable(probes, c) ==> NoneMissing(After(probes, c), c)
  {
    var seen := Seen(probes, c);
    var all := Expected(seen, c.s, c.cfg, c.wantLB, c.expected);
    var job := c.s.AsJob(all);
    assert Reflexive(job);
    ReconciledMatches(seen, job);
    ExpectedExactly(seen, c.s, c.cfg, c.wantLB, c.expected);
    forall x | x in After(probes, c) && Carries(x.name, c.s.prefix)
      ensures Matches(c.expected, x)
    {
      OwnsExactly(c.s.prefix, c.s.local, x.name);
      FoundIsMatch(all, x);
      var e :| e in all && ProbesAgree(e, x);
      CarriesFold(e.name, x.name, c.s.prefix);
      assert e != c.cfg.Build();
    }
    forall e | e in all
      ensures Matches(After(probes, c), e)
    {
      FoundIsMatch(After(probes, c), e);
    }
  }

  lemma CarriesFold(a: string, b: string, prefix: string)
    requires EqualFold(a, b)
    ensures Carries(a, prefix) <==> Carries(b, prefix)
  {
    assert |Lower(a)| == |a| && |Lower(b)| == |b|;
  }

  lemma OnePrefix(name: string, p: string, q: string)
    requires Carries(name, p) && Carries(name, q) && |p| == |q|
    ensures EqualFold(p, q)
  {
    assert |Lower(p)| == |p| && |Lower(q)| == |q|;
    assert Lower(p) == Lower(q);
  }

  // ---------- Sequences of calls ----------

  predicate Steps(before: seq<Probe>, c: ProbeCall, after: seq<Probe>) {
    after == After(before, c)
  }

  /** lists[k] are the probes after the first k calls. */
  predicate ProbeRun(lists: seq<seq<Probe>>, calls: seq<ProbeCall>) {
    |lists| == |calls| + 1 && forall k :: 0 <= k < |calls| ==> Steps(lists[k], calls[k], lists[k + 1])
  }

  /** Prefixes have one length, and calls are well formed. */
  predicate ProbeCalls(calls: seq<ProbeCall>) {
    && (forall i :: 0 <= i < |calls| ==> WellFormedCall(calls[i]))
    && (forall i, k :: 0 <= i < |calls| && 0 <= k < |calls| ==> |calls[i].s.prefix| == |calls[k].s.prefix|)
  }

  predicate LatestCall(calls: seq<ProbeCall>, i: nat, k: nat) {
    i < k <= |calls| && forall j :: i < j < k ==> !EqualFold(calls[i].s.prefix, calls[j].s.prefix)
  }

  /** A call of another service touches no probe with the prefix but for its references. */
  lemma OtherCallKeeps(probes: seq<Probe>, c: ProbeCall, d: ProbeCall)
    requires WellFormedCall(c) && WellFormedCall(d)
    requires |c.s.prefix| == |d.s.prefix| && !EqualFold(c.s.prefix, d.s.prefix)
    ensures forall x :: x in After(probes, d) && Carries(x.name, c.s.prefix) ==>
              exists y :: y in probes && x == y.(refs := d.refs(y.name))
    ensures forall y :: y in probes && Carries(y.name, c.s.prefix) ==> y.(refs := d.refs(y.name)) in After(probes, d)
  {
    var seen := Seen(probes, d);
    var all := Expected(seen, d.s, d.cfg, d.wantLB, d.expected);
    var job := d.s.AsJob(all);
    var kept := Filter(seen, job.Keeps);
    FilterMembers(seen, job.Keeps);
    ExtraIsExpected(kept, all, SameProbe);
    forall x: Probe | Carries(x.name, c.s.prefix)
      ensures !d.s.Owns(x) && x !in all
    {
      OwnsExactly(d.s.prefix, d.s.local, x.name);
      if IsShared(x) {
        CarriesFold(x.name, "cluster-service-shared-health-probe", c.s.prefix);
        assert false;
      }
      if Carries(x.name, d.s.prefix) {
        OnePrefix(x.name, c.s.prefix, d.s.prefix);
        assert false;
      }
    }
    forall y | y in probes && Carries(y.name, c.s.prefix)
      ensures y.(refs := d.refs(y.name)) in kept
    {
      var i :| 0 <= i < |probes| && probes[i] == y;
      assert seen[i] == y.(refs := d.refs(y.name)) && Carries(seen[i].name, c.s.prefix);
    }
  }

  lemma StillExpected(probes: seq<Probe>, c: ProbeCall, d: ProbeCall)
    requires WellFormedCall(c) && WellFormedCall(d) && NoneUnexpected(probes, c)
    requires |c.s.prefix| == |d.s.prefix| && !EqualFold(c.s.prefix, d.s.prefix)
    ensures NoneUnexpected(After(probes, d), c)
  {
    OtherCallKeeps(probes, c, d);
    forall x | x in After(probes, d) && Carries(x.name, c.s.prefix)
      ensures Matches(c.expected, x)
    {
      var y :| y in probes && x == y.(refs := d.refs(y.name));
      var e :| e in c.expected && ProbesAgree(e, y);
      assert ProbesAgree(e, x);
    }
  }

  lemma StillThere(probes: seq<Probe>, c: ProbeCall, d: ProbeCall)
    requires WellFormedCall(c) && WellFormedCall(d) && NoneMissing(probes, c)
    requires |c.s.prefix| == |d.s.prefix| && !EqualFold(c.s.prefix, d.s.prefix)
    ensures NoneMissing(After(probes, d), c)
  {
    OtherCallKeeps(probes, c, d);
    forall e | e in c.expected && Carries(e.name, c.s.prefix)
      ensures Matches(After(probes, d), e)
    {
      var y :| y in probes && ProbesAgree(y, e);
      CarriesFold(y.name, e.name, c.s.prefix);
      var x := y.(refs := d.refs(y.name));
      assert x in After(probes, d) && ProbesAgree(x, e);
    }
  }

  predicate Others(c: ProbeCall, d: ProbeCall) {
    && WellFormedCall(c) && WellFormedCall(d)
    && |c.s.prefix| == |d.s.prefix| && !EqualFold(c.s.prefix, d.s.prefix)
  }

  lemma OtherCallSettles(before: seq<Probe>, after: seq<Probe>, c: ProbeCall, d: ProbeCall)
    requires Others(c, d) && Steps(before, d, after)
    ensures NoneUnexpected(before, c) ==> NoneUnexpected(after, c)
    ensures NoneMissing(before, c) ==> NoneMissing(after, c)
  {
    if NoneUnexpected(before, c) {
      StillExpected(before, c, d);
    }
    if NoneMissing(before, c) {
      StillThere(before, c, d);
    }
  }

  lemma LaterIsOther(calls: seq<ProbeCall>, i: nat, j: nat)
    requires ProbeCalls(calls) && LatestCall(calls, i, |calls|) && i < j < |calls|
    ensures Others(calls[i], calls[j])
  {
  }

  /** What a service's call settles stays so while others call. */
  lemma {:induction false} StaysSettled(lists: seq<seq<Probe>>, calls: seq<ProbeCall>, i: nat, k: nat)
    requires ProbeRun(lists, calls) && i < k <= |calls| && forall j :: i < j < k ==> Others(calls[i], calls[j])
    ensures NoneUnexpected(lists[i + 1], calls[i]) ==> NoneUnexpected(lists[k], calls[i])
    ensures NoneMissing(lists[i + 1], calls[i]) ==> NoneMissing(lists[k], calls[i])
    decreases k
  {
    var n := k - 1;
    if i < n {
      StaysSettled(lists, calls, i, n);
      OtherCallSettles(lists[n], lists[n + 1], calls[i], calls[n]);
    }
  }

  /**
   After any sequence of calls every probe that carries a service's prefix agrees with a probe of that service's
   latest call, and every such probe of that call has one that agrees with it unless the call met an unreadable
   reference.
   */
  lemma ProbesAfterCalls(lists: seq<seq<Probe>>, calls: seq<ProbeCall>, i: nat)
    requires ProbeRun(lists, calls) && ProbeCalls(calls) && LatestCall(calls, i, |calls|)
    ensures NoneUnexpected(lists[|calls|], calls[i])
    ensures !Unreadable(lists[i], calls[i]) ==> NoneMissing(lists[|calls|], calls[i])
  {
    assert Steps(lists[i], calls[i], lists[i + 1]);
    ProbesAfterCall(lists[i], calls[i]);
    forall j | i < j < |calls|
      ensures Others(calls[i], calls[j])
    {
      LaterIsOther(calls, i, j);
    }
    StaysSettled(lists, calls, i, |calls|);
  }

  /**
   A service that leaves, or any service while probes are not shared, keeps a shared probe for the others: it is
   there after the call, with the configured port and path.
   */
  lemma SharedProbeIsBuilt(probes: seq<Probe>, s: Service, cfg: Config, wantLB: bool, expected: seq<Probe>)
    requires (!wantLB || !cfg.sharedMode) && Demands(SharedRefs(probes), Readable, s.Foreign)
    ensures exists p :: p in AfterReconcile(probes, s, cfg, wantLB, expected) && IsSharedProbe(p, cfg)
  {
    var after := AfterReconcile(probes, s, cfg, wantLB, expected);
    NeedExactly(SharedRefs(probes), s, cfg, wantLB);
    NeededIsKept(probes, s, cfg, wantLB, expected);
    FoundIsMatch(after, cfg.Build());
    var p :| p in after && ProbesAgree(p, cfg.Build());
    assert IsSharedProbe(p, cfg);
  }

  /** Otherwise a service with the cluster traffic policy, which owns the probe, leaves none that it does not expect. */
  lemma SharedProbeGoes(probes: seq<Probe>, s: Service, cfg: Config, wantLB: bool, expected: seq<Probe>, p: Probe)
    requires !s.local && !Matches(expected, p) && p.name == "cluster-service-shared-health-probe"
    requires (wantLB && cfg.sharedMode) || !Demands(SharedRefs(probes), Readable, s.Foreign)
    ensures p !in AfterReconcile(probes, s, cfg, wantLB, expected)
  {
    var all := Expected(probes, s, cfg, wantLB, expected);
    NeedExactly(SharedRefs(probes), s, cfg, wantLB);
    var job := s.AsJob(all);
    assert Reflexive(job);
    ReconciledMatches(probes, job);
    OwnsExactly(s.prefix, s.local, p.name);
    FoundIsMatch(all, p);
    assert all == expected || all == [];
  }
}
