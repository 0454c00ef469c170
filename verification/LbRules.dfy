/**
 Load balancing rules of many services on one load balancer (pkg/provider/azure_loadbalancer.go).  A service
 owns the rules whose names carry its prefix.
 */
module LbRules {
  import opened Text
  import opened Lists
  import opened OwnedLists

  /** References are the ID of a resource, None when the Go pointer is nil. */
  datatype Properties = Properties(
    protocol: string,
    tcpReset: Option<bool>,
    frontend: Option<string>,
    pool: Option<string>,
    distribution: string,
    frontendPort: Option<int>,
    backendPort: Option<int>,
    probe: Option<string>,
    floatingIP: Option<bool>,
    disableSnat: Option<bool>,
    idleTimeout: Option<int>)

  datatype Rule = Rule(name: string, properties: Option<Properties>)

  const TCP := "Tcp"
  const SHARED_PROBE := "cluster-service-shared-health-probe"

  function OrFalse(b: Option<bool>): bool {
    b.Some? && b.value
  }

  /** equalSubResource. */
  predicate SameResource(a: Option<string>, b: Option<string>) {
    if a.Some? && b.Some? then EqualFold(a.value, b.value) else a == b
  }

  /** What equalLoadBalancingRulePropertiesFormat compares apart from the idle timeout. */
  predicate SameButTimeout(s: Properties, t: Properties) {
    && s.protocol == t.protocol
    && (s.protocol == TCP ==> OrFalse(s.tcpReset) == OrFalse(t.tcpReset))
    && SameResource(s.frontend, t.frontend)
    && SameResource(s.pool, t.pool)
    && s.distribution == t.distribution
    && s.frontendPort == t.frontendPort
    && s.backendPort == t.backendPort
    && SameResource(s.probe, t.probe)
    && s.floatingIP == t.floatingIP
    && OrFalse(s.disableSnat) == OrFalse(t.disableSnat)
  }

  predicate SameTimeout(s: Properties, t: Properties, wantLB: bool) {
    wantLB && s.idleTimeout.Some? && t.idleTimeout.Some? ==> s.idleTimeout == t.idleTimeout
  }

  /** The test in findRule. */
  predicate SameRule(a: Rule, b: Rule, wantLB: bool) {
    && EqualFold(a.name, b.name)
    && a.properties.Some? && b.properties.Some?
    && SameButTimeout(a.properties.value, b.properties.value)
    && SameTimeout(a.properties.value, b.properties.value, wantLB)
  }

  /** Symmetric, and not transitive exactly when two set timeouts differ around an unset one. */
  lemma TransitiveExactlyWhen(a: Rule, b: Rule, c: Rule, wantLB: bool)
    requires SameRule(a, b, wantLB) && SameRule(b, c, wantLB)
    ensures SameRule(b, a, wantLB)
    ensures SameRule(a, c, wantLB) <==> SameTimeout(a.properties.value, c.properties.value, wantLB)
    ensures !SameRule(a, c, wantLB) ==> b.properties.value.idleTimeout.None?
  {
  }

  lemma NotTransitive(name: string, p: Properties)
    ensures var rule := (t: Option<int>) => Rule(name, Some(p.(idleTimeout := t)));
            && SameRule(rule(Some(4)), rule(None), true) && SameRule(rule(None), rule(Some(5)), true)
            && !SameRule(rule(Some(4)), rule(Some(5)), true)
  {
  }

  /** strings.HasPrefix on upper-case forms. */
  predicate HasPrefixFold(s: string, prefix: string) {
    |prefix| <= |s| && EqualFold(s[..|prefix|], prefix)
  }

  /** serviceOwnsRule. */
  predicate OwnsName(prefix: string, local: bool, name: string) {
    (!local && name == SHARED_PROBE) || HasPrefixFold(name, prefix)
  }

  /** One call of reconcileLBRules. */
  datatype RuleCall = RuleCall(prefix: string, local: bool, wantLB: bool, expected: seq<Rule>) {
    predicate Owns(r: Rule) {
      OwnsName(prefix, local, r.name)
    }

    predicate Same(a: Rule, b: Rule) {
      SameRule(a, b, wantLB)
    }

    function AsJob(): Job<Rule> {
      Job(Owns, expected, Same)
    }
  }

  /** Expected rules are complete and carry the prefix; none is named like the shared probe. */
  predicate WellFormed(c: RuleCall) {
    forall e :: e in c.expected ==>
      e.properties.Some? && HasPrefixFold(e.name, c.prefix) && !EqualFold(e.name, SHARED_PROBE)
  }

  /** The service's rules in the list are those of its call, up to the comparison that the call used. */
  ghost predicate Settled(rules: seq<Rule>, c: RuleCall) {
    && (forall x :: x in rules && c.Owns(x) ==> Found(c.expected, x, c.Same))
    && (forall e :: e in c.expected ==> Found(rules, e, c.Same))
  }

  lemma CallIsReflexive(c: RuleCall)
    requires WellFormed(c)
    ensures Reflexive(c.AsJob())
  {
  }

  lemma OwnCallSettles(rules: seq<Rule>, c: RuleCall)
    requires WellFormed(c)
    ensures Settled(Reconciled(rules, c.AsJob()), c)
  {
    CallIsReflexive(c);
    ReconciledMatches(rules, c.AsJob());
  }

  lemma LowerPrefix(s: string, k: nat)
    requires k <= |s|
    ensures Lower(s[..k]) == Lower(s)[..k]
  {
  }

  /** Names equal up to case carry the same prefixes; prefixes of one length are equal up to case. */
  lemma PrefixFacts(a: string, b: string, p: string, q: string)
    ensures EqualFold(a, b) && HasPrefixFold(a, p) ==> HasPrefixFold(b, p)
    ensures HasPrefixFold(a, p) && HasPrefixFold(a, q) && |p| == |q| ==> EqualFold(p, q)
  {
    if HasPrefixFold(a, p) {
      LowerPrefix(a, |p|);
      if EqualFold(a, b) {
        assert |Lower(a)| == |a| && |Lower(b)| == |b|;
        LowerPrefix(b, |p|);
      }
    }
  }

  /** A call of another service leaves a settled service settled. */
  lemma SettledKept(rules: seq<Rule>, c: RuleCall, d: RuleCall)
    requires WellFormed(c) && WellFormed(d) && Settled(rules, c)
    requires |c.prefix| == |d.prefix| && !EqualFold(c.prefix, d.prefix)
    ensures Settled(Reconciled(rules, d.AsJob()), c)
  {
    var job := d.AsJob();
    var kept := Filter(rules, job.Keeps);
    FilterMembers(rules, job.Keeps);
    ExtraIsExpected(kept, d.expected, d.Same);
    forall x | x in d.expected
      ensures !c.Owns(x)
    {
      PrefixFacts(x.name, x.name, c.prefix, d.prefix);
    }
    forall e | e in c.expected
      ensures Found(Reconciled(rules, job), e, c.Same)
    {
      StillFound(rules, c, d, e);
    }
  }

  lemma StillFound(rules: seq<Rule>, c: RuleCall, d: RuleCall, e: Rule)
    requires WellFormed(c) && e in c.expected && Found(rules, e, c.Same)
    requires |c.prefix| == |d.prefix| && !EqualFold(c.prefix, d.prefix)
    ensures Found(Reconciled(rules, d.AsJob()), e, c.Same)
  {
    var job := d.AsJob();
    var kept := Filter(rules, job.Keeps);
    FilterMembers(rules, job.Keeps);
    var k :| 0 <= k < |rules| && c.Same(rules[k], e);
    var x := rules[k];
    PrefixFacts(e.name, x.name, c.prefix, d.prefix);
    PrefixFacts(x.name, x.name, c.prefix, d.prefix);
    assert !d.Owns(x);
    assert x in kept;
    var i :| 0 <= i < |kept| && kept[i] == x;
    assert c.Same(kept[i], e);
    FoundInLonger(kept, Extra(kept, d.expected, d.Same), e, c.Same);
  }

  // ---------- Sequences of calls ----------

  /** The rules after the first k calls. */
  function Run(rules: seq<Rule>, calls: seq<RuleCall>, k: nat): seq<Rule>
    requires k <= |calls|
  {
    if k == 0 then rules else Reconciled(Run(rules, calls, k - 1), calls[k - 1].AsJob())
  }

  predicate EqualLength(calls: seq<RuleCall>) {
    forall i, k :: 0 <= i < k < |calls| ==> |calls[i].prefix| == |calls[k].prefix|
  }

  /** Of the first k calls, the i-th is the latest one of its service. */
  predicate Latest(calls: seq<RuleCall>, i: nat, k: nat) {
    i < k <= |calls| && forall j :: i < j < k ==> !EqualFold(calls[i].prefix, calls[j].prefix)
  }

  predicate AllWellFormed(calls: seq<RuleCall>) {
    forall i :: 0 <= i < |calls| ==> WellFormed(calls[i])
  }

  /** After any sequence of calls every service's rules match the expected rules of its own latest call. */
  lemma {:induction false} LatestCallsMatch(rules: seq<Rule>, calls: seq<RuleCall>, i: nat, k: nat)
    requires EqualLength(calls) && AllWellFormed(calls) && Latest(calls, i, k)
    ensures Settled(Run(rules, calls, k), calls[i])
    decreases k
  {
    var n := k - 1;
    if i == n {
      OwnCallSettles(Run(rules, calls, n), calls[n]);
    } else {
      LatestCallsMatch(rules, calls, i, n);
      SettledKept(Run(rules, calls, n), calls[i], calls[n]);
    }
  }

  datatype Nobody = Nobody(calls: seq<RuleCall>) {
    predicate Owns(r: Rule) {
      forall i :: 0 <= i < |calls| ==> !calls[i].Owns(r)
    }
  }

  /** Rules owned by no service of the sequence keep their content and order. */
  lemma {:induction false} ForeignRulesKept(rules: seq<Rule>, calls: seq<RuleCall>, k: nat)
    requires k <= |calls| && AllWellFormed(calls)
    ensures Filter(Run(rules, calls, k), Nobody(calls).Owns) == Filter(rules, Nobody(calls).Owns)
  {
    if k > 0 {
      ForeignRulesKept(rules, calls, k - 1);
      ForeignKept(Run(rules, calls, k - 1), calls[k - 1].AsJob(), Nobody(calls).Owns);
    }
  }
}
