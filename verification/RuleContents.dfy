/**
 What the rules of a load balancer hold, field by field, after any sequence of services' calls
 (pkg/provider/azure_loadbalancer.go).
 */
module RuleContents {
  import opened Text
  import opened Lists
  import opened OwnedLists
  import opened LbRules

  predicate SameID(a: Option<string>, b: Option<string>) {
    (a.Some? <==> b.Some?) && (a.Some? ==> EqualFold(a.value, b.value))
  }

  /** A flag is on when it is set and true. */
  predicate SameFlag(a: Option<bool>, b: Option<bool>) {
    a == Some(true) <==> b == Some(true)
  }

  /** TCP reset counts for TCP only. */
  predicate Agree(a: Rule, b: Rule) {
    && EqualFold(a.name, b.name)
    && a.properties.Some? && b.properties.Some?
    && var p, q := a.properties.value, b.properties.value;
       && p.protocol == q.protocol && p.distribution == q.distribution
       && p.frontendPort == q.frontendPort && p.backendPort == q.backendPort
       && p.floatingIP == q.floatingIP && SameFlag(p.disableSnat, q.disableSnat)
       && (p.protocol == "Tcp" ==> SameFlag(p.tcpReset, q.tcpReset))
       && SameID(p.frontend, q.frontend) && SameID(p.pool, q.pool) && SameID(p.probe, q.probe)
  }

  predicate TimeoutsAgree(a: Rule, b: Rule) {
    a.properties.Some? && b.properties.Some? ==>
      var s, t := a.properties.value.idleTimeout, b.properties.value.idleTimeout;
      s.None? || t.None? || s.value == t.value
  }

  /** Idle timeouts count only for a service that keeps its load balancer. */
  lemma ComparesExactly(a: Rule, b: Rule, wantLB: bool)
    ensures SameRule(a, b, wantLB) <==> Agree(a, b) && (wantLB ==> TimeoutsAgree(a, b))
  {
  }

  /** The name starts with the prefix, whatever the case of both. */
  predicate Carries(name: string, prefix: string) {
    |prefix| <= |name| && forall i :: 0 <= i < |prefix| ==> Lower(name)[i] == Lower(prefix)[i]
  }

  /** Services with the cluster traffic policy also own what is named exactly like the shared probe. */
  lemma OwnsExactly(prefix: string, local: bool, name: string)
    ensures OwnsName(prefix, local, name) <==>
            Carries(name, prefix) || (!local && name == "cluster-service-shared-health-probe")
  {
    if |prefix| <= |name| {
      LowerPrefix(name, |prefix|);
      assert |Lower(name)| == |name| && |Lower(prefix)| == |prefix|;
    }
  }

  predicate Matched(rules: seq<Rule>, x: Rule, wantLB: bool) {
    exists e :: e in rules && Agree(e, x) && (wantLB ==> TimeoutsAgree(e, x))
  }

  lemma FoundIsMatched(rules: seq<Rule>, x: Rule, c: RuleCall)
    ensures Found(rules, x, c.Same) <==> Matched(rules, x, c.wantLB)
  {
    forall e
      ensures c.Same(e, x) <==> Agree(e, x) && (c.wantLB ==> TimeoutsAgree(e, x))
    {
      ComparesExactly(e, x, c.wantLB);
    }
    if Found(rules, x, c.Same) {
      var k :| 0 <= k < |rules| && c.Same(rules[k], x);
      assert rules[k] in rules;
    }
  }

  /** The rules with the service's prefix are the expected ones of the call, up to what is compared. */
  predicate HoldsRulesOf(rules: seq<Rule>, c: RuleCall) {
    && (forall x :: x in rules && Carries(x.name, c.prefix) ==> Matched(c.expected, x, c.wantLB))
    && (forall e :: e in c.expected ==> Matched(rules, e, c.wantLB))
  }

  lemma SettledHolds(rules: seq<Rule>, c: RuleCall)
    requires Settled(rules, c)
    ensures HoldsRulesOf(rules, c)
  {
    forall x | x in rules && Carries(x.name, c.prefix)
      ensures Matched(c.expected, x, c.wantLB)
    {
      OwnsExactly(c.prefix, c.local, x.name);
      FoundIsMatched(c.expected, x, c);
    }
    forall e | e in c.expected
      ensures Matched(rules, e, c.wantLB)
    {
      FoundIsMatched(rules, e, c);
    }
  }

  /** After any sequence of calls every service's rules are those of its latest call, field by field. */
  lemma RulesAfterCalls(rules: seq<Rule>, calls: seq<RuleCall>, i: nat)
    requires EqualLength(calls) && AllWellFormed(calls) && Latest(calls, i, |calls|)
    ensures HoldsRulesOf(Run(rules, calls, |calls|), calls[i])
  {
    LatestCallsMatch(rules, calls, i, |calls|);
    SettledHolds(Run(rules, calls, |calls|), calls[i]);
  }

  predicate Belongs(name: string, c: RuleCall) {
    Carries(name, c.prefix) || (!c.local && name == "cluster-service-shared-health-probe")
  }

  /** Rules that belong to no call of a sequence are still there after it. */
  lemma OthersStay(rules: seq<Rule>, calls: seq<RuleCall>, x: Rule)
    requires AllWellFormed(calls) && x in rules && forall i :: 0 <= i < |calls| ==> !Belongs(x.name, calls[i])
    ensures x in Run(rules, calls, |calls|)
  {
    var nobody := Nobody(calls);
    forall i | 0 <= i < |calls|
      ensures !calls[i].Owns(x)
    {
      OwnsExactly(calls[i].prefix, calls[i].local, x.name);
    }
    ForeignRulesKept(rules, calls, |calls|);
    FilterMembers(rules, nobody.Owns);
    FilterMembers(Run(rules, calls, |calls|), nobody.Owns);
    assert x in Filter(rules, nobody.Owns);
  }

  /** A call keeps, as it is, a rule that agrees with an expected one or does not belong to the service. */
  lemma KeepsWhatAgrees(rules: seq<Rule>, c: RuleCall, x: Rule)
    requires x in rules && (Matched(c.expected, x, c.wantLB) || !Belongs(x.name, c))
    ensures x in Reconciled(rules, c.AsJob())
  {
    OwnsExactly(c.prefix, c.local, x.name);
    FoundIsMatched(c.expected, x, c);
    FilterMembers(rules, c.AsJob().Keeps);
  }
}
