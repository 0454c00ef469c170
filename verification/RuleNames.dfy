/** Names of load balancing rules (pkg/provider/azure_standard.go). */
module RuleNames {
  import opened Text
  import opened LbRules

  datatype Protocol = TCP | UDP | SCTP {
    function Name(): (s: string)
      ensures |s| <= 4 && '-' !in s
    {
      match this
      case TCP => "TCP"
      case UDP => "UDP"
      case SCTP => "SCTP"
    }
  }

  /** What the names of one service and IP family have in common. */
  datatype Service = Service(prefix: string, subnet: Option<string>, dualStack: bool)

  const MAX_LENGTH := 80
  const SUFFIX := "-IPv6"

  function Digit(n: nat): char
    requires n < 10
  {
    ('0' as nat + n) as char
  }

  predicate IsDigit(c: char) {
    '0' <= c <= '9'
  }

  /** %d for numbers that are not negative. */
  function Decimal(n: nat): (s: string)
    ensures s != "" && forall c :: c in s ==> IsDigit(c)
  {
    if n < 10 then [Digit(n)] else Decimal(n / 10) + [Digit(n % 10)]
  }

  function Value(s: string): nat
    requires forall c :: c in s ==> IsDigit(c)
  {
    if s == "" then 0
    else
      assert IsDigit(s[|s| - 1]);
      10 * Value(s[..|s| - 1]) + s[|s| - 1] as nat - '0' as nat
  }

  lemma {:induction false} DecimalRoundTrip(n: nat)
    ensures Value(Decimal(n)) == n
  {
    var s := Decimal(n);
    if n >= 10 {
      DecimalRoundTrip(n / 10);
      assert s[..|s| - 1] == Decimal(n / 10);
    } else {
      assert s[..0] == "";
    }
  }

  function Power10(k: nat): nat {
    if k == 0 then 1 else 10 * Power10(k - 1)
  }

  lemma {:induction false} DecimalLength(n: nat, k: nat)
    requires k > 0 && n < Power10(k)
    ensures |Decimal(n)| <= k
  {
    if n >= 10 {
      DecimalLength(n / 10, k - 1);
    }
  }

  lemma Int32Digits(n: nat)
    requires n <= MAX_INT32
    ensures |Decimal(n)| <= 10
  {
    assert Power10(5) == 100000;
    assert Power10(10) == 10000000000 by {
      assert Power10(7) == 100 * Power10(5);
      assert Power10(9) == 100 * Power10(7);
    }
    DecimalLength(n, 10);
  }

  /** getResourceByIPFamily. */
  function WithFamily(name: string, s: Service, ipv6: bool): string {
    if s.dualStack && ipv6 then name + SUFFIX else name
  }

  /** The end of every name. */
  function Tail(p: Protocol, port: nat): string {
    "-" + p.Name() + "-" + Decimal(port)
  }

  /** The subnet part, cut so that the whole fits. */
  function Segment(s: Service, p: Protocol, port: nat): string
    requires |s.prefix| <= 32 && port <= MAX_INT32
  {
    Int32Digits(port);
    if s.subnet.None? then ""
    else
      var rest := |s.prefix + Tail(p, port)|;
      var most := MAX_LENGTH - |SUFFIX|;
      "-" + if rest + |s.subnet.value| + 1 > most then s.subnet.value[..most - rest - 1] else s.subnet.value
  }

  /** getLoadBalancerRuleName. */
  function RuleName(s: Service, p: Protocol, port: nat, ipv6: bool): string
    requires |s.prefix| <= 32 && port <= MAX_INT32
  {
    WithFamily(s.prefix + Segment(s, p, port) + Tail(p, port), s, ipv6)
  }

  /** The name fits the limit of Azure and is owned by its service, for every subnet, protocol and port. */
  lemma NameFitsAndIsOwned(s: Service, p: Protocol, port: nat, ipv6: bool, local: bool)
    requires |s.prefix| <= 32 && port <= MAX_INT32
    ensures |RuleName(s, p, port, ipv6)| <= MAX_LENGTH
    ensures OwnsName(s.prefix, local, RuleName(s, p, port, ipv6))
  {
    Int32Digits(port);
    assert |Tail(p, port)| <= 16;
    assert RuleName(s, p, port, ipv6)[..|s.prefix|] == s.prefix;
  }

  /** What a name says: prefix, subnet, protocol, port and IP family, in this order. */
  predicate Says(name: string, s: Service, subnet: string, p: Protocol, port: nat, ipv6: bool) {
    var protocol := if p.TCP? then "-TCP-" else if p.UDP? then "-UDP-" else "-SCTP-";
    var tail := protocol + Decimal(port) + if s.dualStack && ipv6 then "-IPv6" else "";
    name == s.prefix + subnet + tail
  }

  /** The name has the whole subnet, or as much of it as fits into 80 characters with an IPv6 suffix of 5. */
  lemma NameSays(s: Service, p: Protocol, port: nat, ipv6: bool)
    requires |s.prefix| <= 32 && port <= MAX_INT32
    ensures var name := RuleName(s, p, port, ipv6);
            match s.subnet
            case None => Says(name, s, "", p, port, ipv6)
            case Some(subnet) =>
              || Says(name, s, "-" + subnet, p, port, ipv6)
              || exists k: nat :: k < |subnet| && Says(name, s, "-" + subnet[..k], p, port, ipv6) &&
                   |name| == if s.dualStack && ipv6 then 80 else 75
  {
    Int32Digits(port);
    var name, tail := RuleName(s, p, port, ipv6), Tail(p, port);
    assert Says(name, s, Segment(s, p, port), p, port, ipv6);
    if s.subnet.Some? && |s.prefix + tail| + |s.subnet.value| + 1 > 75 {
      var k := 75 - |s.prefix + tail| - 1;
      assert k < |s.subnet.value| && Segment(s, p, port) == "-" + s.subnet.value[..k];
    }
  }

  /** A text is split in one way at its last "-". */
  lemma LastDash(x: string, t: string, y: string, u: string)
    requires '-' !in t && '-' !in u && x + "-" + t == y + "-" + u
    ensures x == y && t == u
  {
    var whole := x + "-" + t;
    assert whole[|x|] == '-' && whole[|y|] == '-';
    assert forall i :: |x| < i < |whole| ==> whole[i] == t[i - |x| - 1];
    assert forall i :: |y| < i < |whole| ==> whole[i] == u[i - |y| - 1];
    assert |x| == |y|;
    assert x == whole[..|x|] && y == whole[..|y|];
    assert t == whole[|x| + 1..] && u == whole[|y| + 1..];
  }

  lemma LastTwoDashes(x: string, a: string, t: string, y: string, b: string, u: string)
    requires '-' !in a && '-' !in b && '-' !in t && '-' !in u
    requires x + ("-" + a + "-" + t) == y + ("-" + b + "-" + u)
    ensures a == b && t == u
  {
    assert x + ("-" + a + "-" + t) == (x + "-" + a) + "-" + t;
    assert y + ("-" + b + "-" + u) == (y + "-" + b) + "-" + u;
    LastDash(x + "-" + a, t, y + "-" + b, u);
    LastDash(x, a, y, b);
  }

  lemma LowerConcat(a: string, b: string)
    ensures Lower(a + b) == Lower(a) + Lower(b)
  {
  }

  lemma LowerDigits(s: string)
    requires forall c :: c in s ==> IsDigit(c)
    ensures Lower(s) == s && '-' !in s
  {
    assert forall i :: 0 <= i < |s| ==> IsDigit(s[i]);
  }

  /** The end of a name in lower case. */
  lemma LowerTail(p: Protocol, port: nat)
    ensures Lower(Tail(p, port)) == "-" + Lower(p.Name()) + "-" + Decimal(port)
    ensures '-' !in Lower(p.Name()) && '-' !in Decimal(port)
  {
    LowerConcat("-" + p.Name() + "-", Decimal(port));
    LowerConcat("-" + p.Name(), "-");
    LowerConcat("-", p.Name());
    LowerDigits(Decimal(port));
    assert Lower("-") == "-";
    assert forall i :: 0 <= i < |p.Name()| ==> p.Name()[i] in p.Name();
  }

  lemma TailsDiffer(x: string, p: Protocol, port: nat, y: string, p': Protocol, port': nat)
    requires EqualFold(x + Tail(p, port), y + Tail(p', port'))
    ensures p == p' && port == port'
  {
    LowerConcat(x, Tail(p, port));
    LowerConcat(y, Tail(p', port'));
    LowerTail(p, port);
    LowerTail(p', port');
    LastTwoDashes(Lower(x), Lower(p.Name()), Decimal(port), Lower(y), Lower(p'.Name()), Decimal(port'));
    DecimalRoundTrip(port);
    DecimalRoundTrip(port');
    ProtocolNames(p, p');
  }

  /** Within one service and IP family, names are equal up to case exactly when protocol and port are equal. */
  lemma NamesDiffer(s: Service, p: Protocol, port: nat, p': Protocol, port': nat, ipv6: bool)
    requires |s.prefix| <= 32 && port <= MAX_INT32 && port' <= MAX_INT32
    ensures EqualFold(RuleName(s, p, port, ipv6), RuleName(s, p', port', ipv6)) <==> p == p' && port == port'
  {
    var x, y := s.prefix + Segment(s, p, port), s.prefix + Segment(s, p', port');
    if EqualFold(RuleName(s, p, port, ipv6), RuleName(s, p', port', ipv6)) {
      SuffixCancels(x + Tail(p, port), y + Tail(p', port'), s, ipv6);
      TailsDiffer(x, p, port, y, p', port');
    }
  }

  lemma ProtocolNames(p: Protocol, q: Protocol)
    requires Lower(p.Name()) == Lower(q.Name())
    ensures p == q
  {
    assert Lower(p.Name())[0] == LowerChar(p.Name()[0]) && Lower(q.Name())[0] == LowerChar(q.Name()[0]);
  }

  lemma SuffixCancels(a: string, b: string, s: Service, ipv6: bool)
    requires EqualFold(WithFamily(a, s, ipv6), WithFamily(b, s, ipv6))
    ensures EqualFold(a, b)
  {
    var x, y := WithFamily(a, s, ipv6), WithFamily(b, s, ipv6);
    assert |Lower(x)| == |x| && |Lower(y)| == |y|;
    LowerPrefix(x, |a|);
    LowerPrefix(y, |b|);
    assert a == x[..|a|] && b == y[..|b|];
  }

  /** The names of the two IP families of a dual-stack service differ even up to case, for any protocols and ports. */
  lemma FamiliesDiffer(s: Service, p: Protocol, port: nat, p': Protocol, port': nat)
    requires |s.prefix| <= 32 && port <= MAX_INT32 && port' <= MAX_INT32 && s.dualStack
    ensures !EqualFold(RuleName(s, p, port, false), RuleName(s, p', port', true))
  {
    var x := s.prefix + Segment(s, p, port);
    var y := s.prefix + Segment(s, p', port') + Tail(p', port');
    LastButOne(x, p, port);
    var name, name' := x + Tail(p, port), y + SUFFIX;
    assert name'[|name'| - 2] == 'v';
    assert Lower(name)[|name| - 2] == LowerChar(name[|name| - 2]);
    assert Lower(name')[|name'| - 2] == 'v';
    assert |Lower(name)| == |name| && |Lower(name')| == |name'|;
  }

  lemma LastButOne(x: string, p: Protocol, port: nat)
    ensures var name := x + Tail(p, port);
            |name| >= 2 && (IsDigit(name[|name| - 2]) || name[|name| - 2] == '-')
  {
    var name, d := x + Tail(p, port), Decimal(port);
    if |d| >= 2 {
      assert d[|d| - 2] in d;
      assert name[|name| - 2] == d[|d| - 2];
    } else {
      assert name[|name| - 2] == '-';
    }
  }
}
