/** Filtering lists: on values, and as Go code does it, by deleting backwards inside a shared array. */
module Lists {

  function Filter<T>(s: seq<T>, keep: T -> bool): seq<T> {
    if s == [] then []
    else if keep(s[0]) then [s[0]] + Filter(s[1..], keep)
    else Filter(s[1..], keep)
  }

  function Elements<T(==)>(s: seq<T>): set<T> {
    set x | x in s
  }

  lemma {:induction false} FilterConcat<T>(s: seq<T>, t: seq<T>, keep: T -> bool)
    ensures Filter(s + t, keep) == Filter(s, keep) + Filter(t, keep)
  {
    if s == [] {
      assert s + t == t;
    } else {
      assert (s + t)[1..] == s[1..] + t;
      FilterConcat(s[1..], t, keep);
    }
  }

  lemma FilterSnoc<T>(s: seq<T>, x: T, keep: T -> bool)
    ensures Filter(s + [x], keep) == Filter(s, keep) + if keep(x) then [x] else []
  {
    FilterConcat(s, [x], keep);
    assert [x][1..] == [];
  }

  /** Exactly the kept elements; the same list when nothing is dropped. */
  lemma {:induction false} FilterMembers<T>(s: seq<T>, keep: T -> bool)
    ensures |Filter(s, keep)| <= |s|
    ensures forall x :: x in Filter(s, keep) <==> x in s && keep(x)
    ensures |Filter(s, keep)| == |s| ==> Filter(s, keep) == s
    ensures (forall x :: x in s ==> keep(x)) <==> Filter(s, keep) == s
  {
    if s != [] {
      FilterMembers(s[1..], keep);
      assert s == [s[0]] + s[1..];
    }
  }

  /** Dropping more leaves a coarser filter's result alone when the coarser filter drops it anyway. */
  lemma {:induction false} FilterFilter<T>(s: seq<T>, p: T -> bool, q: T -> bool)
    requires forall x :: x in s && q(x) ==> p(x)
    ensures Filter(Filter(s, p), q) == Filter(s, q)
  {
    if s != [] {
      FilterFilter(s[1..], p, q);
    }
  }

  lemma {:induction false} FilterNone<T>(s: seq<T>, keep: T -> bool)
    requires forall x :: x in s ==> !keep(x)
    ensures Filter(s, keep) == []
  {
    if s != [] {
      FilterNone(s[1..], keep);
    }
  }

  lemma {:induction false} FilterSame<T>(s: seq<T>, p: T -> bool, q: T -> bool)
    requires forall x :: x in s ==> p(x) == q(x)
    ensures Filter(s, p) == Filter(s, q)
  {
    if s != [] {
      FilterSame(s[1..], p, q);
    }
  }

  /** One step of the backward deletion, on the list before it and the list after it. */
  lemma FilterBackStep<T>(s: seq<T>, t: seq<T>, i: nat, keep: T -> bool)
    requires i < |s| && t == s[..i + 1] + Filter(s[i + 1..], keep)
    ensures t[i] == s[i]
    ensures (if keep(s[i]) then t else t[..i] + t[i + 1..]) == s[..i] + Filter(s[i..], keep)
  {
  }

  /** Deleting backwards from a list held by value. */
  method FilterBackwards<T>(s: seq<T>, keep: T -> bool) returns (t: seq<T>, dirty: bool)
    ensures t == Filter(s, keep)
    ensures dirty <==> t != s
  {
    t, dirty := s, false;
    var i := |s|;
    assert s[i..] == [];
    while i > 0
      invariant 0 <= i <= |s|
      invariant t == s[..i] + Filter(s[i..], keep)
      invariant |t| <= |s| && (dirty <==> |t| < |s|)
    {
      i := i - 1;
      FilterBackStep(s, t, i, keep);
      if !keep(t[i]) {
        t := t[..i] + t[i + 1..];
        dirty := true;
      }
    }
    assert s[0..] == s;
    FilterMembers(s, keep);
  }

  /** append(a[:i], a[i+1:]...) on the first n elements: the tail is shifted down by one. */
  method DeleteAt<T>(a: array<T>, n: nat, i: nat)
    requires i < n <= a.Length
    modifies a
    ensures a[..n - 1] == old(a[..n])[..i] + old(a[..n])[i + 1..]
    ensures i == n - 1 ==> a[..] == old(a[..])
  {
    var k := i;
    while k < n - 1
      invariant i <= k <= n - 1
      invariant a[..k] == old(a[..i]) + old(a[i + 1..k + 1])
      invariant a[k..] == old(a[k..])
    {
      assert old(a[i + 1..k + 2]) == old(a[i + 1..k + 1]) + [old(a[k + 1])];
      a[k] := a[k + 1];
      assert a[..k + 1] == a[..k] + [a[k]];
      k := k + 1;
    }
    assert old(a[..n])[..i] == old(a[..i]) && old(a[..n])[i + 1..] == old(a[i + 1..n]);
    assert a[..] == a[..k] + a[k..] && old(a[..]) == old(a[..k]) + old(a[k..]);
  }

  /** Deleting backwards leaves the filtered list in front; if nothing is left, nothing was moved. */
  method FilterInPlace<T>(a: array<T>, len: nat, keep: T -> bool) returns (n: nat)
    requires len <= a.Length
    modifies a
    ensures n <= len && a[..n] == Filter(old(a[..len]), keep)
    ensures n == 0 ==> a[..] == old(a[..])
  {
    ghost var s := a[..len];
    var i := len;
    n := len;
    while i > 0
      invariant 0 <= i <= n <= len
      invariant a[..n] == s[..i] + Filter(s[i..], keep)
      invariant n == i ==> a[..] == old(a[..])
    {
      i := i - 1;
      ghost var t := a[..n];
      FilterBackStep(s, t, i, keep);
      assert t[i] == a[i];
      if !keep(a[i]) {
        DeleteAt(a, n, i);
        n := n - 1;
      }
    }
    assert s[0..] == s;
  }
}
