/**
 Reconciling the elements that one service owns in a list shared by many: owned elements that match nothing
 expected are deleted backwards, and expected elements that match nothing present are appended.
 */
module OwnedLists {
  import opened Lists

  /** same(present, expected) need not be transitive. */
  datatype Job<!T> = Job(own: T -> bool, expected: seq<T>, same: (T, T) -> bool) {
    predicate Keeps(x: T) {
      !own(x) || Found(expected, x, same)
    }

    predicate Foreign(x: T) {
      !own(x)
    }
  }

  predicate Found<T>(xs: seq<T>, x: T, same: (T, T) -> bool) {
    exists k :: 0 <= k < |xs| && same(xs[k], x)
  }

  /** What is appended: expected elements are looked up in the growing list. */
  function Extra<T>(xs: seq<T>, expected: seq<T>, same: (T, T) -> bool): seq<T> {
    if expected == [] then []
    else
      var n := |expected| - 1;
      var more := Extra(xs, expected[..n], same);
      if Found(xs + more, expected[n], same) then more else more + [expected[n]]
  }

  function Complete<T>(xs: seq<T>, expected: seq<T>, same: (T, T) -> bool): seq<T> {
    xs + Extra(xs, expected, same)
  }

  function Reconciled<T(!new)>(xs: seq<T>, job: Job<T>): seq<T> {
    Complete(Filter(xs, job.Keeps), job.expected, job.same)
  }

  // ---------- One call ----------

  ghost predicate Reflexive<T(!new)>(job: Job<T>) {
    forall k :: 0 <= k < |job.expected| ==> job.same(job.expected[k], job.expected[k])
  }

  lemma {:induction false} ExtraIsExpected<T(!new)>(xs: seq<T>, expected: seq<T>, same: (T, T) -> bool)
    ensures forall x :: x in Extra(xs, expected, same) ==> x in expected
  {
    if expected != [] {
      ExtraIsExpected(xs, expected[..|expected| - 1], same);
    }
  }

  lemma FoundInLonger<T>(xs: seq<T>, ys: seq<T>, x: T, same: (T, T) -> bool)
    requires Found(xs, x, same)
    ensures Found(xs + ys, x, same)
  {
    var k :| 0 <= k < |xs| && same(xs[k], x);
    assert (xs + ys)[k] == xs[k];
  }

  lemma {:induction false} ExpectedIsFound<T>(xs: seq<T>, expected: seq<T>, same: (T, T) -> bool, i: nat)
    requires i < |expected| && same(expected[i], expected[i])
    ensures Found(Complete(xs, expected, same), expected[i], same)
  {
    var n := |expected| - 1;
    var more, all := Extra(xs, expected[..n], same), Complete(xs, expected, same);
    if i < n {
      ExpectedIsFound(xs, expected[..n], same, i);
      if all != xs + more {
        FoundInLonger(xs + more, [expected[n]], expected[i], same);
        assert all == xs + more + [expected[n]];
      }
    } else if !Found(xs + more, expected[n], same) {
      assert all[|xs + more|] == expected[n];
    }
  }

  /** Every owned element matches an expected one, and every expected one is matched. */
  lemma ReconciledMatches<T(!new)>(xs: seq<T>, job: Job<T>)
    requires Reflexive(job)
    ensures forall x :: x in Reconciled(xs, job) && job.own(x) ==> Found(job.expected, x, job.same)
    ensures forall e :: e in job.expected ==> Found(Reconciled(xs, job), e, job.same)
  {
    var kept := Filter(xs, job.Keeps);
    FilterMembers(xs, job.Keeps);
    ExtraIsExpected(kept, job.expected, job.same);
    forall e | e in job.expected
      ensures Found(job.expected, e, job.same) && Found(Reconciled(xs, job), e, job.same)
    {
      var k :| 0 <= k < |job.expected| && job.expected[k] == e;
      ExpectedIsFound(kept, job.expected, job.same, k);
    }
  }

  lemma {:induction false} NothingMissing<T>(xs: seq<T>, expected: seq<T>, same: (T, T) -> bool)
    requires forall k :: 0 <= k < |expected| ==> Found(xs, expected[k], same)
    ensures Complete(xs, expected, same) == xs
  {
    assert xs + [] == xs;
    if expected != [] {
      NothingMissing(xs, expected[..|expected| - 1], same);
    }
  }

  /** A list that already matches is left as it is. */
  lemma MatchingIsKept<T(!new)>(xs: seq<T>, job: Job<T>)
    requires forall x :: x in xs && job.own(x) ==> Found(job.expected, x, job.same)
    requires forall e :: e in job.expected ==> Found(xs, e, job.same)
    ensures Filter(xs, job.Keeps) == xs && Reconciled(xs, job) == xs
  {
    FilterMembers(xs, job.Keeps);
    NothingMissing(xs, job.expected, job.same);
  }

  lemma ReconciledTwice<T(!new)>(xs: seq<T>, job: Job<T>)
    requires Reflexive(job)
    ensures Reconciled(Reconciled(xs, job), job) == Reconciled(xs, job)
  {
    ReconciledMatches(xs, job);
    MatchingIsKept(Reconciled(xs, job), job);
  }

  /** Deleting something and appending something never gives the old list back. */
  lemma DeletionShows<T(!new)>(xs: seq<T>, job: Job<T>)
    requires Reflexive(job)
    ensures Reconciled(xs, job) == xs <==>
            Filter(xs, job.Keeps) == xs && Complete(xs, job.expected, job.same) == xs
  {
    if Reconciled(xs, job) == xs {
      ReconciledMatches(xs, job);
      MatchingIsKept(xs, job);
    }
  }

  /** Elements that the service does not own, and does not expect, keep their content and order. */
  lemma ForeignKept<T(!new)>(xs: seq<T>, job: Job<T>, foreign: T -> bool)
    requires forall x :: foreign(x) ==> !job.own(x)
    requires forall e :: e in job.expected ==> !foreign(e)
    ensures Filter(Reconciled(xs, job), foreign) == Filter(xs, foreign)
  {
    var kept := Filter(xs, job.Keeps);
    var more := Extra(kept, job.expected, job.same);
    FilterFilter(xs, job.Keeps, foreign);
    ExtraIsExpected(kept, job.expected, job.same);
    FilterConcat(kept, more, foreign);
    FilterNone(more, foreign);
    assert Filter(kept, foreign) + [] == Filter(kept, foreign);
  }

  // ---------- The loops ----------

  method Find<T>(xs: seq<T>, x: T, same: (T, T) -> bool) returns (found: bool)
    ensures found == Found(xs, x, same)
  {
    for k := 0 to |xs|
      invariant !Found(xs[..k], x, same)
    {
      if same(xs[k], x) {
        return true;
      }
      assert forall i :: 0 <= i < k ==> xs[..k][i] == xs[i];
    }
    assert xs[..|xs|] == xs;
    return false;
  }

  method AddMissing<T(!new)>(xs: seq<T>, job: Job<T>) returns (ys: seq<T>, dirty: bool)
    ensures ys == Complete(xs, job.expected, job.same) && (dirty <==> ys != xs)
  {
    var expected := job.expected;
    ys, dirty := xs, false;
    for k := 0 to |expected|
      invariant ys == Complete(xs, expected[..k], job.same) && (dirty <==> |ys| > |xs|)
    {
      assert expected[..k + 1][..k] == expected[..k];
      ghost var more := Extra(xs, expected[..k], job.same);
      assert xs + (more + [expected[k]]) == xs + more + [expected[k]];
      var found := Find(ys, expected[k], job.same);
      if !found {
        ys := ys + [expected[k]];
        dirty := true;
      }
    }
    assert expected[..|expected|] == expected;
  }

  /** The whole call; dirty is what the caller is told. */
  method Reconcile<T(!new)>(xs: seq<T>, job: Job<T>) returns (ys: seq<T>, dirty: bool)
    ensures ys == Reconciled(xs, job)
    ensures !dirty ==> ys == xs
    ensures Reflexive(job) ==> (dirty <==> ys != xs)
  {
    var kept, evicted := FilterBackwards(xs, job.Keeps);
    var added;
    ys, added := AddMissing(kept, job);
    dirty := evicted || added;
    if Reflexive(job) {
      DeletionShows(xs, job);
    }
  }
}
