/** The penalty schedules of internal/session/manager.go.  Durations are in nanoseconds. */
module Penalties {

  const SECOND := 1_000_000_000
  const MINUTE := 60 * SECOND
  const HOUR := 60 * MINUTE

  datatype Penalty = Penalty(failures: int, lockout: int)

  predicate Effective(p: Penalty) {
    p.failures > 0 && p.lockout > 0
  }

  /** No two penalties that count share a threshold, so their order cannot matter. */
  ghost predicate DistinctThresholds(penalties: seq<Penalty>) {
    forall p, q :: p in penalties && q in penalties && Effective(p) && Effective(q) && p.failures == q.failures ==> p == q
  }

  predicate Applies(p: Penalty, failures: int) {
    Effective(p) && p.failures <= failures
  }

  /** The lockout of the largest threshold not above the count, or none. */
  ghost predicate IsLockout(failures: int, penalties: seq<Penalty>, lockout: int) {
    if exists p :: p in penalties && Applies(p, failures) then
      exists p :: p in penalties && Applies(p, failures) && p.lockout == lockout
               && forall q :: q in penalties && Applies(q, failures) ==> q.failures <= p.failures
    else lockout == 0
  }

  function FilterEffective(penalties: seq<Penalty>): (r: seq<Penalty>)
    ensures forall p :: p in r <==> p in penalties && Effective(p)
  {
    if penalties == [] then []
    else
      var front, last := penalties[..|penalties|-1], penalties[|penalties|-1];
      assert penalties == front + [last];
      FilterEffective(front) + (if Effective(last) then [last] else [])
  }

  predicate Sorted(penalties: seq<Penalty>) {
    forall i, j :: 0 <= i < j < |penalties| ==> penalties[i].failures <= penalties[j].failures
  }

  function InsertAt(sorted: seq<Penalty>, k: nat, p: Penalty): seq<Penalty>
    requires k <= |sorted|
  {
    sorted[..k] + [p] + sorted[k..]
  }

  lemma InsertKeepsOrder(sorted: seq<Penalty>, k: nat, p: Penalty)
    requires Sorted(sorted) && k <= |sorted|
    requires k > 0 ==> sorted[k-1].failures <= p.failures
    requires k < |sorted| ==> p.failures < sorted[k].failures
    ensures Sorted(InsertAt(sorted, k, p))
    ensures multiset(InsertAt(sorted, k, p)) == multiset(sorted) + multiset{p}
  {
    var r := InsertAt(sorted, k, p);
    forall i, j | 0 <= i < j < |r|
      ensures r[i].failures <= r[j].failures
    {
      var low := if i < k then sorted[i] else if i == k then p else sorted[i-1];
      var high := if j < k then sorted[j] else if j == k then p else sorted[j-1];
      assert r[i] == low && r[j] == high;
    }
    InsertKeepsElements(sorted, k, p);
  }

  lemma InsertKeepsElements(sorted: seq<Penalty>, k: nat, p: Penalty)
    requires k <= |sorted|
    ensures multiset(InsertAt(sorted, k, p)) == multiset(sorted) + multiset{p}
  {
    assert sorted == sorted[..k] + sorted[k..];
  }

  /** Stands for the library sort: any sorted rearrangement. */
  method SortByThreshold(penalties: seq<Penalty>) returns (sorted: seq<Penalty>)
    ensures Sorted(sorted) && multiset(sorted) == multiset(penalties)
  {
    hide *;
    sorted := [];
    NoneSorted(penalties);
    var i := 0;
    while i < |penalties|
      invariant 0 <= i <= |penalties|
      invariant Sorted(sorted) && multiset(sorted) == Bag(penalties, i)
    {
      sorted := InsertByThreshold(sorted, penalties[i]);
      OneMorePenalty(penalties, i);
      i := i + 1;
    }
    AllPenalties(penalties);
  }

  method InsertByThreshold(sorted: seq<Penalty>, p: Penalty) returns (r: seq<Penalty>)
    requires Sorted(sorted)
    ensures Sorted(r) && multiset(r) == multiset(sorted) + multiset{p}
  {
    hide *;
    var k := |sorted|;
    while k > 0 && sorted[k-1].failures > p.failures
      invariant 0 <= k <= |sorted|
      invariant k < |sorted| ==> sorted[k].failures > p.failures
    {
      k := k - 1;
    }
    InsertKeepsOrder(sorted, k, p);
    r := InsertAt(sorted, k, p);
  }

  ghost function Bag(penalties: seq<Penalty>, i: nat): multiset<Penalty>
    requires i <= |penalties|
  {
    multiset(penalties[..i])
  }

  lemma NoneSorted(penalties: seq<Penalty>)
    ensures Sorted([]) && Bag(penalties, 0) == multiset([])
  {
  }

  lemma AllPenalties(penalties: seq<Penalty>)
    ensures Bag(penalties, |penalties|) == multiset(penalties)
  {
    assert penalties[..|penalties|] == penalties;
  }

  lemma OneMorePenalty(penalties: seq<Penalty>, i: nat)
    requires i < |penalties|
    ensures Bag(penalties, i + 1) == Bag(penalties, i) + multiset{penalties[i]}
  {
    assert penalties[..i+1] == penalties[..i] + [penalties[i]];
  }

  method NormalizePenaltyList(penalties: seq<Penalty>) returns (normalized: seq<Penalty>)
    ensures Sorted(normalized)
    ensures multiset(normalized) == multiset(FilterEffective(penalties))
  {
    normalized := [];
    var i := 0;
    while i < |penalties|
      invariant 0 <= i <= |penalties|
      invariant normalized == FilterEffective(penalties[..i])
    {
      assert penalties[..i+1][..i] == penalties[..i];
      if !(penalties[i].failures <= 0 || penalties[i].lockout <= 0) {
        normalized := normalized + [penalties[i]];
      }
      i := i + 1;
    }
    assert penalties[..i] == penalties;
    normalized := SortByThreshold(normalized);
  }

  method LockoutForFailureCount(failures: int, penalties: seq<Penalty>) returns (lockout: int)
    ensures IsLockout(failures, penalties, lockout)
    ensures DistinctThresholds(penalties) ==> lockout == Lockout(failures, penalties)
  {
    hide *;
    LockoutIs(failures, penalties);
    if failures <= 0 {
      NoLockout(failures, penalties);
      return 0;
    }
    var normalized := NormalizePenaltyList(penalties);
    lockout := 0;
    var i := 0;
    NoLockout(failures, []);
    while i < |normalized|
      invariant 0 <= i <= |normalized|
      invariant IsLockout(failures, normalized[..i], lockout)
    {
      LockoutTurn(failures, penalties, normalized, i, lockout);
      if failures >= normalized[i].failures {
        lockout := normalized[i].lockout;
      }
      i := i + 1;
    }
    assert normalized[..i] == normalized;
    NormalizedLockout(failures, penalties, normalized, lockout);
    if DistinctThresholds(penalties) {
      LockoutUnique(failures, penalties, penalties, lockout, Lockout(failures, penalties));
    }
  }

  lemma NoLockout(failures: int, penalties: seq<Penalty>)
    requires failures <= 0 || penalties == []
    ensures IsLockout(failures, penalties, 0) && Lockout(failures, penalties) == 0
  {
  }

  lemma LockoutTurn(failures: int, penalties: seq<Penalty>, normalized: seq<Penalty>, i: nat, lockout: int)
    requires Sorted(normalized) && multiset(normalized) == multiset(FilterEffective(penalties))
    requires i < |normalized| && IsLockout(failures, normalized[..i], lockout)
    ensures IsLockout(failures, normalized[..i+1], if failures >= normalized[i].failures then normalized[i].lockout else lockout)
  {
    hide IsLockout, FilterEffective;
    SameElements(normalized, FilterEffective(penalties));
    var last := normalized[i];
    assert last in normalized && Effective(last);
    assert normalized[..i+1] == normalized[..i] + [last];
    assert forall p :: p in normalized[..i] ==> p.failures <= last.failures;
    LargerThreshold(failures, normalized[..i], last, lockout);
  }

  lemma LargerThreshold(failures: int, list: seq<Penalty>, last: Penalty, lockout: int)
    requires IsLockout(failures, list, lockout) && Effective(last)
    requires forall p :: p in list ==> p.failures <= last.failures
    ensures IsLockout(failures, list + [last], if failures >= last.failures then last.lockout else lockout)
  {
    var longer := list + [last];
    assert forall p :: p in longer <==> p in list || p == last;
    if failures >= last.failures {
      assert last in longer && Applies(last, failures);
    } else if p :| p in list && Applies(p, failures) {
      var best :| best in list && Applies(best, failures) && best.lockout == lockout
               && forall q :: q in list && Applies(q, failures) ==> q.failures <= best.failures;
      assert best in longer;
    }
  }

  lemma NormalizedLockout(failures: int, penalties: seq<Penalty>, normalized: seq<Penalty>, lockout: int)
    requires multiset(normalized) == multiset(FilterEffective(penalties))
    requires IsLockout(failures, normalized, lockout)
    ensures IsLockout(failures, penalties, lockout)
  {
    SameElements(normalized, FilterEffective(penalties));
    assert forall p :: Applies(p, failures) ==> (p in normalized <==> p in penalties);
  }

  lemma SameElements<T>(a: seq<T>, b: seq<T>)
    requires multiset(a) == multiset(b)
    ensures forall x :: x in a <==> x in b
  {
    forall x ensures x in a <==> x in b {
      assert x in a <==> x in multiset(a);
      assert x in b <==> x in multiset(b);
    }
  }

  /** The penalty of the largest threshold not above the count. */
  function Best(failures: int, penalties: seq<Penalty>): (best: Penalty)
    ensures best == Penalty(0, 0) || (best in penalties && Applies(best, failures))
    ensures forall p :: p in penalties && Applies(p, failures) ==> p.failures <= best.failures
  {
    if penalties == [] then Penalty(0, 0)
    else
      var best := Best(failures, penalties[1..]);
      if Applies(penalties[0], failures) && penalties[0].failures > best.failures then penalties[0] else best
  }

  function Lockout(failures: int, penalties: seq<Penalty>): (lockout: int)
    ensures lockout >= 0
  {
    Best(failures, penalties).lockout
  }

  lemma LockoutIs(failures: int, penalties: seq<Penalty>)
    ensures IsLockout(failures, penalties, Lockout(failures, penalties))
  {
    var best := Best(failures, penalties);
    if p :| p in penalties && Applies(p, failures) {
      assert best.failures >= p.failures > 0;
    }
  }

  /** With distinct thresholds only the set of penalties matters, not their order. */
  lemma LockoutUnique(failures: int, ps: seq<Penalty>, qs: seq<Penalty>, l: int, m: int)
    requires DistinctThresholds(ps) && (forall p :: p in ps <==> p in qs)
    requires IsLockout(failures, ps, l) && IsLockout(failures, qs, m)
    ensures l == m
  {
    if exists p :: p in ps && Applies(p, failures) {
      var p :| p in ps && Applies(p, failures) && p.lockout == l
            && forall q :: q in ps && Applies(q, failures) ==> q.failures <= p.failures;
      var r :| r in qs && Applies(r, failures) && r.lockout == m
            && forall q :: q in qs && Applies(q, failures) ==> q.failures <= r.failures;
      assert p.failures == r.failures;
    }
  }

  ghost predicate LockoutsIncrease(penalties: seq<Penalty>) {
    forall p, q :: p in penalties && q in penalties && Effective(p) && Effective(q) && p.failures <= q.failures ==> p.lockout <= q.lockout
  }

  /** More failures never shorten the lockout exactly when lockouts increase with thresholds. */
  lemma LockoutMonotoneIff(penalties: seq<Penalty>)
    requires DistinctThresholds(penalties)
    ensures LockoutsIncrease(penalties) <==>
              forall f: int, g: int :: f <= g ==> Lockout(f, penalties) <= Lockout(g, penalties)
  {
    if LockoutsIncrease(penalties) {
      forall f: int, g: int | f <= g
        ensures Lockout(f, penalties) <= Lockout(g, penalties)
      {
        var p, q := Best(f, penalties), Best(g, penalties);
        if p != Penalty(0, 0) {
          assert Applies(p, g);
        }
      }
    } else {
      var p, q :| p in penalties && q in penalties && Effective(p) && Effective(q)
               && p.failures <= q.failures && p.lockout > q.lockout;
      assert Applies(p, p.failures) && Applies(q, q.failures);
      assert Best(p.failures, penalties) == p && Best(q.failures, penalties) == q;
      assert Lockout(p.failures, penalties) > Lockout(q.failures, penalties);
    }
  }

  function DefaultPenaltySchedule(): seq<Penalty> {
    [Penalty(4, 30 * SECOND), Penalty(6, 5 * MINUTE), Penalty(11, HOUR), Penalty(21, 24 * HOUR)]
  }

  function AdminPenaltySchedule(): seq<Penalty> {
    [Penalty(2, 30 * SECOND), Penalty(3, 5 * MINUTE), Penalty(6, HOUR), Penalty(11, 24 * HOUR)]
  }

  lemma DefaultLockouts(failures: int)
    ensures Lockout(failures, DefaultPenaltySchedule()) ==
              if failures < 4 then 0 else if failures < 6 then 30 * SECOND
              else if failures < 11 then 5 * MINUTE else if failures < 21 then HOUR else 24 * HOUR
  {
    hide Best;
    var s := DefaultPenaltySchedule();
    assert s[1..][0] == s[1] && s[1..][1..][0] == s[2] && s[1..][1..][1..][0] == s[3] && s[1..][1..][1..][1..] == [];
    Unfold(failures, s);
    Unfold(failures, s[1..]);
    Unfold(failures, s[1..][1..]);
    Unfold(failures, s[1..][1..][1..]);
    NoPenalty(failures);
  }

  lemma AdminLockouts(failures: int)
    ensures Lockout(failures, AdminPenaltySchedule()) ==
              if failures < 2 then 0 else if failures < 3 then 30 * SECOND
              else if failures < 6 then 5 * MINUTE else if failures < 11 then HOUR else 24 * HOUR
  {
    hide Best;
    var s := AdminPenaltySchedule();
    assert s[1..][0] == s[1] && s[1..][1..][0] == s[2] && s[1..][1..][1..][0] == s[3] && s[1..][1..][1..][1..] == [];
    Unfold(failures, s);
    Unfold(failures, s[1..]);
    Unfold(failures, s[1..][1..]);
    Unfold(failures, s[1..][1..][1..]);
    NoPenalty(failures);
  }

  lemma DefaultDistinct()
    ensures DistinctThresholds(DefaultPenaltySchedule())
  {
  }

  lemma AdminDistinct()
    ensures DistinctThresholds(AdminPenaltySchedule())
  {
  }

  lemma NoPenalty(failures: int)
    ensures Best(failures, []) == Penalty(0, 0)
  {
  }

  lemma Unfold(failures: int, penalties: seq<Penalty>)
    requires penalties != []
    ensures var best := Best(failures, penalties[1..]);
            Best(failures, penalties) ==
              if Applies(penalties[0], failures) && penalties[0].failures > best.failures then penalties[0] else best
  {
  }
}
