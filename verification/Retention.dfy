/** Backup retention of internal/backup/prune.go: three tiers of buckets, each with a cutoff and
    a cap, over one list of backups from newest to oldest.  The selection is stated on the set of
    backups, so that whole runs of making and pruning backups can be compared with one prune of
    everything ever made. */
module Retention {
  import opened Clock
  import opened Options
  import opened Calendar

  datatype Candidate = Candidate(path: string, time: Instant)
  datatype Policy = Policy(daily: int, weekly: int, monthly: int)
  datatype Tier = Daily | Weekly | Monthly

  datatype Bucket =
    | DayBucket(year: int, month: int, day: int)
    | WeekBucket(isoYear: int, week: int)
    | MonthBucket(year: int, month: int)

  /** The keys under which the tiers remember what they have kept. */
  function BucketOf(tier: Tier, t: Instant): Bucket {
    var day := DayOf(t);
    var m := MonthOf(day);
    match tier
    case Daily => DayBucket(YearOf(m), MonthNumber(m), DayOfMonth(day))
    case Weekly => WeekBucket(ISOWeek(day).0, ISOWeek(day).1)
    case Monthly => MonthBucket(YearOf(m), MonthNumber(m))
  }

  /** The same buckets numbered in the order of time. */
  function BucketIndex(tier: Tier, t: Instant): int {
    match tier
    case Daily => DayOf(t)
    case Weekly => WeekIndex(DayOf(t))
    case Monthly => MonthOf(DayOf(t))
  }

  lemma BucketsAreIndexed(tier: Tier, t: Instant, u: Instant)
    ensures BucketOf(tier, t) == BucketOf(tier, u) <==> BucketIndex(tier, t) == BucketIndex(tier, u)
    ensures t <= u ==> BucketIndex(tier, t) <= BucketIndex(tier, u)
    ensures BucketOf(Daily, t) == BucketOf(Daily, u) <==> DayOf(t) == DayOf(u)
    ensures BucketOf(Weekly, t) == BucketOf(Weekly, u) <==> DayOf(t) / 7 == DayOf(u) / 7
    ensures BucketOf(Monthly, t) == BucketOf(Monthly, u) <==> MonthOf(DayOf(t)) == MonthOf(DayOf(u))
  {
    hide MonthOf, ISOWeek, MonthStart;
    ISOWeekNamesWeek(DayOf(t), DayOf(u));
    if t <= u {
      MonthOfMonotone(DayOf(t), DayOf(u));
    }
  }

  function Cap(tier: Tier, policy: Policy): int {
    match tier
    case Daily => policy.daily
    case Weekly => policy.weekly
    case Monthly => policy.monthly
  }

  function Cutoff(tier: Tier, policy: Policy, now: Instant): Instant {
    match tier
    case Daily => StartOfDay(AddDate(now, 0, -policy.daily + 1))
    case Weekly => StartOfDay(AddDate(now, 0, -7 * policy.weekly + 1))
    case Monthly => StartOfMonth(AddDate(now, -policy.monthly + 1, 0))
  }

  predicate LessGenerous(p: Policy, q: Policy) {
    p.daily <= q.daily && p.weekly <= q.weekly && p.monthly <= q.monthly
  }

  /** Cutoffs move forward with the clock and backward with a larger policy. */
  lemma CutoffMonotone(tier: Tier, p: Policy, q: Policy, now: Instant, later: Instant)
    requires now <= later && LessGenerous(p, q)
    ensures Cutoff(tier, q, now) <= Cutoff(tier, p, later)
  {
    hide AddDate, MonthOf, MonthStart;
    match tier
    case Daily =>
      DayOfAddDate(now, 0, -q.daily + 1);
      DayOfAddDate(later, 0, -p.daily + 1);
    case Weekly =>
      DayOfAddDate(now, 0, -7 * q.weekly + 1);
      DayOfAddDate(later, 0, -7 * p.weekly + 1);
    case Monthly =>
      MonthsBackMonotone(now, later, -q.monthly + 1, -p.monthly + 1);
      MonthsAscend(MonthOf(DayOf(AddDate(now, -q.monthly + 1, 0))),
                   MonthOf(DayOf(AddDate(later, -p.monthly + 1, 0))));
  }

  ghost predicate Distinct(h: set<Candidate>) {
    forall c, d :: c in h && d in h && c != d ==> c.time != d.time && c.path != d.path
  }

  function Newer(h: set<Candidate>, t: Instant): set<Candidate> {
    set c | c in h && c.time > t
  }

  function Buckets(h: set<Candidate>, tier: Tier): set<Bucket> {
    set c | c in h :: BucketOf(tier, c.time)
  }

  /** A tier keeps a backup that is within its cutoff and the newest of its bucket, as long as
      fewer buckets than the cap are newer. */
  predicate Selects(h: set<Candidate>, c: Candidate, tier: Tier, policy: Policy, now: Instant) {
    && c in h
    && c.time >= Cutoff(tier, policy, now)
    && BucketOf(tier, c.time) !in Buckets(Newer(h, c.time), tier)
    && |Buckets(Newer(h, c.time), tier)| < Cap(tier, policy)
  }

  predicate Kept(h: set<Candidate>, c: Candidate, policy: Policy, now: Instant) {
    || Selects(h, c, Daily, policy, now)
    || Selects(h, c, Weekly, policy, now)
    || Selects(h, c, Monthly, policy, now)
  }

  function KeepSet(h: set<Candidate>, policy: Policy, now: Instant): (keep: set<Candidate>)
    ensures keep <= h
  {
    set c | c in h && Kept(h, c, policy, now)
  }

  function Paths(h: set<Candidate>): set<string> {
    set c | c in h :: c.path
  }

  /* ---- the loop ---- */

  predicate NewestFirst(list: seq<Candidate>) {
    forall i, j :: 0 <= i < j < |list| ==> list[i].time > list[j].time
  }

  function Elements(list: seq<Candidate>): set<Candidate> {
    set c | c in list
  }

  function Within(h: set<Candidate>, cutoff: Instant): set<Candidate> {
    set c | c in h && c.time >= cutoff
  }

  /** What a tier's counter and map hold after the candidates in `done`: while the counter runs
      it is the cap and the map holds every bucket met; it stops once the cap is reached. */
  ghost predicate TierState(done: set<Candidate>, tier: Tier, policy: Policy, now: Instant,
                            remaining: int, seen: set<Bucket>) {
    var met := Buckets(Within(done, Cutoff(tier, policy, now)), tier);
    if remaining > 0 then remaining == Cap(tier, policy) && seen == met && |seen| < remaining
    else Cap(tier, policy) <= |met|
  }

  lemma PrefixIsNewer(list: seq<Candidate>, i: nat)
    requires NewestFirst(list) && i < |list|
    ensures Elements(list[..i]) == Newer(Elements(list), list[i].time)
    ensures Elements(list[..i+1]) == Elements(list[..i]) + {list[i]}
  {
    assert list[..i+1] == list[..i] + [list[i]];
    forall c | c in Newer(Elements(list), list[i].time)
      ensures c in list[..i]
    {
      var k :| 0 <= k < |list| && list[k] == c;
      assert k < i;
      assert list[..i][k] == c;
    }
  }

  /** One tier's share of one turn of the loop. */
  method TierStep(ghost list: seq<Candidate>, ghost i: nat, tier: Tier, ghost policy: Policy, now: Instant,
                  candidate: Candidate, cutoff: Instant, remaining: int, seen: set<Bucket>)
    returns (keeps: bool, remaining': int, seen': set<Bucket>)
    requires NewestFirst(list) && i < |list| && list[i] == candidate
    requires cutoff == Cutoff(tier, policy, now)
    requires TierState(Elements(list[..i]), tier, policy, now, remaining, seen)
    ensures keeps <==> Selects(Elements(list), candidate, tier, policy, now)
    ensures TierState(Elements(list[..i+1]), tier, policy, now, remaining', seen')
  {
    hide BucketOf, Cutoff, NewestFirst;
    keeps, remaining', seen' := false, remaining, seen;
    PrefixIsNewer(list, i);
    TierAdvance(list, i, tier, policy, now);
    if remaining > 0 && candidate.time >= cutoff {
      var key := BucketOf(tier, candidate.time);
      if key !in seen {
        seen' := seen + {key};
        keeps := true;
        if |seen'| >= remaining {
          remaining' := 0;
        }
      }
    }
  }

  lemma BucketsGrow(done: set<Candidate>, c: Candidate, tier: Tier)
    ensures Buckets(done + {c}, tier) == Buckets(done, tier) + {BucketOf(tier, c.time)}
    ensures |Buckets(done, tier)| <= |Buckets(done + {c}, tier)|
  {
    hide BucketOf;
    SubsetBuckets(done, done + {c}, tier);
  }

  lemma TierAdvance(list: seq<Candidate>, i: nat, tier: Tier, policy: Policy, now: Instant)
    requires NewestFirst(list) && i < |list|
    ensures var cutoff := Cutoff(tier, policy, now);
            var before, after := Within(Elements(list[..i]), cutoff), Within(Elements(list[..i+1]), cutoff);
            && (list[i].time < cutoff ==> after == before)
            && (list[i].time >= cutoff ==>
                 && before == Newer(Elements(list), list[i].time)
                 && Buckets(after, tier) == Buckets(before, tier) + {BucketOf(tier, list[i].time)})
            && |Buckets(before, tier)| <= |Buckets(after, tier)|
  {
    hide BucketOf, Cutoff, Buckets, NewestFirst, Elements;
    PrefixIsNewer(list, i);
    var cutoff := Cutoff(tier, policy, now);
    var before, after := Within(Elements(list[..i]), cutoff), Within(Elements(list[..i+1]), cutoff);
    if list[i].time >= cutoff {
      assert after == before + {list[i]};
      BucketsGrow(before, list[i], tier);
    } else {
      assert after == before;
    }
  }

  /** Walks the backups from newest to oldest and returns the paths to keep. */
  method SelectBackupsToKeep(candidates: seq<Candidate>, policy: Policy, now: Instant) returns (keep: set<string>)
    requires NewestFirst(candidates)
    ensures keep == Paths(KeepSet(Elements(candidates), policy, now))
  {
    hide *;
    keep := {};
    var left := policy;
    var daily, weekly, monthly: set<Bucket> := {}, {}, {};
    var dailyCutoff := StartOfDay(AddDate(now, 0, -policy.daily + 1));
    var weeklyCutoff := StartOfDay(AddDate(now, 0, -7 * policy.weekly + 1));
    var monthlyCutoff := StartOfMonth(AddDate(now, -policy.monthly + 1, 0));
    ghost var kept: set<Candidate> := {};
    LoopStarts(candidates, policy, now);
    var i := 0;
    while i < |candidates|
      invariant 0 <= i <= |candidates|
      invariant TierState(Elements(candidates[..i]), Daily, policy, now, left.daily, daily)
      invariant TierState(Elements(candidates[..i]), Weekly, policy, now, left.weekly, weekly)
      invariant TierState(Elements(candidates[..i]), Monthly, policy, now, left.monthly, monthly)
      invariant kept == set c | c in Elements(candidates[..i]) && Kept(Elements(candidates), c, policy, now)
      invariant keep == Paths(kept)
    {
      var candidate := candidates[i];
      var keepDaily, keepWeekly, keepMonthly: bool;
      var d, w, m;
      keepDaily, d, daily := TierStep(candidates, i, Daily, policy, now, candidate, dailyCutoff, left.daily, daily);
      keepWeekly, w, weekly := TierStep(candidates, i, Weekly, policy, now, candidate, weeklyCutoff, left.weekly, weekly);
      keepMonthly, m, monthly := TierStep(candidates, i, Monthly, policy, now, candidate, monthlyCutoff, left.monthly, monthly);
      left := Policy(d, w, m);
      if keepDaily || keepWeekly || keepMonthly {
        PathsGrow(kept, candidate);
        keep := keep + {candidate.path};
        kept := kept + {candidate};
      }
      KeptAdvance(candidates, i, policy, now);
      i := i + 1;
    }
    LoopEnds(candidates, policy, now);
  }

  lemma PathsGrow(h: set<Candidate>, c: Candidate)
    ensures Paths(h + {c}) == Paths(h) + {c.path}
  {
  }

  lemma LoopStarts(list: seq<Candidate>, policy: Policy, now: Instant)
    ensures forall tier :: TierState(Elements(list[..0]), tier, policy, now, Cap(tier, policy), {})
    ensures Elements(list[..0]) == {} && Paths({}) == {}
    ensures Cutoff(Daily, policy, now) == StartOfDay(AddDate(now, 0, -policy.daily + 1))
    ensures Cutoff(Weekly, policy, now) == StartOfDay(AddDate(now, 0, -7 * policy.weekly + 1))
    ensures Cutoff(Monthly, policy, now) == StartOfMonth(AddDate(now, -policy.monthly + 1, 0))
    ensures Cap(Daily, policy) == policy.daily && Cap(Weekly, policy) == policy.weekly && Cap(Monthly, policy) == policy.monthly
  {
    hide AddDate, StartOfDay, StartOfMonth, BucketOf;
    assert list[..0] == [];
  }

  lemma KeptAdvance(list: seq<Candidate>, i: nat, policy: Policy, now: Instant)
    requires NewestFirst(list) && i < |list|
    ensures Elements(list[..i+1]) == Elements(list[..i]) + {list[i]}
    ensures Kept(Elements(list), list[i], policy, now) <==>
              || Selects(Elements(list), list[i], Daily, policy, now)
              || Selects(Elements(list), list[i], Weekly, policy, now)
              || Selects(Elements(list), list[i], Monthly, policy, now)
  {
    hide Selects, Elements, NewestFirst;
    PrefixIsNewer(list, i);
  }

  lemma LoopEnds(list: seq<Candidate>, policy: Policy, now: Instant)
    ensures list[..|list|] == list
    ensures KeepSet(Elements(list), policy, now) == set c | c in Elements(list) && Kept(Elements(list), c, policy, now)
  {
    hide Kept;
  }

  /* ---- what the selection means ---- */

  /** Removing backups that were not kept changes nothing a tier sees, until its cap is met. */
  lemma {:induction false} SameBuckets(h: set<Candidate>, s: set<Candidate>, t: Instant,
                                       tier: Tier, policy: Policy, now: Instant)
    requires KeepSet(h, policy, now) <= s <= h && t >= Cutoff(tier, policy, now)
    requires |Buckets(Newer(s, t), tier)| < Cap(tier, policy)
    ensures Buckets(Newer(s, t), tier) == Buckets(Newer(h, t), tier)
    decreases Newer(h, t)
  {
    hide BucketOf, Cutoff;
    if Newer(h, t) != {} {
      var g := OldestOf(Newer(h, t));
      var olderH, olderS := Newer(h, g.time), Newer(s, g.time);
      assert olderH < Newer(h, t) by {
        assert g in Newer(h, t) && g !in olderH;
      }
      SubsetBuckets(olderS, Newer(s, t), tier);
      SameBuckets(h, s, g.time, tier, policy, now);
      assert Buckets(olderS, tier) == Buckets(olderH, tier);
      NewerSplit(h, t, g, tier);
      SubsetBuckets(Newer(s, t), Newer(h, t), tier);
      if BucketOf(tier, g.time) !in Buckets(olderH, tier) {
        assert Selects(h, g, tier, policy, now);
        assert g in KeepSet(h, policy, now);
        assert g in Newer(s, t);
      }
    }
  }

  lemma OldestOf(h: set<Candidate>) returns (g: Candidate)
    requires h != {}
    ensures g in h && forall c :: c in h ==> g.time <= c.time
  {
    g :| g in h;
    if h != {g} {
      var rest := h - {g};
      var o := OldestOf(rest);
      forall c | c in h ensures (if o.time <= g.time then o else g).time <= c.time {
        assert c == g || c in rest;
      }
      g := if o.time <= g.time then o else g;
    }
  }

  lemma SubsetBuckets(a: set<Candidate>, b: set<Candidate>, tier: Tier)
    requires a <= b
    ensures Buckets(a, tier) <= Buckets(b, tier)
    ensures |Buckets(a, tier)| <= |Buckets(b, tier)|
  {
    hide BucketOf;
    SubsetSize(Buckets(a, tier), Buckets(b, tier));
  }

  lemma SubsetSize<T>(a: set<T>, b: set<T>)
    requires a <= b
    ensures |a| <= |b|
  {
    assert b == a + (b - a);
  }

  /** The buckets newer than t are those newer than the oldest of them, and its own. */
  lemma NewerSplit(h: set<Candidate>, t: Instant, g: Candidate, tier: Tier)
    requires g in Newer(h, t) && forall c :: c in Newer(h, t) ==> g.time <= c.time
    ensures Buckets(Newer(h, t), tier) == Buckets(Newer(h, g.time), tier) + {BucketOf(tier, g.time)}
  {
    hide BucketOf;
    forall c | c in Newer(h, t)
      ensures BucketOf(tier, c.time) in Buckets(Newer(h, g.time), tier) + {BucketOf(tier, g.time)}
    {
      if c.time > g.time {
        assert c in Newer(h, g.time);
      }
    }
    forall b | b in Buckets(Newer(h, g.time), tier) + {BucketOf(tier, g.time)}
      ensures b in Buckets(Newer(h, t), tier)
    {
      assert Newer(h, g.time) <= Newer(h, t);
    }
  }

  lemma SandwichTier(h: set<Candidate>, s: set<Candidate>, c: Candidate, tier: Tier, policy: Policy, now: Instant)
    requires KeepSet(h, policy, now) <= s <= h && c in s
    ensures Selects(s, c, tier, policy, now) <==> Selects(h, c, tier, policy, now)
  {
    hide BucketOf, Cutoff, Buckets, KeepSet;
    SubsetBuckets(Newer(s, c.time), Newer(h, c.time), tier);
    if Selects(s, c, tier, policy, now) {
      SameBuckets(h, s, c.time, tier, policy, now);
    }
  }

  /** Anything between what is kept and what there was is pruned to the same set; in particular
      pruning twice at one instant deletes nothing the second time. */
  lemma Sandwich(h: set<Candidate>, s: set<Candidate>, policy: Policy, now: Instant)
    requires KeepSet(h, policy, now) <= s <= h
    ensures KeepSet(s, policy, now) == KeepSet(h, policy, now)
  {
    hide Selects;
    forall c | c in s
      ensures Kept(s, c, policy, now) <==> Kept(h, c, policy, now)
    {
      SandwichTier(h, s, c, Daily, policy, now);
      SandwichTier(h, s, c, Weekly, policy, now);
      SandwichTier(h, s, c, Monthly, policy, now);
    }
  }

  /** What is kept under a smaller policy or at a later instant, among a superset of newer
      backups, is kept. */
  lemma SelectsMonotone(h: set<Candidate>, more: set<Candidate>, c: Candidate, tier: Tier,
                        p: Policy, q: Policy, now: Instant, later: Instant)
    requires h <= more && c in h && LessGenerous(p, q) && now <= later
    requires Selects(more, c, tier, p, later)
    ensures Selects(h, c, tier, q, now)
  {
    hide BucketOf, Cutoff, Buckets;
    CutoffMonotone(tier, p, q, now, later);
    SubsetBuckets(Newer(h, c.time), Newer(more, c.time), tier);
  }

  lemma KeptMonotone(h: set<Candidate>, more: set<Candidate>, p: Policy, q: Policy, now: Instant, later: Instant)
    requires h <= more && LessGenerous(p, q) && now <= later
    ensures KeepSet(more, p, later) * h <= KeepSet(h, q, now)
  {
    hide Selects;
    forall c | c in KeepSet(more, p, later) * h
      ensures Kept(h, c, q, now)
    {
      if Selects(more, c, Daily, p, later) { SelectsMonotone(h, more, c, Daily, p, q, now, later); }
      if Selects(more, c, Weekly, p, later) { SelectsMonotone(h, more, c, Weekly, p, q, now, later); }
      if Selects(more, c, Monthly, p, later) { SelectsMonotone(h, more, c, Monthly, p, q, now, later); }
    }
  }

  /** A pointwise larger policy never keeps less. */
  lemma PolicyMonotone(h: set<Candidate>, p: Policy, q: Policy, now: Instant)
    requires LessGenerous(p, q)
    ensures KeepSet(h, p, now) <= KeepSet(h, q, now)
  {
    hide Kept;
    KeptMonotone(h, h, p, q, now, now);
  }

  /* ---- how much is kept ---- */

  function TierSet(h: set<Candidate>, tier: Tier, policy: Policy, now: Instant): set<Candidate> {
    set c | c in h && Selects(h, c, tier, policy, now)
  }

  /** How many buckets a cap allows: a tier without a positive cap is off. */
  function Size(cap: int): nat {
    if cap > 0 then cap else 0
  }

  /** Backups of pairwise different buckets are no more than their buckets. */
  lemma {:induction false} DistinctBuckets(x: set<Candidate>, tier: Tier)
    requires forall c, d :: c in x && d in x && c != d ==> BucketOf(tier, c.time) != BucketOf(tier, d.time)
    ensures |x| == |Buckets(x, tier)|
  {
    hide BucketOf;
    if x != {} {
      var c :| c in x;
      var rest := x - {c};
      DistinctBuckets(rest, tier);
      assert x == rest + {c};
      BucketsGrow(rest, c, tier);
      assert BucketOf(tier, c.time) !in Buckets(rest, tier);
    }
  }

  lemma TierSize(h: set<Candidate>, tier: Tier, policy: Policy, now: Instant)
    requires Distinct(h)
    ensures |TierSet(h, tier, policy, now)| <= Size(Cap(tier, policy))
  {
    hide BucketOf, Cutoff;
    var x := TierSet(h, tier, policy, now);
    if x != {} {
      var g := OldestOf(x);
      var rest := x - {g};
      assert x == rest + {g};
      forall c | c in rest
        ensures c in Newer(h, g.time)
      {
      }
      forall c, d | c in rest && d in rest && c != d
        ensures BucketOf(tier, c.time) != BucketOf(tier, d.time)
      {
        if c.time > d.time {
          assert c in Newer(h, d.time);
        } else {
          assert d in Newer(h, c.time);
        }
      }
      DistinctBuckets(rest, tier);
      SubsetBuckets(rest, Newer(h, g.time), tier);
    }
  }

  /** No more backups are kept than the caps of the enabled tiers add up to, and each is the newest of its bucket
      within the window of some tier. */
  lemma KeepsAtMost(h: set<Candidate>, policy: Policy, now: Instant)
    requires Distinct(h)
    ensures |KeepSet(h, policy, now)| <= Size(policy.daily) + Size(policy.weekly) + Size(policy.monthly)
    ensures forall c :: c in KeepSet(h, policy, now) ==>
              exists tier :: c.time >= Cutoff(tier, policy, now)
                          && forall d :: d in h && d.time > c.time ==> BucketOf(tier, d.time) != BucketOf(tier, c.time)
  {
    hide BucketOf, Cutoff, Selects;
    var d, w, m := TierSet(h, Daily, policy, now), TierSet(h, Weekly, policy, now), TierSet(h, Monthly, policy, now);
    TierSize(h, Daily, policy, now);
    TierSize(h, Weekly, policy, now);
    TierSize(h, Monthly, policy, now);
    SubsetSize(KeepSet(h, policy, now), d + w + m);
    forall c | c in KeepSet(h, policy, now)
      ensures exists tier :: c.time >= Cutoff(tier, policy, now)
                          && forall d :: d in h && d.time > c.time ==> BucketOf(tier, d.time) != BucketOf(tier, c.time)
    {
      var tier := if Selects(h, c, Daily, policy, now) then Daily
                  else if Selects(h, c, Weekly, policy, now) then Weekly else Monthly;
      SelectedIsNewest(h, c, tier, policy, now);
    }
  }

  lemma SelectedIsNewest(h: set<Candidate>, c: Candidate, tier: Tier, policy: Policy, now: Instant)
    requires Selects(h, c, tier, policy, now)
    ensures c.time >= Cutoff(tier, policy, now)
    ensures forall d :: d in h && d.time > c.time ==> BucketOf(tier, d.time) != BucketOf(tier, c.time)
  {
    hide BucketOf, Cutoff;
    forall d | d in h && d.time > c.time
      ensures BucketOf(tier, d.time) in Buckets(Newer(h, c.time), tier)
    {
      assert d in Newer(h, c.time);
    }
  }

  /* ---- windows ---- */

  ghost predicate NewestOfBucket(h: set<Candidate>, c: Candidate, tier: Tier) {
    c in h && BucketOf(tier, c.time) !in Buckets(Newer(h, c.time), tier)
  }

  /** Backups whose bucket numbers lie in a range of n meet at most n buckets. */
  lemma {:induction false} BucketRange(x: set<Candidate>, tier: Tier, lo: int, n: nat)
    requires forall c :: c in x ==> lo <= BucketIndex(tier, c.time) < lo + n
    ensures |Buckets(x, tier)| <= n
  {
    hide BucketOf, BucketIndex;
    if x != {} {
      var top := set c | c in x && BucketIndex(tier, c.time) == lo + n - 1;
      var rest := x - top;
      BucketRange(rest, tier, lo, n - 1);
      if top == {} {
        assert rest == x;
      } else {
        var g :| g in top;
        forall c | c in top ensures BucketOf(tier, c.time) == BucketOf(tier, g.time) {
          BucketsAreIndexed(tier, c.time, g.time);
        }
        SubsetSize(Buckets(x, tier), Buckets(rest, tier) + {BucketOf(tier, g.time)});
      }
    }
  }

  /** The buckets newer than the newest backup of a bucket are at most those up to `now`. */
  lemma NewerBucketsUpToNow(h: set<Candidate>, c: Candidate, tier: Tier, now: Instant)
    requires NewestOfBucket(h, c, tier)
    requires forall d :: d in h ==> d.time <= now
    ensures |Buckets(Newer(h, c.time), tier)| <= BucketIndex(tier, now) - BucketIndex(tier, c.time)
  {
    hide BucketOf, BucketIndex;
    var x := Newer(h, c.time);
    BucketsAreIndexed(tier, c.time, now);
    forall d | d in x
      ensures BucketIndex(tier, c.time) + 1 <= BucketIndex(tier, d.time) <= BucketIndex(tier, now)
    {
      BucketsAreIndexed(tier, c.time, d.time);
      BucketsAreIndexed(tier, d.time, now);
    }
    BucketRange(x, tier, BucketIndex(tier, c.time) + 1, BucketIndex(tier, now) - BucketIndex(tier, c.time));
  }

  /** With no backup dated after `now` the daily cap never drops a day: the window holds exactly
      as many days as the cap. */
  lemma DailyWindow(h: set<Candidate>, c: Candidate, policy: Policy, now: Instant)
    requires forall d :: d in h ==> d.time <= now
    ensures DayOf(now) - DayOf(Cutoff(Daily, policy, now)) + 1 == policy.daily
    ensures Selects(h, c, Daily, policy, now) <==>
              NewestOfBucket(h, c, Daily) && c.time >= Cutoff(Daily, policy, now)
  {
    hide BucketOf, AddDate, Buckets, MonthOf;
    DayOfAddDate(now, 0, -policy.daily + 1);
    if NewestOfBucket(h, c, Daily) && c.time >= Cutoff(Daily, policy, now) {
      NewerBucketsUpToNow(h, c, Daily, now);
    }
  }

  /** Nor does the monthly cap: the window meets at most as many months as the cap. */
  lemma MonthlyWindow(h: set<Candidate>, c: Candidate, policy: Policy, now: Instant)
    requires forall d :: d in h ==> d.time <= now
    ensures MonthOf(DayOf(now)) - MonthOf(DayOf(Cutoff(Monthly, policy, now))) + 1 <= policy.monthly
    ensures Selects(h, c, Monthly, policy, now) <==>
              NewestOfBucket(h, c, Monthly) && c.time >= Cutoff(Monthly, policy, now)
  {
    hide BucketOf, AddDate, Buckets, MonthOf, MonthStart;
    AddMonthsOverflow(now, -policy.monthly + 1);
    var month := MonthOf(DayOf(AddDate(now, -policy.monthly + 1, 0)));
    MonthLength(month);
    assert DayOf(Cutoff(Monthly, policy, now)) == MonthStart(month);
    MonthOfIs(MonthStart(month), month);
    if NewestOfBucket(h, c, Monthly) && c.time >= Cutoff(Monthly, policy, now) {
      NewerBucketsUpToNow(h, c, Monthly, now);
      MonthOfMonotone(DayOf(Cutoff(Monthly, policy, now)), DayOf(c.time));
    }
  }

  /** The 7 * Weekly days meet one ISO week more than the cap, so the newest backup of a week is
      dropped only when it lies in the first of them and Weekly later weeks are non-empty. */
  lemma WeeklyWindow(h: set<Candidate>, c: Candidate, policy: Policy, now: Instant)
    requires forall d :: d in h ==> d.time <= now
    requires NewestOfBucket(h, c, Weekly) && c.time >= Cutoff(Weekly, policy, now)
    ensures DayOf(now) / 7 - policy.weekly <= DayOf(c.time) / 7 <= DayOf(now) / 7
    ensures !Selects(h, c, Weekly, policy, now) <==>
              && DayOf(c.time) / 7 == DayOf(now) / 7 - policy.weekly
              && |Buckets(Newer(h, c.time), Weekly)| == policy.weekly
  {
    hide BucketOf, AddDate, Buckets;
    DayOfAddDate(now, 0, -7 * policy.weekly + 1);
    NewerBucketsUpToNow(h, c, Weekly, now);
    assert DayOf(c.time) >= DayOf(now) - 7 * policy.weekly + 1;
    assert WeekIndex(DayOf(c.time)) >= WeekIndex(DayOf(now) - 7 * policy.weekly);
    assert WeekIndex(DayOf(now) - 7 * policy.weekly) == WeekIndex(DayOf(now)) - policy.weekly;
  }

  /* ---- the selection in days, weeks and months ---- */

  function Indices(h: set<Candidate>, tier: Tier): set<int> {
    set c | c in h :: BucketIndex(tier, c.time)
  }

  lemma {:induction false} IndexCount(h: set<Candidate>, tier: Tier)
    ensures |Buckets(h, tier)| == |Indices(h, tier)|
  {
    hide Buckets, Indices, BucketOf, BucketIndex;
    if h != {} {
      var g :| g in h;
      var rest := h - {g};
      IndexCount(rest, tier);
      assert h == rest + {g};
      BucketsGrow(rest, g, tier);
      IndicesGrow(rest, g, tier);
      SameNovelty(rest, g, tier);
      AddOne(Buckets(rest, tier), BucketOf(tier, g.time));
      AddOne(Indices(rest, tier), BucketIndex(tier, g.time));
    } else {
      NoBuckets(tier);
    }
  }

  lemma AddOne<T>(s: set<T>, x: T)
    ensures |s + {x}| == |s| + if x in s then 0 else 1
  {
    assert x in s ==> s + {x} == s;
  }

  lemma NoBuckets(tier: Tier)
    ensures Buckets({}, tier) == {} && Indices({}, tier) == {}
  {
  }

  lemma IndicesGrow(done: set<Candidate>, c: Candidate, tier: Tier)
    ensures Indices(done + {c}, tier) == Indices(done, tier) + {BucketIndex(tier, c.time)}
  {
    hide BucketIndex;
  }

  lemma SameNovelty(done: set<Candidate>, g: Candidate, tier: Tier)
    ensures BucketOf(tier, g.time) in Buckets(done, tier) <==> BucketIndex(tier, g.time) in Indices(done, tier)
  {
    hide BucketOf, BucketIndex;
    if c :| c in done && BucketOf(tier, c.time) == BucketOf(tier, g.time) {
      BucketsAreIndexed(tier, c.time, g.time);
    }
    if c :| c in done && BucketIndex(tier, c.time) == BucketIndex(tier, g.time) {
      BucketsAreIndexed(tier, c.time, g.time);
    }
  }

  lemma SelectsByIndex(h: set<Candidate>, c: Candidate, tier: Tier, policy: Policy, now: Instant)
    ensures Selects(h, c, tier, policy, now) <==>
              && c in h && c.time >= Cutoff(tier, policy, now)
              && (forall d :: d in h && d.time > c.time ==> BucketIndex(tier, d.time) != BucketIndex(tier, c.time))
              && |Indices(Newer(h, c.time), tier)| < Cap(tier, policy)
  {
    hide BucketOf, BucketIndex, Cutoff, Cap;
    IndexCount(Newer(h, c.time), tier);
    forall d | d in h && d.time > c.time
      ensures d in Newer(h, c.time)
      ensures BucketIndex(tier, d.time) == BucketIndex(tier, c.time) <==> BucketOf(tier, d.time) == BucketOf(tier, c.time)
    {
      BucketsAreIndexed(tier, d.time, c.time);
    }
  }

  /** The daily tier keeps the newest backup of a day, for the last Daily days up to the day of `now` or
      later, as long as fewer than Daily later days have one. */
  lemma DailySelects(h: set<Candidate>, c: Candidate, policy: Policy, now: Instant)
    ensures Selects(h, c, Daily, policy, now) <==>
              && c in h && DayOf(c.time) > DayOf(now) - policy.daily
              && (forall d :: d in h && d.time > c.time ==> DayOf(d.time) != DayOf(c.time))
              && |set d | d in h && d.time > c.time :: DayOf(d.time)| < policy.daily
  {
    hide Selects, AddDate, MonthOf, MonthStart, DayOfMonth, Indices, DayOf, StartOfDay;
    SelectsByIndex(h, c, Daily, policy, now);
    DayOfAddDate(now, 0, -policy.daily + 1);
    StartOfDayIs(c.time, AddDate(now, 0, -policy.daily + 1));
    assert (set d | d in h && d.time > c.time :: DayOf(d.time)) == Indices(Newer(h, c.time), Daily) by {
      IndicesAre(h, c.time);
    }
  }

  /** The weekly tier keeps the newest backup of a week from Monday to Sunday. */
  lemma WeeklySelects(h: set<Candidate>, c: Candidate, policy: Policy, now: Instant)
    ensures Selects(h, c, Weekly, policy, now) <==>
              && c in h && DayOf(c.time) > DayOf(now) - 7 * policy.weekly
              && (forall d :: d in h && d.time > c.time ==> DayOf(d.time) / 7 != DayOf(c.time) / 7)
              && |set d | d in h && d.time > c.time :: DayOf(d.time) / 7| < policy.weekly
  {
    hide Selects, AddDate, MonthOf, MonthStart, DayOfMonth, Indices, DayOf, StartOfDay;
    SelectsByIndex(h, c, Weekly, policy, now);
    DayOfAddDate(now, 0, -7 * policy.weekly + 1);
    StartOfDayIs(c.time, AddDate(now, 0, -7 * policy.weekly + 1));
    assert (set d | d in h && d.time > c.time :: DayOf(d.time) / 7) == Indices(Newer(h, c.time), Weekly) by {
      IndicesAre(h, c.time);
    }
  }

  /** The monthly tier keeps the newest backup of a month; its window begins Monthly - 1 months back, or
      a month later when that month is too short for the day of the month of `now`. */
  lemma MonthlySelects(h: set<Candidate>, c: Candidate, policy: Policy, now: Instant)
    ensures var first := MonthOf(DayOf(now)) - policy.monthly + 1;
            var month := if DayOfMonth(DayOf(now)) <= DaysInMonth(YearOf(first), MonthNumber(first)) then first else first + 1;
            Selects(h, c, Monthly, policy, now) <==>
              && c in h && MonthOf(DayOf(c.time)) >= month
              && (forall d :: d in h && d.time > c.time ==> MonthOf(DayOf(d.time)) != MonthOf(DayOf(c.time)))
              && |set d | d in h && d.time > c.time :: MonthOf(DayOf(d.time))| < policy.monthly
  {
    hide Selects, AddDate, MonthOf, Indices, DayOf, MonthStart, DaysInMonth, DayOfMonth;
    SelectsByIndex(h, c, Monthly, policy, now);
    AddMonthsOverflow(now, -policy.monthly + 1);
    StartOfMonthIs(c.time, AddDate(now, -policy.monthly + 1, 0));
    assert (set d | d in h && d.time > c.time :: MonthOf(DayOf(d.time))) == Indices(Newer(h, c.time), Monthly) by {
      IndicesAre(h, c.time);
    }
  }

  lemma IndicesAre(h: set<Candidate>, t: Instant)
    ensures Indices(Newer(h, t), Daily) == set d | d in h && d.time > t :: DayOf(d.time)
    ensures Indices(Newer(h, t), Weekly) == set d | d in h && d.time > t :: DayOf(d.time) / 7
    ensures Indices(Newer(h, t), Monthly) == set d | d in h && d.time > t :: MonthOf(DayOf(d.time))
  {
    hide MonthOf, DayOf;
    assert forall d :: d in Newer(h, t) <==> d in h && d.time > t;
  }

  lemma StartOfDayIs(t: Instant, u: Instant)
    ensures t >= StartOfDay(u) <==> DayOf(t) >= DayOf(u)
  {
  }

  lemma StartOfMonthIs(t: Instant, u: Instant)
    ensures t >= StartOfMonth(u) <==> MonthOf(DayOf(t)) >= MonthOf(DayOf(u))
  {
    hide MonthOf, MonthStart;
    var day := MonthStart(MonthOf(DayOf(u)));
    MonthLength(MonthOf(DayOf(u)));
    MonthOfIs(day, MonthOf(DayOf(u)));
    assert t >= day * TICKS_PER_DAY <==> DayOf(t) >= day;
    if DayOf(t) >= day {
      MonthOfMonotone(day, DayOf(t));
    } else {
      if MonthOf(DayOf(t)) >= MonthOf(DayOf(u)) {
        MonthsAscend(MonthOf(DayOf(u)), MonthOf(DayOf(t)));
      }
    }
  }

  /* ---- runs ---- */

  datatype Step = Add(backup: Candidate) | Prune(now: Instant, apply: bool)

  /** Every backup ever made. */
  function Ever(steps: seq<Step>): set<Candidate> {
    if steps == [] then {}
    else
      var before := Ever(steps[..|steps|-1]);
      match steps[|steps|-1]
      case Add(backup) => before + {backup}
      case Prune(_, _) => before
  }

  /** The backups left on disk. */
  function Survivors(steps: seq<Step>, policy: Policy): set<Candidate> {
    if steps == [] then {}
    else
      var before := Survivors(steps[..|steps|-1], policy);
      match steps[|steps|-1]
      case Add(backup) => before + {backup}
      case Prune(now, apply) => if apply then KeepSet(before, policy, now) else before
  }

  predicate PrunedBy(steps: seq<Step>, now: Instant) {
    forall k :: 0 <= k < |steps| && steps[k].Prune? ==> steps[k].now <= now
  }

  /** Each backup is newer than all before it, and the clock of the prunes does not go back. */
  predicate LegalRun(steps: seq<Step>) {
    forall k :: 0 <= k < |steps| ==>
      match steps[k]
      case Add(backup) => forall c :: c in Ever(steps[..k]) ==> c.time < backup.time
      case Prune(now, _) => PrunedBy(steps[..k], now)
  }

  lemma {:induction false} NothingNeededIsLost(steps: seq<Step>, policy: Policy, now: Instant)
    requires LegalRun(steps) && PrunedBy(steps, now)
    ensures KeepSet(Ever(steps), policy, now) <= Survivors(steps, policy) <= Ever(steps)
  {
    hide Kept;
    if steps != [] {
      var front := steps[..|steps|-1];
      LegalPrefix(steps);
      NothingNeededIsLost(front, policy, now);
      match steps[|steps|-1]
      case Add(backup) =>
        KeptMonotone(Ever(front), Ever(steps), policy, policy, now, now);
      case Prune(at, apply) =>
        NothingNeededIsLost(front, policy, at);
        Sandwich(Ever(front), Survivors(front, policy), policy, at);
        KeptMonotone(Ever(front), Ever(front), policy, policy, at, now);
    }
  }

  lemma LegalPrefix(steps: seq<Step>)
    requires steps != [] && LegalRun(steps)
    ensures LegalRun(steps[..|steps|-1])
    ensures steps[|steps|-1].Prune? ==> PrunedBy(steps[..|steps|-1], steps[|steps|-1].now)
    ensures forall now :: PrunedBy(steps, now) ==> PrunedBy(steps[..|steps|-1], now)
  {
    hide Ever;
    var front := steps[..|steps|-1];
    forall k | 0 <= k < |front| ensures front[..k] == steps[..k] && front[k] == steps[k] {}
  }

  /** Pruning day after day keeps exactly what one prune of every backup ever made would keep. */
  lemma IncrementalIsOneShot(steps: seq<Step>, policy: Policy)
    requires steps != [] && LegalRun(steps)
    requires var last := steps[|steps|-1]; last.Prune? && last.apply
    ensures Survivors(steps, policy) == KeepSet(Ever(steps), policy, steps[|steps|-1].now)
  {
    hide Kept;
    var front, now := steps[..|steps|-1], steps[|steps|-1].now;
    LegalPrefix(steps);
    NothingNeededIsLost(front, policy, now);
    Sandwich(Ever(front), Survivors(front, policy), policy, now);
  }

  /* ---- the directory ---- */

  datatype Entry = Entry(isDir: bool, stamp: Option<Instant>)
  datatype PruneResult = PruneResult(scanned: nat, kept: nat, wouldDelete: nat, deleted: nat)

  /** The backups among the entries of a directory; `stamp` is the time the name stands for, if
      the name is that of a backup. */
  function Backups(entries: map<string, Entry>): set<Candidate> {
    set name | name in entries && !entries[name].isDir && entries[name].stamp.Some? ::
      Candidate(name, entries[name].stamp.value)
  }

  class BackupDir {
    var entries: map<string, Entry>

    constructor (entries: map<string, Entry>)
      ensures this.entries == entries
    {
      this.entries := entries;
    }

    /** The backups from newest to oldest. */
    method List() returns (list: seq<Candidate>)
      requires Distinct(Backups(entries))
      ensures NewestFirst(list) && Elements(list) == Backups(entries) && |list| == |Backups(entries)|
    {
      hide *;
      list := [];
      var left := Backups(entries);
      ListStarts(left);
      while left != {}
        invariant Listed(Backups(entries), left, list)
        decreases left
      {
        NewestExists(left);
        var c :| c in left && forall d :: d in left ==> d.time <= c.time;
        ListTurn(Backups(entries), left, list, c);
        left := left - {c};
        list := list + [c];
      }
      ListDone(Backups(entries), list);
    }

    /** Deletes what retention does not keep, or only counts it. */
    method Prune(policy: Policy, now: Instant, apply: bool) returns (result: PruneResult)
      requires Distinct(Backups(entries))
      modifies this
      ensures apply ==> Backups(entries) == KeepSet(Backups(old(entries)), policy, now)
      ensures !apply ==> entries == old(entries)
      ensures forall name :: name in entries ==> name in old(entries) && entries[name] == old(entries)[name]
      ensures forall name :: name in old(entries) && name !in entries ==>
                exists c :: c in Backups(old(entries)) && c.path == name && c !in KeepSet(Backups(old(entries)), policy, now)
      ensures result.scanned == |Backups(old(entries))| == result.kept + result.wouldDelete
      ensures result.kept == |KeepSet(Backups(old(entries)), policy, now)|
      ensures result.deleted == if apply then result.wouldDelete else 0
    {
      hide *;
      var candidates := List();
      var keep := SelectBackupsToKeep(candidates, policy, now);
      ghost var kept := KeepSet(Backups(entries), policy, now);
      var keptCount, wouldDelete, deleted := 0, 0, 0;
      var i := 0;
      PruneStarts(candidates, entries, kept, apply);
      while i < |candidates|
        invariant 0 <= i <= |candidates|
        invariant PruneAt(candidates, i, old(entries), entries, kept, apply, keptCount, wouldDelete, deleted)
      {
        var candidate := candidates[i];
        PruneTurn(candidates, i, old(entries), entries, kept, apply, keptCount, wouldDelete, deleted);
        if candidate.path in keep {
          keptCount := keptCount + 1;
        } else {
          wouldDelete := wouldDelete + 1;
          if apply {
            entries := entries - {candidate.path};
            deleted := deleted + 1;
          }
        }
        i := i + 1;
      }
      result := PruneResult(|candidates|, keptCount, wouldDelete, deleted);
      PruneDone(candidates, old(entries), entries, kept, apply, keptCount, wouldDelete, deleted);
    }
  }

  /** Selection sort: the listed backups are in order and newer than those left. */
  ghost predicate Listed(all: set<Candidate>, left: set<Candidate>, list: seq<Candidate>) {
    && left <= all && Distinct(all) && NewestFirst(list)
    && Elements(list) == all - left && |list| + |left| == |all|
    && forall c, d :: c in left && d in list ==> c.time < d.time
  }

  lemma ListStarts(all: set<Candidate>)
    requires Distinct(all)
    ensures Listed(all, all, [])
  {
  }

  lemma ListTurn(all: set<Candidate>, left: set<Candidate>, list: seq<Candidate>, c: Candidate)
    requires Listed(all, left, list)
    requires c in left && forall d :: d in left ==> d.time <= c.time
    ensures Listed(all, left - {c}, list + [c])
  {
    hide Elements;
    var more := list + [c];
    ElementsOneMore(list, c);
    assert forall d :: d in more <==> d in list || d == c;
    assert forall i :: 0 <= i < |list| ==> more[i] == list[i] && more[i] in list;
    assert NewestFirst(more);
    assert Elements(more) == all - (left - {c});
    forall d | d in left && d != c
      ensures d.time < c.time
    {
      assert d in all && c in all;
    }
    OlderThanListed(left, list, c);
  }

  lemma OlderThanListed(left: set<Candidate>, list: seq<Candidate>, c: Candidate)
    requires c in left && forall d, e :: d in left && e in list ==> d.time < e.time
    requires forall d :: d in left ==> d == c || d.time < c.time
    ensures forall d, e :: d in left - {c} && e in list + [c] ==> d.time < e.time
  {
  }

  lemma ElementsOneMore(list: seq<Candidate>, c: Candidate)
    ensures Elements(list + [c]) == Elements(list) + {c}
    ensures forall d :: d in Elements(list) <==> d in list
  {
    assert forall d :: d in list + [c] <==> d in list || d == c;
  }

  lemma ListDone(all: set<Candidate>, list: seq<Candidate>)
    requires Listed(all, {}, list)
    ensures NewestFirst(list) && Elements(list) == all && |list| == |all|
  {
  }

  lemma NewestExists(h: set<Candidate>)
    requires h != {}
    ensures exists c :: c in h && forall d :: d in h ==> d.time <= c.time
  {
    var c :| c in h;
    if h != {c} {
      var rest := h - {c};
      NewestExists(rest);
      var n :| n in rest && forall d :: d in rest ==> d.time <= n.time;
      var top := if c.time > n.time then c else n;
      forall d | d in h ensures d.time <= top.time { assert d == c || d in rest; }
    }
  }

  function KeptOf(met: set<Candidate>, kept: set<Candidate>): set<Candidate> { met * kept }
  function DroppedOf(met: set<Candidate>, kept: set<Candidate>): set<Candidate> { met - kept }

  ghost predicate Tallied(met: set<Candidate>, kept: set<Candidate>, k: nat, w: nat) {
    |KeptOf(met, kept)| == k && |DroppedOf(met, kept)| == w
  }

  lemma OneMore(met: set<Candidate>, kept: set<Candidate>, c: Candidate)
    requires c !in met
    ensures c in kept ==> KeptOf(met + {c}, kept) == KeptOf(met, kept) + {c} && DroppedOf(met + {c}, kept) == DroppedOf(met, kept)
    ensures c !in kept ==> KeptOf(met + {c}, kept) == KeptOf(met, kept) && DroppedOf(met + {c}, kept) == DroppedOf(met, kept) + {c}
    ensures c !in KeptOf(met, kept) && c !in DroppedOf(met, kept)
  {
  }

  lemma TallyTurn(met: set<Candidate>, kept: set<Candidate>, c: Candidate, k: nat, w: nat)
    requires Tallied(met, kept, k, w) && c !in met
    ensures Tallied(met + {c}, kept, if c in kept then k + 1 else k, if c in kept then w else w + 1)
    ensures |met + {c}| == |met| + 1
  {
    hide KeptOf, DroppedOf;
    OneMore(met, kept, c);
  }

  /** The state of the prune loop after i candidates. */
  ghost predicate PruneAt(candidates: seq<Candidate>, i: nat, before: map<string, Entry>, entries: map<string, Entry>,
                          kept: set<Candidate>, apply: bool, k: nat, w: nat, deleted: nat)
  {
    && i <= |candidates|
    && var met := Elements(candidates[..i]);
       && |met| == i && Tallied(met, kept, k, w)
       && deleted == (if apply then w else 0)
       && entries == before - Paths(if apply then DroppedOf(met, kept) else {})
  }

  lemma PruneStarts(candidates: seq<Candidate>, entries: map<string, Entry>, kept: set<Candidate>, apply: bool)
    ensures PruneAt(candidates, 0, entries, entries, kept, apply, 0, 0, 0)
  {
    assert candidates[..0] == [];
    assert Elements([]) == {} && DroppedOf({}, kept) == {} && KeptOf({}, kept) == {};
    assert entries - Paths({}) == entries;
  }

  lemma WithoutOneMore(entries: map<string, Entry>, paths: set<string>, path: string)
    ensures entries - (paths + {path}) == entries - paths - {path}
  {
  }

  /** The next candidate is new, and its path is among the kept ones exactly when it is kept. */
  lemma PruneTurn(candidates: seq<Candidate>, i: nat, before: map<string, Entry>, entries: map<string, Entry>,
                  kept: set<Candidate>, apply: bool, k: nat, w: nat, deleted: nat)
    requires i < |candidates| && NewestFirst(candidates)
    requires Distinct(Elements(candidates)) && kept <= Elements(candidates)
    requires PruneAt(candidates, i, before, entries, kept, apply, k, w, deleted)
    ensures candidates[i].path in Paths(kept) ==>
              PruneAt(candidates, i + 1, before, entries, kept, apply, k + 1, w, deleted)
    ensures candidates[i].path !in Paths(kept) ==>
              PruneAt(candidates, i + 1, before, if apply then entries - {candidates[i].path} else entries,
                      kept, apply, k, w + 1, if apply then deleted + 1 else deleted)
  {
    hide Tallied, NewestFirst;
    PrefixIsNewer(candidates, i);
    var c, met := candidates[i], Elements(candidates[..i]);
    KeptByPath(candidates, i, kept);
    hide Elements, Distinct, Paths, KeptOf, DroppedOf;
    TallyTurn(met, kept, c, k, w);
    OneMore(met, kept, c);
    if c !in kept && apply {
      var dropped := DroppedOf(met, kept);
      PathsGrow(dropped, c);
      WithoutOneMore(before, Paths(dropped), c.path);
    }
  }

  lemma KeptByPath(candidates: seq<Candidate>, i: nat, kept: set<Candidate>)
    requires i < |candidates| && NewestFirst(candidates)
    requires Distinct(Elements(candidates)) && kept <= Elements(candidates)
    ensures candidates[i] !in Elements(candidates[..i])
    ensures candidates[i].path in Paths(kept) <==> candidates[i] in kept
  {
    PrefixIsNewer(candidates, i);
    var c := candidates[i];
    assert c in candidates;
    if c.path in Paths(kept) {
      var same :| same in kept && same.path == c.path;
      assert same == c;
    }
  }

  lemma PruneDone(candidates: seq<Candidate>, before: map<string, Entry>, entries: map<string, Entry>,
                  kept: set<Candidate>, apply: bool, k: nat, w: nat, deleted: nat)
    requires Elements(candidates) == Backups(before) && kept <= Backups(before)
    requires PruneAt(candidates, |candidates|, before, entries, kept, apply, k, w, deleted)
    ensures Backups(entries) == if apply then kept else Backups(before)
    ensures !apply ==> entries == before
    ensures forall name :: name in entries ==> name in before && entries[name] == before[name]
    ensures forall name :: name in before && name !in entries ==>
              exists c :: c in Backups(before) && c.path == name && c !in kept
    ensures |kept| == k && |candidates| == |Backups(before)| == k + w && deleted == if apply then w else 0
  {
    hide Backups, Elements, Paths, Tallied, DroppedOf;
    assert candidates[..|candidates|] == candidates;
    var gone := if apply then Backups(before) - kept else {};
    AllMet(Backups(before), kept, k, w);
    assert entries == before - Paths(gone);
    PathsGone(before, gone);
    DirectoryAfter(before, gone);
    assert Backups(before) - (Backups(before) - kept) == kept && Backups(before) - {} == Backups(before);
  }

  lemma AllMet(all: set<Candidate>, kept: set<Candidate>, k: nat, w: nat)
    requires kept <= all && Tallied(all, kept, k, w)
    ensures DroppedOf(all, kept) == all - kept && |kept| == k && |all| == k + w
  {
    assert KeptOf(all, kept) == kept && DroppedOf(all, kept) == all - kept;
    assert all == kept + (all - kept);
  }

  lemma PathsGone(before: map<string, Entry>, gone: set<Candidate>)
    ensures before - Paths({}) == before
    ensures forall name :: name in before - Paths(gone) ==> name in before && (before - Paths(gone))[name] == before[name]
    ensures forall name :: name in before && name !in before - Paths(gone) ==> exists c :: c in gone && c.path == name
  {
  }

  lemma BackupNamed(entries: map<string, Entry>, c: Candidate)
    ensures c in Backups(entries) <==>
              c.path in entries && !entries[c.path].isDir && entries[c.path].stamp == Some(c.time)
  {
  }

  /** Removing the paths of some backups removes those backups and no others. */
  lemma DirectoryAfter(entries: map<string, Entry>, gone: set<Candidate>)
    requires gone <= Backups(entries)
    ensures Backups(entries - Paths(gone)) == Backups(entries) - gone
    ensures forall name :: name in entries && name !in entries - Paths(gone) ==> exists c :: c in gone && c.path == name
    ensures forall name :: name in entries - Paths(gone) ==> name in entries && (entries - Paths(gone))[name] == entries[name]
    ensures gone == {} ==> entries - Paths(gone) == entries
  {
    forall c: Candidate
      ensures c in Backups(entries - Paths(gone)) <==> c in Backups(entries) - gone
    {
      BackupNamed(entries, c);
      BackupNamed(entries - Paths(gone), c);
      if c.path in Paths(gone) && c in Backups(entries) {
        var g :| g in gone && g.path == c.path;
        BackupNamed(entries, g);
        assert g == c;
      }
    }
  }
}
