/** How many failed logins a penalty schedule lets through, when a login is only tried if its key was
    not locked when it was asked for.  Logins overlap: between the question and the record of a failure,
    others may be recorded.  LoginGate shows that the handlers' gate gives such histories. */
module AttemptBound {
  import opened Clock
  import opened Options
  import opened Penalties
  import opened LimiterHistory

  /** When a failure's login was asked for: after how much of the history, and at what time. */
  datatype Ask = Ask(index: nat, at: Instant)

  predicate IsFailure(history: seq<Event>, key: string, i: nat) {
    i < |history| && history[i].Failed? && history[i].key == key
  }

  /** The key was not locked when it was asked for. */
  predicate AskedUnlocked(history: seq<Event>, ask: Ask, key: string, penalties: seq<Penalty>, window: int) {
    ask.index <= |history| && UpTo(history[..ask.index], ask.at)
    && !ShouldLock(history[..ask.index], key, ask.at, penalties, window)
  }

  /** The failures of the key from x on whose logins were asked for before: they overlap. */
  ghost function Overlapping(history: seq<Event>, asks: seq<Ask>, key: string, x: nat): set<nat>
    requires |asks| == |history|
  {
    set i: nat | x <= i < |history| && IsFailure(history, key, i) && asks[i].index <= x
  }

  /** Every failure of the key was asked for while the key was not locked, and no more than c of its
      logins overlap. */
  ghost predicate Gated(history: seq<Event>, asks: seq<Ask>, key: string, penalties: seq<Penalty>, window: int, c: nat) {
    && |asks| == |history|
    && (forall i: nat :: IsFailure(history, key, i) ==>
          asks[i].index <= i && asks[i].at <= history[i].at && AskedUnlocked(history, asks[i], key, penalties, window))
    && forall x: nat :: x <= |history| ==> |Overlapping(history, asks, key, x)| <= c
  }

  /** At n failures the key is locked for its window, and for more failures no shorter.  If the lockout
      only equals the window, earlier lockouts have to keep the first failure and the n-th apart. */
  ghost predicate Covers(penalties: seq<Penalty>, window: int, n: nat, c: nat) {
    && n >= 1 && c >= 1 && Lockout(n, penalties) >= window > 0
    && (forall k :: n <= k < n + c ==> Lockout(k, penalties) >= Lockout(n, penalties))
    && (Lockout(n, penalties) > window || exists m :: KeepsApart(penalties, m, n, c))
  }

  ghost predicate KeepsApart(penalties: seq<Penalty>, m: nat, n: nat, c: nat) {
    1 <= m && m + c <= n && forall k :: m <= k < m + c ==> Lockout(k, penalties) > 0
  }

  /* ---- the track at every moment of a history ---- */

  function TrackAt(history: seq<Event>, key: string, penalties: seq<Penalty>, window: int, j: nat): Option<Track>
    requires j <= |history|
  {
    TrackOf(history[..j], key, penalties, window)
  }

  lemma TrackNext(history: seq<Event>, key: string, penalties: seq<Penalty>, window: int, j: nat)
    requires j < |history|
    ensures var before, after := TrackAt(history, key, penalties, window, j), TrackAt(history, key, penalties, window, j + 1);
            if history[j].key != key then after == before
            else if history[j].Succeeded? then after == None
            else
              && after.Some? && after.value.last == history[j].at
              && if before.None? || history[j].at - before.value.first > window
                 then after.value.count == 1 && after.value.first == history[j].at
                 else after.value.count == before.value.count + 1 && after.value.first == before.value.first
  {
    hide AfterFailure;
    assert history[..j+1][..j] == history[..j] && history[..j+1][j] == history[j];
    AfterFailureCases(TrackAt(history, key, penalties, window, j), history[j].at, penalties, window);
  }

  /** The lock of a track follows from its count and its last failure. */
  ghost predicate Shaped(t: Track, penalties: seq<Penalty>, window: int) {
    && 1 <= t.count && 0 < t.first <= t.last <= t.first + window
    && t.until == if Lockout(t.count, penalties) > 0 then Some(t.last + Lockout(t.count, penalties)) else None
  }

  lemma {:induction false} TrackShape(history: seq<Event>, key: string, penalties: seq<Penalty>, window: int, j: nat)
    requires Ordered(history) && j <= |history| && window >= 0
    ensures var t := TrackAt(history, key, penalties, window, j);
            t.Some? ==> Shaped(t.value, penalties, window) && j > 0 && t.value.last <= history[j-1].at
  {
    hide Lockout, AfterFailure;
    if j > 0 {
      TrackShape(history, key, penalties, window, j - 1);
      assert history[..j][..j-1] == history[..j-1] && history[..j][j-1] == history[j-1];
      AfterFailureCases(TrackAt(history, key, penalties, window, j - 1), history[j-1].at, penalties, window);
    }
  }

  /** The failure that brought the present count to q. */
  ghost function Reached(history: seq<Event>, key: string, penalties: seq<Penalty>, window: int, j: nat, q: nat): (e: nat)
    requires j <= |history| && TrackAt(history, key, penalties, window, j).Some?
    requires TrackAt(history, key, penalties, window, j).value.count >= q >= 1
    ensures e < j
  {
    assert j > 0;
    TrackNext(history, key, penalties, window, j - 1);
    if history[j-1].key == key && TrackAt(history, key, penalties, window, j).value.count == q then j - 1
    else Reached(history, key, penalties, window, j - 1, q)
  }

  lemma {:induction false} ReachedIs(history: seq<Event>, key: string, penalties: seq<Penalty>, window: int, j: nat, q: nat)
    requires j <= |history| && TrackAt(history, key, penalties, window, j).Some?
    requires TrackAt(history, key, penalties, window, j).value.count >= q >= 1
    ensures var e, t := Reached(history, key, penalties, window, j, q), TrackAt(history, key, penalties, window, j).value;
            && IsFailure(history, key, e)
            && TrackAt(history, key, penalties, window, e + 1).Some?
            && var was := TrackAt(history, key, penalties, window, e + 1).value;
               was.count == q && was.last == history[e].at && was.first == t.first
    decreases j
  {
    hide TrackAt;
    NothingTracked(history, key, penalties, window);
    TrackNext(history, key, penalties, window, j - 1);
    var t := TrackAt(history, key, penalties, window, j).value;
    if !(history[j-1].key == key && t.count == q) {
      ReachedIs(history, key, penalties, window, j - 1, q);
    }
  }

  lemma NothingTracked(history: seq<Event>, key: string, penalties: seq<Penalty>, window: int)
    ensures TrackAt(history, key, penalties, window, 0) == None
  {
  }

  /** Since then the count has not begun anew. */
  lemma {:induction false} SinceReached(history: seq<Event>, key: string, penalties: seq<Penalty>, window: int, j: nat, q: nat,
                                       a: nat)
    requires Ordered(history) && j <= |history| && TrackAt(history, key, penalties, window, j).Some?
    requires TrackAt(history, key, penalties, window, j).value.count >= q >= 1 && window >= 0
    requires Reached(history, key, penalties, window, j, q) < a <= j
    ensures TrackAt(history, key, penalties, window, a).Some?
    ensures var t, was := TrackAt(history, key, penalties, window, j).value, TrackAt(history, key, penalties, window, a).value;
            && q <= was.count <= t.count && was.first == t.first
            && history[Reached(history, key, penalties, window, j, q)].at <= was.last <= t.last
            && Reached(history, key, penalties, window, a, q) == Reached(history, key, penalties, window, j, q)
    decreases j
  {
    hide TrackAt, Shaped;
    NothingTracked(history, key, penalties, window);
    TrackNext(history, key, penalties, window, j - 1);
    ReachedIs(history, key, penalties, window, j, q);
    TrackShape(history, key, penalties, window, j - 1);
    var t := TrackAt(history, key, penalties, window, j).value;
    if a < j {
      SinceReached(history, key, penalties, window, j - 1, q, a);
    } else if !(history[j-1].key == key && t.count == q) {
      SinceReached(history, key, penalties, window, j - 1, q, j - 1);
    }
  }

  /* ---- how far a burst of overlapping logins gets ---- */

  /** Once the count has reached q, either a later failure was asked for after that, and so waited for a
      lockout, or all later failures overlap the one that reached it. */
  ghost predicate Burst(history: seq<Event>, asks: seq<Ask>, key: string, penalties: seq<Penalty>, window: int, c: nat, q: nat,
                        wait: int, j: nat, later: set<nat>)
    requires |asks| == |history| && j <= |history| && TrackAt(history, key, penalties, window, j).Some?
    requires TrackAt(history, key, penalties, window, j).value.count >= q >= 1
  {
    var e, t := Reached(history, key, penalties, window, j, q), TrackAt(history, key, penalties, window, j).value;
    || t.last >= history[e].at + wait
    || (t.count - q == |later| < c && forall i :: i in later ==> e < i < j && i in Overlapping(history, asks, key, e))
  }

  lemma {:induction false} BurstIsShort(history: seq<Event>, asks: seq<Ask>, key: string, penalties: seq<Penalty>, window: int,
                                       c: nat, q: nat, wait: int, j: nat) returns (later: set<nat>)
    requires Gated(history, asks, key, penalties, window, c) && Ordered(history) && window >= 0 && c >= 1
    requires j <= |history| && TrackAt(history, key, penalties, window, j).Some?
    requires TrackAt(history, key, penalties, window, j).value.count >= q >= 1
    requires wait > 0 && forall k :: q <= k < q + c ==> Lockout(k, penalties) >= wait
    ensures Burst(history, asks, key, penalties, window, c, q, wait, j, later)
    decreases j
  {
    hide TrackAt, Gated, Lockout, Shaped, AskedUnlocked, Overlapping;
    NothingTracked(history, key, penalties, window);
    var i := j - 1;
    TrackNext(history, key, penalties, window, i);
    TrackShape(history, key, penalties, window, i);
    ReachedIs(history, key, penalties, window, j, q);
    var t, e := TrackAt(history, key, penalties, window, j).value, Reached(history, key, penalties, window, j, q);
    later := {};
    if !(history[i].key == key && t.count == q) {
      later := BurstIsShort(history, asks, key, penalties, window, c, q, wait, i);
      TrackShape(history, key, penalties, window, j);
      if history[i].key == key {
        AskIs(history, asks, key, penalties, window, c, i);
        var a := asks[i].index;
        if a > e {
          SinceReached(history, key, penalties, window, i, q, a);
          var upToThen := BurstIsShort(history, asks, key, penalties, window, c, q, wait, a);
          Waits(history, asks, key, penalties, window, c, q, wait, i, upToThen);
        } else if TrackAt(history, key, penalties, window, i).value.last < history[e].at + wait {
          OneMoreOverlaps(history, asks, key, penalties, window, c, e, i, later);
          later := later + {i};
        }
      }
    }
  }

  lemma AskIs(history: seq<Event>, asks: seq<Ask>, key: string, penalties: seq<Penalty>, window: int, c: nat, i: nat)
    requires Gated(history, asks, key, penalties, window, c) && IsFailure(history, key, i)
    ensures |asks| == |history| && asks[i].index <= i && asks[i].at <= history[i].at
    ensures AskedUnlocked(history, asks[i], key, penalties, window)
  {
    hide AskedUnlocked;
  }

  /** A failure that was asked for after the count reached q had to wait. */
  lemma Waits(history: seq<Event>, asks: seq<Ask>, key: string, penalties: seq<Penalty>, window: int, c: nat, q: nat, wait: int,
              i: nat, later: set<nat>)
    requires |asks| == |history| && i < |history| && Ordered(history) && window >= 0
    requires asks[i].index <= i && asks[i].at <= history[i].at && AskedUnlocked(history, asks[i], key, penalties, window)
    requires TrackAt(history, key, penalties, window, asks[i].index).Some?
    requires TrackAt(history, key, penalties, window, asks[i].index).value.count >= q >= 1
    requires Burst(history, asks, key, penalties, window, c, q, wait, asks[i].index, later)
    requires history[Reached(history, key, penalties, window, asks[i].index, q)].at
             <= TrackAt(history, key, penalties, window, asks[i].index).value.last
    requires wait > 0 && forall k :: q <= k < q + c ==> Lockout(k, penalties) >= wait
    ensures history[i].at >= history[Reached(history, key, penalties, window, asks[i].index, q)].at + wait
  {
    hide TrackOf, Lockout, Overlapping;
    var a := asks[i].index;
    TrackShape(history, key, penalties, window, a);
    assert history[..a][a-1] == history[a-1];
  }

  /** One more overlapping failure, and there are still fewer than c besides the one that reached q. */
  lemma OneMoreOverlaps(history: seq<Event>, asks: seq<Ask>, key: string, penalties: seq<Penalty>, window: int, c: nat,
                        e: nat, i: nat, later: set<nat>)
    requires Gated(history, asks, key, penalties, window, c) && e < i < |history| && IsFailure(history, key, i)
    requires IsFailure(history, key, e) && asks[i].index <= e
    requires forall k :: k in later ==> e < k < i && k in Overlapping(history, asks, key, e)
    ensures i !in later && |later + {i}| < c && i in Overlapping(history, asks, key, e)
  {
    hide AskedUnlocked;
    var all := later + {i, e};
    assert all <= Overlapping(history, asks, key, e);
    SubsetSize(all, Overlapping(history, asks, key, e));
    assert e !in later + {i} && all == later + {i} + {e};
  }

  lemma {:induction false} SubsetSize(a: set<nat>, b: set<nat>)
    requires a <= b
    ensures |a| <= |b|
  {
    if a != {} {
      var x :| x in a;
      SubsetSize(a - {x}, b - {x});
    }
  }

  /* ---- the count of a key ---- */

  /** With lockouts that keep them apart, the failure that reaches n is later than the first one. */
  lemma ReachedLater(history: seq<Event>, asks: seq<Ask>, key: string, penalties: seq<Penalty>, window: int, c: nat,
                     m: nat, n: nat, j: nat)
    requires Gated(history, asks, key, penalties, window, c) && Ordered(history) && window >= 0 && c >= 1
    requires KeepsApart(penalties, m, n, c)
    requires j <= |history| && TrackAt(history, key, penalties, window, j).Some?
    requires TrackAt(history, key, penalties, window, j).value.count >= n
    ensures var t := TrackAt(history, key, penalties, window, j).value; t.first < t.last
  {
    hide TrackAt, Gated, Lockout, AskedUnlocked, Overlapping, Ordered;
    var later := BurstIsShort(history, asks, key, penalties, window, c, m, 1, j);
    var e := Reached(history, key, penalties, window, j, m);
    ReachedIs(history, key, penalties, window, j, m);
    TrackShape(history, key, penalties, window, e + 1);
  }

  /** A count that a lockout covers is exceeded by what overlaps, and no more. */
  lemma NeverMoreThan(history: seq<Event>, asks: seq<Ask>, key: string, penalties: seq<Penalty>, window: int, n: nat, c: nat, j: nat)
    requires Gated(history, asks, key, penalties, window, c) && Ordered(history) && Covers(penalties, window, n, c)
    requires j <= |history|
    ensures var t := TrackAt(history, key, penalties, window, j); t.Some? ==> 1 <= t.value.count < n + c
  {
    hide TrackAt, Gated, Lockout, AskedUnlocked, Overlapping, Ordered, KeepsApart;
    TrackShape(history, key, penalties, window, j);
    var track := TrackAt(history, key, penalties, window, j);
    if track.Some? && track.value.count >= n {
      var later := BurstIsShort(history, asks, key, penalties, window, c, n, Lockout(n, penalties), j);
      var e := Reached(history, key, penalties, window, j, n);
      ReachedIs(history, key, penalties, window, j, n);
      TrackShape(history, key, penalties, window, e + 1);
      if Lockout(n, penalties) == window {
        var m :| KeepsApart(penalties, m, n, c);
        ReachedLater(history, asks, key, penalties, window, c, m, n, e + 1);
      }
    }
  }

  /** c failures at one instant, all asked for before any of them. */
  function BurstOf(key: string, at: Instant, c: nat): seq<Event> { seq(c, i => Failed(key, at)) }

  function AskedTogether(index: nat, at: Instant, c: nat): seq<Ask> { seq(c, i => Ask(index, at)) }

  /** The bound is reached: from any history in which the key is one failure short of n and can be asked
      for, c logins that are all asked for before any of them fails bring it to n + c - 1. */
  lemma BoundIsReached(history: seq<Event>, asks: seq<Ask>, key: string, penalties: seq<Penalty>, window: int, c: nat, at: Instant)
    requires Gated(history, asks, key, penalties, window, c) && Ordered(history) && UpTo(history, at)
    requires at > 0 && window >= 0 && c >= 1
    requires !ShouldLock(history, key, at, penalties, window)
    requires var t := TrackOf(history, key, penalties, window); t.Some? ==> at - t.value.first <= window
    ensures var all := history + BurstOf(key, at, c);
            && Gated(all, asks + AskedTogether(|history|, at, c), key, penalties, window, c) && Ordered(all)
            && var before, after := TrackOf(history, key, penalties, window), TrackOf(all, key, penalties, window);
               after.Some? && after.value.count == c + if before.Some? then before.value.count else 0
  {
    hide TrackOf, Gated, ShouldLock;
    BurstIsGated(history, asks, key, penalties, window, c, at);
    BurstCounts(history, key, penalties, window, at, c);
  }

  lemma BurstIsGated(history: seq<Event>, asks: seq<Ask>, key: string, penalties: seq<Penalty>, window: int, c: nat, at: Instant)
    requires Gated(history, asks, key, penalties, window, c) && UpTo(history, at)
    requires !ShouldLock(history, key, at, penalties, window)
    ensures Gated(history + BurstOf(key, at, c), asks + AskedTogether(|history|, at, c), key, penalties, window, c)
  {
    hide ShouldLock;
    var all, allAsks := history + BurstOf(key, at, c), asks + AskedTogether(|history|, at, c);
    forall i: nat | IsFailure(all, key, i)
      ensures allAsks[i].index <= i && allAsks[i].at <= all[i].at && AskedUnlocked(all, allAsks[i], key, penalties, window)
    {
      if i < |history| {
        assert IsFailure(history, key, i);
        assert all[..asks[i].index] == history[..asks[i].index];
      } else {
        assert all[..|history|] == history;
      }
    }
    forall x: nat | x <= |all|
      ensures |Overlapping(all, allAsks, key, x)| <= c
    {
      if x < |history| {
        assert Overlapping(all, allAsks, key, x) == Overlapping(history, asks, key, x);
      } else {
        SubsetSize(Overlapping(all, allAsks, key, x), Interval(|history|, c));
      }
    }
  }

  function Interval(from: nat, d: nat): (r: set<nat>)
    ensures |r| == d && forall i: nat :: i in r <==> from <= i < from + d
  {
    if d == 0 then {} else Interval(from, d - 1) + {from + d - 1}
  }

  lemma {:induction false} BurstCounts(history: seq<Event>, key: string, penalties: seq<Penalty>, window: int, at: Instant, d: nat)
    requires Ordered(history) && UpTo(history, at) && at > 0 && window >= 0
    requires var t := TrackOf(history, key, penalties, window); t.Some? ==> at - t.value.first <= window
    ensures Ordered(history + BurstOf(key, at, d))
    ensures var before := TrackOf(history, key, penalties, window);
            var after := TrackOf(history + BurstOf(key, at, d), key, penalties, window);
            if d == 0 then after == before
            else && after.Some? && after.value.count == d + (if before.Some? then before.value.count else 0)
                 && at - after.value.first <= window
  {
    hide TrackOf, AfterFailure;
    if d == 0 {
      assert history + BurstOf(key, at, 0) == history;
    } else {
      BurstCounts(history, key, penalties, window, at, d - 1);
      var front := history + BurstOf(key, at, d - 1);
      assert history + BurstOf(key, at, d) == front + [Failed(key, at)];
      TrackAppend(front, Failed(key, at), key, penalties, window);
      AfterFailureCases(TrackOf(front, key, penalties, window), at, penalties, window);
    }
  }

  function FailuresSince(history: seq<Event>, key: string, lo: Instant): nat {
    if history == [] then 0
    else
      var last := history[|history|-1];
      FailuresSince(history[..|history|-1], key, lo) + (if last.Failed? && last.key == key && last.at >= lo then 1 else 0)
  }

  predicate NoSuccessSince(history: seq<Event>, key: string, lo: Instant) {
    forall i :: 0 <= i < |history| && history[i].at >= lo ==> history[i] != Succeeded(key, history[i].at)
  }

  lemma NoSuccessPrefix(history: seq<Event>, key: string, lo: Instant)
    requires history != [] && NoSuccessSince(history, key, lo)
    ensures NoSuccessSince(history[..|history|-1], key, lo)
    ensures var last := history[|history|-1]; last.Succeeded? && last.key == key ==> last.at < lo
  {
    var front, last := history[..|history|-1], history[|history|-1];
    assert forall i :: 0 <= i < |front| ==> front[i] == history[i];
    if last.Succeeded? && last.key == key {
      assert last == Succeeded(key, last.at);
    }
  }

  /** No moment of the history has counted more than this. */
  ghost predicate CountsUpTo(history: seq<Event>, key: string, penalties: seq<Penalty>, window: int, most: nat) {
    forall j :: 0 <= j <= |history| ==>
      var t := TrackAt(history, key, penalties, window, j); t.Some? ==> 1 <= t.value.count <= most
  }

  lemma CountsAreBounded(history: seq<Event>, asks: seq<Ask>, key: string, penalties: seq<Penalty>, window: int, n: nat, c: nat)
    requires Gated(history, asks, key, penalties, window, c) && Ordered(history) && Covers(penalties, window, n, c)
    ensures CountsUpTo(history, key, penalties, window, n + c - 1)
  {
    hide TrackAt, Gated, Covers, Ordered;
    forall j | 0 <= j <= |history|
      ensures var t := TrackAt(history, key, penalties, window, j); t.Some? ==> 1 <= t.value.count <= n + c - 1
    {
      NeverMoreThan(history, asks, key, penalties, window, n, c, j);
    }
  }

  /** The failures since lo fit into e windows of n before the current one, each begun more than a
      window after the one before. */
  ghost predicate Counted(failures: nat, track: Option<Track>, lo: Instant, window: int, n: nat, e: nat) {
    if track.None? then failures == 0 && e == 0
    else
      && failures <= n * e + track.value.count
      && (e >= 1 ==> track.value.first >= lo + (e - 1) * window)
      && (e >= 2 ==> track.value.first > lo + (e - 1) * window)
  }

  /** One more failure joins the current window, or begins the next one. */
  lemma CountedNext(failures: nat, before: Option<Track>, after: Option<Track>, now: Instant, lo: Instant, window: int,
                    n: nat, e: nat)
    returns (e': nat)
    requires Counted(failures, before, lo, window, n, e) && now >= lo && window > 0
    requires before.Some? ==> before.value.count <= n && before.value.first <= now
    requires after.Some? && if before.None? || now - before.value.first > window
                            then after.value.count == 1 && after.value.first == now
                            else after.value.count == before.value.count + 1 && after.value.first == before.value.first
    ensures Counted(failures + 1, after, lo, window, n, e')
  {
    if before.Some? && now - before.value.first > window {
      e' := e + 1;
      assert n * e' == n * e + n;
      assert (e' - 1) * window == e * window && e >= 1 ==> e * window == (e - 1) * window + window;
    } else {
      e' := e;
    }
  }

  lemma {:induction false} Windows(history: seq<Event>, key: string, lo: Instant, penalties: seq<Penalty>, window: int, n: nat)
    returns (e: nat)
    requires Ordered(history) && CountsUpTo(history, key, penalties, window, n) && window > 0
    requires NoSuccessSince(history, key, lo)
    ensures Counted(FailuresSince(history, key, lo), TrackOf(history, key, penalties, window), lo, window, n, e)
  {
    hide AfterFailure, TrackOf, Ordered, UpTo, NoSuccessSince, Counted, CountsUpTo;
    e := 0;
    if history == [] {
      NothingCounted(key, penalties, lo, window, n);
    } else {
      var front, last := history[..|history|-1], history[|history|-1];
      CountsBefore(history, key, penalties, window, n);
      NoSuccessPrefix(history, key, lo);
      e := Windows(front, key, lo, penalties, window, n);
      TrackLast(history, key, penalties, window);
      if last.key == key {
        if last.at < lo {
          NoneYet(history, key, lo);
          EarlyOnes(history, key, penalties, lo, window, n);
          e := 0;
        } else {
          var before, after := TrackOf(front, key, penalties, window), TrackOf(history, key, penalties, window);
          e := CountedNext(FailuresSince(front, key, lo), before, after, last.at, lo, window, n, e);
        }
      }
    }
  }

  lemma TrackLast(history: seq<Event>, key: string, penalties: seq<Penalty>, window: int)
    requires history != [] && Ordered(history)
    ensures var before, last := TrackOf(history[..|history|-1], key, penalties, window), history[|history|-1];
            var after := TrackOf(history, key, penalties, window);
            && (before.Some? ==> before.value.first <= last.at)
            && if last.key != key then after == before
               else if last.Succeeded? then after == None
               else
                 && after.Some?
                 && if before.None? || last.at - before.value.first > window
                    then after.value.count == 1 && after.value.first == last.at
                    else after.value.count == before.value.count + 1 && after.value.first == before.value.first
  {
    hide TrackOf;
    var n := |history| - 1;
    assert history[..n+1] == history;
    TrackNext(history, key, penalties, window, n);
    assert forall i :: 0 <= i < n ==> history[..n][i] == history[i];
    TrackInPast(history[..n], key, penalties, window, history[n].at);
  }

  lemma CountsBefore(history: seq<Event>, key: string, penalties: seq<Penalty>, window: int, n: nat)
    requires history != [] && CountsUpTo(history, key, penalties, window, n) && Ordered(history)
    ensures var front := history[..|history|-1];
            && CountsUpTo(front, key, penalties, window, n) && Ordered(front)
            && var t := TrackOf(front, key, penalties, window); t.Some? ==> 1 <= t.value.count <= n
  {
    hide TrackOf;
    var front := history[..|history|-1];
    assert forall j :: 0 <= j <= |front| ==> front[..j] == history[..j];
    assert forall i :: 0 <= i < |front| ==> front[i] == history[i];
    forall j | 0 <= j <= |front|
      ensures TrackAt(front, key, penalties, window, j) == TrackAt(history, key, penalties, window, j)
    {
    }
    assert TrackAt(history, key, penalties, window, |front|) == TrackOf(front, key, penalties, window);
  }

  lemma NothingCounted(key: string, penalties: seq<Penalty>, lo: Instant, window: int, n: nat)
    ensures Counted(FailuresSince([], key, lo), TrackOf([], key, penalties, window), lo, window, n, 0)
  {
  }

  lemma EarlyOnes(history: seq<Event>, key: string, penalties: seq<Penalty>, lo: Instant, window: int, n: nat)
    requires Ordered(history) && CountsUpTo(history, key, penalties, window, n)
    ensures Counted(0, TrackOf(history, key, penalties, window), lo, window, n, 0)
  {
    hide TrackOf, Ordered;
    LastCount(history, key, penalties, window, n);
  }

  lemma {:induction false} NoneYet(history: seq<Event>, key: string, lo: Instant)
    requires Ordered(history) && history != [] && history[|history|-1].at < lo
    ensures FailuresSince(history, key, lo) == 0
  {
    var front := history[..|history|-1];
    if front != [] {
      assert forall i :: 0 <= i < |front| ==> front[i] == history[i];
      NoneYet(front, key, lo);
    }
  }

  /** In any span of k >= 1 windows without a success, at most n * (k + 1) failures get through. */
  lemma AtMostPerWindow(history: seq<Event>, key: string, lo: Instant, penalties: seq<Penalty>, window: int, n: nat, k: nat)
    requires Ordered(history) && CountsUpTo(history, key, penalties, window, n) && window > 0
    requires k >= 1 && UpTo(history, lo + k * window) && NoSuccessSince(history, key, lo)
    ensures FailuresSince(history, key, lo) <= n * (k + 1)
  {
    hide TrackOf, Ordered, UpTo, FailuresSince, NoSuccessSince, CountsUpTo;
    var e := Windows(history, key, lo, penalties, window, n);
    var track := TrackOf(history, key, penalties, window);
    TrackInPast(history, key, penalties, window, lo + k * window);
    LastCount(history, key, penalties, window, n);
    if track.Some? {
      EarlierWindows(e, k, window);
      SpanIsFull(n, e, k, track.value.count, FailuresSince(history, key, lo));
    }
  }

  lemma LastCount(history: seq<Event>, key: string, penalties: seq<Penalty>, window: int, n: nat)
    requires CountsUpTo(history, key, penalties, window, n)
    ensures var t := TrackOf(history, key, penalties, window); t.Some? ==> 1 <= t.value.count <= n
  {
    hide TrackOf;
    assert history[..|history|] == history;
    assert TrackAt(history, key, penalties, window, |history|) == TrackOf(history, key, penalties, window);
  }

  lemma EarlierWindows(e: nat, k: nat, window: int)
    requires window > 0 && k >= 1
    ensures e > k ==> (e - 1) * window >= k * window
  {
    if e > k {
      Longer(k, e - 1, window);
    }
  }

  lemma {:induction false} Longer(a: nat, b: nat, window: int)
    requires a <= b && window > 0
    ensures a * window <= b * window
  {
    if a < b {
      Longer(a, b - 1, window);
      assert b * window == (b - 1) * window + window;
    }
  }

  lemma SpanIsFull(n: nat, e: nat, k: nat, count: nat, failures: nat)
    requires e <= k && count <= n && failures <= n * e + count
    ensures failures <= n * (k + 1)
  {
    assert n * e <= n * k && n * (k + 1) == n * k + n;
  }

  /* ---- the schedules in use, with the default window of an hour ---- */

  /** With up to seven overlapping logins the lockout of an hour holds, beyond that the one of a day. */
  lemma DefaultCovers(c: nat)
    requires c >= 1
    ensures Covers(DefaultPenaltySchedule(), HOUR, if c <= 7 then 11 else 21, c)
  {
    hide Lockout, DefaultPenaltySchedule;
    forall k: int
      ensures k >= 4 ==> Lockout(k, DefaultPenaltySchedule()) > 0
      ensures k >= 11 ==> Lockout(k, DefaultPenaltySchedule()) >= HOUR
      ensures k >= 21 ==> Lockout(k, DefaultPenaltySchedule()) == 24 * HOUR
    {
      DefaultLockouts(k);
    }
    DefaultLockouts(11);
    if c <= 7 {
      assert KeepsApart(DefaultPenaltySchedule(), 4, 11, c);
    }
  }

  lemma AdminCovers(c: nat)
    requires c >= 1
    ensures Covers(AdminPenaltySchedule(), HOUR, if c <= 4 then 6 else 11, c)
  {
    hide Lockout, AdminPenaltySchedule;
    forall k: int
      ensures k >= 2 ==> Lockout(k, AdminPenaltySchedule()) > 0
      ensures k >= 6 ==> Lockout(k, AdminPenaltySchedule()) >= HOUR
      ensures k >= 11 ==> Lockout(k, AdminPenaltySchedule()) == 24 * HOUR
    {
      AdminLockouts(k);
    }
    AdminLockouts(6);
    if c <= 4 {
      assert KeepsApart(AdminPenaltySchedule(), 2, 6, c);
    }
  }

  /** What the default schedule bounds when at most c logins of a key overlap: the count at every moment,
      and the failures of any n >= 1 hours without a success. */
  lemma DefaultBound(history: seq<Event>, asks: seq<Ask>, key: string, c: nat, lo: Instant, n: nat)
    requires c >= 1 && Gated(history, asks, key, DefaultPenaltySchedule(), HOUR, c) && Ordered(history)
    ensures CountsUpTo(history, key, DefaultPenaltySchedule(), HOUR, if c <= 7 then 10 + c else 20 + c)
    ensures n >= 1 && UpTo(history, lo + n * HOUR) && NoSuccessSince(history, key, lo) ==>
              FailuresSince(history, key, lo) <= (if c <= 7 then 10 + c else 20 + c) * (n + 1)
  {
    hide Gated, Ordered, CountsUpTo, NoSuccessSince, UpTo, FailuresSince, DefaultPenaltySchedule, Covers, Lockout;
    DefaultCovers(c);
    CountsAreBounded(history, asks, key, DefaultPenaltySchedule(), HOUR, if c <= 7 then 11 else 21, c);
    if n >= 1 && UpTo(history, lo + n * HOUR) && NoSuccessSince(history, key, lo) {
      AtMostPerWindow(history, key, lo, DefaultPenaltySchedule(), HOUR, if c <= 7 then 10 + c else 20 + c, n);
    }
  }

  /** And what the administrators' schedule bounds. */
  lemma AdminBound(history: seq<Event>, asks: seq<Ask>, key: string, c: nat, lo: Instant, n: nat)
    requires c >= 1 && Gated(history, asks, key, AdminPenaltySchedule(), HOUR, c) && Ordered(history)
    ensures CountsUpTo(history, key, AdminPenaltySchedule(), HOUR, if c <= 4 then 5 + c else 10 + c)
    ensures n >= 1 && UpTo(history, lo + n * HOUR) && NoSuccessSince(history, key, lo) ==>
              FailuresSince(history, key, lo) <= (if c <= 4 then 5 + c else 10 + c) * (n + 1)
  {
    hide Gated, Ordered, CountsUpTo, NoSuccessSince, UpTo, FailuresSince, AdminPenaltySchedule, Covers, Lockout;
    AdminCovers(c);
    CountsAreBounded(history, asks, key, AdminPenaltySchedule(), HOUR, if c <= 4 then 6 else 11, c);
    if n >= 1 && UpTo(history, lo + n * HOUR) && NoSuccessSince(history, key, lo) {
      AtMostPerWindow(history, key, lo, AdminPenaltySchedule(), HOUR, if c <= 4 then 5 + c else 10 + c, n);
    }
  }
}
