/** The two login limiters: LoginLimiter of internal/session/manager.go, which keeps a map in
    memory and forgets expired entries, and SQLLoginLimiter of internal/session/sql_limiter.go,
    which keeps table rows until a success.  Each carries the history of failures and successes
    as a ghost field; both answer what LimiterHistory says. */
module LoginLimiters {
  import opened Clock
  import opened Options
  import opened Penalties
  import opened LimiterHistory
  import opened AttemptBound
  import opened Text

  const ZERO: Instant := 0

  function EffectiveWindow(window: int): int {
    if window == 0 then HOUR else window
  }

  function EffectiveThreshold(failures: int): int {
    if failures == 0 then 10 else failures
  }

  /** An hour and ten failures, where nothing is configured. */
  lemma Defaults(window: int, failures: int)
    ensures EffectiveWindow(window) == if window == 0 then 3600 * 1_000_000_000 else window
    ensures EffectiveThreshold(failures) == if failures == 0 then 10 else failures
  {
  }

  /* ---- in memory ---- */

  datatype FailureState = FailureState(count: int, firstFailedAt: Instant, lockedUntil: Instant)

  function AsTime(t: Option<Instant>): Instant {
    if t.Some? then t.value else ZERO
  }

  /** The entry agrees with the history, except that an expired lock may be cleared, and that an
      entry may be gone once its lock and its window have passed. */
  ghost predicate MemMirrors(failures: map<string, FailureState>, key: string, track: Option<Track>, window: int, now: Instant) {
    if key in failures then
      && track.Some?
      && failures[key].count == track.value.count && failures[key].firstFailedAt == track.value.first
      && (|| failures[key].lockedUntil == AsTime(track.value.until)
          || (failures[key].lockedUntil == ZERO && AsTime(track.value.until) <= now))
    else
      track.Some? ==> AsTime(track.value.until) <= now && now - track.value.first > window
  }

  ghost predicate MemState(failures: map<string, FailureState>, history: seq<Event>, penalties: seq<Penalty>,
                           window: int, now: Instant) {
    && Ordered(history) && UpTo(history, now) && DistinctThresholds(penalties)
    && forall key :: MemMirrors(failures, key, TrackOf(history, key, penalties, window), window, now)
  }

  lemma MemLater(failures: map<string, FailureState>, history: seq<Event>, penalties: seq<Penalty>,
                 window: int, now: Instant, later: Instant)
    requires MemState(failures, history, penalties, window, now) && now <= later
    ensures MemState(failures, history, penalties, window, later)
  {
    hide TrackOf;
    forall key
      ensures MemMirrors(failures, key, TrackOf(history, key, penalties, window), window, later)
    {
      assert MemMirrors(failures, key, TrackOf(history, key, penalties, window), window, now);
    }
  }

  lemma MemAnswers(failures: map<string, FailureState>, history: seq<Event>, penalties: seq<Penalty>,
                   window: int, now: Instant, key: string)
    requires MemState(failures, history, penalties, window, now) && now > ZERO
    ensures ShouldLock(history, key, now, penalties, window) <==> key in failures && now < failures[key].lockedUntil
    ensures key in failures ==> failures[key].firstFailedAt > ZERO
    ensures key in failures && failures[key].lockedUntil <= now ==>
              MemState(failures[key := failures[key].(lockedUntil := ZERO)], history, penalties, window, now)
    ensures key in failures && ZERO != failures[key].lockedUntil <= now && now - failures[key].firstFailedAt > window ==>
              MemState(failures - {key}, history, penalties, window, now)
  {
    hide TrackOf, Ordered, UpTo, DistinctThresholds;
    TrackInPast(history, key, penalties, window, now);
    assert MemMirrors(failures, key, TrackOf(history, key, penalties, window), window, now);
    if key in failures && failures[key].lockedUntil <= now {
      var cleared := failures[key := failures[key].(lockedUntil := ZERO)];
      forall k
        ensures MemMirrors(cleared, k, TrackOf(history, k, penalties, window), window, now)
      {
        assert MemMirrors(failures, k, TrackOf(history, k, penalties, window), window, now);
      }
      if now - failures[key].firstFailedAt > window && failures[key].lockedUntil != ZERO {
        var gone := failures - {key};
        forall k
          ensures MemMirrors(gone, k, TrackOf(history, k, penalties, window), window, now)
        {
          assert MemMirrors(failures, k, TrackOf(history, k, penalties, window), window, now);
        }
      }
    }
  }

  lemma MemRecords(failures: map<string, FailureState>, history: seq<Event>, penalties: seq<Penalty>,
                   window: int, now: Instant, key: string, after: map<string, FailureState>, e: Event)
    requires MemState(failures, history, penalties, window, now) && now > ZERO
    requires e.key == key && e.at == now
    requires e.Succeeded? ==> after == failures - {key}
    requires e.Failed? ==>
      var count := if key in failures && now - failures[key].firstFailedAt <= window then failures[key].count + 1 else 1;
      var first := if key in failures && now - failures[key].firstFailedAt <= window then failures[key].firstFailedAt else now;
      var lockout := Lockout(count, penalties);
      after == failures[key := FailureState(count, first, if lockout > 0 then now + lockout else ZERO)]
    ensures MemState(after, history + [e], penalties, window, now)
  {
    hide TrackOf, Lockout, DistinctThresholds;
    forall k
      ensures MemMirrors(after, k, TrackOf(history + [e], k, penalties, window), window, now)
    {
      TrackAppend(history, e, k, penalties, window);
      assert MemMirrors(failures, k, TrackOf(history, k, penalties, window), window, now);
    }
  }

  class LoginLimiter {
    const penalties: seq<Penalty>
    const window: int
    var failures: map<string, FailureState>
    ghost var history: seq<Event>
    ghost var clock: Instant

    ghost predicate Valid()
      reads this
    {
      MemState(failures, history, penalties, window, clock)
    }

    constructor (penalties: seq<Penalty>, window: int)
      requires DistinctThresholds(penalties)
      ensures Valid() && history == [] && clock == ZERO
      ensures this.penalties == penalties && this.window == if window == 0 then 3600 * 1_000_000_000 else window
    {
      this.penalties := penalties;
      this.window := EffectiveWindow(window);
      failures := map[];
      history := [];
      clock := ZERO;
    }

    method Locked(key: string, now: Instant) returns (locked: bool)
      requires Valid() && clock <= now && ZERO < now
      modifies this
      ensures Valid() && history == old(history) && clock == now
      ensures locked == ShouldLock(history, key, now, penalties, window)
    {
      hide *;
      MemClock(this, now);
      MemLater(failures, history, penalties, window, clock, now);
      MemAnswers(failures, history, penalties, window, now, key);
      clock := now;
      if key !in failures {
        MemClock(this, now);
        return false;
      }
      var state := failures[key];
      if state.lockedUntil == ZERO {
        MemClock(this, now);
        return false;
      }
      if now < state.lockedUntil {
        MemClock(this, now);
        return true;
      }
      state := state.(lockedUntil := ZERO);
      if state.firstFailedAt == ZERO || now - state.firstFailedAt > window {
        failures := failures - {key};
      } else {
        failures := failures[key := state];
      }
      MemClock(this, now);
      locked := false;
    }

    method Fail(key: string, now: Instant)
      requires Valid() && clock <= now && ZERO < now
      modifies this
      ensures Valid() && history == old(history) + [Failed(key, now)] && clock == now
    {
      hide *;
      MemClock(this, now);
      MemLater(failures, history, penalties, window, clock, now);
      MemAnswers(failures, history, penalties, window, now, key);
      var state := if key in failures then failures[key] else FailureState(0, ZERO, ZERO);
      if state.firstFailedAt == ZERO || now - state.firstFailedAt > window {
        state := FailureState(0, now, ZERO);
      }
      state := state.(count := state.count + 1);
      var lockout := LockoutForFailureCount(state.count, penalties);
      if lockout > 0 {
        state := state.(lockedUntil := now + lockout);
      } else {
        state := state.(lockedUntil := ZERO);
      }
      MemRecords(failures, history, penalties, window, now, key, failures[key := state], Failed(key, now));
      failures := failures[key := state];
      history := history + [Failed(key, now)];
      clock := now;
      MemClock(this, now);
    }

    method Success(key: string, now: Instant)
      requires Valid() && clock <= now && ZERO < now
      modifies this
      ensures Valid() && history == old(history) + [Succeeded(key, now)] && clock == now
    {
      hide *;
      MemClock(this, now);
      MemLater(failures, history, penalties, window, clock, now);
      MemRecords(failures, history, penalties, window, now, key, failures - {key}, Succeeded(key, now));
      failures := failures - {key};
      history := history + [Succeeded(key, now)];
      clock := now;
      MemClock(this, now);
    }
  }

  /** What Valid stands for. */
  lemma MemClock(l: LoginLimiter, now: Instant)
    ensures l.Valid() <==> MemState(l.failures, l.history, l.penalties, l.window, l.clock)
    ensures l.Valid() ==> DistinctThresholds(l.penalties)
  {
  }

  /* ---- in the database ---- */

  predicate Blank(key: string) {
    TrimSpace(key) == ""
  }

  /** A row of login_rate_limits for this limiter's service. */
  datatype Row = Row(count: int, firstFailedAt: Option<Instant>, lastFailedAt: Option<Instant>, lockedUntil: Option<Instant>)

  ghost predicate SqlMirrors(rows: map<string, Row>, key: string, track: Option<Track>, now: Instant) {
    if Blank(key) then key !in rows
    else
      && (key in rows <==> track.Some?)
      && (track.Some? ==>
            && rows[key].count == track.value.count
            && rows[key].firstFailedAt == Some(track.value.first)
            && rows[key].lastFailedAt == Some(track.value.last)
            && (rows[key].lockedUntil == track.value.until
                || (rows[key].lockedUntil == None && AsTime(track.value.until) <= now)))
  }

  ghost predicate SqlState(rows: map<string, Row>, history: seq<Event>, penalties: seq<Penalty>, window: int, now: Instant) {
    && Ordered(history) && UpTo(history, now) && DistinctThresholds(penalties)
    && forall key :: SqlMirrors(rows, key, TrackOf(history, key, penalties, window), now)
  }

  lemma SqlLater(rows: map<string, Row>, history: seq<Event>, penalties: seq<Penalty>, window: int,
                 now: Instant, later: Instant)
    requires SqlState(rows, history, penalties, window, now) && now <= later
    ensures SqlState(rows, history, penalties, window, later)
  {
    hide TrackOf, Blank;
    forall key
      ensures SqlMirrors(rows, key, TrackOf(history, key, penalties, window), later)
    {
      assert SqlMirrors(rows, key, TrackOf(history, key, penalties, window), now);
    }
  }

  lemma SqlAnswers(rows: map<string, Row>, history: seq<Event>, penalties: seq<Penalty>, window: int,
                   now: Instant, key: string)
    requires SqlState(rows, history, penalties, window, now) && now > ZERO && !Blank(key)
    ensures ShouldLock(history, key, now, penalties, window) <==>
              key in rows && rows[key].lockedUntil.Some? && now < rows[key].lockedUntil.value
    ensures key in rows ==> rows[key].firstFailedAt.Some?
    ensures key in rows && rows[key].lockedUntil.Some? && rows[key].lockedUntil.value <= now ==>
              SqlState(rows[key := rows[key].(lockedUntil := None)], history, penalties, window, now)
  {
    hide TrackOf, Ordered, UpTo, DistinctThresholds, Blank;
    TrackInPast(history, key, penalties, window, now);
    assert SqlMirrors(rows, key, TrackOf(history, key, penalties, window), now);
    if key in rows && rows[key].lockedUntil.Some? && rows[key].lockedUntil.value <= now {
      var cleared := rows[key := rows[key].(lockedUntil := None)];
      forall k
        ensures SqlMirrors(cleared, k, TrackOf(history, k, penalties, window), now)
      {
        assert SqlMirrors(rows, k, TrackOf(history, k, penalties, window), now);
      }
    }
  }

  lemma SqlRecords(rows: map<string, Row>, history: seq<Event>, penalties: seq<Penalty>, window: int, now: Instant,
                   key: string, after: map<string, Row>, e: Event)
    requires SqlState(rows, history, penalties, window, now) && now > ZERO
    requires e.key == key && e.at == now
    requires Blank(key) ==> after == rows
    requires !Blank(key) && e.Succeeded? ==> after == rows - {key}
    requires !Blank(key) && e.Failed? ==>
      var known := key in rows && rows[key].firstFailedAt.Some? && now - rows[key].firstFailedAt.value <= window;
      var count := if known then rows[key].count + 1 else 1;
      var first := if known then rows[key].firstFailedAt.value else now;
      var lockout := Lockout(count, penalties);
      after == rows[key := Row(count, Some(first), Some(now), if lockout > 0 then Some(now + lockout) else None)]
    ensures SqlState(after, history + [e], penalties, window, now)
  {
    hide TrackOf, Lockout, DistinctThresholds, Blank;
    forall k
      ensures SqlMirrors(after, k, TrackOf(history + [e], k, penalties, window), now)
    {
      TrackAppend(history, e, k, penalties, window);
      assert SqlMirrors(rows, k, TrackOf(history, k, penalties, window), now);
    }
  }

  /* ---- spray alerts ---- */

  const SPRAY_THRESHOLD := 5
  const SPRAY_WINDOW := MINUTE
  const SPRAY_COOLDOWN := 5 * MINUTE

  datatype Pair = Pair(scope: string, account: string, client: string)

  predicate SafePart(value: string) {
    value != "" && |value| <= 320 && forall c :: c in value ==> ' ' <= c && c != '\U{007F}'
  }

  function ParsePair(key: string): Option<Pair> {
    var parts := Split(ToLower(TrimSpace(key)), '|');
    if |parts| != 4 || parts[1] != "pair" then None
    else
      var pair := Pair(TrimSpace(parts[0]), TrimSpace(parts[2]), TrimSpace(parts[3]));
      if SafePart(pair.scope) && SafePart(pair.account) && SafePart(pair.client) then Some(pair) else None
  }

  /** An auth_spray audit event of this limiter's service. */
  datatype Alert = Alert(client: string, at: Instant, accounts: nat)

  /** The accounts a client has just failed on: the last thing that happened to one of their
      pair keys is a failure within the last minute. */
  ghost function AccountsUnderAttack(history: seq<Event>, client: string, now: Instant): set<string> {
    set e | e in history && e.Failed? && e.at >= now - SPRAY_WINDOW && LastEvent(history, e.key) == Some(e)
         && ParsePair(e.key).Some? && ParsePair(e.key).value.client == client :: ParsePair(e.key).value.account
  }

  ghost predicate Recent(alerts: seq<Alert>, client: string, now: Instant) {
    exists i :: 0 <= i < |alerts| && alerts[i].client == client && alerts[i].at >= now - SPRAY_COOLDOWN
  }

  /** Two alerts for one client are more than the cooldown apart. */
  ghost predicate Spaced(alerts: seq<Alert>, now: Instant) {
    && (forall i :: 0 <= i < |alerts| ==> alerts[i].at <= now)
    && forall i, j :: 0 <= i < j < |alerts| && alerts[i].client == alerts[j].client ==>
         alerts[j].at - alerts[i].at > SPRAY_COOLDOWN
  }

  /** What a failure does to the alerts. */
  ghost predicate Alerted(before: seq<Alert>, after: seq<Alert>, history: seq<Event>, key: string, now: Instant) {
    var pair := ParsePair(key);
    if pair.None? || pair.value.client == "unknown" then after == before
    else
      var client, n := pair.value.client, |AccountsUnderAttack(history, pair.value.client, now)|;
      if n >= SPRAY_THRESHOLD && !Recent(before, client, now) then after == before + [Alert(client, now, n)]
      else after == before
  }

  /** Once a client fails on five accounts within a minute there is an alert no older than the
      cooldown, and alerts stay spaced. */
  lemma SprayIsReported(before: seq<Alert>, after: seq<Alert>, history: seq<Event>, key: string, now: Instant)
    requires Spaced(before, now) && Alerted(before, after, history, key, now)
    ensures Spaced(after, now)
    ensures var pair := ParsePair(key);
            pair.Some? && pair.value.client != "unknown"
            && |AccountsUnderAttack(history, pair.value.client, now)| >= SPRAY_THRESHOLD ==>
              Recent(after, pair.value.client, now)
  {
    hide ParsePair, AccountsUnderAttack;
    if |after| > |before| {
      var last := after[|before|];
      assert last.at == now;
      forall i | 0 <= i < |before| && before[i].client == last.client
        ensures last.at - before[i].at > SPRAY_COOLDOWN
      {
        assert !Recent(before, last.client, now);
      }
    }
  }

  lemma {:induction false} ContainsMid(a: string, part: string, c: string)
    ensures Contains(a + part + c, part)
  {
    if a == "" {
      assert a + part + c == part + c;
    } else {
      ContainsMid(a[1..], part, c);
      assert (a + part + c)[1..] == a[1..] + part + c;
    }
  }

  /** Every pair key passes the LIKE filter of the spray query, which ignores case. */
  lemma PairKeyMatches(key: string)
    requires ParsePair(key).Some?
    ensures Contains(ToLower(key), "|pair|") && !Blank(key)
  {
    hide Split, ToLower, SafePart, TrimLeftSpace, TrimRightSpace, Contains;
    var s := TrimSpace(key);
    var parts := Split(ToLower(s), '|');
    SplitNone("", '|');
    assert |ToLower(s)| == |s|;
    var rest := PairInside(ToLower(s), parts);
    var left, right := TrimSplits(key);
    LowerOfThree(left, s, right);
    var a, c := ToLower(left), ToLower(right);
    Regroup(a, parts[0], "|pair|", rest, c);
    ContainsMid(a + parts[0], "|pair|", rest + c);
  }

  lemma PairInside(lower: string, parts: seq<string>) returns (rest: string)
    requires parts == Split(lower, '|') && |parts| == 4 && parts[1] == "pair"
    ensures lower == parts[0] + "|pair|" + rest
  {
    hide Split;
    JoinSplit(lower, '|');
    var tail := parts[1..];
    rest := Join(tail[1..], '|');
    assert Join(tail, '|') == "pair" + "|" + rest;
    assert lower == parts[0] + "|" + ("pair" + "|" + rest);
  }

  lemma Regroup(a: string, p: string, m: string, r: string, c: string)
    ensures a + (p + m + r) + c == (a + p) + m + (r + c)
  {
  }

  function RecentPairKeys(rows: map<string, Row>, now: Instant): set<string> {
    set k | k in rows && rows[k].lastFailedAt.Some? && rows[k].lastFailedAt.value >= now - SPRAY_WINDOW
         && Contains(ToLower(k), "|pair|")
  }

  function AccountsAmong(keys: set<string>, client: string): set<string> {
    set k | k in keys && ParsePair(k).Some? && ParsePair(k).value.client == client :: ParsePair(k).value.account
  }

  /** The table shows exactly the accounts that the history has under attack. */
  lemma RowsShowAttack(rows: map<string, Row>, history: seq<Event>, penalties: seq<Penalty>, window: int,
                       now: Instant, client: string)
    requires SqlState(rows, history, penalties, window, now)
    ensures AccountsAmong(RecentPairKeys(rows, now), client) == AccountsUnderAttack(history, client, now)
  {
    hide TrackOf, Ordered, UpTo, DistinctThresholds, Blank, ParsePair, LastEvent, Contains, ToLower;
    var keys := RecentPairKeys(rows, now);
    forall k | ParsePair(k).Some?
      ensures k in keys <==>
                && LastEvent(history, k).Some? && LastEvent(history, k).value.Failed?
                && LastEvent(history, k).value.at >= now - SPRAY_WINDOW
    {
      PairKeyMatches(k);
      TrackedIffLastFailed(history, k, penalties, window);
      assert SqlMirrors(rows, k, TrackOf(history, k, penalties, window), now);
    }
    forall account | account in AccountsAmong(keys, client)
      ensures account in AccountsUnderAttack(history, client, now)
    {
      var k :| k in keys && ParsePair(k).Some? && ParsePair(k).value.client == client && ParsePair(k).value.account == account;
      var e := LastEvent(history, k).value;
      assert e in history && e.key == k;
    }
    forall account | account in AccountsUnderAttack(history, client, now)
      ensures account in AccountsAmong(keys, client)
    {
      var e :| e in history && e.Failed? && e.at >= now - SPRAY_WINDOW && LastEvent(history, e.key) == Some(e)
            && ParsePair(e.key).Some? && ParsePair(e.key).value.client == client && ParsePair(e.key).value.account == account;
      assert e.key in keys;
    }
  }

  /* ---- locked accounts ---- */

  /** The text itself, if it looks like an address. */
  function AddressIn(email: string): string {
    var at := Index(email, '@');
    if at < 0 || exists c :: c in email && c in {' ', '\t', '\r', '\n', '\0'} then ""
    else if at == 0 || '@' in email[at+1..] || '.' !in email[at+1..] then ""
    else email
  }

  /** AccountEmailFromLimiterKey: the address in an account key. */
  function AccountEmail(key: string): string {
    var parts := Split(ToLower(TrimSpace(key)), '|');
    if |parts| != 3 || parts[1] != "account" then "" else AddressIn(TrimSpace(parts[2]))
  }

  /** The account that the last failure of the history locks, if its count has come so far. */
  function LockedNow(history: seq<Event>, key: string, penalties: seq<Penalty>, window: int, threshold: int): set<string> {
    var track := TrackOf(history, key, penalties, window);
    if !Blank(key) && track.Some? && track.value.count >= threshold && AccountEmail(key) != "" then {AccountEmail(key)} else {}
  }

  /** The accounts locked in the course of the history. */
  function LockedAccounts(history: seq<Event>, penalties: seq<Penalty>, window: int, threshold: int): set<string> {
    if history == [] then {}
    else
      var last := history[|history|-1];
      LockedAccounts(history[..|history|-1], penalties, window, threshold)
      + if last.Failed? then LockedNow(history, last.key, penalties, window, threshold) else {}
  }

  lemma LockedAccountsAppend(history: seq<Event>, e: Event, penalties: seq<Penalty>, window: int, threshold: int)
    ensures LockedAccounts(history + [e], penalties, window, threshold) ==
              LockedAccounts(history, penalties, window, threshold)
              + if e.Failed? then LockedNow(history + [e], e.key, penalties, window, threshold) else {}
  {
    hide LockedNow;
    assert (history + [e])[..|history|] == history;
  }

  /** A counted failure stands for that many failures of the key, all within one window. */
  lemma {:induction false} CountMeans(history: seq<Event>, key: string, penalties: seq<Penalty>, window: int)
    requires Ordered(history) && window >= 0
    ensures var track := TrackOf(history, key, penalties, window);
            track.Some? ==> track.value.count <= FailuresSince(history, key, track.value.first)
                            && track.value.last - track.value.first <= window
  {
    hide AfterFailure, Lockout;
    if history != [] {
      var front, last := history[..|history|-1], history[|history|-1];
      CountMeans(front, key, penalties, window);
      var before := TrackOf(front, key, penalties, window);
      TrackInPast(front, key, penalties, window, last.at);
      if last.key == key && last.Failed? {
        AfterFailureCases(before, last.at, penalties, window);
      }
    }
  }

  /** No account is locked early: some history before held as many failures of one of its account
      keys as the threshold asks for, all within one window. */
  lemma {:induction false} LockedMeans(history: seq<Event>, email: string, penalties: seq<Penalty>, window: int, threshold: int)
    returns (k: nat, lo: Instant)
    requires Ordered(history) && window >= 0 && email in LockedAccounts(history, penalties, window, threshold)
    ensures k < |history| && history[k].Failed? && AccountEmail(history[k].key) == email
    ensures FailuresSince(history[..k+1], history[k].key, lo) >= threshold && history[k].at - lo <= window
  {
    hide TrackOf, AccountEmail, FailuresSince, Blank;
    var n := |history| - 1;
    var last := history[n];
    if email in LockedAccounts(history[..n], penalties, window, threshold) {
      k, lo := LockedMeans(history[..n], email, penalties, window, threshold);
      assert history[..n][..k+1] == history[..k+1];
    } else {
      k := n;
      assert history[..n+1] == history;
      CountMeans(history, last.key, penalties, window);
      var track := TrackOf(history, last.key, penalties, window).value;
      lo := track.first;
      LastIsNow(history, penalties, window);
    }
  }

  lemma LastIsNow(history: seq<Event>, penalties: seq<Penalty>, window: int)
    requires history != [] && history[|history|-1].Failed?
    ensures var last := history[|history|-1];
            var track := TrackOf(history, last.key, penalties, window);
            track.Some? && track.value.last == last.at
  {
  }

  class SQLLoginLimiter {
    const penalties: seq<Penalty>
    const window: int
    var rows: map<string, Row>
    var alerts: seq<Alert>
    /** The addresses of the active user mailboxes. */
    var active: set<string>
    const accountLockoutFailures: int
    ghost var history: seq<Event>
    ghost var clock: Instant

    ghost predicate Valid()
      reads this
    {
      SqlState(rows, history, penalties, window, clock) && Spaced(alerts, clock)
    }

    constructor (penalties: seq<Penalty>, window: int, accountLockoutFailures: int, active: set<string>)
      requires DistinctThresholds(penalties)
      ensures Valid() && history == [] && alerts == [] && clock == ZERO && this.active == active
      ensures this.penalties == penalties && this.window == if window == 0 then 3600 * 1_000_000_000 else window
      ensures this.accountLockoutFailures == if accountLockoutFailures == 0 then 10 else accountLockoutFailures
    {
      this.penalties := penalties;
      this.window := EffectiveWindow(window);
      this.accountLockoutFailures := EffectiveThreshold(accountLockoutFailures);
      this.active := active;
      rows := map[];
      alerts := [];
      history := [];
      clock := ZERO;
    }

    method Locked(key: string, now: Instant) returns (locked: bool)
      requires Valid() && clock <= now && ZERO < now
      modifies this
      ensures Valid() && history == old(history) && alerts == old(alerts) && active == old(active) && clock == now
      ensures locked == (!Blank(key) && ShouldLock(history, key, now, penalties, window))
    {
      hide *;
      SqlClock(this);
      SqlLater(rows, history, penalties, window, clock, now);
      SpacedLater(alerts, clock, now);
      clock := now;
      SqlClock(this);
      if Blank(key) {
        return false;
      }
      SqlAnswers(rows, history, penalties, window, now, key);
      if key !in rows || rows[key].lockedUntil.None? {
        return false;
      }
      if now < rows[key].lockedUntil.value {
        return true;
      }
      rows := rows[key := rows[key].(lockedUntil := None)];
      SqlClock(this);
      locked := false;
    }

    method Fail(key: string, now: Instant)
      requires Valid() && clock <= now && ZERO < now
      modifies this
      ensures Valid() && history == old(history) + [Failed(key, now)] && clock == now
      ensures Alerted(old(alerts), alerts, history, key, now)
      ensures active == old(active) - LockedNow(history, key, penalties, window, accountLockoutFailures)
    {
      hide *;
      SqlClock(this);
      SqlLater(rows, history, penalties, window, clock, now);
      SpacedLater(alerts, clock, now);
      clock := now;
      if Blank(key) {
        SqlRecords(rows, history, penalties, window, now, key, rows, Failed(key, now));
        history := history + [Failed(key, now)];
        BlankNeverAlerts(alerts, history, key, now);
        LockedNowIs(history, key, 0, penalties, window, accountLockoutFailures);
        SqlClock(this);
        return;
      }
      SqlAnswers(rows, history, penalties, window, now, key);
      SqlClock(this);
      var rowExists := key in rows;
      var currentCount := if rowExists then rows[key].count else 0;
      var first := if rowExists && rows[key].firstFailedAt.Some? then rows[key].firstFailedAt.value else now;
      if !rowExists || rows[key].firstFailedAt.None? || now - first > window {
        currentCount := 0;
        first := now;
      }
      currentCount := currentCount + 1;
      var lockout := LockoutForFailureCount(currentCount, penalties);
      var lockedUntil := if lockout > 0 then Some(now + lockout) else None;
      ghost var after := rows[key := Row(currentCount, Some(first), Some(now), lockedUntil)];
      SqlRecords(rows, history, penalties, window, now, key, after, Failed(key, now));
      rows := rows[key := Row(currentCount, Some(first), Some(now), lockedUntil)];
      history := history + [Failed(key, now)];
      SqlClock(this);
      RowCounts(rows, history, penalties, window, now, key);
      LockedNowIs(history, key, currentCount, penalties, window, accountLockoutFailures);
      if currentCount >= accountLockoutFailures {
        var email := AccountEmail(key);
        if email != "" {
          active := active - {email};
        }
      }
      SqlClock(this);
      RecordAuthSprayAlert(key, now);
    }

    method RecordAuthSprayAlert(key: string, now: Instant)
      requires Valid() && clock == now
      modifies this`alerts
      ensures Valid() && Alerted(old(alerts), alerts, history, key, now)
    {
      hide *;
      SqlClock(this);
      var pair := ParsePair(key);
      AlertCases(alerts, history, key, now);
      if pair.None? || pair.value.client == "unknown" {
        return;
      }
      var client := pair.value.client;
      var found := RecentPairKeys(rows, now);
      var accounts: set<string> := {};
      var todo := found;
      NoAccounts(client);
      while todo != {}
        invariant todo <= found && accounts == AccountsAmong(found - todo, client)
        decreases todo
        modifies {}
      {
        var rowKey :| rowKey in todo;
        var candidate := ParsePair(rowKey);
        OneMoreKey(found, todo, rowKey, client);
        if candidate.Some? && candidate.value.client == client {
          accounts := accounts + {candidate.value.account};
        }
        todo := todo - {rowKey};
      }
      assert found - todo == found;
      RowsShowAttack(rows, history, penalties, window, now, client);
      if |accounts| < SPRAY_THRESHOLD {
        return;
      }
      var recent := HasRecentAlert(client, now);
      if recent {
        return;
      }
      ghost var more := alerts + [Alert(client, now, |accounts|)];
      SprayIsReported(alerts, more, history, key, now);
      alerts := alerts + [Alert(client, now, |accounts|)];
      SqlClock(this);
    }

    /** The cooldown query. */
    method HasRecentAlert(client: string, now: Instant) returns (found: bool)
      ensures found <==> Recent(alerts, client, now)
    {
      var i := 0;
      while i < |alerts|
        invariant 0 <= i <= |alerts|
        invariant forall j :: 0 <= j < i ==> !(alerts[j].client == client && alerts[j].at >= now - SPRAY_COOLDOWN)
      {
        if alerts[i].client == client && alerts[i].at >= now - SPRAY_COOLDOWN {
          return true;
        }
        i := i + 1;
      }
      found := false;
    }

    method Success(key: string, now: Instant)
      requires Valid() && clock <= now && ZERO < now
      modifies this
      ensures Valid() && history == old(history) + [Succeeded(key, now)] && alerts == old(alerts) && active == old(active) && clock == now
    {
      hide *;
      SqlClock(this);
      SqlLater(rows, history, penalties, window, clock, now);
      SpacedLater(alerts, clock, now);
      ghost var after := if Blank(key) then rows else rows - {key};
      SqlRecords(rows, history, penalties, window, now, key, after, Succeeded(key, now));
      if !Blank(key) {
        rows := rows - {key};
      }
      history := history + [Succeeded(key, now)];
      clock := now;
      SqlClock(this);
    }
  }

  lemma RowCounts(rows: map<string, Row>, history: seq<Event>, penalties: seq<Penalty>, window: int, now: Instant, key: string)
    requires SqlState(rows, history, penalties, window, now) && key in rows && !Blank(key)
    ensures var track := TrackOf(history, key, penalties, window); track.Some? && track.value.count == rows[key].count
  {
    hide TrackOf, Blank;
    assert SqlMirrors(rows, key, TrackOf(history, key, penalties, window), now);
  }

  lemma LockedNowIs(history: seq<Event>, key: string, count: int, penalties: seq<Penalty>, window: int, threshold: int)
    requires Blank(key) || (TrackOf(history, key, penalties, window).Some? && TrackOf(history, key, penalties, window).value.count == count)
    ensures LockedNow(history, key, penalties, window, threshold) ==
              if !Blank(key) && count >= threshold && AccountEmail(key) != "" then {AccountEmail(key)} else {}
  {
    hide Blank, TrackOf, AccountEmail;
  }

  lemma SqlClock(l: SQLLoginLimiter)
    ensures l.Valid() <==> SqlState(l.rows, l.history, l.penalties, l.window, l.clock) && Spaced(l.alerts, l.clock)
    ensures l.Valid() ==> DistinctThresholds(l.penalties)
  {
  }

  lemma SpacedLater(alerts: seq<Alert>, now: Instant, later: Instant)
    requires Spaced(alerts, now) && now <= later
    ensures Spaced(alerts, later)
  {
  }

  lemma BlankNeverAlerts(alerts: seq<Alert>, history: seq<Event>, key: string, now: Instant)
    requires Blank(key)
    ensures Alerted(alerts, alerts, history, key, now)
  {
    hide AccountsUnderAttack;
    if ParsePair(key).Some? {
      PairKeyMatches(key);
    }
  }

  lemma AlertCases(alerts: seq<Alert>, history: seq<Event>, key: string, now: Instant)
    ensures var pair := ParsePair(key);
            && (pair.None? || pair.value.client == "unknown" ==> Alerted(alerts, alerts, history, key, now))
            && (pair.Some? && pair.value.client != "unknown" ==>
                 var client, n := pair.value.client, |AccountsUnderAttack(history, pair.value.client, now)|;
                 if n >= SPRAY_THRESHOLD && !Recent(alerts, client, now)
                 then Alerted(alerts, alerts + [Alert(client, now, n)], history, key, now)
                 else Alerted(alerts, alerts, history, key, now))
  {
    hide ParsePair, AccountsUnderAttack;
  }

  lemma NoAccounts(client: string)
    ensures forall found: set<string> :: AccountsAmong(found - found, client) == {}
  {
    hide ParsePair;
  }

  lemma OneMoreKey(found: set<string>, todo: set<string>, rowKey: string, client: string)
    requires todo <= found && rowKey in todo
    ensures var candidate := ParsePair(rowKey);
            AccountsAmong(found - (todo - {rowKey}), client) ==
              if candidate.Some? && candidate.value.client == client
              then AccountsAmong(found - todo, client) + {candidate.value.account}
              else AccountsAmong(found - todo, client)
  {
    hide ParsePair;
    assert found - (todo - {rowKey}) == (found - todo) + {rowKey};
  }

  /* ---- whole runs ---- */

  datatype Call = Locked(key: string, at: Instant) | Fail(key: string, at: Instant) | Success(key: string, at: Instant)

  /** What a run of calls tells the history: its failures and successes. */
  function Told(calls: seq<Call>): seq<Event> {
    if calls == [] then []
    else
      var last := calls[|calls|-1];
      Told(calls[..|calls|-1]) +
      match last
      case Locked(_, _) => []
      case Fail(key, at) => [Failed(key, at)]
      case Success(key, at) => [Succeeded(key, at)]
  }

  /** The answers of both limiters to a run of calls. */
  ghost predicate Answers(calls: seq<Call>, mem: seq<bool>, sql: seq<bool>, penalties: seq<Penalty>, window: int) {
    && |mem| == |sql| == |calls|
    && forall k :: 0 <= k < |calls| && calls[k].Locked? ==>
         && mem[k] == ShouldLock(Told(calls[..k]), calls[k].key, calls[k].at, penalties, EffectiveWindow(window))
         && sql[k] == (mem[k] && !Blank(calls[k].key))
  }

  /** The longer run has the calls of the shorter one, in order at the given places, and besides them
      only questions. */
  ghost predicate OnlyAsksMore(few: seq<Call>, many: seq<Call>, places: seq<nat>) {
    && |places| == |few|
    && (forall k :: 0 <= k < |few| ==> places[k] < |many| && many[places[k]] == few[k])
    && (forall k, l :: 0 <= k < l < |few| ==> places[k] < places[l])
    && forall j :: 0 <= j < |many| && j !in places ==> many[j].Locked?
  }

  /** What was told before corresponding moments of the two runs is the same. */
  lemma {:induction false} ToldTheSame(few: seq<Call>, many: seq<Call>, places: seq<nat>, k: nat, j: nat)
    requires OnlyAsksMore(few, many, places) && k <= |few| && j <= |many|
    requires forall i :: 0 <= i < |few| ==> (places[i] < j <==> i < k)
    ensures Told(few[..k]) == Told(many[..j])
    decreases j
  {
    hide Told;
    if j == 0 {
      assert k == 0;
    } else {
      ToldNext(many, j - 1);
      if k > 0 && places[k-1] == j - 1 {
        ToldNext(few, k - 1);
        ToldTheSame(few, many, places, k - 1, j - 1);
      } else {
        OnlyAsked(few, many, places, k, j - 1);
        ToldTheSame(few, many, places, k, j - 1);
      }
    }
  }

  lemma OnlyAsked(few: seq<Call>, many: seq<Call>, places: seq<nat>, k: nat, j: nat)
    requires OnlyAsksMore(few, many, places) && k <= |few| && j < |many|
    requires forall i :: 0 <= i < |few| ==> (places[i] <= j <==> i < k)
    requires k > 0 ==> places[k-1] != j
    ensures many[j].Locked? && forall i :: 0 <= i < |few| ==> (places[i] < j <==> i < k)
  {
    forall i | 0 <= i < |few|
      ensures places[i] != j
    {
      assert i < k - 1 ==> places[i] < places[k-1] <= j;
    }
  }

  /** Asking whether a key is locked leaves no trace: two runs that differ only in questions get equal
      answers to all questions that they share. */
  lemma LockedLeavesNoTrace(few: seq<Call>, many: seq<Call>, places: seq<nat>, penalties: seq<Penalty>, window: int,
                            mem: seq<bool>, sql: seq<bool>, mem': seq<bool>, sql': seq<bool>)
    requires OnlyAsksMore(few, many, places)
    requires Answers(few, mem, sql, penalties, window) && Answers(many, mem', sql', penalties, window)
    ensures forall k :: 0 <= k < |few| && few[k].Locked? ==> mem[k] == mem'[places[k]] && sql[k] == sql'[places[k]]
  {
    hide Told, ShouldLock, EffectiveWindow, Blank;
    forall k | 0 <= k < |few| && few[k].Locked?
      ensures mem[k] == mem'[places[k]] && sql[k] == sql'[places[k]]
    {
      ToldTheSame(few, many, places, k, places[k]);
    }
  }

  /** Drives both limiters through the same calls with the same clock readings. */
  method RunBoth(calls: seq<Call>, penalties: seq<Penalty>, window: int) returns (mem: seq<bool>, sql: seq<bool>)
    requires DistinctThresholds(penalties)
    requires forall i :: 0 <= i < |calls| ==> ZERO < calls[i].at
    requires forall i, j :: 0 <= i < j < |calls| ==> calls[i].at <= calls[j].at
    ensures Answers(calls, mem, sql, penalties, window)
  {
    hide *;
    var memory := new LoginLimiter(penalties, window);
    var table := new SQLLoginLimiter(penalties, window, 0, {});
    mem, sql := [], [];
    Defaults(window, 0);
    var i := 0;
    ToldNothing(calls);
    while i < |calls|
      invariant 0 <= i == |mem| == |sql| <= |calls|
      invariant fresh(memory) && fresh(table)
      invariant memory.Valid() && table.Valid()
      invariant memory.penalties == table.penalties == penalties
      invariant memory.window == table.window == EffectiveWindow(window)
      invariant memory.history == table.history == Told(calls[..i])
      invariant memory.clock == table.clock == if i == 0 then ZERO else calls[i-1].at
      invariant forall k :: 0 <= k < i && calls[k].Locked? ==>
                  && mem[k] == ShouldLock(Told(calls[..k]), calls[k].key, calls[k].at, penalties, EffectiveWindow(window))
                  && sql[k] == (mem[k] && !Blank(calls[k].key))
    {
      var a, b := false, false;
      ToldNext(calls, i);
      match calls[i] {
        case Locked(key, at) =>
          a := memory.Locked(key, at);
          b := table.Locked(key, at);
        case Fail(key, at) =>
          memory.Fail(key, at);
          table.Fail(key, at);
        case Success(key, at) =>
          memory.Success(key, at);
          table.Success(key, at);
      }
      mem, sql := mem + [a], sql + [b];
      i := i + 1;
    }
    AnswersAre(calls, mem, sql, penalties, window);
  }

  lemma AnswersAre(calls: seq<Call>, mem: seq<bool>, sql: seq<bool>, penalties: seq<Penalty>, window: int)
    requires |mem| == |sql| == |calls|
    requires forall k :: 0 <= k < |calls| && calls[k].Locked? ==>
               && mem[k] == ShouldLock(Told(calls[..k]), calls[k].key, calls[k].at, penalties, EffectiveWindow(window))
               && sql[k] == (mem[k] && !Blank(calls[k].key))
    ensures Answers(calls, mem, sql, penalties, window)
  {
    hide Told, ShouldLock, EffectiveWindow, Blank;
  }

  /** What a call leaves of the alerts: spaced; after a failure that has a client at five accounts, with
      one no older than the cooldown; and at most one more than before, for such a failure only. */
  ghost predicate AlertsAfter(before: seq<Alert>, after: seq<Alert>, calls: seq<Call>, k: nat)
    requires k < |calls|
  {
    var now, history := calls[k].at, Told(calls[..k+1]);
    && Spaced(after, now)
    && (if calls[k].Fail? then Alerted(before, after, history, calls[k].key, now) else after == before)
    && (calls[k].Fail? && ParsePair(calls[k].key).Some? && ParsePair(calls[k].key).value.client != "unknown"
        && |AccountsUnderAttack(history, ParsePair(calls[k].key).value.client, now)| >= SPRAY_THRESHOLD ==>
          Recent(after, ParsePair(calls[k].key).value.client, now))
  }

  /** Drives the SQL limiter through a run of calls and notes its alerts and the active accounts after
      each of them. */
  method RunAlerts(calls: seq<Call>, penalties: seq<Penalty>, window: int, threshold: int, accounts: set<string>)
    returns (alerts: seq<seq<Alert>>, active: seq<set<string>>)
    requires DistinctThresholds(penalties)
    requires forall i :: 0 <= i < |calls| ==> ZERO < calls[i].at
    requires forall i, j :: 0 <= i < j < |calls| ==> calls[i].at <= calls[j].at
    ensures |alerts| == |active| == |calls| + 1 && alerts[0] == []
    ensures forall k :: 0 <= k < |calls| ==> AlertsAfter(alerts[k], alerts[k+1], calls, k)
    ensures forall k :: 0 <= k <= |calls| ==>
              active[k] == accounts - LockedAccounts(Told(calls[..k]), penalties, EffectiveWindow(window), EffectiveThreshold(threshold))
  {
    hide *;
    var table := new SQLLoginLimiter(penalties, window, threshold, accounts);
    alerts, active := [[]], [accounts];
    Defaults(window, threshold);
    var i := 0;
    ToldNothing(calls);
    NothingLocked(accounts, penalties, EffectiveWindow(window), EffectiveThreshold(threshold));
    while i < |calls|
      invariant 0 <= i <= |calls| && |alerts| == |active| == i + 1 && alerts[0] == []
      invariant fresh(table) && table.Valid() && table.penalties == penalties && table.window == EffectiveWindow(window)
      invariant table.accountLockoutFailures == EffectiveThreshold(threshold)
      invariant table.history == Told(calls[..i])
      invariant table.clock == if i == 0 then ZERO else calls[i-1].at
      invariant table.alerts == alerts[i] && table.active == active[i]
      invariant forall k :: 0 <= k < i ==> AlertsAfter(alerts[k], alerts[k+1], calls, k)
      invariant forall k :: 0 <= k <= i ==>
                  active[k] == accounts - LockedAccounts(Told(calls[..k]), penalties, EffectiveWindow(window), EffectiveThreshold(threshold))
    {
      ghost var before := table.alerts;
      ToldNext(calls, i);
      SqlClock(table);
      SpacedLater(before, table.clock, calls[i].at);
      match calls[i] {
        case Locked(key, at) =>
          var answer := table.Locked(key, at);
        case Fail(key, at) =>
          LockedAccountsAppend(table.history, Failed(key, at), penalties, table.window, table.accountLockoutFailures);
          table.Fail(key, at);
        case Success(key, at) =>
          LockedAccountsAppend(table.history, Succeeded(key, at), penalties, table.window, table.accountLockoutFailures);
          table.Success(key, at);
      }
      SqlClock(table);
      AlertsAfterCall(before, table.alerts, calls, i);
      alerts, active := alerts + [table.alerts], active + [table.active];
      i := i + 1;
    }
  }

  lemma NothingLocked(accounts: set<string>, penalties: seq<Penalty>, window: int, threshold: int)
    ensures accounts - LockedAccounts([], penalties, window, threshold) == accounts
  {
  }

  lemma AlertsAfterCall(before: seq<Alert>, after: seq<Alert>, calls: seq<Call>, k: nat)
    requires k < |calls| && Spaced(before, calls[k].at) && Spaced(after, calls[k].at)
    requires if calls[k].Fail? then Alerted(before, after, Told(calls[..k+1]), calls[k].key, calls[k].at) else after == before
    ensures AlertsAfter(before, after, calls, k)
  {
    hide ParsePair, AccountsUnderAttack, Told;
    if calls[k].Fail? {
      SprayIsReported(before, after, Told(calls[..k+1]), calls[k].key, calls[k].at);
    }
  }

  lemma ToldNothing(calls: seq<Call>)
    ensures Told(calls[..0]) == []
  {
  }

  lemma ToldNext(calls: seq<Call>, i: nat)
    requires i < |calls|
    ensures calls[i].Locked? ==> Told(calls[..i+1]) == Told(calls[..i])
    ensures calls[i].Fail? ==> Told(calls[..i+1]) == Told(calls[..i]) + [Failed(calls[i].key, calls[i].at)]
    ensures calls[i].Success? ==> Told(calls[..i+1]) == Told(calls[..i]) + [Succeeded(calls[i].key, calls[i].at)]
  {
    assert calls[..i+1][..i] == calls[..i];
  }

  /** For a blank key the limiters do differ: a failure can lock it in memory, never in the table. */
  lemma BlankKeysDiffer()
    ensures var calls, penalties := [Fail(" ", 1), Locked(" ", 2)], [Penalty(1, SECOND)];
            && Blank(calls[1].key)
            && ShouldLock(Told(calls[..1]), calls[1].key, calls[1].at, penalties, EffectiveWindow(0))
  {
    hide Lockout, Best, EffectiveWindow, TrackOf;
    var calls, p, w := [Fail(" ", 1), Locked(" ", 2)], [Penalty(1, SECOND)], EffectiveWindow(0);
    ToldNext(calls, 0);
    ToldNothing(calls);
    var e := Failed(" ", 1);
    assert Told(calls[..1]) == [e] && [] + [e] == [e];
    NothingTracked(" ", p, w);
    TrackAppend([], e, " ", p, w);
    AfterFailureCases(None, 1, p, w);
    OnePenalty();
    assert Blank(" ") by { assert TrimLeftSpace(" ") == TrimLeftSpace(""); }
  }

  lemma NothingTracked(key: string, penalties: seq<Penalty>, window: int)
    ensures TrackOf([], key, penalties, window) == None
  {
  }

  lemma OnePenalty()
    ensures Lockout(1, [Penalty(1, SECOND)]) == SECOND
  {
    Unfold(1, [Penalty(1, SECOND)]);
    NoPenalty(1);
  }
}
