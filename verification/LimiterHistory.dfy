/** What a login limiter should answer, told from the history of failures and successes alone.
    Both limiters of internal/session keep less or other state than this; LoginLimiters shows
    that they answer the same. */
module LimiterHistory {
  import opened Clock
  import opened Options
  import opened Penalties

  datatype Event = Failed(key: string, at: Instant) | Succeeded(key: string, at: Instant)

  /** The failures of a key that still count together: how many, when the first and the last of
      them happened, and until when they lock the key. */
  datatype Track = Track(count: nat, first: Instant, last: Instant, until: Option<Instant>)

  function AfterFailure(track: Option<Track>, now: Instant, penalties: seq<Penalty>, window: int): Track {
    var stale := track.None? || now - track.value.first > window;
    var count := if stale then 1 else track.value.count + 1;
    var first := if stale then now else track.value.first;
    var lockout := Lockout(count, penalties);
    Track(count, first, now, if lockout > 0 then Some(now + lockout) else None)
  }

  function NextTrack(before: Option<Track>, e: Event, key: string, penalties: seq<Penalty>, window: int): Option<Track> {
    if e.key != key then before
    else if e.Failed? then Some(AfterFailure(before, e.at, penalties, window))
    else None
  }

  function TrackOf(history: seq<Event>, key: string, penalties: seq<Penalty>, window: int): Option<Track> {
    if history == [] then None
    else NextTrack(TrackOf(history[..|history|-1], key, penalties, window), history[|history|-1], key, penalties, window)
  }

  function TrackedUntil(track: Option<Track>): Option<Instant> {
    if track.None? then None else track.value.until
  }

  /** The answer to Locked(key) at `now`. */
  predicate ShouldLock(history: seq<Event>, key: string, now: Instant, penalties: seq<Penalty>, window: int) {
    var until := TrackedUntil(TrackOf(history, key, penalties, window));
    until.Some? && now < until.value
  }

  /** The clock never goes back and has left Go's zero time behind. */
  predicate Ordered(history: seq<Event>) {
    && (forall i :: 0 <= i < |history| ==> 0 < history[i].at)
    && (forall i, j :: 0 <= i < j < |history| ==> history[i].at <= history[j].at)
  }

  predicate UpTo(history: seq<Event>, now: Instant) {
    forall i :: 0 <= i < |history| ==> history[i].at <= now
  }

  lemma TrackAppend(history: seq<Event>, e: Event, key: string, penalties: seq<Penalty>, window: int)
    ensures TrackOf(history + [e], key, penalties, window)
         == NextTrack(TrackOf(history, key, penalties, window), e, key, penalties, window)
  {
    assert (history + [e])[..|history|] == history;
  }

  /** What is tracked lies in the past and began after the zero time. */
  lemma {:induction false} TrackInPast(history: seq<Event>, key: string, penalties: seq<Penalty>, window: int, now: Instant)
    requires Ordered(history) && UpTo(history, now)
    ensures var track := TrackOf(history, key, penalties, window);
            track.Some? ==> 0 < track.value.first <= track.value.last <= now && track.value.count > 0
  {
    hide AfterFailure;
    if history != [] {
      var front, last := history[..|history|-1], history[|history|-1];
      TrackInPast(front, key, penalties, window, last.at);
      AfterFailureCases(TrackOf(front, key, penalties, window), last.at, penalties, window);
    }
  }

  lemma AfterFailureCases(track: Option<Track>, now: Instant, penalties: seq<Penalty>, window: int)
    ensures var next := AfterFailure(track, now, penalties, window);
            && next.last == now
            && (track.None? || now - track.value.first > window ==> next.count == 1 && next.first == now)
            && (track.Some? && now - track.value.first <= window ==>
                  next.count == track.value.count + 1 && next.first == track.value.first)
            && (Lockout(next.count, penalties) > 0 ==> next.until == Some(now + Lockout(next.count, penalties)))
            && (Lockout(next.count, penalties) == 0 ==> next.until == None)
  {
    hide Lockout;
  }

  /** The last thing that happened to a key. */
  function LastEvent(history: seq<Event>, key: string): (e: Option<Event>)
    ensures e.Some? ==> e.value in history && e.value.key == key
    ensures e.None? ==> forall x :: x in history ==> x.key != key
  {
    if history == [] then None
    else
      var front, last := history[..|history|-1], history[|history|-1];
      assert history == front + [last];
      if last.key == key then Some(last) else LastEvent(front, key)
  }

  /** A key is tracked exactly when the last thing that happened to it was a failure. */
  lemma {:induction false} TrackedIffLastFailed(history: seq<Event>, key: string, penalties: seq<Penalty>, window: int)
    ensures var track, e := TrackOf(history, key, penalties, window), LastEvent(history, key);
            && (track.Some? <==> e.Some? && e.value.Failed?)
            && (track.Some? ==> track.value.last == e.value.at)
  {
    if history != [] {
      TrackedIffLastFailed(history[..|history|-1], key, penalties, window);
    }
  }
}
