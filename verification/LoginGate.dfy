/** The gate in front of a login (internal/groupware/handlers.go, with AnyLocked, FailAll and
    SuccessAll of internal/session/manager.go): a login is tried only if none of its keys is locked,
    and its outcome is recorded for all of them.  The methods are what one login does; the rest of the
    module lets any number of logins ask and tell in turn. */
module LoginGate {
  import opened Clock
  import opened Options
  import opened Text
  import opened Penalties
  import opened LimiterHistory
  import opened AttemptBound
  import opened LoginLimiters

  datatype Answer = TooManyRequests | Unauthorized | Authorized

  function OutcomeOf(key: string, at: Instant, valid: bool): Event {
    if valid then Succeeded(key, at) else Failed(key, at)
  }

  function AnswerTo(valid: bool): Answer { if valid then Authorized else Unauthorized }

  /* ---- any number of logins, interleaved ---- */

  /** A login between two calls of the limiter: for how many of its keys it has asked, and when, and how
      many of them it has told the outcome; or how it ended. */
  datatype Progress = Trying(keys: seq<string>, valid: bool, asks: seq<Ask>, told: nat) | Done(answer: Answer)

  /** The clock, what the limiter was told and when the logins behind it had asked, and the logins. */
  datatype State = State(now: Instant, history: seq<Event>, asks: seq<Ask>, logins: map<nat, Progress>)

  datatype Action = Tick(elapsed: nat) | Begin(id: nat, keys: seq<string>, valid: bool) | Advance(id: nat)

  predicate Distinct(keys: seq<string>) {
    forall i, j :: 0 <= i < j < |keys| ==> keys[i] != keys[j]
  }

  function Initial(now: Instant): State { State(now, [], [], map[]) }

  /** The login's next call: it asks for key after key and gives up at a locked one, then tells key after
      key. */
  function Advanced(s: State, id: nat, penalties: seq<Penalty>, window: int): State
    requires id in s.logins
  {
    match s.logins[id]
    case Done(_) => s
    case Trying(keys, valid, asks, told) =>
      if |asks| < |keys| then
        s.(logins := s.logins[id := if ShouldLock(s.history, keys[|asks|], s.now, penalties, window) then Done(TooManyRequests)
                                    else Trying(keys, valid, asks + [Ask(|s.history|, s.now)], told)])
      else if told < |keys| then
        State(s.now, s.history + [OutcomeOf(keys[told], s.now, valid)], s.asks + [asks[told]],
              s.logins[id := if told + 1 < |keys| then Trying(keys, valid, asks, told + 1) else Done(AnswerTo(valid))])
      else s.(logins := s.logins[id := Done(AnswerTo(valid))])
  }

  function Step(s: State, a: Action, penalties: seq<Penalty>, window: int): State {
    match a
    case Tick(elapsed) => s.(now := s.now + elapsed)
    case Begin(id, keys, valid) =>
      if id in s.logins || !Distinct(keys) then s else s.(logins := s.logins[id := Trying(keys, valid, [], 0)])
    case Advance(id) => if id in s.logins then Advanced(s, id, penalties, window) else s
  }

  function After(s: State, run: seq<Action>, penalties: seq<Penalty>, window: int): State {
    if run == [] then s else Step(After(s, run[..|run|-1], penalties, window), run[|run|-1], penalties, window)
  }

  /** The logins for the key that have begun and not ended. */
  ghost function InFlight(s: State, key: string): set<nat> {
    set id | id in s.logins && s.logins[id].Trying? && key in s.logins[id].keys
  }

  /** At no moment of the run are more than c logins for the key in flight. */
  ghost predicate AtMostInFlight(s: State, run: seq<Action>, key: string, penalties: seq<Penalty>, window: int, c: nat) {
    forall k :: 0 <= k <= |run| ==> |InFlight(After(s, run[..k], penalties, window), key)| <= c
  }

  /* ---- the invariant ---- */

  /** The login asked for the key when the history was no longer than x, and has yet to tell it. */
  ghost predicate Awaited(login: Progress, key: string, x: nat) {
    login.Trying?
    && exists p :: login.told <= p < |login.asks| && p < |login.keys| && login.keys[p] == key && login.asks[p].index <= x
  }

  ghost function Live(s: State, key: string, x: nat): set<nat> {
    set id | id in s.logins && Awaited(s.logins[id], key, x)
  }

  ghost predicate LoginInv(s: State, login: Progress, penalties: seq<Penalty>, window: int) {
    login.Trying? ==>
      && |login.asks| <= |login.keys| && Distinct(login.keys) && (login.told > 0 ==> |login.asks| == |login.keys|)
      && forall p :: login.told <= p < |login.asks| ==>
           login.asks[p].at <= s.now && AskedUnlocked(s.history, login.asks[p], login.keys[p], penalties, window)
  }

  /** The recorded failures of the key, each asked for in time. */
  ghost predicate FailuresInv(s: State, key: string, penalties: seq<Penalty>, window: int) {
    && |s.asks| == |s.history|
    && forall i: nat :: IsFailure(s.history, key, i) ==>
         s.asks[i].index <= i && s.asks[i].at <= s.history[i].at && AskedUnlocked(s.history, s.asks[i], key, penalties, window)
  }

  /** Of the logins that had asked when the history was x long, no more than c were or will be told. */
  ghost predicate OverlapInv(s: State, key: string, c: nat) {
    && |s.asks| == |s.history|
    && forall x: nat :: x <= |s.history| ==> |Overlapping(s.history, s.asks, key, x)| + |Live(s, key, x)| <= c
  }

  ghost predicate Inv(s: State, key: string, penalties: seq<Penalty>, window: int, c: nat) {
    && s.now > 0 && Ordered(s.history) && UpTo(s.history, s.now)
    && (forall id :: id in s.logins ==> LoginInv(s, s.logins[id], penalties, window))
    && FailuresInv(s, key, penalties, window) && OverlapInv(s, key, c)
  }

  lemma StillUnlocked(history: seq<Event>, more: seq<Event>, ask: Ask, key: string, penalties: seq<Penalty>, window: int)
    requires AskedUnlocked(history, ask, key, penalties, window)
    ensures AskedUnlocked(history + more, ask, key, penalties, window)
  {
    hide ShouldLock;
    assert (history + more)[..ask.index] == history[..ask.index];
  }

  lemma LoginStays(s: State, t: State, login: Progress, penalties: seq<Penalty>, window: int)
    requires LoginInv(s, login, penalties, window) && s.now <= t.now && s.history <= t.history
    ensures LoginInv(t, login, penalties, window)
  {
    hide AskedUnlocked;
    if login.Trying? {
      assert t.history == s.history + t.history[|s.history|..];
      forall p | login.told <= p < |login.asks|
        ensures AskedUnlocked(t.history, login.asks[p], login.keys[p], penalties, window)
      {
        StillUnlocked(s.history, t.history[|s.history|..], login.asks[p], login.keys[p], penalties, window);
      }
    }
  }

  /** The logins that have asked and not told are in flight. */
  lemma LiveIsInFlight(s: State, key: string, x: nat)
    ensures |Live(s, key, x)| <= |InFlight(s, key)|
  {
    SubsetSize(Live(s, key, x), InFlight(s, key));
  }

  /** Steps that record nothing only have to account for a question, at the present length. */
  lemma NothingTold(s: State, t: State, key: string, c: nat)
    requires OverlapInv(s, key, c) && t.history == s.history && t.asks == s.asks && |InFlight(t, key)| <= c
    requires forall x: nat :: x < |s.history| ==> Live(t, key, x) <= Live(s, key, x)
    ensures OverlapInv(t, key, c)
  {
    hide Live, Overlapping, InFlight;
    forall x: nat | x <= |t.history|
      ensures |Overlapping(t.history, t.asks, key, x)| + |Live(t, key, x)| <= c
    {
      if x == |t.history| {
        NoneSince(t.history, t.asks, key);
        LiveIsInFlight(t, key, x);
      } else {
        SubsetSize(Live(t, key, x), Live(s, key, x));
      }
    }
  }

  lemma NoneSince(history: seq<Event>, asks: seq<Ask>, key: string)
    requires |asks| == |history|
    ensures Overlapping(history, asks, key, |history|) == {}
  {
  }

  lemma AskKeeps(s: State, id: nat, key: string, penalties: seq<Penalty>, window: int, c: nat)
    requires Inv(s, key, penalties, window, c) && id in s.logins && s.logins[id].Trying?
    requires |s.logins[id].asks| < |s.logins[id].keys| && |InFlight(Advanced(s, id, penalties, window), key)| <= c
    ensures Inv(Advanced(s, id, penalties, window), key, penalties, window, c)
  {
    hide Overlapping, InFlight, ShouldLock, OverlapInv, FailuresInv, Distinct;
    var t, login := Advanced(s, id, penalties, window), s.logins[id];
    LoginIs(s, id, key, penalties, window, c);
    assert s.history[..|s.history|] == s.history;
    forall x: nat | x < |s.history|
      ensures Live(t, key, x) <= Live(s, key, x)
    {
      AskedNow(s, id, key, penalties, window, x);
    }
    NothingTold(s, t, key, c);
    SameFailures(s, t, key, penalties, window);
  }

  lemma SameFailures(s: State, t: State, key: string, penalties: seq<Penalty>, window: int)
    requires FailuresInv(s, key, penalties, window) && t.history == s.history && t.asks == s.asks
    ensures FailuresInv(t, key, penalties, window)
  {
  }

  lemma LoginIs(s: State, id: nat, key: string, penalties: seq<Penalty>, window: int, c: nat)
    requires Inv(s, key, penalties, window, c) && id in s.logins
    ensures LoginInv(s, s.logins[id], penalties, window)
    ensures s.logins[id].Trying? ==> Distinct(s.logins[id].keys)
  {
    hide FailuresInv, OverlapInv, Ordered, UpTo, AskedUnlocked, Distinct;
    assert LoginInv(s, s.logins[id], penalties, window);
  }

  lemma AskedNow(s: State, id: nat, key: string, penalties: seq<Penalty>, window: int, x: nat)
    requires id in s.logins && s.logins[id].Trying? && |s.logins[id].asks| < |s.logins[id].keys| && x < |s.history|
    ensures Live(Advanced(s, id, penalties, window), key, x) <= Live(s, key, x)
  {
    hide ShouldLock;
    var t, login := Advanced(s, id, penalties, window), s.logins[id];
    if t.logins[id].Trying? && Awaited(t.logins[id], key, x) {
      var p :| login.told <= p < |t.logins[id].asks| && p < |login.keys| && login.keys[p] == key && t.logins[id].asks[p].index <= x;
      assert p < |login.asks|;
    }
  }

  /** The outcome of a login's key is recorded: what was awaited of it has now happened. */
  lemma TellKeeps(s: State, id: nat, key: string, penalties: seq<Penalty>, window: int, c: nat)
    requires Inv(s, key, penalties, window, c) && id in s.logins && s.logins[id].Trying?
    requires |s.logins[id].asks| == |s.logins[id].keys| && s.logins[id].told < |s.logins[id].keys|
    requires |InFlight(Advanced(s, id, penalties, window), key)| <= c
    ensures Inv(Advanced(s, id, penalties, window), key, penalties, window, c)
  {
    hide Overlapping, InFlight, ShouldLock, OverlapInv, FailuresInv, LoginInv, AskedUnlocked, Live;
    var t, login := Advanced(s, id, penalties, window), s.logins[id];
    LoginIs(s, id, key, penalties, window, c);
    forall d | d in t.logins
      ensures LoginInv(t, t.logins[d], penalties, window)
    {
      LoginIs(s, d, key, penalties, window, c);
      LoginStays(s, t, s.logins[d], penalties, window);
      if d == id {
        ToldLess(t, login, penalties, window);
      }
    }
    RecordedFailure(s, id, key, penalties, window);
    Exchanged(s, id, key, penalties, window, c);
  }

  lemma ToldLess(t: State, login: Progress, penalties: seq<Penalty>, window: int)
    requires login.Trying? && LoginInv(t, login, penalties, window) && |login.asks| == |login.keys|
    ensures LoginInv(t, login.(told := login.told + 1), penalties, window)
    ensures forall answer :: LoginInv(t, Done(answer), penalties, window)
  {
    hide AskedUnlocked, Distinct;
  }

  lemma RecordedFailure(s: State, id: nat, key: string, penalties: seq<Penalty>, window: int)
    requires FailuresInv(s, key, penalties, window) && id in s.logins && s.logins[id].Trying?
    requires |s.logins[id].asks| == |s.logins[id].keys| && s.logins[id].told < |s.logins[id].keys|
    requires LoginInv(s, s.logins[id], penalties, window)
    ensures FailuresInv(Advanced(s, id, penalties, window), key, penalties, window)
  {
    hide AskedUnlocked, Distinct;
    var t, login := Advanced(s, id, penalties, window), s.logins[id];
    var n, e := |s.history|, OutcomeOf(login.keys[login.told], s.now, login.valid);
    assert t.history == s.history + [e] && t.asks == s.asks + [login.asks[login.told]];
    forall i: nat | IsFailure(t.history, key, i)
      ensures t.asks[i].index <= i && t.asks[i].at <= t.history[i].at && AskedUnlocked(t.history, t.asks[i], key, penalties, window)
    {
      if i < n {
        assert IsFailure(s.history, key, i);
        StillUnlocked(s.history, [e], s.asks[i], key, penalties, window);
      } else {
        StillUnlocked(s.history, [e], t.asks[n], key, penalties, window);
        AskedBefore(s.history, t.asks[n], key, penalties, window);
      }
    }
  }

  lemma AskedBefore(history: seq<Event>, ask: Ask, key: string, penalties: seq<Penalty>, window: int)
    requires AskedUnlocked(history, ask, key, penalties, window)
    ensures ask.index <= |history|
  {
  }

  lemma Exchanged(s: State, id: nat, key: string, penalties: seq<Penalty>, window: int, c: nat)
    requires OverlapInv(s, key, c) && id in s.logins && s.logins[id].Trying? && Distinct(s.logins[id].keys)
    requires |s.logins[id].asks| == |s.logins[id].keys| && s.logins[id].told < |s.logins[id].keys|
    requires |InFlight(Advanced(s, id, penalties, window), key)| <= c
    ensures OverlapInv(Advanced(s, id, penalties, window), key, c)
  {
    hide InFlight, Live, Overlapping, Distinct;
    var t := Advanced(s, id, penalties, window);
    assert |t.history| == |s.history| + 1 == |t.asks|;
    forall x: nat | x <= |t.history|
      ensures |Overlapping(t.history, t.asks, key, x)| + |Live(t, key, x)| <= c
    {
      if x == |t.history| {
        NoneSince(t.history, t.asks, key);
        LiveIsInFlight(t, key, x);
      } else {
        ExchangedAt(s, id, key, penalties, window, x);
      }
    }
  }

  lemma ExchangedAt(s: State, id: nat, key: string, penalties: seq<Penalty>, window: int, x: nat)
    requires |s.asks| == |s.history| && id in s.logins && s.logins[id].Trying? && Distinct(s.logins[id].keys)
    requires |s.logins[id].asks| == |s.logins[id].keys| && s.logins[id].told < |s.logins[id].keys| && x <= |s.history|
    ensures var t := Advanced(s, id, penalties, window);
            && |t.asks| == |t.history|
            && |Overlapping(t.history, t.asks, key, x)| + |Live(t, key, x)|
               <= |Overlapping(s.history, s.asks, key, x)| + |Live(s, key, x)|
  {
    var t, login := Advanced(s, id, penalties, window), s.logins[id];
    var n := |s.history|;
    OverlapNext(s.history, s.asks, key, x, OutcomeOf(login.keys[login.told], s.now, login.valid), login.asks[login.told]);
    LiveAfter(s, id, key, penalties, window, x);
    hide Advanced, Overlapping, Live;
    if login.keys[login.told] == key && login.asks[login.told].index <= x {
      assert id in Live(s, key, x) && Live(t, key, x) <= Live(s, key, x) - {id};
      SubsetSize(Live(t, key, x), Live(s, key, x) - {id});
    } else {
      SubsetSize(Live(t, key, x), Live(s, key, x));
    }
  }

  lemma OverlapNext(history: seq<Event>, asks: seq<Ask>, key: string, x: nat, e: Event, ask: Ask)
    requires |asks| == |history| && x <= |history|
    ensures Overlapping(history + [e], asks + [ask], key, x) ==
              Overlapping(history, asks, key, x) + if e.Failed? && e.key == key && ask.index <= x then {|history|} else {}
    ensures |history| !in Overlapping(history, asks, key, x)
  {
    var all, allAsks := history + [e], asks + [ask];
    forall i: nat
      ensures i in Overlapping(all, allAsks, key, x) <==>
                i in Overlapping(history, asks, key, x) || (i == |history| && e.Failed? && e.key == key && ask.index <= x)
    {
      if i < |history| {
        assert all[i] == history[i] && allAsks[i] == asks[i];
      }
    }
  }

  /** Having told a key, a login is no longer awaited for it. */
  lemma LiveAfter(s: State, id: nat, key: string, penalties: seq<Penalty>, window: int, x: nat)
    requires id in s.logins && s.logins[id].Trying? && Distinct(s.logins[id].keys)
    requires |s.logins[id].asks| == |s.logins[id].keys| && s.logins[id].told < |s.logins[id].keys|
    ensures var t, login := Advanced(s, id, penalties, window), s.logins[id];
            && Live(t, key, x) <= Live(s, key, x)
            && (login.keys[login.told] == key && login.asks[login.told].index <= x ==> id in Live(s, key, x))
            && (login.keys[login.told] == key ==> id !in Live(t, key, x))
  {
    var t, login := Advanced(s, id, penalties, window), s.logins[id];
    assert login.keys[login.told] == key && login.asks[login.told].index <= x ==> Awaited(login, key, x);
  }

  lemma StepKeeps(s: State, a: Action, key: string, penalties: seq<Penalty>, window: int, c: nat)
    requires Inv(s, key, penalties, window, c) && |InFlight(Step(s, a, penalties, window), key)| <= c
    ensures Inv(Step(s, a, penalties, window), key, penalties, window, c)
  {
    hide Overlapping, InFlight, OverlapInv, FailuresInv, LoginInv, Advanced;
    var t := Step(s, a, penalties, window);
    if a.Advance? && a.id in s.logins {
      AdvanceKeeps(s, a.id, key, penalties, window, c);
    } else if t != s {
      forall id | id in t.logins
        ensures LoginInv(t, t.logins[id], penalties, window)
      {
        if id in s.logins {
          LoginIs(s, id, key, penalties, window, c);
          LoginStays(s, t, s.logins[id], penalties, window);
        } else {
          NewLogin(t, a.keys, a.valid, penalties, window);
        }
      }
      NothingTold(s, t, key, c);
      SameFailures(s, t, key, penalties, window);
    }
  }

  lemma NewLogin(t: State, keys: seq<string>, valid: bool, penalties: seq<Penalty>, window: int)
    requires Distinct(keys)
    ensures LoginInv(t, Trying(keys, valid, [], 0), penalties, window)
  {
  }

  lemma AdvanceKeeps(s: State, id: nat, key: string, penalties: seq<Penalty>, window: int, c: nat)
    requires Inv(s, key, penalties, window, c) && id in s.logins && |InFlight(Advanced(s, id, penalties, window), key)| <= c
    ensures Inv(Advanced(s, id, penalties, window), key, penalties, window, c)
  {
    hide Overlapping, InFlight, OverlapInv, FailuresInv, Ordered, UpTo, ShouldLock;
    var t, login := Advanced(s, id, penalties, window), s.logins[id];
    LoginIs(s, id, key, penalties, window, c);
    if login.Trying? {
      if |login.asks| < |login.keys| {
        AskKeeps(s, id, key, penalties, window, c);
      } else if login.told < |login.keys| {
        TellKeeps(s, id, key, penalties, window, c);
      } else {
        NothingTold(s, t, key, c);
        SameFailures(s, t, key, penalties, window);
      }
    }
  }

  lemma InitialKeeps(now: Instant, key: string, penalties: seq<Penalty>, window: int, c: nat)
    requires now > 0
    ensures Inv(Initial(now), key, penalties, window, c)
  {
    assert Live(Initial(now), key, 0) == {};
  }

  lemma {:induction false} RunKeeps(now: Instant, run: seq<Action>, key: string, penalties: seq<Penalty>, window: int, c: nat)
    requires now > 0 && AtMostInFlight(Initial(now), run, key, penalties, window, c)
    ensures Inv(After(Initial(now), run, penalties, window), key, penalties, window, c)
  {
    hide Inv, Step, InFlight;
    if run == [] {
      InitialKeeps(now, key, penalties, window, c);
    } else {
      var front := run[..|run|-1];
      assert forall k :: 0 <= k <= |front| ==> front[..k] == run[..k];
      assert run[..|run|] == run;
      RunKeeps(now, front, key, penalties, window, c);
      StepKeeps(After(Initial(now), front, penalties, window), run[|run|-1], key, penalties, window, c);
    }
  }

  /** Whatever the logins do, every failure of a key was asked for while the key was not locked, and no
      more of them overlap than were in flight at once. */
  lemma GateHolds(now: Instant, run: seq<Action>, key: string, penalties: seq<Penalty>, window: int, c: nat)
    requires now > 0 && AtMostInFlight(Initial(now), run, key, penalties, window, c)
    ensures var s := After(Initial(now), run, penalties, window);
            Gated(s.history, s.asks, key, penalties, window, c) && Ordered(s.history) && UpTo(s.history, s.now)
  {
    hide After, Ordered, UpTo, AtMostInFlight, AskedUnlocked, Overlapping, Live, LoginInv;
    RunKeeps(now, run, key, penalties, window, c);
  }

  /** So the default schedule bounds the logins of every key by how many are in flight at once: the count
      at every moment, and the failures of any n >= 1 hours without a success. */
  lemma LoginsAreBounded(now: Instant, run: seq<Action>, key: string, c: nat, lo: Instant, n: nat)
    requires now > 0 && c >= 1 && AtMostInFlight(Initial(now), run, key, DefaultPenaltySchedule(), HOUR, c)
    ensures var s := After(Initial(now), run, DefaultPenaltySchedule(), HOUR);
            && CountsUpTo(s.history, key, DefaultPenaltySchedule(), HOUR, if c <= 7 then 10 + c else 20 + c)
            && (n >= 1 && s.now <= lo + n * HOUR && NoSuccessSince(s.history, key, lo) ==>
                  FailuresSince(s.history, key, lo) <= (if c <= 7 then 10 + c else 20 + c) * (n + 1))
  {
    hide After, Gated, Ordered, CountsUpTo, NoSuccessSince, FailuresSince, DefaultPenaltySchedule, AtMostInFlight;
    GateHolds(now, run, key, DefaultPenaltySchedule(), HOUR, c);
    var s := After(Initial(now), run, DefaultPenaltySchedule(), HOUR);
    DefaultBound(s.history, s.asks, key, c, lo, n);
  }

  /* ---- logins that overlap get past the gate ---- */

  /** c logins for one key, with a wrong password each, that all ask before any of them tells. */
  function Overlapped(key: string, c: nat): seq<Action> {
    (Begins(key, c) + Advances(c)) + Advances(c)
  }

  function Begins(key: string, c: nat): seq<Action> {
    seq(c, id requires 0 <= id < c => Begin(id, [key], false))
  }

  function Advances(c: nat): seq<Action> {
    seq(c, id requires 0 <= id < c => Advance(id))
  }

  lemma {:induction false} AfterAppend(s: State, first: seq<Action>, more: seq<Action>, penalties: seq<Penalty>, window: int)
    ensures After(s, first + more, penalties, window) == After(After(s, first, penalties, window), more, penalties, window)
  {
    hide Step;
    if more == [] {
      assert first + more == first;
    } else {
      AfterAppend(s, first, more[..|more|-1], penalties, window);
      assert (first + more)[..|first + more|-1] == first + more[..|more|-1];
    }
  }

  /** Begun: a of the logins, of which b have asked and d have told. */
  function Stage(now: Instant, key: string, a: nat, b: nat, d: nat): State {
    State(now, BurstOf(key, now, d), AskedTogether(0, now, d),
          map id | id in Interval(0, a) :: if id < d then Done(Unauthorized)
                                       else Trying([key], false, if id < b then [Ask(0, now)] else [], 0))
  }

  lemma NextBegins(now: Instant, key: string, a: nat, penalties: seq<Penalty>, window: int)
    ensures Step(Stage(now, key, a, 0, 0), Begin(a, [key], false), penalties, window) == Stage(now, key, a + 1, 0, 0)
  {
  }

  lemma NextAsks(now: Instant, key: string, a: nat, b: nat, penalties: seq<Penalty>, window: int)
    requires b < a
    ensures Step(Stage(now, key, a, b, 0), Advance(b), penalties, window) == Stage(now, key, a, b + 1, 0)
  {
    assert !ShouldLock([], key, now, penalties, window);
    assert [] + [Ask(0, now)] == [Ask(0, now)];
  }

  lemma NextTells(now: Instant, key: string, a: nat, d: nat, penalties: seq<Penalty>, window: int)
    requires d < a
    ensures Step(Stage(now, key, a, a, d), Advance(d), penalties, window) == Stage(now, key, a, a, d + 1)
  {
    assert BurstOf(key, now, d) + [Failed(key, now)] == BurstOf(key, now, d + 1);
    assert AskedTogether(0, now, d) + [Ask(0, now)] == AskedTogether(0, now, d + 1);
  }

  lemma {:induction false} AllBegin(now: Instant, key: string, a: nat, penalties: seq<Penalty>, window: int)
    ensures After(Initial(now), Begins(key, a), penalties, window) == Stage(now, key, a, 0, 0)
  {
    hide Step, Stage;
    if a == 0 {
      NobodyYet(now, key);
    } else {
      var run := Begins(key, a);
      assert run[..a-1] == Begins(key, a - 1);
      AllBegin(now, key, a - 1, penalties, window);
      NextBegins(now, key, a - 1, penalties, window);
    }
  }

  lemma NobodyYet(now: Instant, key: string)
    ensures Initial(now) == Stage(now, key, 0, 0, 0)
  {
  }

  lemma {:induction false} AllAsk(now: Instant, key: string, a: nat, b: nat, penalties: seq<Penalty>, window: int)
    requires b <= a
    ensures After(Stage(now, key, a, 0, 0), Advances(b), penalties, window) == Stage(now, key, a, b, 0)
  {
    hide Step, Stage;
    if b > 0 {
      var run := Advances(b);
      assert run[..b-1] == Advances(b - 1);
      AllAsk(now, key, a, b - 1, penalties, window);
      NextAsks(now, key, a, b - 1, penalties, window);
    }
  }

  lemma {:induction false} AllTell(now: Instant, key: string, a: nat, d: nat, penalties: seq<Penalty>, window: int)
    requires d <= a
    ensures After(Stage(now, key, a, a, 0), Advances(d), penalties, window) == Stage(now, key, a, a, d)
  {
    hide Step, Stage;
    if d > 0 {
      var run := Advances(d);
      assert run[..d-1] == Advances(d - 1);
      AllTell(now, key, a, d - 1, penalties, window);
      NextTells(now, key, a, d - 1, penalties, window);
    }
  }

  lemma OverlappedIs(now: Instant, key: string, c: nat, penalties: seq<Penalty>, window: int)
    ensures After(Initial(now), Overlapped(key, c), penalties, window) == Stage(now, key, c, c, c)
  {
    hide Step, Stage, After;
    var begins, advances := Begins(key, c), Advances(c);
    AllBegin(now, key, c, penalties, window);
    AllAsk(now, key, c, c, penalties, window);
    AllTell(now, key, c, c, penalties, window);
    AfterAppend(Initial(now), begins, advances, penalties, window);
    AfterAppend(Initial(now), begins + advances, advances, penalties, window);
  }

  /** The gate alone does not bound the failures of a key: with the default schedule, c overlapping logins
      fail c times at one instant.  From twelve on that is more than logins one after the other ever
      reach. */
  lemma OverlapBeatsTheGate(now: Instant, key: string, c: nat)
    requires now > 0 && c > 11
    ensures var s := After(Initial(now), Overlapped(key, c), DefaultPenaltySchedule(), HOUR);
            && FailuresSince(s.history, key, now) == c
            && (var t := TrackOf(s.history, key, DefaultPenaltySchedule(), HOUR); t.Some? && t.value.count == c)
            && !Gated(s.history, s.asks, key, DefaultPenaltySchedule(), HOUR, 1)
  {
    hide *;
    var s := After(Initial(now), Overlapped(key, c), DefaultPenaltySchedule(), HOUR);
    OverlappedIs(now, key, c, DefaultPenaltySchedule(), HOUR);
    StageHistory(now, key, c);
    AllFailed(key, now, c);
    BurstAlone(key, now, c);
    if Gated(s.history, s.asks, key, DefaultPenaltySchedule(), HOUR, 1) {
      DefaultBound(s.history, s.asks, key, 1, now, 0);
      LastCount(s.history, key, DefaultPenaltySchedule(), HOUR, 11);
    }
  }

  lemma StageHistory(now: Instant, key: string, c: nat)
    ensures Stage(now, key, c, c, c).history == BurstOf(key, now, c)
  {
  }

  lemma {:induction false} AllFailed(key: string, now: Instant, c: nat)
    ensures FailuresSince(BurstOf(key, now, c), key, now) == c
  {
    if c > 0 {
      AllFailed(key, now, c - 1);
      assert BurstOf(key, now, c)[..c-1] == BurstOf(key, now, c - 1);
    }
  }

  lemma BurstAlone(key: string, now: Instant, c: nat)
    requires now > 0 && c > 0
    ensures Ordered(BurstOf(key, now, c))
    ensures var t := TrackOf(BurstOf(key, now, c), key, DefaultPenaltySchedule(), HOUR); t.Some? && t.value.count == c
  {
    hide DefaultPenaltySchedule, AfterFailure;
    BurstCounts([], key, DefaultPenaltySchedule(), HOUR, now, c);
    assert [] + BurstOf(key, now, c) == BurstOf(key, now, c);
  }

  /* ---- the keys ---- */

  /** davLoginKeys, for a subject and a client address in lower case. */
  function LoginKeys(service: string, subject: string, host: string): (keys: seq<string>)
    ensures |keys| == if subject == "" then 1 else 3
  {
    [service + "|ip|" + host]
    + if subject == "" then [] else [service + "|account|" + subject, service + "|pair|" + subject + "|" + host]
  }

  lemma LoginKeysDiffer(service: string, subject: string, host: string)
    ensures var keys := LoginKeys(service, subject, host);
            forall i, j :: 0 <= i < j < |keys| ==> keys[i] != keys[j]
  {
    var keys := LoginKeys(service, subject, host);
    if subject != "" {
      var at := |service| + 1;
      assert keys[0][at] == 'i' && keys[1][at] == 'a' && keys[2][at] == 'p';
    }
  }

  /* ---- the code, as one login runs it ---- */

  /** A login: its keys, the clock readings when each is asked for and when each is told the outcome,
      and whether the password is right. */
  datatype Attempt = Attempt(keys: seq<string>, asked: seq<Instant>, told: seq<Instant>, valid: bool)

  predicate Passes(history: seq<Event>, a: Attempt, penalties: seq<Penalty>, window: int)
    requires |a.asked| == |a.keys|
  {
    forall i :: 0 <= i < |a.keys| ==> !ShouldLock(history, a.keys[i], a.asked[i], penalties, window)
  }

  /** What the first n keys are told. */
  function Outcomes(a: Attempt, n: nat): (events: seq<Event>)
    requires n <= |a.keys| == |a.told|
    ensures |events| == n && forall i :: 0 <= i < n ==> events[i] == OutcomeOf(a.keys[i], a.told[i], a.valid)
  {
    seq(n, i requires 0 <= i < n => OutcomeOf(a.keys[i], a.told[i], a.valid))
  }

  /** One clock, read in order, and no key twice. */
  predicate LegalAttempt(a: Attempt, since: Instant) {
    && |a.asked| == |a.keys| == |a.told| && Distinct(a.keys)
    && (forall i :: 0 <= i < |a.keys| ==> since <= a.asked[i])
    && (forall i, j :: 0 <= i < j < |a.keys| ==> a.asked[i] <= a.asked[j] && a.told[i] <= a.told[j])
    && forall i, j :: 0 <= i < |a.keys| && 0 <= j < |a.keys| ==> a.asked[i] <= a.told[j]
  }

  function Attempted(history: seq<Event>, a: Attempt, penalties: seq<Penalty>, window: int): seq<Event>
    requires |a.asked| == |a.keys| == |a.told|
  {
    if Passes(history, a, penalties, window) then history + Outcomes(a, |a.keys|) else history
  }

  lemma ZeroTime()
    ensures ZERO == 0
  {
  }

  method AnyLocked(limiter: LoginLimiter, keys: seq<string>, asked: seq<Instant>) returns (locked: bool)
    requires limiter.Valid() && |asked| == |keys|
    requires forall i :: 0 <= i < |keys| ==> 0 < asked[i] && limiter.clock <= asked[i]
    requires forall i, j :: 0 <= i < j < |keys| ==> asked[i] <= asked[j]
    modifies limiter
    ensures limiter.Valid() && limiter.history == old(limiter.history)
    ensures limiter.clock == old(limiter.clock) || exists i :: 0 <= i < |keys| && limiter.clock == asked[i]
    ensures locked <==> exists i :: 0 <= i < |keys|
                          && ShouldLock(old(limiter.history), keys[i], asked[i], limiter.penalties, limiter.window)
  {
    hide *;
    ZeroTime();
    var i := 0;
    while i < |keys|
      invariant 0 <= i <= |keys|
      invariant limiter.Valid() && limiter.history == old(limiter.history)
      invariant limiter.clock == if i == 0 then old(limiter.clock) else asked[i-1]
      invariant forall j :: 0 <= j < i ==>
                  !ShouldLock(old(limiter.history), keys[j], asked[j], limiter.penalties, limiter.window)
    {
      var held := limiter.Locked(keys[i], asked[i]);
      if held {
        return true;
      }
      i := i + 1;
    }
    locked := false;
  }

  method FailAll(limiter: LoginLimiter, a: Attempt)
    requires limiter.Valid() && |a.told| == |a.keys| && !a.valid
    requires forall i :: 0 <= i < |a.keys| ==> 0 < a.told[i] && limiter.clock <= a.told[i]
    requires forall i, j :: 0 <= i < j < |a.keys| ==> a.told[i] <= a.told[j]
    modifies limiter
    ensures limiter.Valid() && limiter.history == old(limiter.history) + Outcomes(a, |a.keys|)
    ensures limiter.clock == if a.keys == [] then old(limiter.clock) else a.told[|a.keys|-1]
  {
    hide *;
    ZeroTime();
    var i := 0;
    NoOutcomes(limiter.history, a);
    while i < |a.keys|
      invariant 0 <= i <= |a.keys|
      invariant limiter.Valid() && limiter.history == old(limiter.history) + Outcomes(a, i)
      invariant limiter.clock == if i == 0 then old(limiter.clock) else a.told[i-1]
    {
      ToldOneMore(old(limiter.history), a, i);
      limiter.Fail(a.keys[i], a.told[i]);
      i := i + 1;
    }
  }

  method SuccessAll(limiter: LoginLimiter, a: Attempt)
    requires limiter.Valid() && |a.told| == |a.keys| && a.valid
    requires forall i :: 0 <= i < |a.keys| ==> 0 < a.told[i] && limiter.clock <= a.told[i]
    requires forall i, j :: 0 <= i < j < |a.keys| ==> a.told[i] <= a.told[j]
    modifies limiter
    ensures limiter.Valid() && limiter.history == old(limiter.history) + Outcomes(a, |a.keys|)
    ensures limiter.clock == if a.keys == [] then old(limiter.clock) else a.told[|a.keys|-1]
  {
    hide *;
    ZeroTime();
    var i := 0;
    NoOutcomes(limiter.history, a);
    while i < |a.keys|
      invariant 0 <= i <= |a.keys|
      invariant limiter.Valid() && limiter.history == old(limiter.history) + Outcomes(a, i)
      invariant limiter.clock == if i == 0 then old(limiter.clock) else a.told[i-1]
    {
      ToldOneMore(old(limiter.history), a, i);
      limiter.Success(a.keys[i], a.told[i]);
      i := i + 1;
    }
  }

  lemma NoOutcomes(history: seq<Event>, a: Attempt)
    requires |a.told| == |a.keys|
    ensures history + Outcomes(a, 0) == history
  {
  }

  lemma ToldOneMore(history: seq<Event>, a: Attempt, i: nat)
    requires i < |a.keys| == |a.told|
    ensures history + Outcomes(a, i + 1) == history + Outcomes(a, i) + [OutcomeOf(a.keys[i], a.told[i], a.valid)]
    ensures OutcomeOf(a.keys[i], a.told[i], a.valid) ==
              if a.valid then Succeeded(a.keys[i], a.told[i]) else Failed(a.keys[i], a.told[i])
  {
  }

  /** One login, from the gate to the records. */
  method Login(limiter: LoginLimiter, a: Attempt) returns (answer: Answer)
    requires limiter.Valid() && LegalAttempt(a, limiter.clock)
    requires forall i :: 0 <= i < |a.keys| ==> 0 < a.asked[i]
    modifies limiter
    ensures limiter.Valid()
    ensures limiter.history == Attempted(old(limiter.history), a, limiter.penalties, limiter.window)
    ensures answer == if Passes(old(limiter.history), a, limiter.penalties, limiter.window) then AnswerTo(a.valid)
                      else TooManyRequests
  {
    hide *;
    LegalReadings(a, limiter.clock);
    PassesIs(limiter.history, a, limiter.penalties, limiter.window);
    AnswersAre();
    var locked := AnyLocked(limiter, a.keys, a.asked);
    if locked {
      return TooManyRequests;
    }
    if !a.valid {
      FailAll(limiter, a);
      return Unauthorized;
    }
    SuccessAll(limiter, a);
    answer := Authorized;
  }

  lemma AnswersAre()
    ensures AnswerTo(true) == Authorized && AnswerTo(false) == Unauthorized
  {
  }

  lemma LegalReadings(a: Attempt, since: Instant)
    requires LegalAttempt(a, since)
    ensures |a.asked| == |a.keys| == |a.told|
    ensures forall i :: 0 <= i < |a.keys| ==> since <= a.asked[i]
    ensures forall i :: 0 <= i < |a.keys| ==> since <= a.told[i] && a.asked[i] <= a.told[i]
    ensures forall i, j :: 0 <= i < j < |a.keys| ==> a.asked[i] <= a.asked[j] && a.told[i] <= a.told[j]
    ensures forall i, j :: 0 <= i < |a.keys| && 0 <= j < |a.keys| ==> a.asked[i] <= a.told[j]
  {
    forall i | 0 <= i < |a.keys| ensures since <= a.told[i] {
      assert since <= a.asked[i] <= a.told[i];
    }
  }

  lemma PassesIs(history: seq<Event>, a: Attempt, penalties: seq<Penalty>, window: int)
    requires |a.asked| == |a.keys| == |a.told|
    ensures Passes(history, a, penalties, window) <==>
              !exists i :: 0 <= i < |a.keys| && ShouldLock(history, a.keys[i], a.asked[i], penalties, window)
    ensures Attempted(history, a, penalties, window) ==
              if Passes(history, a, penalties, window) then history + Outcomes(a, |a.keys|) else history
  {
    hide ShouldLock;
  }

  /* ---- a login that nothing interrupts does what the method does ---- */

  /** Waiting until the clock shows the time, then letting the login go on. */
  function Resumed(s: State, id: nat, at: Instant, penalties: seq<Penalty>, window: int): State {
    Step(if at > s.now then Step(s, Tick(at - s.now), penalties, window) else s, Advance(id), penalties, window)
  }

  /** The login has begun and asked for the first n of its keys. */
  function AfterAsking(s: State, id: nat, a: Attempt, n: nat, penalties: seq<Penalty>, window: int): State
    requires n <= |a.asked|
  {
    if n == 0 then Step(s, Begin(id, a.keys, a.valid), penalties, window)
    else Resumed(AfterAsking(s, id, a, n - 1, penalties, window), id, a.asked[n-1], penalties, window)
  }

  function AfterTelling(s: State, id: nat, a: Attempt, n: nat, penalties: seq<Penalty>, window: int): State
    requires n <= |a.told|
  {
    if n == 0 then AfterAsking(s, id, a, |a.asked|, penalties, window)
    else Resumed(AfterTelling(s, id, a, n - 1, penalties, window), id, a.told[n-1], penalties, window)
  }

  function Alone(s: State, id: nat, a: Attempt, penalties: seq<Penalty>, window: int): State {
    Step(AfterTelling(s, id, a, |a.told|, penalties, window), Advance(id), penalties, window)
  }

  ghost predicate PassesFirst(history: seq<Event>, a: Attempt, n: nat, penalties: seq<Penalty>, window: int)
    requires n <= |a.keys| == |a.asked|
  {
    forall i :: 0 <= i < n ==> !ShouldLock(history, a.keys[i], a.asked[i], penalties, window)
  }

  lemma ResumedAsking(s: State, id: nat, at: Instant, penalties: seq<Penalty>, window: int)
    requires id in s.logins && s.logins[id].Trying? && |s.logins[id].asks| < |s.logins[id].keys| && s.now <= at
    ensures var t, login := Resumed(s, id, at, penalties, window), s.logins[id];
            && t.history == s.history && t.now == at && id in t.logins
            && if ShouldLock(s.history, login.keys[|login.asks|], at, penalties, window) then t.logins[id] == Done(TooManyRequests)
               else t.logins[id].Trying? && t.logins[id] == login.(asks := t.logins[id].asks)
                    && |t.logins[id].asks| == |login.asks| + 1
  {
    hide ShouldLock;
  }

  lemma ResumedTelling(s: State, id: nat, at: Instant, penalties: seq<Penalty>, window: int)
    requires id in s.logins && s.logins[id].Trying? && s.now <= at
    requires s.logins[id].told < |s.logins[id].asks| == |s.logins[id].keys|
    ensures var t, login := Resumed(s, id, at, penalties, window), s.logins[id];
            && t.history == s.history + [OutcomeOf(login.keys[login.told], at, login.valid)] && t.now == at && id in t.logins
            && t.logins[id] == if login.told + 1 < |login.keys| then login.(told := login.told + 1) else Done(AnswerTo(login.valid))
  {
    hide ShouldLock;
  }

  lemma ResumedDone(s: State, id: nat, at: Instant, penalties: seq<Penalty>, window: int)
    requires id in s.logins && s.logins[id].Done? && s.now <= at
    ensures var t := Resumed(s, id, at, penalties, window);
            t.history == s.history && t.now == at && id in t.logins && t.logins[id] == s.logins[id]
  {
    hide ShouldLock;
  }

  /** The login after n questions, if it is still trying. */
  predicate StillTrying(login: Progress, a: Attempt, asked: nat, told: nat) {
    login.Trying? && login.keys == a.keys && login.valid == a.valid && |login.asks| == asked && login.told == told
  }

  lemma {:induction false} AskedAlone(s: State, id: nat, a: Attempt, n: nat, penalties: seq<Penalty>, window: int)
    requires id !in s.logins && LegalAttempt(a, s.now) && n <= |a.keys|
    ensures var t := AfterAsking(s, id, a, n, penalties, window);
            && t.history == s.history && t.now == (if n == 0 then s.now else a.asked[n-1]) && id in t.logins
            && if PassesFirst(s.history, a, n, penalties, window) then StillTrying(t.logins[id], a, n, 0)
               else t.logins[id] == Done(TooManyRequests)
  {
    hide ShouldLock, Resumed, Distinct;
    if n > 0 {
      AskedAlone(s, id, a, n - 1, penalties, window);
      var before := AfterAsking(s, id, a, n - 1, penalties, window);
      assert n > 1 ==> a.asked[n-2] <= a.asked[n-1];
      if before.logins[id].Trying? {
        ResumedAsking(before, id, a.asked[n-1], penalties, window);
      } else {
        ResumedDone(before, id, a.asked[n-1], penalties, window);
      }
    }
  }

  lemma {:induction false} ToldAlone(s: State, id: nat, a: Attempt, n: nat, penalties: seq<Penalty>, window: int)
    requires id !in s.logins && LegalAttempt(a, s.now) && n <= |a.keys|
    ensures var t := AfterTelling(s, id, a, n, penalties, window);
            && id in t.logins && (n > 0 ==> t.now == a.told[n-1]) && (n == 0 && a.keys != [] ==> t.now == a.asked[|a.keys|-1])
            && if PassesFirst(s.history, a, |a.keys|, penalties, window)
               then
                 && t.history == s.history + Outcomes(a, n)
                 && if n > 0 && n == |a.keys| then t.logins[id] == Done(AnswerTo(a.valid))
                    else StillTrying(t.logins[id], a, |a.keys|, n)
               else t.history == s.history && t.logins[id] == Done(TooManyRequests)
  {
    hide PassesFirst, AfterAsking, Resumed, Outcomes, Distinct;
    if n == 0 {
      AskedAlone(s, id, a, |a.keys|, penalties, window);
      NoOutcomes(s.history, a);
    } else {
      ToldAlone(s, id, a, n - 1, penalties, window);
      var before := AfterTelling(s, id, a, n - 1, penalties, window);
      assert n > 1 ==> a.told[n-2] <= a.told[n-1];
      assert a.asked[|a.keys|-1] <= a.told[n-1];
      ToldOneMore(s.history, a, n - 1);
      if before.logins[id].Trying? {
        ResumedTelling(before, id, a.told[n-1], penalties, window);
      } else {
        ResumedDone(before, id, a.told[n-1], penalties, window);
      }
    }
  }

  /** The history and the answer are those of Login. */
  lemma AloneAgrees(s: State, id: nat, a: Attempt, penalties: seq<Penalty>, window: int)
    requires id !in s.logins && LegalAttempt(a, s.now)
    ensures var t := Alone(s, id, a, penalties, window);
            && t.history == Attempted(s.history, a, penalties, window) && id in t.logins
            && t.logins[id] == Done(if Passes(s.history, a, penalties, window) then AnswerTo(a.valid) else TooManyRequests)
  {
    hide AfterTelling, ShouldLock;
    ToldAlone(s, id, a, |a.keys|, penalties, window);
    assert PassesFirst(s.history, a, |a.keys|, penalties, window) <==> Passes(s.history, a, penalties, window);
  }
}
