/** The session manager (internal/session/manager.go).  Its methods consist of several critical
    sections, each under the mutex, with clock readings between them.  `Manager` gives the methods as
    one caller runs them; the rest of the module interleaves the sections of any number of calls.
    Tokens are drawn at random and never repeat; a token stands for its hash. */
module Sessions {
  import opened Options
  import opened Text

  datatype Session = Session(subject: string, kind: string, csrf: string, fingerprint: string,
                             expiresAt: int, stepUpUntil: Option<int>)

  datatype Request = Request(cookie: Option<string>, csrfHeader: string, otherHeader: string, fingerprint: string)

  type Table = map<string, Session>

  function TokenOf(r: Request): string {
    if r.cookie.Some? then r.cookie.value else ""
  }

  function CsrfOf(r: Request): string {
    if r.csrfHeader != "" then r.csrfHeader else r.otherHeader
  }

  /** The locked reading of Validate. */
  function Found(table: Table, r: Request): Option<Session> {
    if TokenOf(r) != "" && TokenOf(r) in table then Some(table[TokenOf(r)]) else None
  }

  predicate Expired(session: Session, now: int) { now > session.expiresAt }

  predicate SameBrowser(session: Session, r: Request) { session.fingerprint == r.fingerprint }

  predicate CsrfHolds(session: Session, r: Request) { CsrfOf(r) != "" && CsrfOf(r) == session.csrf }

  predicate SteppedUp(session: Session, now: int) {
    session.stepUpUntil.Some? && now < session.stepUpUntil.value
  }

  /** The locked section of MarkStepUp: a session that is gone is not put back. */
  function Marked(table: Table, token: string, until: int): Table {
    if token in table then table[token := table[token].(stepUpUntil := Some(until))] else table
  }

  predicate Concerns(session: Session, subject: string, kind: string) {
    EqualFold(session.subject, TrimSpace(subject)) && (TrimSpace(kind) == "" || session.kind == TrimSpace(kind))
  }

  function Without(table: Table, subject: string, kind: string): Table {
    map token | token in table && !Concerns(table[token], subject, kind) :: table[token]
  }

  class Manager {
    var sessions: Table
    const ttl: int

    constructor (ttl: int)
      ensures sessions == map[] && this.ttl == if ttl == 0 then 8 * 3600 else ttl
    {
      sessions := map[];
      this.ttl := if ttl == 0 then 8 * 3600 else ttl;
    }

    method Create(r: Request, subject: string, kind: string, token: string, csrf: string, now: int)
      requires token !in sessions
      modifies this
      ensures sessions == old(sessions)[token := Session(subject, kind, csrf, r.fingerprint, now + ttl, None)]
    {
      var session := Session(subject, kind, csrf, r.fingerprint, now + ttl, None);
      sessions := sessions[token := session];
    }

    method Validate(r: Request, now: int) returns (result: Option<Session>)
      modifies this
      ensures var found := Found(old(sessions), r);
              && (result.Some? <==> found.Some? && !Expired(found.value, now) && SameBrowser(found.value, r))
              && (result.Some? ==> result == found)
              && sessions == if found.Some? && Expired(found.value, now) then old(sessions) - {TokenOf(r)} else old(sessions)
    {
      if r.cookie == None || r.cookie.value == "" {
        return None;
      }
      if r.cookie.value !in sessions {
        return None;
      }
      var session := sessions[r.cookie.value];
      if now > session.expiresAt {
        sessions := sessions - {r.cookie.value};
        return None;
      }
      if session.fingerprint != r.fingerprint {
        return None;
      }
      result := Some(session);
    }

    method ValidateUnsafe(r: Request, now: int) returns (result: Option<Session>)
      modifies this
      ensures var found := Found(old(sessions), r);
              && (result.Some? <==> found.Some? && !Expired(found.value, now) && SameBrowser(found.value, r)
                                    && CsrfHolds(found.value, r))
              && (result.Some? ==> result == found)
              && sessions == if found.Some? && Expired(found.value, now) then old(sessions) - {TokenOf(r)} else old(sessions)
    {
      var session := Validate(r, now);
      if session == None {
        return None;
      }
      var token := r.csrfHeader;
      if token == "" {
        token := r.otherHeader;
      }
      if token == "" || session.value.csrf != token {
        return None;
      }
      result := session;
    }

    method Clear(r: Request)
      modifies this
      ensures sessions == if r.cookie.Some? then old(sessions) - {r.cookie.value} else old(sessions)
    {
      if r.cookie.Some? {
        sessions := sessions - {r.cookie.value};
      }
    }

    method InvalidateSubject(subject: string, kind: string) returns (removed: nat)
      modifies this
      ensures sessions == Without(old(sessions), subject, kind)
      ensures removed == |old(sessions)| - |sessions|
    {
      hide EqualFold, TrimSpace;
      var who, what := TrimSpace(subject), TrimSpace(kind);
      var todo := sessions.Keys;
      removed := 0;
      while todo != {}
        invariant todo <= sessions.Keys && sessions.Keys <= old(sessions).Keys
        invariant forall t :: t in sessions ==> sessions[t] == old(sessions)[t]
        invariant forall t :: t in old(sessions) ==>
                    (t in sessions <==> t in todo || !Concerns(old(sessions)[t], subject, kind))
        invariant |old(sessions)| == |sessions| + removed
        decreases todo
      {
        var token :| token in todo;
        var session := sessions[token];
        if EqualFold(session.subject, who) && (what == "" || session.kind == what) {
          assert sessions.Keys == (sessions - {token}).Keys + {token};
          sessions := sessions - {token};
          removed := removed + 1;
        }
        todo := todo - {token};
      }
    }

    /** `now` is read by Validate, `later` under the lock. */
    method MarkStepUp(r: Request, ttl: int, now: int, later: int) returns (ok: bool)
      modifies this
      ensures var found := Found(old(sessions), r);
              && (ok <==> ttl > 0 && found.Some? && !Expired(found.value, now) && SameBrowser(found.value, r)
                          && CsrfHolds(found.value, r))
              && (ok ==> sessions == Marked(old(sessions), TokenOf(r), later + ttl))
              && (!ok ==> sessions == old(sessions)
                          || (found.Some? && Expired(found.value, now) && sessions == old(sessions) - {TokenOf(r)}))
    {
      if ttl <= 0 {
        return false;
      }
      var session := ValidateUnsafe(r, now);
      if session == None {
        return false;
      }
      var key := r.cookie.value;
      if key !in sessions {
        return false;
      }
      var current := sessions[key];
      sessions := sessions[key := current.(stepUpUntil := Some(later + ttl))];
      ok := true;
    }

    method HasRecentStepUp(r: Request, now: int, later: int) returns (yes: bool)
      modifies this
      ensures var found := Found(old(sessions), r);
              yes <==> found.Some? && !Expired(found.value, now) && SameBrowser(found.value, r) && SteppedUp(found.value, later)
      ensures sessions.Keys <= old(sessions).Keys && forall t :: t in sessions ==> sessions[t] == old(sessions)[t]
    {
      var session := Validate(r, now);
      if session == None {
        return false;
      }
      yes := session.value.stepUpUntil.Some? && later < session.value.stepUpUntil.value;
    }
  }

  /* ---- any number of calls, interleaved ---- */

  datatype Purpose = Plain | Unsafe | StepUp(ttl: int) | AskStepUp

  /** A call of one of the methods, between two of its sections. */
  datatype Call =
    | Drawn(token: string, session: Session)      // Create, before its locked section
    | Asking(r: Request, purpose: Purpose)         // before the locked reading
    | Holding(r: Request, purpose: Purpose, session: Session) // with the copy it read
    | Dropping(r: Request)                         // it had expired; before the locked deletion
    | Marking(r: Request, ttl: int)                // checked, before the locked section of MarkStepUp
    | Judging(r: Request, session: Session)        // HasRecentStepUp, before it reads the clock
    | Answered(yes: bool)

  /** A step-up that was marked: by which request, when, and for how long. */
  datatype Mark = Mark(r: Request, at: int, ttl: int)

  /** The clock, the table and the calls; then what happened so far: the tokens drawn, the sessions put
      into the table, the tokens taken out of it, and the step-ups marked. */
  datatype State = State(now: int, table: Table, calls: map<nat, Call>,
                         drawn: set<string>, born: Table, removed: set<string>, marks: seq<Mark>)

  datatype Action =
    | Tick(elapsed: nat)
    | Draw(c: nat, ttl: int, token: string, csrf: string, subject: string, kind: string, fingerprint: string)
    | Begin(c: nat, r: Request, purpose: Purpose)
    | Advance(c: nat)
    | ClearCookie(r: Request)
    | Invalidate(subject: string, kind: string)

  function Initial(now: int): State { State(now, map[], map[], {}, map[], {}, []) }

  function Remove(s: State, token: string): State {
    if token in s.table then s.(table := s.table - {token}, removed := s.removed + {token}) else s
  }

  /** What a call does next, having read the clock. */
  function Judged(now: int, call: Call): Call
    requires call.Holding?
  {
    if Expired(call.session, now) then Dropping(call.r)
    else if !SameBrowser(call.session, call.r) then Answered(false)
    else
      match call.purpose
      case Plain => Answered(true)
      case Unsafe => Answered(CsrfHolds(call.session, call.r))
      case StepUp(ttl) => if CsrfHolds(call.session, call.r) then Marking(call.r, ttl) else Answered(false)
      case AskStepUp => Judging(call.r, call.session)
  }

  function Advanced(s: State, c: nat): State
    requires c in s.calls
  {
    match s.calls[c]
    case Drawn(token, session) =>
      s.(table := s.table[token := session], born := s.born[token := session], calls := s.calls[c := Answered(true)])
    case Asking(r, purpose) =>
      s.(calls := s.calls[c := if Found(s.table, r).Some? then Holding(r, purpose, Found(s.table, r).value)
                               else Answered(false)])
    case Holding(r, purpose, session) => s.(calls := s.calls[c := Judged(s.now, s.calls[c])])
    case Dropping(r) => Remove(s, TokenOf(r)).(calls := s.calls[c := Answered(false)])
    case Marking(r, ttl) =>
      if TokenOf(r) in s.table then
        s.(table := Marked(s.table, TokenOf(r), s.now + ttl), marks := s.marks + [Mark(r, s.now, ttl)],
           calls := s.calls[c := Answered(true)])
      else s.(calls := s.calls[c := Answered(false)])
    case Judging(r, session) => s.(calls := s.calls[c := Answered(SteppedUp(session, s.now))])
    case Answered(yes) => s
  }

  function Step(s: State, a: Action): State {
    match a
    case Tick(elapsed) => s.(now := s.now + elapsed)
    case Draw(c, ttl, token, csrf, subject, kind, fingerprint) =>
      if c in s.calls || token in s.drawn || token == "" then s
      else s.(drawn := s.drawn + {token},
              calls := s.calls[c := Drawn(token, Session(subject, kind, csrf, fingerprint, s.now + ttl, None))])
    case Begin(c, r, purpose) =>
      if c in s.calls then s
      else s.(calls := s.calls[c := if purpose.StepUp? && purpose.ttl <= 0 then Answered(false) else Asking(r, purpose)])
    case Advance(c) => if c in s.calls then Advanced(s, c) else s
    case ClearCookie(r) => if r.cookie.Some? then Remove(s, r.cookie.value) else s
    case Invalidate(subject, kind) =>
      s.(table := Without(s.table, subject, kind),
         removed := s.removed + (s.table.Keys - Without(s.table, subject, kind).Keys))
  }

  function After(s: State, run: seq<Action>): State {
    if run == [] then s else Step(After(s, run[..|run|-1]), run[|run|-1])
  }

  /* ---- the invariant ---- */

  /** The mark was made by a request with the session's cookie, browser and CSRF token. */
  predicate Checked(born: Table, m: Mark) {
    TokenOf(m.r) in born && CsrfHolds(born[TokenOf(m.r)], m.r) && SameBrowser(born[TokenOf(m.r)], m.r) && m.ttl > 0
  }

  ghost predicate Earned(marks: seq<Mark>, token: string, session: Session) {
    session.stepUpUntil.Some? ==>
      exists m :: m in marks && TokenOf(m.r) == token && session.stepUpUntil.value == m.at + m.ttl
  }

  /** A session as it was put into the table, but for its step-up, which was earned. */
  ghost predicate Genuine(s: State, token: string, session: Session) {
    && token in s.born && session == s.born[token].(stepUpUntil := session.stepUpUntil)
    && Earned(s.marks, token, session)
  }

  ghost predicate CallInv(s: State, c: nat)
    requires c in s.calls
  {
    match s.calls[c]
    case Drawn(token, session) =>
      token in s.drawn && token !in s.born && session.stepUpUntil == None
    case Asking(r, purpose) => purpose.StepUp? ==> purpose.ttl > 0
    case Holding(r, purpose, session) => Genuine(s, TokenOf(r), session) && (purpose.StepUp? ==> purpose.ttl > 0)
    case Dropping(r) => true
    case Marking(r, ttl) => Checked(s.born, Mark(r, s.now, ttl))
    case Judging(r, session) => Genuine(s, TokenOf(r), session)
    case Answered(yes) => true
  }

  ghost predicate TablesInv(s: State) {
    && (forall t :: t in s.table ==> Genuine(s, t, s.table[t]))
    && (forall t :: t in s.removed ==> t in s.born && t !in s.table)
    && (forall t :: t in s.born ==> t in s.drawn && (t in s.table || t in s.removed))
    && forall m :: m in s.marks ==> Checked(s.born, m) && m.at <= s.now
  }

  ghost predicate CallsInv(s: State) {
    && (forall c :: c in s.calls ==> CallInv(s, c))
    && forall c, d :: c in s.calls && d in s.calls && c != d && s.calls[c].Drawn? && s.calls[d].Drawn? ==>
         s.calls[c].token != s.calls[d].token
  }

  ghost predicate Inv(s: State) {
    TablesInv(s) && CallsInv(s)
  }

  /** Nothing that was recorded is forgotten. */
  ghost predicate Remembers(s: State, t: State) {
    && s.now <= t.now && s.drawn <= t.drawn && s.removed <= t.removed && s.marks <= t.marks
    && forall k :: k in s.born ==> k in t.born && t.born[k] == s.born[k]
  }

  lemma GenuineStays(s: State, t: State, token: string, session: Session)
    requires Remembers(s, t) && Genuine(s, token, session)
    ensures Genuine(t, token, session)
  {
    if session.stepUpUntil.Some? {
      var m :| m in s.marks && TokenOf(m.r) == token && session.stepUpUntil.value == m.at + m.ttl;
      assert m in t.marks;
    }
  }

  lemma CallStays(s: State, t: State, c: nat)
    requires Remembers(s, t) && c in s.calls && CallInv(s, c) && c in t.calls && t.calls[c] == s.calls[c]
    requires s.calls[c].Drawn? ==> s.calls[c].token !in t.born
    ensures CallInv(t, c)
  {
    hide Earned, Found, Remembers;
    var call := s.calls[c];
    if call.Holding? || call.Judging? {
      GenuineStays(s, t, TokenOf(call.r), call.session);
    } else if call.Marking? {
      CheckedStays(s, t, Mark(call.r, s.now, call.ttl));
    } else if call.Drawn? {
      DrawnStays(s, t, call.token);
    }
  }

  lemma CheckedStays(s: State, t: State, m: Mark)
    requires Remembers(s, t) && Checked(s.born, m)
    ensures Checked(t.born, m)
    ensures forall at :: Checked(t.born, m.(at := at))
  {
  }

  lemma DrawnStays(s: State, t: State, token: string)
    requires Remembers(s, t) && token in s.drawn
    ensures token in t.drawn
  {
  }

  /** A step that changes only call c, to one that meets its invariant. */
  lemma OnlyCall(s: State, t: State, c: nat)
    requires Inv(s) && Remembers(s, t) && t.born == s.born
    requires c in t.calls && t.calls.Keys == s.calls.Keys + {c} && forall d :: d in s.calls && d != c ==> t.calls[d] == s.calls[d]
    requires CallInv(t, c) && (t.calls[c].Drawn? ==> t.calls[c].token !in s.drawn)
    ensures CallsInv(t)
  {
    hide Remembers, CallInv, TablesInv;
    forall d | d in t.calls ensures CallInv(t, d) {
      if d != c {
        DrawnIsUnborn(s, d);
        CallStays(s, t, d);
      }
    }
    forall d, e | d in t.calls && e in t.calls && d != e && t.calls[d].Drawn? && t.calls[e].Drawn?
      ensures t.calls[d].token != t.calls[e].token
    {
      if d == c {
        DrawnIsUnborn(s, e);
      } else if e == c {
        DrawnIsUnborn(s, d);
      }
    }
  }

  lemma DrawnIsUnborn(s: State, d: nat)
    requires CallsInv(s) && d in s.calls
    ensures CallInv(s, d)
    ensures s.calls[d].Drawn? ==> s.calls[d].token in s.drawn && s.calls[d].token !in s.born
  {
    assert CallInv(s, d);
  }

  /** A step that only takes sessions out of the table. */
  lemma OnlyRemoved(s: State, t: State)
    requires TablesInv(s)
    requires t.now == s.now && t.drawn == s.drawn && t.born == s.born && t.marks == s.marks
    requires t.table.Keys <= s.table.Keys && (forall k :: k in t.table ==> t.table[k] == s.table[k])
    requires t.removed == s.removed + (s.table.Keys - t.table.Keys)
    ensures TablesInv(t) && Remembers(s, t)
  {
    hide Earned, Checked;
    forall k | k in t.table ensures Genuine(t, k, t.table[k]) {
      assert Genuine(s, k, s.table[k]);
    }
    forall k | k in t.removed ensures k in t.born && k !in t.table {
      if k !in s.removed {
        assert Genuine(s, k, s.table[k]);
      }
    }
  }

  lemma PutKeeps(s: State, c: nat)
    requires Inv(s) && c in s.calls && s.calls[c].Drawn?
    ensures Inv(Advanced(s, c)) && Remembers(s, Advanced(s, c))
  {
    hide Earned, Checked, Genuine, CallInv, TablesInv;
    var t, token := Advanced(s, c), s.calls[c].token;
    DrawnIsUnborn(s, c);
    PutTables(s, c);
    forall d | d in t.calls ensures CallInv(t, d) {
      DrawnIsUnborn(s, d);
      if d == c {
        AnsweredIs(t, c);
      } else {
        CallStays(s, t, d);
      }
    }
  }

  lemma PutTables(s: State, c: nat)
    requires TablesInv(s) && c in s.calls && s.calls[c].Drawn? && CallInv(s, c)
    ensures TablesInv(Advanced(s, c)) && Remembers(s, Advanced(s, c))
  {
    hide Earned, Checked;
    var t, token := Advanced(s, c), s.calls[c].token;
    NoMark(t.marks, token, s.calls[c].session);
    forall k | k in t.table ensures Genuine(t, k, t.table[k]) {
      if k != token {
        GenuineStays(s, t, k, s.table[k]);
      }
    }
    forall m | m in t.marks ensures Checked(t.born, m) {
      CheckedStays(s, t, m);
    }
  }

  lemma NoMark(marks: seq<Mark>, token: string, session: Session)
    requires session.stepUpUntil == None
    ensures Earned(marks, token, session)
  {
  }

  lemma MarkKeeps(s: State, c: nat)
    requires Inv(s) && c in s.calls && s.calls[c].Marking?
    ensures Inv(Advanced(s, c)) && Remembers(s, Advanced(s, c))
  {
    hide Checked, Earned, CallInv, CallsInv;
    var t := Advanced(s, c);
    DrawnIsUnborn(s, c);
    AnsweredIs(t, c);
    if TokenOf(s.calls[c].r) in s.table {
      MarkTables(s, c);
    } else {
      SameTables(s, t);
    }
    OnlyCall(s, t, c);
  }

  lemma MarkTables(s: State, c: nat)
    requires TablesInv(s) && c in s.calls && s.calls[c].Marking? && CallInv(s, c) && TokenOf(s.calls[c].r) in s.table
    ensures TablesInv(Advanced(s, c)) && Remembers(s, Advanced(s, c))
  {
    hide Checked, Earned, CallsInv;
    var t, r, m := Advanced(s, c), s.calls[c].r, Mark(s.calls[c].r, s.now, s.calls[c].ttl);
    assert t.marks == s.marks + [m] && m in t.marks && Remembers(s, t);
    var token := TokenOf(r);
    assert Genuine(s, token, s.table[token]);
    MarkEarns(t.marks, token, t.table[token], m);
    forall k | k in t.table ensures Genuine(t, k, t.table[k]) {
      if k != token {
        GenuineStays(s, t, k, s.table[k]);
      }
    }
  }

  lemma MarkEarns(marks: seq<Mark>, token: string, session: Session, m: Mark)
    requires m in marks && TokenOf(m.r) == token && session.stepUpUntil == Some(m.at + m.ttl)
    ensures Earned(marks, token, session)
  {
  }

  lemma AdvanceKeeps(s: State, c: nat)
    requires Inv(s) && c in s.calls
    ensures Inv(Advanced(s, c)) && Remembers(s, Advanced(s, c))
  {
    hide TablesInv, CallsInv, CallInv, Remembers, Expired, SameBrowser, CsrfHolds, SteppedUp, Found;
    var call, t := s.calls[c], Advanced(s, c);
    DrawnIsUnborn(s, c);
    if call.Drawn? {
      PutKeeps(s, c);
    } else if call.Marking? {
      MarkKeeps(s, c);
    } else if call.Dropping? {
      RemoveIs(s, TokenOf(call.r));
      OnlyRemoved(s, t);
      AnsweredIs(t, c);
      OnlyCall(s, t, c);
    } else {
      SameTables(s, t);
      if call.Holding? {
        JudgedKeeps(s, c);
      } else if call.Asking? {
        FoundKeeps(s, c);
      } else {
        AnsweredIs(t, c);
      }
      OnlyCall(s, t, c);
    }
  }

  lemma AnsweredIs(t: State, c: nat)
    requires c in t.calls && t.calls[c].Answered?
    ensures CallInv(t, c)
  {
  }

  lemma SameTables(s: State, t: State)
    requires TablesInv(s) && t == s.(calls := t.calls)
    ensures TablesInv(t) && Remembers(s, t)
  {
    hide Earned, Checked;
    forall k | k in t.table ensures Genuine(t, k, t.table[k]) {
      assert Genuine(s, k, s.table[k]);
    }
  }

  lemma FoundKeeps(s: State, c: nat)
    requires Inv(s) && c in s.calls && s.calls[c].Asking?
    ensures CallInv(Advanced(s, c), c)
  {
    hide Earned, Checked, Found;
    assert CallInv(s, c);
    FoundIs(s.table, s.calls[c].r);
    var token := TokenOf(s.calls[c].r);
    if Found(s.table, s.calls[c].r).Some? {
      assert Genuine(s, token, s.table[token]);
    }
  }

  lemma RemoveIs(s: State, token: string)
    ensures var t := Remove(s, token);
            && t == s.(table := t.table, removed := t.removed)
            && t.table.Keys <= s.table.Keys && (forall k :: k in t.table ==> t.table[k] == s.table[k])
            && t.removed == s.removed + (s.table.Keys - t.table.Keys)
  {
  }

  lemma FoundIs(table: Table, r: Request)
    ensures Found(table, r).Some? ==> TokenOf(r) in table && Found(table, r).value == table[TokenOf(r)]
  {
  }

  lemma JudgedKeeps(s: State, c: nat)
    requires Inv(s) && c in s.calls && s.calls[c].Holding?
    ensures CallInv(Advanced(s, c), c) && !Judged(s.now, s.calls[c]).Drawn?
  {
    hide Earned, Expired;
    assert CallInv(s, c);
    var call := s.calls[c];
    assert Genuine(s, TokenOf(call.r), call.session);
  }

  lemma StepKeeps(s: State, a: Action)
    requires Inv(s)
    ensures Inv(Step(s, a)) && Remembers(s, Step(s, a))
  {
    hide Earned, Checked, Advanced, Concerns;
    var t := Step(s, a);
    match a {
      case Tick(_) => TickKeeps(s, a);
      case Draw(c, _, _, _, _, _, _) => BeginKeeps(s, a);
      case Begin(c, _, _) => BeginKeeps(s, a);
      case Advance(c) => if c in s.calls { AdvanceKeeps(s, c); }
      case ClearCookie(r) =>
        if r.cookie.Some? {
          RemoveIs(s, r.cookie.value);
          OnlyRemoved(s, t);
          SameCalls(s, t);
        }
      case Invalidate(subject, kind) =>
        OnlyRemoved(s, t);
        SameCalls(s, t);
    }
  }

  lemma SameCalls(s: State, t: State)
    requires CallsInv(s) && Remembers(s, t) && t.calls == s.calls && t.born == s.born
    ensures CallsInv(t)
  {
    hide Remembers, CallInv;
    forall d | d in t.calls ensures CallInv(t, d) {
      DrawnIsUnborn(s, d);
      CallStays(s, t, d);
    }
  }

  lemma TickKeeps(s: State, a: Action)
    requires Inv(s) && a.Tick?
    ensures Inv(Step(s, a)) && Remembers(s, Step(s, a))
  {
    hide Earned, Checked;
    var t := Step(s, a);
    forall k | k in t.table ensures Genuine(t, k, t.table[k]) {
      assert Genuine(s, k, s.table[k]);
    }
    SameCalls(s, t);
  }

  lemma BeginKeeps(s: State, a: Action)
    requires Inv(s) && (a.Draw? || a.Begin?)
    ensures Inv(Step(s, a)) && Remembers(s, Step(s, a))
  {
    hide Earned, Checked, Genuine, CallsInv;
    var t := Step(s, a);
    if t != s {
      DrawTables(s, t);
      assert CallInv(t, a.c);
      OnlyCall(s, t, a.c);
    }
  }

  lemma DrawTables(s: State, t: State)
    requires TablesInv(s) && t == s.(calls := t.calls, drawn := t.drawn) && s.drawn <= t.drawn
    ensures TablesInv(t) && Remembers(s, t)
  {
    hide Earned, Checked;
    forall k | k in t.table ensures Genuine(t, k, t.table[k]) {
      assert Genuine(s, k, s.table[k]);
    }
  }

  lemma {:induction false} RunKeeps(s: State, run: seq<Action>)
    requires Inv(s)
    ensures Inv(After(s, run)) && Remembers(s, After(s, run))
  {
    hide Step, Inv;
    if run != [] {
      RunKeeps(s, run[..|run|-1]);
      StepKeeps(After(s, run[..|run|-1]), run[|run|-1]);
    }
  }

  lemma InitialKeeps(now: int)
    ensures Inv(Initial(now))
  {
  }

  /* ---- what every interleaving keeps ---- */

  function Moment(now: int, run: seq<Action>, k: nat): State
    requires k <= |run|
  {
    After(Initial(now), run[..k])
  }

  lemma {:induction false} AfterAppend(s: State, first: seq<Action>, more: seq<Action>)
    ensures After(s, first + more) == After(After(s, first), more)
  {
    hide Step;
    if more == [] {
      assert first + more == first;
    } else {
      AfterAppend(s, first, more[..|more|-1]);
      assert (first + more)[..|first + more|-1] == first + more[..|more|-1];
    }
  }

  lemma MomentKeeps(now: int, run: seq<Action>, i: nat, j: nat)
    requires i <= j <= |run|
    ensures Inv(Moment(now, run, i)) && Inv(Moment(now, run, j)) && Remembers(Moment(now, run, i), Moment(now, run, j))
  {
    hide After, Inv, Remembers;
    InitialKeeps(now);
    RunKeeps(Initial(now), run[..i]);
    RunKeeps(Moment(now, run, i), run[i..j]);
    assert run[..j] == run[..i] + run[i..j];
    AfterAppend(Initial(now), run[..i], run[i..j]);
  }

  /** A token that was in the table and is gone never comes back, whatever the other calls were doing. */
  lemma RemovedNeverReturns(now: int, run: seq<Action>, i: nat, j: nat, k: nat, token: string)
    requires i <= j <= k <= |run|
    requires token in Moment(now, run, i).table && token !in Moment(now, run, j).table
    ensures token !in Moment(now, run, k).table
    ensures token in Moment(now, run, k).removed
  {
    hide After, CallsInv, Earned, Checked;
    MomentKeeps(now, run, i, j);
    MomentKeeps(now, run, j, k);
    var s := Moment(now, run, i);
    assert Genuine(s, token, s.table[token]);
  }

  /** A call that looks the token up after it was removed is refused. */
  lemma RemovedIsRefused(s: State, c: nat)
    requires Inv(s) && c in s.calls && s.calls[c].Asking? && TokenOf(s.calls[c].r) in s.removed
    ensures Advanced(s, c).calls[c] == Answered(false)
  {
    hide CallsInv, Genuine, Checked;
  }

  /** Action j of the run is the locked section of the Create call that drew the token. */
  ghost predicate PutAt(now: int, run: seq<Action>, j: nat, token: string) {
    && j < |run| && run[j].Advance? && run[j].c in Moment(now, run, j).calls
    && Moment(now, run, j).calls[run[j].c].Drawn? && Moment(now, run, j).calls[run[j].c].token == token
  }

  lemma BornIsPut(s: State, a: Action, token: string)
    requires token in Step(s, a).born && token !in s.born
    ensures a.Advance? && a.c in s.calls && s.calls[a.c].Drawn? && s.calls[a.c].token == token
  {
  }

  lemma {:induction false} BornBetween(now: int, run: seq<Action>, i: nat, k: nat, token: string) returns (j: nat)
    requires i <= k <= |run| && token in Moment(now, run, k).born && token !in Moment(now, run, i).born
    ensures i <= j < k && PutAt(now, run, j, token)
    decreases k
  {
    hide Step;
    assert run[..k][..k-1] == run[..k-1];
    if token in Moment(now, run, k - 1).born {
      j := BornBetween(now, run, i, k - 1, token);
    } else {
      j := k - 1;
      BornIsPut(Moment(now, run, j), run[j], token);
    }
  }

  lemma MomentNext(now: int, run: seq<Action>, i: nat)
    requires i < |run|
    ensures Moment(now, run, i + 1) == Step(Moment(now, run, i), run[i])
  {
    hide Step;
    assert run[..i+1][..i] == run[..i];
  }

  lemma InvalidateRemoves(s: State, subject: string, kind: string, token: string)
    requires TablesInv(s) && token in s.born
    ensures Concerns(s.born[token], subject, kind) ==> token in Step(s, Invalidate(subject, kind)).removed
  {
    hide Checked, Earned, EqualFold, TrimSpace;
    if token in s.table {
      assert Genuine(s, token, s.table[token]);
      assert Concerns(s.born[token], subject, kind) ==> Concerns(s.table[token], subject, kind);
    }
  }

  /** Which sessions of a subject outlive InvalidateSubject, whatever the other calls were doing: those
      whose Create put them into the table after it, as long as nothing else removes them. */
  lemma OutlivesInvalidation(now: int, run: seq<Action>, i: nat, k: nat, token: string, subject: string, kind: string)
    requires i < k <= |run| && run[i] == Invalidate(subject, kind)
    requires token in Moment(now, run, k).born && Concerns(Moment(now, run, k).born[token], subject, kind)
    ensures token in Moment(now, run, k).table <==>
              (exists j :: i < j < k && PutAt(now, run, j, token)) && token !in Moment(now, run, k).removed
  {
    hide After, Step, Moment, CallsInv, Checked, Genuine, Concerns, PutAt;
    var s, u := Moment(now, run, i), Moment(now, run, k);
    MomentKeeps(now, run, i, i + 1);
    MomentKeeps(now, run, i + 1, k);
    MomentNext(now, run, i);
    if token in s.born {
      InvalidateRemoves(s, subject, kind, token);
      assert token in u.removed;
    } else {
      var j := BornBetween(now, run, i, k, token);
      NotAnInvalidation(now, run, i, token);
    }
  }

  lemma NotAnInvalidation(now: int, run: seq<Action>, i: nat, token: string)
    requires i < |run| && run[i].Invalidate?
    ensures !PutAt(now, run, i, token)
  {
    hide Moment;
  }

  /** Such sessions do exist: a Create call that has drawn its token when its subject is invalidated
      still puts the session into the table, where it is found. */
  lemma DrawnOutlivesInvalidation(s: State, c: nat, r: Request)
    requires c in s.calls && s.calls[c].Drawn? && r.cookie == Some(s.calls[c].token) && s.calls[c].token != ""
    ensures var session := s.calls[c].session;
            Found(Step(Step(s, Invalidate(session.subject, session.kind)), Advance(c)).table, r) == Some(session)
  {
    hide Concerns;
  }

  /** A call says yes only to a session that was created under its cookie's token, has not expired,
      belongs to the same browser, and, for an unsafe request, to the right CSRF token. */
  lemma AcceptedMeans(s: State, c: nat)
    requires Inv(s) && c in s.calls && s.calls[c].Holding? && Advanced(s, c).calls[c] == Answered(true)
    ensures var r := s.calls[c].r;
            && TokenOf(r) in s.born && s.now <= s.born[TokenOf(r)].expiresAt && SameBrowser(s.born[TokenOf(r)], r)
            && (s.calls[c].purpose == Plain || (s.calls[c].purpose == Unsafe && CsrfHolds(s.born[TokenOf(r)], r)))
  {
    hide TablesInv, Earned;
    assert CallInv(s, c);
    var call := s.calls[c];
    assert Genuine(s, TokenOf(call.r), call.session);
  }

  /** Action k of the run is the locked section of a MarkStepUp call that found its session. */
  ghost predicate MarksAt(now: int, run: seq<Action>, k: nat, m: Mark) {
    && k < |run| && run[k].Advance? && run[k].c in Moment(now, run, k).calls
    && Moment(now, run, k).calls[run[k].c] == Marking(m.r, m.ttl)
    && m.at == Moment(now, run, k).now && TokenOf(m.r) in Moment(now, run, k).table
  }

  lemma MarkIsMade(s: State, a: Action, m: Mark)
    requires m in Step(s, a).marks && m !in s.marks
    ensures a.Advance? && a.c in s.calls && s.calls[a.c] == Marking(m.r, m.ttl) && m.at == s.now && TokenOf(m.r) in s.table
  {
  }

  lemma {:induction false} MarksAreMade(now: int, run: seq<Action>, m: Mark) returns (k: nat)
    requires m in After(Initial(now), run).marks
    ensures MarksAt(now, run, k, m)
  {
    hide Step;
    var n := |run| - 1;
    var s := After(Initial(now), run[..n]);
    if m in s.marks {
      k := MarksAreMade(now, run[..n], m);
      assert run[..n][..k] == run[..k];
    } else {
      k := n;
      MarkIsMade(s, run[n], m);
    }
  }

  /** HasRecentStepUp says yes only if an earlier MarkStepUp on the same token went through, by a
      request with that session's browser and CSRF token, and its time is not over. */
  lemma RecentStepUpMeans(now: int, run: seq<Action>, c: nat) returns (k: nat, m: Mark)
    requires c in After(Initial(now), run).calls && After(Initial(now), run).calls[c].Judging?
    requires Advanced(After(Initial(now), run), c).calls[c] == Answered(true)
    ensures var s := After(Initial(now), run);
            && MarksAt(now, run, k, m) && TokenOf(m.r) == TokenOf(s.calls[c].r)
            && Checked(s.born, m) && m.at <= s.now < m.at + m.ttl
            && m.ttl > 0 && TokenOf(m.r) in s.born && s.born[TokenOf(m.r)].fingerprint == m.r.fingerprint
            && s.born[TokenOf(m.r)].csrf == CsrfOf(m.r) != ""
  {
    hide After, Step, Checked, MarksAt;
    var s := After(Initial(now), run);
    InitialKeeps(now);
    RunKeeps(Initial(now), run);
    assert CallInv(s, c);
    var session := s.calls[c].session;
    m :| m in s.marks && TokenOf(m.r) == TokenOf(s.calls[c].r) && session.stepUpUntil.value == m.at + m.ttl;
    k := MarksAreMade(now, run, m);
    CheckedMeans(s.born, m);
  }

  lemma CheckedMeans(born: Table, m: Mark)
    requires Checked(born, m)
    ensures m.ttl > 0 && TokenOf(m.r) in born && born[TokenOf(m.r)].fingerprint == m.r.fingerprint
    ensures born[TokenOf(m.r)].csrf == CsrfOf(m.r) != ""
  {
    hide CsrfOf;
  }

  /* ---- a call that nothing interrupts does what the method does ---- */

  function Alone(s: State, c: nat, r: Request, purpose: Purpose): State {
    Step(Step(Step(Step(s, Begin(c, r, purpose)), Advance(c)), Advance(c)), Advance(c))
  }

  predicate Valid(s: State, r: Request) {
    Found(s.table, r).Some? && !Expired(Found(s.table, r).value, s.now) && SameBrowser(Found(s.table, r).value, r)
  }

  /** The answer is that of Validate, ValidateUnsafe, MarkStepUp or HasRecentStepUp. */
  lemma AloneAgrees(s: State, c: nat, r: Request, purpose: Purpose)
    requires c !in s.calls
    ensures c in Alone(s, c, r, purpose).calls
    ensures Alone(s, c, r, purpose).calls[c] == Answered(
              match purpose
              case Plain => Valid(s, r)
              case Unsafe => Valid(s, r) && CsrfHolds(Found(s.table, r).value, r)
              case StepUp(ttl) => ttl > 0 && Valid(s, r) && CsrfHolds(Found(s.table, r).value, r)
              case AskStepUp => Valid(s, r) && SteppedUp(Found(s.table, r).value, s.now))
  {
    hide CsrfHolds, SameBrowser, SteppedUp, Expired, Found;
    FoundIs(s.table, r);
  }

  /** And so is the table: an expired session is dropped, a checked step-up is marked. */
  lemma AloneTable(s: State, c: nat, r: Request, purpose: Purpose)
    requires c !in s.calls && (purpose.StepUp? ==> purpose.ttl > 0)
    ensures var found := Found(s.table, r);
            Alone(s, c, r, purpose).table ==
            if found.Some? && Expired(found.value, s.now) then s.table - {TokenOf(r)}
            else if purpose.StepUp? && Valid(s, r) && CsrfHolds(found.value, r) then
              Marked(s.table, TokenOf(r), s.now + purpose.ttl)
            else s.table
  {
    hide CsrfHolds, SameBrowser, SteppedUp, Expired, Found;
    FoundIs(s.table, r);
  }

  /** A session that is drawn and put into the table without interruption: only a new token is
      drawn, and the table becomes what Create makes of it. */
  lemma DrawnAlone(s: State, c: nat, ttl: int, token: string, csrf: string, subject: string, kind: string, fingerprint: string)
    requires c !in s.calls
    ensures var t := After(s, [Draw(c, ttl, token, csrf, subject, kind, fingerprint), Advance(c)]);
            if token in s.drawn || token == "" then t == s
            else && t.table == s.table[token := Session(subject, kind, csrf, fingerprint, s.now + ttl, None)]
                 && t.calls == s.calls[c := Answered(true)] && t.drawn == s.drawn + {token} && t.now == s.now
  {
    var draw, put := Draw(c, ttl, token, csrf, subject, kind, fingerprint), Advance(c);
    assert [draw, put][..1] == [draw] && [draw][..0] == [];
    assert After(s, [draw]) == Step(s, draw);
    var between := Step(s, draw);
    if c in between.calls {
      var session := Session(subject, kind, csrf, fingerprint, s.now + ttl, None);
      assert between.calls[c] == Drawn(token, session);
      assert s.calls[c := Drawn(token, session)][c := Answered(true)] == s.calls[c := Answered(true)];
    }
  }
}
