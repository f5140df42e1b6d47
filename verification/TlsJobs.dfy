/** The queue of TLS certificate jobs (cmd/mailctl/main.go): any number of workers, each choosing a
    queued job with a SELECT, claiming it with a conditional UPDATE, and then reporting its progress
    step by step.  Every statement on the table is one step of the whole system, and the steps of
    different workers interleave freely. */
module TlsJobs {

  datatype Status = Queued | Running | Succeeded | Failed

  datatype Job = Job(jobType: string, challenge: string, hostnames: nat, created: nat, status: Status, progress: nat)

  /** Where a worker is inside a job: about to write a progress row, or about to run a command. */
  datatype Point =
    | Checking | Deploying | Requesting | Certbot | Issued
    | Inventory | Sync | Nginx | Proxy | Mail | Render | Finish | Fail

  datatype Place = Idle | Chosen(id: nat) | At(id: nat, point: Point) | Stopped

  datatype Worker = Worker(place: Place, left: nat, applyConfig: bool)

  datatype Claim = Claim(worker: nat, id: nat)

  /** The table, the workers, and the claims that went through so far. */
  datatype State = State(jobs: map<nat, Job>, workers: map<nat, Worker>, claims: seq<Claim>)

  /** How a statement or command turns out: it is done, it has failed, or it has taken effect but an
      error is reported all the same. */
  datatype Reply = Done | Refused | Lost

  predicate Landed(reply: Reply) { reply != Refused }

  datatype Action =
    | Enqueue(id: nat, jobType: string, challenge: string, hostnames: nat, created: nat)
    | Start(w: nat, limit: nat, applyConfig: bool)
    | Choose(w: nat, id: nat)
    | Take(w: nat, reply: Reply)
    | Work(w: nat, reply: Reply)
    | Stop(w: nat)

  function Empty(): State { State(map[], map[], []) }

  /** The queued job that was created first, the smaller number deciding between equals. */
  predicate IsFirstQueued(jobs: map<nat, Job>, id: nat) {
    && id in jobs && jobs[id].status == Queued
    && forall j :: j in jobs && jobs[j].status == Queued ==> Sooner(jobs, id, j)
  }

  predicate Sooner(jobs: map<nat, Job>, i: nat, j: nat)
    requires i in jobs && j in jobs
  {
    jobs[i].created < jobs[j].created || (jobs[i].created == jobs[j].created && i <= j)
  }

  predicate Automated(challenge: string) {
    challenge == "http-01" || challenge == "dns-cloudflare"
  }

  predicate NeedsCertbot(job: Job) {
    job.jobType != "check" && job.jobType != "deploy"
  }

  function FirstPoint(job: Job): Point {
    if job.hostnames == 0 then Fail
    else if job.jobType == "check" then Checking
    else if job.jobType == "deploy" then Deploying
    else Requesting
  }

  /** What a statement that goes through does to the row; commands leave it alone. */
  function Effect(point: Point, job: Job): Job {
    match point
    case Checking => job.(progress := 60)
    case Deploying => job.(progress := 70)
    case Requesting => job.(progress := 20)
    case Certbot => job
    case Issued => job.(progress := 65)
    case Inventory => job.(progress := 70)
    case Sync => job
    case Nginx => job.(progress := 82)
    case Proxy => job
    case Mail => job.(progress := 92)
    case Render => job
    case Finish => job.(status := Succeeded, progress := 100)
    case Fail => job.(status := Failed, progress := 100)
  }

  function RowAfter(point: Point, job: Job, reply: Reply): Job {
    if Landed(reply) then Effect(point, job) else job
  }

  /** Whether the worker goes on after the point: errors of most progress statements are ignored. */
  predicate GoesOn(point: Point, ok: bool, challenge: string) {
    match point
    case Certbot => ok && Automated(challenge)
    case Issued => ok
    case Sync => ok
    case Proxy => ok
    case Render => ok
    case Finish => ok
    case _ => true
  }

  function FollowingPoint(point: Point, applyConfig: bool): Point {
    match point
    case Checking => Inventory
    case Deploying => Inventory
    case Requesting => Certbot
    case Certbot => Issued
    case Issued => Inventory
    case Inventory => Sync
    case Sync => if applyConfig then Nginx else Finish
    case Nginx => Proxy
    case Proxy => Mail
    case Mail => Render
    case Render => Finish
    case Finish => Finish
    case Fail => Fail
  }

  function AfterPoint(worker: Worker, id: nat, point: Point, ok: bool, challenge: string): Worker {
    if point == Fail || (point == Finish && ok) then worker.(place := Idle, left := if worker.left > 0 then worker.left - 1 else 0)
    else if GoesOn(point, ok, challenge) then worker.(place := At(id, FollowingPoint(point, worker.applyConfig)))
    else worker.(place := At(id, Fail))
  }

  function Claimed(job: Job): Job {
    job.(status := Running, progress := 5)
  }

  /** One step; an action that is not possible changes nothing. */
  function Step(s: State, a: Action): State {
    match a
    case Enqueue(id, jobType, challenge, hostnames, created) =>
      if id in s.jobs then s
      else s.(jobs := s.jobs[id := Job(jobType, challenge, hostnames, created, Queued, 0)])
    case Start(w, limit, applyConfig) =>
      if w in s.workers then s else s.(workers := s.workers[w := Worker(Idle, limit, applyConfig)])
    case Choose(w, id) =>
      if w in s.workers && s.workers[w].place == Idle && s.workers[w].left > 0 && IsFirstQueued(s.jobs, id)
      then s.(workers := s.workers[w := s.workers[w].(place := Chosen(id))]) else s
    case Take(w, reply) =>
      if w in s.workers && s.workers[w].place.Chosen? && s.workers[w].place.id in s.jobs then
        var worker, id := s.workers[w], s.workers[w].place.id;
        if Landed(reply) && s.jobs[id].status == Queued then
          State(s.jobs[id := Claimed(s.jobs[id])],
                s.workers[w := worker.(place := if reply == Done then At(id, FirstPoint(s.jobs[id])) else Stopped)],
                s.claims + [Claim(w, id)])
        else s.(workers := s.workers[w := worker.(place := Stopped)])
      else s
    case Work(w, reply) =>
      if w in s.workers && s.workers[w].place.At? && s.workers[w].place.id in s.jobs then
        var worker, id, point := s.workers[w], s.workers[w].place.id, s.workers[w].place.point;
        var job := s.jobs[id];
        s.(jobs := s.jobs[id := RowAfter(point, job, reply)],
           workers := s.workers[w := AfterPoint(worker, id, point, reply == Done, job.challenge)])
      else s
    case Stop(w) =>
      if w in s.workers then s.(workers := s.workers[w := s.workers[w].(place := Stopped)]) else s
  }

  function After(s: State, run: seq<Action>): State {
    if run == [] then s else Step(After(s, run[..|run|-1]), run[|run|-1])
  }

  function Rank(status: Status): nat {
    match status
    case Queued => 0
    case Running => 1
    case Succeeded => 2
    case Failed => 2
  }

  /** The row only moves on: queued, running, finished; progress never drops, and what was asked for
      never changes.  Once finished the row stays, but that a success may turn into a failure. */
  predicate MovedOn(before: Job, after: Job) {
    && after == before.(status := after.status, progress := after.progress)
    && before.progress <= after.progress
    && Rank(before.status) <= Rank(after.status)
    && (Rank(before.status) == 2 ==> after == before || (before.status == Succeeded && after == before.(status := Failed)))
  }

  /* ---- the invariant ---- */

  /** The progress that the worker's next write, at the latest, brings the row to. */
  function Reaching(point: Point): nat {
    match point
    case Checking => 60
    case Deploying => 70
    case Requesting => 20
    case Certbot => 65
    case Issued => 65
    case Inventory => 70
    case Sync => 82
    case Nginx => 82
    case Proxy => 92
    case Mail => 92
    case Render => 100
    case Finish => 100
    case Fail => 100
  }

  /** A job that can succeed at all. */
  predicate CanSucceed(job: Job) {
    job.hostnames > 0 && (NeedsCertbot(job) ==> Automated(job.challenge))
  }

  /** The points a worker can be at for a job of this kind. */
  predicate Fits(job: Job, point: Point) {
    match point
    case Checking => job.jobType == "check" && job.hostnames > 0
    case Deploying => job.jobType == "deploy" && job.hostnames > 0
    case Requesting => NeedsCertbot(job) && job.hostnames > 0
    case Certbot => NeedsCertbot(job) && job.hostnames > 0
    case Issued => NeedsCertbot(job) && CanSucceed(job)
    case Fail => true
    case _ => CanSucceed(job)
  }

  ghost predicate JobInv(s: State, id: nat)
    requires id in s.jobs
  {
    var job := s.jobs[id];
    && (job.status == Queued ==> job.progress == 0 && forall c :: c in s.claims ==> c.id != id)
    && job.progress <= 100
    && (job.status == Succeeded ==> CanSucceed(job) && job.progress == 100)
  }

  /** A job being worked on is running, or has succeeded without its worker having been told. */
  predicate Workable(job: Job, point: Point) {
    job.status == Running || (job.status == Succeeded && point == Fail)
  }

  ghost predicate WorkerInv(s: State, w: nat)
    requires w in s.workers
  {
    var place := s.workers[w].place;
    && (place.Chosen? ==> place.id in s.jobs)
    && (place.At? ==>
         && place.id in s.jobs && Claim(w, place.id) in s.claims
         && Workable(s.jobs[place.id], place.point) && s.jobs[place.id].progress <= Reaching(place.point)
         && Fits(s.jobs[place.id], place.point))
  }

  ghost predicate ClaimsInv(s: State) {
    && (forall c :: c in s.claims ==> c.id in s.jobs && s.jobs[c.id].status != Queued)
    && forall i, j :: 0 <= i < j < |s.claims| ==> s.claims[i].id != s.claims[j].id
  }

  ghost predicate Inv(s: State) {
    && ClaimsInv(s)
    && (forall id :: id in s.jobs ==> JobInv(s, id))
    && forall w :: w in s.workers ==> WorkerInv(s, w)
  }

  lemma OneClaimant(s: State, w: nat, v: nat, id: nat)
    requires ClaimsInv(s) && Claim(w, id) in s.claims && Claim(v, id) in s.claims
    ensures w == v
  {
    var i :| 0 <= i < |s.claims| && s.claims[i] == Claim(w, id);
    var j :| 0 <= j < |s.claims| && s.claims[j] == Claim(v, id);
  }

  lemma PointKeeps(job: Job, point: Point, reply: Reply, worker: Worker, id: nat)
    requires Fits(job, point) && Workable(job, point) && job.progress <= Reaching(point) && job.progress <= 100
    requires job.status == Succeeded ==> CanSucceed(job) && job.progress == 100
    ensures var after, place := RowAfter(point, job, reply), AfterPoint(worker, id, point, reply == Done, job.challenge).place;
            && MovedOn(job, after) && after.progress <= 100 && Rank(after.status) <= Rank(job.status) + 1
            && (after.status != Running ==> Rank(after.status) == 2)
            && (place.At? ==> place.id == id && Workable(after, place.point) && after.progress <= Reaching(place.point)
                              && Fits(after, place.point))
            && (!place.At? ==> place == Idle)
            && (after.status == Succeeded ==> CanSucceed(job) && after.progress == 100)
            && (place.At? && after.status == Succeeded ==> point == Finish && reply == Lost)
  {
  }

  lemma TakeKeeps(s: State, w: nat, reply: Reply)
    requires Inv(s)
    ensures Inv(Step(s, Take(w, reply)))
  {
    hide IsFirstQueued, Automated, Reaching, Fits, CanSucceed, FirstPoint;
    if w in s.workers && s.workers[w].place.Chosen? && Landed(reply) && s.jobs[s.workers[w].place.id].status == Queued {
      var id := s.workers[w].place.id;
      var t := Step(s, Take(w, reply));
      assert JobInv(s, id);
      FirstPointFits(s.jobs[id]);
      assert ClaimsInv(t);
      forall j | j in t.jobs ensures JobInv(t, j) { assert JobInv(s, j); }
      forall v | v in t.workers ensures WorkerInv(t, v) {
        assert WorkerInv(s, v);
      }
    }
  }

  lemma FirstPointFits(job: Job)
    ensures Fits(job, FirstPoint(job)) && Fits(Claimed(job), FirstPoint(job)) && 5 <= Reaching(FirstPoint(job))
  {
  }

  lemma WorkKeeps(s: State, w: nat, reply: Reply)
    requires Inv(s)
    ensures Inv(Step(s, Work(w, reply)))
  {
    hide IsFirstQueued, Automated, Reaching, Fits, CanSucceed, RowAfter, AfterPoint, Workable;
    if w in s.workers && s.workers[w].place.At? {
      var worker, id, point := s.workers[w], s.workers[w].place.id, s.workers[w].place.point;
      var t := Step(s, Work(w, reply));
      assert WorkerInv(s, w) && JobInv(s, id);
      PointKeeps(s.jobs[id], point, reply, worker, id);
      CanSucceedKeeps(s.jobs[id], t.jobs[id]);
      WorkableIs(s.jobs[id], point);
      assert ClaimsInv(t);
      forall j | j in t.jobs ensures JobInv(t, j) { assert JobInv(s, j); }
      forall v | v in t.workers ensures WorkerInv(t, v) {
        assert WorkerInv(s, v);
        if v != w && s.workers[v].place.At? && s.workers[v].place.id == id {
          OneClaimant(s, w, v, id);
        }
      }
    }
  }

  lemma WorkableIs(job: Job, point: Point)
    requires Workable(job, point)
    ensures job.status == Running || (job.status == Succeeded && point == Fail)
  {
  }

  lemma CanSucceedKeeps(job: Job, after: Job)
    requires after == job.(status := after.status, progress := after.progress)
    ensures CanSucceed(after) <==> CanSucceed(job)
  {
  }

  lemma StepKeeps(s: State, a: Action)
    requires Inv(s)
    ensures Inv(Step(s, a))
  {
    hide IsFirstQueued, Automated, Reaching, Fits, CanSucceed, Effect, AfterPoint, FirstPoint;
    match a
    case Take(w, reply) => TakeKeeps(s, w, reply);
    case Work(w, reply) => WorkKeeps(s, w, reply);
    case Choose(w, id) => OtherStepKeeps(s, a);
    case Enqueue(_, _, _, _, _) => OtherStepKeeps(s, a);
    case Start(_, _, _) => OtherStepKeeps(s, a);
    case Stop(_) => OtherStepKeeps(s, a);
  }

  lemma OtherStepKeeps(s: State, a: Action)
    requires Inv(s) && !a.Take? && !a.Work?
    ensures Inv(Step(s, a))
  {
    hide Automated, Reaching, Fits, CanSucceed, Effect, AfterPoint, FirstPoint;
    var t := Step(s, a);
    assert ClaimsInv(t);
    forall j | j in t.jobs ensures JobInv(t, j) { assert j in s.jobs ==> JobInv(s, j); }
    forall v | v in t.workers ensures WorkerInv(t, v) { assert v in s.workers ==> WorkerInv(s, v); }
  }

  lemma {:induction false} RunKeeps(run: seq<Action>)
    ensures Inv(After(Empty(), run))
  {
    hide Step, Inv;
    if run == [] {
      assert Inv(Empty()) by { EmptyKeeps(); }
    } else {
      RunKeeps(run[..|run|-1]);
      StepKeeps(After(Empty(), run[..|run|-1]), run[|run|-1]);
    }
  }

  lemma EmptyKeeps()
    ensures Inv(Empty())
  {
  }

  /* ---- what every run keeps ---- */

  /** A step moves a row on by at most one status; it is the claim of the acting worker, or a write by
      the worker that is in the job.  A finished row is written only by a worker whose success was
      recorded but not reported to it. */
  lemma StepMovesOn(s: State, a: Action, id: nat)
    requires Inv(s) && id in s.jobs
    ensures id in Step(s, a).jobs && MovedOn(s.jobs[id], Step(s, a).jobs[id])
    ensures Rank(Step(s, a).jobs[id].status) <= Rank(s.jobs[id].status) + 1
    ensures Step(s, a).jobs[id] != s.jobs[id] ==>
              || (a.Take? && s.jobs[id].status == Queued && Step(s, a).claims == s.claims + [Claim(a.w, id)])
              || (a.Work? && a.w in s.workers && s.workers[a.w].place.At? && s.workers[a.w].place.id == id
                  && Claim(a.w, id) in s.claims && Workable(s.jobs[id], s.workers[a.w].place.point))
  {
    hide IsFirstQueued, Automated, Reaching, Fits, CanSucceed, RowAfter, AfterPoint, FirstPoint, Workable;
    assert JobInv(s, id);
    if a.Work? && a.w in s.workers && s.workers[a.w].place.At? && s.workers[a.w].place.id == id {
      assert WorkerInv(s, a.w);
      PointKeeps(s.jobs[id], s.workers[a.w].place.point, a.reply, s.workers[a.w], id);
    }
  }

  lemma {:induction false} AfterAppend(s: State, first: seq<Action>, more: seq<Action>)
    ensures After(s, first + more) == After(After(s, first), more)
  {
    hide Step;
    if more == [] {
      assert first + more == first;
    } else {
      AfterAppend(s, first, more[..|more|-1]);
      assert (first + more)[..|first + more|-1] == first + more[..|more|-1];
    }
  }

  lemma {:induction false} RunMovesOn(s: State, run: seq<Action>, id: nat)
    requires Inv(s) && id in s.jobs
    ensures Inv(After(s, run)) && id in After(s, run).jobs && MovedOn(s.jobs[id], After(s, run).jobs[id])
  {
    hide Step, Inv;
    if run != [] {
      var before := run[..|run|-1];
      RunMovesOn(s, before, id);
      StepKeeps(After(s, before), run[|run|-1]);
      StepMovesOn(After(s, before), run[|run|-1], id);
    }
  }

  function Moment(run: seq<Action>, k: nat): State
    requires k <= |run|
  {
    After(Empty(), run[..k])
  }

  /** Between any two moments of any run, every row only moves on. */
  lemma HistoryMovesOn(run: seq<Action>, i: nat, j: nat, id: nat)
    requires i <= j <= |run| && id in Moment(run, i).jobs
    ensures id in Moment(run, j).jobs && MovedOn(Moment(run, i).jobs[id], Moment(run, j).jobs[id])
    ensures Moment(run, i).jobs[id].progress <= Moment(run, j).jobs[id].progress
  {
    hide Step, Inv, After;
    RunKeeps(run[..i]);
    assert run[..j] == run[..i] + run[i..j];
    AfterAppend(Empty(), run[..i], run[i..j]);
    RunMovesOn(Moment(run, i), run[i..j], id);
  }

  /** Action k of the run takes the job out of the queue. */
  ghost predicate Takes(run: seq<Action>, k: nat, id: nat) {
    k < |run| && id in Moment(run, k).jobs && id in Moment(run, k+1).jobs
    && Moment(run, k).jobs[id].status == Queued && Moment(run, k+1).jobs[id].status != Queued
  }

  /** However the workers interleave, a job is claimed at most once. */
  lemma ClaimedOnce(run: seq<Action>, i: nat, j: nat, id: nat)
    requires Takes(run, i, id) && Takes(run, j, id)
    ensures i == j && run[i].Take?
  {
    hide Step, Inv, After;
    if i < j {
      HistoryMovesOn(run, i + 1, j, id);
    } else if j < i {
      HistoryMovesOn(run, j + 1, i, id);
    }
    NextAt(run, i);
    RunKeeps(run[..i]);
    StepMovesOn(Moment(run, i), run[i], id);
  }

  lemma NextAt(run: seq<Action>, k: nat)
    requires k < |run|
    ensures Moment(run, k + 1) == Step(Moment(run, k), run[k])
  {
    hide Step;
    assert run[..k+1][..k] == run[..k] && run[..k+1][k] == run[k];
  }

  /** Whatever is written to a job that left the queue is written by the one worker that claimed it. */
  lemma OnlyTheClaimantWrites(run: seq<Action>, k: nat, id: nat)
    requires k < |run| && id in Moment(run, k).jobs && Moment(run, k).jobs[id].status != Queued
    ensures id in Moment(run, k + 1).jobs
    ensures Moment(run, k + 1).jobs[id] != Moment(run, k).jobs[id] ==>
              && run[k].Work? && Claim(run[k].w, id) in Moment(run, k).claims
              && forall v :: Claim(v, id) in Moment(run, k).claims ==> v == run[k].w
  {
    hide Step, After, JobInv, WorkerInv;
    NextAt(run, k);
    RunKeeps(run[..k]);
    StepMovesOn(Moment(run, k), run[k], id);
    if Moment(run, k + 1).jobs[id] != Moment(run, k).jobs[id] {
      forall v | Claim(v, id) in Moment(run, k).claims ensures v == run[k].w {
        OneClaimant(Moment(run, k), run[k].w, v, id);
      }
    }
  }

  /* ---- when a finished row changes ---- */

  /** In action j of the run the worker records the success of the job, and is told of an error. */
  ghost predicate LosesSuccess(run: seq<Action>, j: nat, w: nat, id: nat) {
    && j < |run| && run[j] == Work(w, Lost)
    && w in Moment(run, j).workers && Moment(run, j).workers[w].place == At(id, Finish)
  }

  /** A worker that is about to record the failure of a job that has succeeded. */
  ghost predicate Mistaken(s: State, w: nat, id: nat) {
    && w in s.workers && s.workers[w].place == At(id, Fail)
    && id in s.jobs && s.jobs[id].status == Succeeded
  }

  lemma BecomesMistaken(s: State, a: Action, w: nat, id: nat)
    requires Inv(s) && Mistaken(Step(s, a), w, id) && !Mistaken(s, w, id)
    ensures a == Work(w, Lost) && w in s.workers && s.workers[w].place == At(id, Finish)
  {
    hide IsFirstQueued, Automated, Reaching, Fits, CanSucceed, RowAfter, AfterPoint, FirstPoint, Workable;
    if a.Work? && a.w in s.workers && s.workers[a.w].place.At? {
      var v, worker := a.w, s.workers[a.w];
      assert WorkerInv(s, v) && JobInv(s, worker.place.id);
      PointKeeps(s.jobs[worker.place.id], worker.place.point, a.reply, worker, worker.place.id);
      if v != w {
        assert WorkerInv(s, w);
        if worker.place.id == id {
          OneClaimant(s, v, w, id);
        }
      }
    }
  }

  lemma {:induction false} WhyMistaken(run: seq<Action>, w: nat, id: nat) returns (j: nat)
    requires Mistaken(After(Empty(), run), w, id)
    ensures LosesSuccess(run, j, w, id)
  {
    hide Step, Inv, Mistaken;
    if run == [] {
      NobodyMistaken(w, id);
    } else {
      var n := |run| - 1;
      RunKeeps(run[..n]);
      if Mistaken(After(Empty(), run[..n]), w, id) {
        j := WhyMistaken(run[..n], w, id);
        assert run[..n][..j] == run[..j];
      } else {
        j := n;
        BecomesMistaken(After(Empty(), run[..n]), run[n], w, id);
      }
    }
  }

  lemma NobodyMistaken(w: nat, id: nat)
    ensures !Mistaken(Empty(), w, id)
  {
  }

  /** A finished row changes only from success to failure, written by its claimant, after the report of
      that very success was lost. */
  lemma FinishedRowChangesOnlyIf(run: seq<Action>, k: nat, id: nat) returns (j: nat)
    requires k < |run| && id in Moment(run, k).jobs && Rank(Moment(run, k).jobs[id].status) == 2
    requires id in Moment(run, k + 1).jobs && Moment(run, k + 1).jobs[id] != Moment(run, k).jobs[id]
    ensures Moment(run, k).jobs[id].status == Succeeded && Moment(run, k + 1).jobs[id].status == Failed
    ensures run[k].Work? && j < k && LosesSuccess(run, j, run[k].w, id)
  {
    hide Step, After, Inv;
    RunKeeps(run[..k]);
    NextAt(run, k);
    StepMovesOn(Moment(run, k), run[k], id);
    j := WhyMistaken(run[..k], run[k].w, id);
    assert run[..k][..j] == run[..j];
  }

  /** It does change then: a success whose report is lost turns into a failure with the next write. */
  lemma LostSuccessBecomesFailure(s: State, w: nat, id: nat)
    requires Inv(s) && w in s.workers && s.workers[w].place == At(id, Finish)
    ensures var t := After(s, [Work(w, Lost)]);
            && id in t.jobs && t.jobs[id].status == Succeeded
            && id in After(s, [Work(w, Lost), Work(w, Done)]).jobs
            && After(s, [Work(w, Lost), Work(w, Done)]).jobs[id] == t.jobs[id].(status := Failed)
  {
    hide Step;
    OneStep(s, Work(w, Lost));
    var run := [Work(w, Lost), Work(w, Done)];
    assert run[..1] == [Work(w, Lost)];
    LostThenDone(s, w, id);
  }

  lemma LostThenDone(s: State, w: nat, id: nat)
    requires Inv(s) && w in s.workers && s.workers[w].place == At(id, Finish)
    ensures var t := Step(s, Work(w, Lost));
            && id in t.jobs && t.jobs[id].status == Succeeded && id in Step(t, Work(w, Done)).jobs
            && Step(t, Work(w, Done)).jobs[id] == t.jobs[id].(status := Failed)
  {
    hide Fits, Reaching, CanSucceed;
    assert WorkerInv(s, w);
  }

  /** Without such a loss a finished row never changes. */
  lemma {:induction false} FinishedRowsStay(run: seq<Action>, i: nat, k: nat, id: nat)
    requires i <= k <= |run| && id in Moment(run, i).jobs && Rank(Moment(run, i).jobs[id].status) == 2
    requires forall j, w :: 0 <= j < k ==> !LosesSuccess(run, j, w, id)
    ensures id in Moment(run, k).jobs && Moment(run, k).jobs[id] == Moment(run, i).jobs[id]
    decreases k
  {
    hide After, Step, Inv, LosesSuccess;
    if i < k {
      FinishedRowsStay(run, i, k - 1, id);
      HistoryMovesOn(run, k - 1, k, id);
      if Moment(run, k).jobs[id] != Moment(run, k - 1).jobs[id] {
        var j := FinishedRowChangesOnlyIf(run, k - 1, id);
        assert false;
      }
    }
  }

  /** No run makes a job succeed that has no host name, or needs a challenge nobody automates. */
  lemma SuccessIsEarned(run: seq<Action>, id: nat)
    requires id in After(Empty(), run).jobs && After(Empty(), run).jobs[id].status == Succeeded
    ensures CanSucceed(After(Empty(), run).jobs[id])
  {
    hide After, ClaimsInv, WorkerInv, CanSucceed;
    RunKeeps(run);
  }

  /* ---- what a worker takes, and what it leaves behind ---- */

  function ClaimsOf(claims: seq<Claim>, w: nat): nat {
    if claims == [] then 0
    else ClaimsOf(claims[..|claims|-1], w) + if claims[|claims|-1].worker == w then 1 else 0
  }

  /** The claims of a worker and the jobs it may still take make up its limit. */
  ghost predicate Counted(s: State, w: nat, limit: nat) {
    w in s.workers &&
    var n, worker := ClaimsOf(s.claims, w), s.workers[w];
    match worker.place
    case Idle => n + worker.left == limit
    case Chosen(_) => n + worker.left == limit && worker.left > 0
    case At(_, _) => n + worker.left == limit + 1 && worker.left > 0
    case Stopped => n <= limit
  }

  lemma StepCounts(s: State, a: Action, w: nat, limit: nat)
    requires Counted(s, w, limit)
    ensures Counted(Step(s, a), w, limit)
  {
    hide IsFirstQueued, FirstPoint, Effect, GoesOn, FollowingPoint, Claimed, Automated;
    if a.Take? && Step(s, a).claims != s.claims {
      var claim := Claim(a.w, s.workers[a.w].place.id);
      assert (s.claims + [claim])[..|s.claims|] == s.claims;
    }
  }

  ghost predicate OnlyWorkersClaim(s: State) {
    forall c :: c in s.claims ==> c.worker in s.workers
  }

  lemma {:induction false} ClaimsAreOfWorkers(run: seq<Action>)
    ensures OnlyWorkersClaim(After(Empty(), run))
  {
    hide IsFirstQueued, FirstPoint, RowAfter, AfterPoint, Claimed;
    if run != [] {
      ClaimsAreOfWorkers(run[..|run|-1]);
    }
  }

  lemma {:induction false} NoClaims(claims: seq<Claim>, w: nat)
    requires forall c :: c in claims ==> c.worker != w
    ensures ClaimsOf(claims, w) == 0
  {
    if claims != [] {
      NoClaims(claims[..|claims|-1], w);
    }
  }

  /** A worker never claims more jobs than its limit, and whenever it is idle it has claimed as many as
      it has used up. */
  lemma {:induction false} LimitIsKept(run: seq<Action>, k: nat, j: nat, w: nat, limit: nat, applyConfig: bool)
    requires k < j <= |run| && run[k] == Start(w, limit, applyConfig) && w !in Moment(run, k).workers
    ensures Counted(Moment(run, j), w, limit)
    ensures w in Moment(run, j).workers && ClaimsOf(Moment(run, j).claims, w) <= limit
    ensures Moment(run, j).workers[w].place == Idle ==>
              ClaimsOf(Moment(run, j).claims, w) == limit - Moment(run, j).workers[w].left
    decreases j
  {
    hide After, OnlyWorkersClaim, ClaimsOf;
    NextAt(run, j - 1);
    if j == k + 1 {
      ClaimsAreOfWorkers(run[..k]);
      NobodyClaimed(Moment(run, k), w);
    } else {
      hide Step;
      LimitIsKept(run, k, j - 1, w, limit, applyConfig);
      StepCounts(Moment(run, j - 1), run[j - 1], w, limit);
    }
  }

  lemma NobodyClaimed(s: State, w: nat)
    requires OnlyWorkersClaim(s) && w !in s.workers
    ensures ClaimsOf(s.claims, w) == 0
  {
    NoClaims(s.claims, w);
  }

  ghost predicate NobodyAt(s: State, id: nat) {
    forall w :: w in s.workers && s.workers[w].place.At? ==> s.workers[w].place.id != id
  }

  /** A job that has left the queue and that no worker is at stays as it is in every run that follows. */
  lemma {:induction false} AbandonedStays(s: State, run: seq<Action>, id: nat)
    requires id in s.jobs && s.jobs[id].status != Queued && NobodyAt(s, id)
    ensures var t := After(s, run); id in t.jobs && t.jobs[id] == s.jobs[id] && NobodyAt(t, id)
  {
    hide IsFirstQueued, FirstPoint, RowAfter, GoesOn, FollowingPoint, Claimed;
    if run != [] {
      AbandonedStays(s, run[..|run|-1], id);
    }
  }

  /** So a worker that stops in the middle of a job leaves it running for good, and so does one whose
      claim goes through without its being told: no worker takes the job up again. */
  lemma StoppedJobIsStuck(run: seq<Action>, k: nat, j: nat, w: nat, id: nat)
    requires k < j <= |run| && w in Moment(run, k).workers && id in Moment(run, k).jobs
    requires || (run[k] == Stop(w) && Moment(run, k).workers[w].place.At? && Moment(run, k).workers[w].place.id == id)
             || (run[k] == Take(w, Lost) && Moment(run, k).workers[w].place == Chosen(id) && Moment(run, k).jobs[id].status == Queued)
    ensures id in Moment(run, k + 1).jobs && id in Moment(run, j).jobs
    ensures Moment(run, j).jobs[id] == Moment(run, k + 1).jobs[id]
    ensures run[k].Take? ==> Moment(run, j).jobs[id] == Moment(run, k).jobs[id].(status := Running, progress := 5)
    ensures run[k].Stop? ==> Moment(run, j).jobs[id] == Moment(run, k).jobs[id]
  {
    hide After;
    RunKeeps(run[..k]);
    NextAt(run, k);
    var s, t := Moment(run, k), Moment(run, k + 1);
    NobodyElseAt(s, w, id);
    hide Step;
    assert run[..j] == run[..k+1] + run[k+1..j];
    AfterAppend(Empty(), run[..k+1], run[k+1..j]);
    AbandonedStays(t, run[k+1..j], id);
  }

  lemma NobodyElseAt(s: State, w: nat, id: nat)
    requires Inv(s) && w in s.workers && id in s.jobs
    requires s.jobs[id].status == Queued || (s.workers[w].place.At? && s.workers[w].place.id == id)
    ensures forall v :: v in s.workers && v != w && s.workers[v].place.At? ==> s.workers[v].place.id != id
    ensures s.workers[w].place.At? && s.workers[w].place.id == id ==> s.jobs[id].status != Queued
  {
    hide Reaching, Fits, JobInv;
    assert WorkerInv(s, w);
    forall v | v in s.workers && v != w && s.workers[v].place.At?
      ensures s.workers[v].place.id != id
    {
      assert WorkerInv(s, v);
      if s.workers[v].place.id == id && s.jobs[id].status != Queued {
        OneClaimant(s, w, v, id);
      }
    }
  }

  /** What a worker chooses: it must be idle with a job left to take, and the job must be queued, created
      before every other queued one or at the same time with a smaller number. */
  lemma ChoosesIff(s: State, w: nat, id: nat)
    requires w in s.workers
    ensures var t := Step(s, Choose(w, id));
            if && s.workers[w].place == Idle && s.workers[w].left > 0 && id in s.jobs && s.jobs[id].status == Queued
               && forall j :: j in s.jobs && s.jobs[j].status == Queued ==>
                    s.jobs[id].created < s.jobs[j].created || (s.jobs[id].created == s.jobs[j].created && id <= j)
            then t == s.(workers := s.workers[w := s.workers[w].(place := Chosen(id))])
            else t == s
  {
  }

  /** What becomes of a claim if the job is still queued: the worker goes on exactly if it is told that
      the claim went through. */
  lemma TakesAlone(s: State, w: nat, id: nat, reply: Reply)
    requires w in s.workers && s.workers[w].place == Chosen(id) && id in s.jobs && s.jobs[id].status == Queued
    ensures var t := Step(s, Take(w, reply));
            && t.jobs == (if reply == Refused then s.jobs else s.jobs[id := s.jobs[id].(status := Running, progress := 5)])
            && t.claims == (if reply == Refused then s.claims else s.claims + [Claim(w, id)])
            && t.workers == s.workers[w := s.workers[w].(place :=
                              if reply == Done then At(id, FirstPoint(s.jobs[id])) else Stopped)]
  {
    hide FirstPoint;
  }

  /* ---- a worker that nothing disturbs ---- */

  function Steps(point: Point): nat {
    match point
    case Checking => 9
    case Deploying => 9
    case Requesting => 11
    case Certbot => 10
    case Issued => 9
    case Inventory => 8
    case Sync => 7
    case Nginx => 6
    case Proxy => 5
    case Mail => 4
    case Render => 3
    case Finish => 2
    case Fail => 1
  }

  lemma Onward(point: Point, worker: Worker, id: nat, ok: bool, challenge: string)
    ensures var place := AfterPoint(worker, id, point, ok, challenge).place;
            place.At? ==> place.id == id && Steps(place.point) < Steps(point)
  {
  }

  /** What becomes of the row when a worker is at the point and its statements and commands turn out
      as told. */
  function Walk(job: Job, point: Point, applyConfig: bool, outcome: Point -> Reply): Job
    decreases Steps(point)
  {
    var reply := outcome(point);
    var row := RowAfter(point, job, reply);
    if point == Fail || (point == Finish && reply == Done) then row
    else if GoesOn(point, reply == Done, job.challenge) then Walk(row, FollowingPoint(point, applyConfig), applyConfig, outcome)
    else Walk(row, Fail, applyConfig, outcome)
  }

  lemma WalkNext(job: Job, point: Point, worker: Worker, id: nat, outcome: Point -> Reply)
    ensures var row := RowAfter(point, job, outcome(point));
            var next := AfterPoint(worker, id, point, outcome(point) == Done, job.challenge);
            && (next.place.At? ==> Walk(job, point, worker.applyConfig, outcome)
                                   == Walk(row, next.place.point, worker.applyConfig, outcome))
            && (!next.place.At? ==> Walk(job, point, worker.applyConfig, outcome) == row)
            && next.applyConfig == worker.applyConfig
  {
    hide Automated;
  }

  /** A worker whose steps are the only ones takes its job to the end of the walk, and changes no
      other row. */
  lemma {:induction false} WalksAlone(s: State, w: nat, outcome: Point -> Reply) returns (run: seq<Action>)
    requires Inv(s) && w in s.workers && s.workers[w].place.At?
    ensures forall a :: a in run ==> a.Work? && a.w == w
    ensures var worker, t := s.workers[w], After(s, run);
            && worker.place.id in s.jobs && w in t.workers && t.workers[w].place == Idle
            && t.jobs == s.jobs[worker.place.id :=
                                 Walk(s.jobs[worker.place.id], worker.place.point, worker.applyConfig, outcome)]
    decreases Steps(s.workers[w].place.point)
  {
    hide Effect, RowAfter, AfterPoint, CanSucceed, Fits, Steps, Reaching, Automated, Walk, Workable, MovedOn;
    var worker, id, point := s.workers[w], s.workers[w].place.id, s.workers[w].place.point;
    var reply := outcome(point);
    assert WorkerInv(s, w) && JobInv(s, id);
    Onward(point, worker, id, reply == Done, s.jobs[id].challenge);
    PointKeeps(s.jobs[id], point, reply, worker, id);
    WalkNext(s.jobs[id], point, worker, id, outcome);
    WorkKeeps(s, w, reply);
    var t := Step(s, Work(w, reply));
    OneStep(s, Work(w, reply));
    if t.workers[w].place.At? {
      var more := WalksAlone(t, w, outcome);
      run := [Work(w, reply)] + more;
      AfterAppend(s, [Work(w, reply)], more);
    } else {
      run := [Work(w, reply)];
    }
  }

  lemma OneStep(s: State, a: Action)
    ensures After(s, [a]) == Step(s, a)
  {
    hide Step;
    assert [a][..0] == [];
  }

  /** The last statement is done, or it is done without a report and the failure that follows is not
      recorded. */
  predicate EndsWell(outcome: Point -> Reply) {
    outcome(Finish) == Done || (outcome(Finish) == Lost && outcome(Fail) == Refused)
  }

  /** What has to go well for a claimed job to succeed; lost progress reports do not matter, except
      the one after certbot. */
  predicate AllGoesWell(job: Job, applyConfig: bool, outcome: Point -> Reply) {
    && CanSucceed(job)
    && (NeedsCertbot(job) ==> outcome(Certbot) == Done && outcome(Issued) == Done)
    && outcome(Sync) == Done && (applyConfig ==> outcome(Proxy) == Done && outcome(Render) == Done) && EndsWell(outcome)
  }

  lemma WalkStep(job: Job, point: Point, applyConfig: bool, outcome: Point -> Reply)
    ensures var reply := outcome(point);
            var row := RowAfter(point, job, reply);
            Walk(job, point, applyConfig, outcome) ==
              if point == Fail || (point == Finish && reply == Done) then row
              else if GoesOn(point, reply == Done, job.challenge) then Walk(row, FollowingPoint(point, applyConfig), applyConfig, outcome)
              else Walk(row, Fail, applyConfig, outcome)
  {
  }

  lemma FromFinish(job: Job, applyConfig: bool, outcome: Point -> Reply)
    requires job.status == Running
    ensures Walk(job, Finish, applyConfig, outcome).status == Succeeded <==> EndsWell(outcome)
    ensures Walk(job, Fail, applyConfig, outcome).status != Succeeded
  {
    hide Walk;
    WalkStep(job, Finish, applyConfig, outcome);
    WalkStep(job, Fail, applyConfig, outcome);
    WalkStep(RowAfter(Finish, job, outcome(Finish)), Fail, applyConfig, outcome);
  }

  lemma FromNginx(job: Job, applyConfig: bool, outcome: Point -> Reply)
    requires job.status == Running
    ensures Walk(job, Nginx, applyConfig, outcome).status == Succeeded <==>
              outcome(Proxy) == Done && outcome(Render) == Done && EndsWell(outcome)
  {
    hide Walk, EndsWell;
    WalkStep(job, Nginx, applyConfig, outcome);
    var a := RowAfter(Nginx, job, outcome(Nginx));
    WalkStep(a, Proxy, applyConfig, outcome);
    WalkStep(a, Mail, applyConfig, outcome);
    var b := RowAfter(Mail, a, outcome(Mail));
    WalkStep(b, Render, applyConfig, outcome);
    FromFinish(a, applyConfig, outcome);
    FromFinish(b, applyConfig, outcome);
  }

  lemma FromInventory(job: Job, applyConfig: bool, outcome: Point -> Reply)
    requires job.status == Running
    ensures Walk(job, Inventory, applyConfig, outcome).status == Succeeded <==>
              outcome(Sync) == Done && (applyConfig ==> outcome(Proxy) == Done && outcome(Render) == Done) && EndsWell(outcome)
  {
    hide Walk, EndsWell;
    WalkStep(job, Inventory, applyConfig, outcome);
    var a := RowAfter(Inventory, job, outcome(Inventory));
    WalkStep(a, Sync, applyConfig, outcome);
    FromNginx(a, applyConfig, outcome);
    FromFinish(a, applyConfig, outcome);
  }

  /** A claimed job succeeds exactly when all goes well. */
  lemma SucceedsIff(job: Job, applyConfig: bool, outcome: Point -> Reply)
    requires job.status == Running
    ensures Walk(job, FirstPoint(job), applyConfig, outcome).status == Succeeded <==> AllGoesWell(job, applyConfig, outcome)
  {
    hide Walk, EndsWell;
    var first := FirstPoint(job);
    WalkStep(job, first, applyConfig, outcome);
    FromFinish(job, applyConfig, outcome);
    var a := RowAfter(first, job, outcome(first));
    if first == Requesting {
      FromFinish(a, applyConfig, outcome);
      WalkStep(a, Certbot, applyConfig, outcome);
      WalkStep(a, Issued, applyConfig, outcome);
      var b := RowAfter(Issued, a, outcome(Issued));
      FromFinish(b, applyConfig, outcome);
      FromInventory(b, applyConfig, outcome);
    } else if first == Checking || first == Deploying {
      FromInventory(a, applyConfig, outcome);
    }
  }

  /* ---- the program of one worker, statement by statement ---- */

  class JobTable {
    var jobs: map<nat, Job>

    constructor (jobs: map<nat, Job>)
      ensures this.jobs == jobs
    {
      this.jobs := jobs;
    }

    /** The SELECT and the conditional UPDATE, with nothing between them. */
    method ClaimTLSJob() returns (found: bool, id: nat)
      modifies this
      ensures found <==> exists j :: j in old(jobs) && old(jobs)[j].status == Queued
      ensures found ==> id in old(jobs) && old(jobs)[id].status == Queued
      ensures found ==> forall j :: j in old(jobs) && old(jobs)[j].status == Queued ==>
                          || old(jobs)[id].created < old(jobs)[j].created
                          || (old(jobs)[id].created == old(jobs)[j].created && id <= j)
      ensures found ==> jobs == old(jobs)[id := old(jobs)[id].(status := Running, progress := 5)]
      ensures found ==> IsFirstQueued(old(jobs), id) && jobs[id] == Claimed(old(jobs)[id])
      ensures !found ==> jobs == old(jobs)
    {
      found, id := false, 0;
      var todo := jobs.Keys;
      while todo != {}
        invariant todo <= jobs.Keys && jobs == old(jobs)
        invariant found <==> exists j :: j in jobs && j !in todo && jobs[j].status == Queued
        invariant found ==> id in jobs && jobs[id].status == Queued
        invariant found ==> forall j :: j in jobs && j !in todo && jobs[j].status == Queued ==> Sooner(jobs, id, j)
        modifies {}
        decreases todo
      {
        var j :| j in todo;
        if jobs[j].status == Queued && (!found || !Sooner(jobs, id, j)) {
          found, id := true, j;
        }
        todo := todo - {j};
      }
      if found {
        jobs := jobs[id := Claimed(jobs[id])];
      }
    }

    method UpdateTLSJobProgress(id: nat, progress: nat, reply: Reply) returns (ok: bool)
      requires id in jobs
      modifies this
      ensures ok == (reply == Done)
      ensures jobs == if Landed(reply) then old(jobs)[id := old(jobs)[id].(progress := progress)] else old(jobs)
    {
      if Landed(reply) {
        jobs := jobs[id := jobs[id].(progress := progress)];
      }
      ok := reply == Done;
    }

    method RunCertbotForTLSJob(id: nat, outcome: Point -> Reply, ghost applyConfig: bool) returns (ok: bool)
      requires id in jobs
      modifies this
      ensures ok <==> outcome(Certbot) == Done && Automated(old(jobs)[id].challenge) && outcome(Issued) == Done
      ensures id in jobs && jobs == old(jobs)[id := jobs[id]]
      ensures Walk(old(jobs)[id], Requesting, applyConfig, outcome)
           == Walk(jobs[id], if ok then Inventory else Fail, applyConfig, outcome)
    {
      hide Walk;
      WalkStep(jobs[id], Requesting, applyConfig, outcome);
      var challenge := jobs[id].challenge;
      var _ := UpdateTLSJobProgress(id, 20, outcome(Requesting));
      WalkStep(jobs[id], Certbot, applyConfig, outcome);
      WalkStep(jobs[id], Issued, applyConfig, outcome);
      if challenge != "http-01" && challenge != "dns-cloudflare" {
        return false;
      }
      if outcome(Certbot) != Done {
        return false;
      }
      ok := UpdateTLSJobProgress(id, 65, outcome(Issued));
    }

    /** processTLSJob, and the failure that runProcessTLSJobs records when it returns an error. */
    method ProcessTLSJob(id: nat, applyConfig: bool, outcome: Point -> Reply)
      requires id in jobs && jobs[id].status == Running
      modifies this
      ensures jobs == old(jobs)[id := Walk(old(jobs)[id], FirstPoint(old(jobs)[id]), applyConfig, outcome)]
    {
      var ok := TryTLSJob(id, applyConfig, outcome);
      if !ok && Landed(outcome(Fail)) {
        jobs := jobs[id := jobs[id].(status := Failed, progress := 100)];
      }
    }

    method TryTLSJob(id: nat, applyConfig: bool, outcome: Point -> Reply) returns (ok: bool)
      requires id in jobs && jobs[id].status == Running
      modifies this
      ensures id in jobs && jobs == old(jobs)[id := jobs[id]]
      ensures var walk := Walk(old(jobs)[id], FirstPoint(old(jobs)[id]), applyConfig, outcome);
              if ok then jobs[id] == walk else walk == Walk(jobs[id], Fail, applyConfig, outcome)
    {
      hide Walk;
      ghost var job := jobs[id];
      WalkStep(job, FirstPoint(job), applyConfig, outcome);
      if jobs[id].hostnames == 0 {
        return false;
      }
      if jobs[id].jobType == "check" {
        var _ := UpdateTLSJobProgress(id, 60, outcome(Checking));
      } else if jobs[id].jobType == "deploy" {
        var _ := UpdateTLSJobProgress(id, 70, outcome(Deploying));
      } else {
        ok := RunCertbotForTLSJob(id, outcome, applyConfig);
        if !ok {
          return false;
        }
      }
      ok := DeployTLSJob(id, applyConfig, outcome);
    }

    method ReloadServices(id: nat, outcome: Point -> Reply) returns (ok: bool)
      requires id in jobs
      modifies this
      ensures id in jobs && jobs == old(jobs)[id := jobs[id]]
      ensures Walk(old(jobs)[id], Nginx, true, outcome) == Walk(jobs[id], if ok then Finish else Fail, true, outcome)
    {
      hide Walk;
      WalkStep(jobs[id], Nginx, true, outcome);
      var _ := UpdateTLSJobProgress(id, 82, outcome(Nginx));
      WalkStep(jobs[id], Proxy, true, outcome);
      if outcome(Proxy) != Done {
        return false;
      }
      WalkStep(jobs[id], Mail, true, outcome);
      var _ := UpdateTLSJobProgress(id, 92, outcome(Mail));
      WalkStep(jobs[id], Render, true, outcome);
      ok := outcome(Render) == Done;
    }

    /** What every job has in common: inventory, configuration, success. */
    method DeployTLSJob(id: nat, applyConfig: bool, outcome: Point -> Reply) returns (ok: bool)
      requires id in jobs
      modifies this
      ensures id in jobs && jobs == old(jobs)[id := jobs[id]]
      ensures var walk := Walk(old(jobs)[id], Inventory, applyConfig, outcome);
              if ok then jobs[id] == walk else walk == Walk(jobs[id], Fail, applyConfig, outcome)
    {
      hide Walk;
      WalkStep(jobs[id], Inventory, applyConfig, outcome);
      var _ := UpdateTLSJobProgress(id, 70, outcome(Inventory));
      WalkStep(jobs[id], Sync, applyConfig, outcome);
      if outcome(Sync) != Done {
        return false;
      }
      if applyConfig {
        ok := ReloadServices(id, outcome);
        if !ok {
          return false;
        }
      }
      WalkStep(jobs[id], Finish, applyConfig, outcome);
      if Landed(outcome(Finish)) {
        jobs := jobs[id := jobs[id].(status := Succeeded, progress := 100)];
      }
      ok := outcome(Finish) == Done;
    }
  }
}
