/** The worker pool as a transition system. Every Redis command, every reading of
    the clock and every producer's push is one atomic step; the workers interleave
    arbitrarily over the shared queues and one shared clock. */
module JobQueue {
  import opened Collections
  import opened Redis

  /** A queued job. Redis stores the whole serialised job, so two jobs are the same
      sorted-set member exactly when all their fields agree. */
  datatype Job = Job(
    id: nat,
    kind: string,
    payload: string,
    attempts: int,
    maxAttempts: int,
    createdAt: int,
    scheduledAt: int)

  /** Where a worker stands in its loop. The head of `ready` is the item at work. */
  datatype Phase =
    | Top
    | Polling(maxScore: int)
    | Pushing(ready: seq<Job>)
    | Removing(ready: seq<Job>)
    | Fetching
    | Holding(job: Job)
    | Processing(job: Job)
    | Parking(job: Job)
    | Burying(job: Job)

  /** One call of a processor: the job as it was handed over, and when. */
  datatype Attempt = Attempt(job: Job, at: int)

  /** `submitted`, `completed`, `dropped` and `log` record the run; no step reads
      them except to keep submitted IDs fresh. */
  datatype State = State(
    now: int,
    registered: set<string>,
    queues: Queues<Job>,
    workers: seq<Phase>,
    submitted: map<nat, Job>,
    completed: seq<Job>,
    dropped: seq<Job>,
    log: seq<Attempt>)

  datatype Action =
    | ReadClock
    | Snapshot(reply: seq<Job>)
    | Push
    | Remove
    | Pop
    | Check
    | Succeed
    | Fail
    | Park
    | Bury

  datatype Step = Tick(to: int) | Submit(job: Job) | Work(w: nat, action: Action)

  function Init(n: nat, registered: set<string>, now: int): State {
    State(now, registered, Queues([], map[], []), seq(n, _ => Top), map[], [], [], [])
  }

  /** A failed job after `Attempts++`. */
  function Bumped(j: Job): Job { j.(attempts := j.attempts + 1) }

  /** The failed job as it is put back: due `Attempts * 5` seconds from `now`. */
  function Retried(j: Job, now: int): Job {
    Bumped(j).(scheduledAt := now + 5 * Bumped(j).attempts)
  }

  /** The commands a worker can be at, given its phase. A producer may push any
      fresh job that has not been attempted, was created by now and is not
      scheduled before its creation. */
  ghost predicate Enabled(s: State, t: Step) {
    match t
    case Tick(to) => s.now <= to
    case Submit(j) => j.id !in s.submitted && j.attempts == 0 && j.createdAt <= s.now && j.createdAt <= j.scheduledAt
    case Work(w, a) =>
      && w < |s.workers|
      && match (s.workers[w], a)
         case (Top, ReadClock) => true
         case (Polling(m), Snapshot(reply)) => IsRange(s.queues.delayed, m, reply)
         case (Pushing(_), Push) => true
         case (Removing(_), Remove) => true
         case (Fetching, Pop) => true
         case (Holding(_), Check) => true
         case (Processing(_), Succeed) => true
         case (Processing(_), Fail) => true
         case (Parking(_), Park) => true
         case (Burying(_), Bury) => true
         case _ => false
  }

  function Goto(s: State, w: nat, p: Phase): State
    requires w < |s.workers|
  {
    s.(workers := s.workers[w := p])
  }

  /** After the items that still have to be promoted, the worker fetches. */
  function Promoting(items: seq<Job>): Phase {
    if items == [] then Fetching else Pushing(items)
  }

  function Act(s: State, w: nat, a: Action): (s': State)
    requires w < |s.workers|
    ensures |s'.workers| == |s.workers| && s'.submitted == s.submitted && s'.registered == s.registered
  {
    var q := s.queues;
    match (s.workers[w], a)
    case (Top, ReadClock) => Goto(s, w, Polling(s.now))
    case (Polling(_), Snapshot(reply)) => Goto(s, w, Promoting(reply))
    case (Pushing(items), Push) =>
      if items == [] then s else Goto(s.(queues := q.LPush(items[0])), w, Removing(items))
    case (Removing(items), Remove) =>
      if items == [] then s else Goto(s.(queues := q.ZRem(items[0])), w, Promoting(items[1..]))
    case (Fetching, Pop) =>
      if q.list == [] then Goto(s, w, Top)
      else Goto(s.(queues := q.BRPop()), w, Holding(q.list[|q.list| - 1]))
    case (Holding(j), Check) =>
      if j.scheduledAt > s.now then Goto(s, w, Parking(j))
      else if j.kind !in s.registered then Goto(s.(dropped := s.dropped + [j]), w, Top)
      else Goto(s.(log := s.log + [Attempt(j, s.now)]), w, Processing(j))
    case (Processing(j), Succeed) => Goto(s.(completed := s.completed + [j]), w, Top)
    case (Processing(j), Fail) =>
      if Bumped(j).attempts < j.maxAttempts then Goto(s, w, Parking(Retried(j, s.now)))
      else Goto(s, w, Burying(Bumped(j)))
    case (Parking(j), Park) => Goto(s.(queues := q.ZAdd(j, j.scheduledAt)), w, Top)
    case (Burying(j), Bury) => Goto(s.(queues := q.LPushDead(j)), w, Top)
    case _ => s
  }

  ghost function Apply(s: State, t: Step): (s': State)
    requires Enabled(s, t)
    ensures |s'.workers| == |s.workers| && s'.registered == s.registered
    ensures s'.submitted == if t.Submit? then s.submitted[t.job.id := t.job] else s.submitted
  {
    match t
    case Tick(to) => s.(now := to)
    case Submit(j) => s.(queues := s.queues.LPush(j), submitted := s.submitted[j.id := j])
    case Work(w, a) => Act(s, w, a)
  }

  ghost predicate IsRun(s: State, ts: seq<Step>)
    decreases |ts|
  {
    ts == [] || (Enabled(s, ts[0]) && IsRun(Apply(s, ts[0]), ts[1..]))
  }

  ghost function Final(s: State, ts: seq<Step>): State
    requires IsRun(s, ts)
    decreases |ts|
  {
    if ts == [] then s else Final(Apply(s, ts[0]), ts[1..])
  }

  /** A failed job with attempts left goes to be delayed with one more attempt, due five
      seconds per attempt after now, and is otherwise as it was; without attempts left it
      goes to be dead-lettered. */
  lemma FailMoves(s: State, w: nat)
    requires Enabled(s, Work(w, Fail))
    ensures var j := s.workers[w].job;
      Act(s, w, Fail) == s.(workers := s.workers[w :=
        if j.attempts + 1 < j.maxAttempts
        then Parking(j.(attempts := j.attempts + 1, scheduledAt := s.now + 5 * (j.attempts + 1)))
        else Burying(j.(attempts := j.attempts + 1))])
  {
  }

  /** A poll's reply lists exactly the delayed jobs that are due at the time it read. */
  lemma PollListsDue(s: State, w: nat, s': State, reply: seq<Job>, x: Job)
    requires Enabled(s, Work(w, ReadClock)) && Enabled(s', Work(w, Snapshot(reply)))
    requires s'.workers[w] == Act(s, w, ReadClock).workers[w]
    ensures x in reply <==> x in s'.queues.delayed && s'.queues.delayed[x] <= s.now
  {
    assert x in reply <==> x in Elements(reply);
  }

  // ---------------------------------------------------------------------------
  // Backoff: what a job's fields say about its history

  /** Total seconds of backoff imposed by `a` failures. */
  function Backoff(a: nat): nat { if a == 0 then 0 else Backoff(a - 1) + 5 * a }

  lemma {:induction false} BackoffClosedForm(a: nat)
    ensures 2 * Backoff(a) == 5 * a * (a + 1)
  {
    if a > 0 {
      BackoffClosedForm(a - 1);
    }
  }

  /** A job agrees with what was submitted under its ID, except for its attempts
      and schedule, and an unattempted job is the submitted one. */
  ghost predicate Genuine(submitted: map<nat, Job>, j: Job) {
    && j.id in submitted
    && j.attempts >= 0
    && j == submitted[j.id].(attempts := j.attempts, scheduledAt := j.scheduledAt)
    && (j.attempts == 0 ==> j == submitted[j.id])
  }

  ghost predicate BackedOff(j: Job) {
    j.attempts >= 0 && j.scheduledAt >= j.createdAt + Backoff(j.attempts)
  }

  /** A job waiting in the delayed set, or on its way there. */
  ghost predicate WaitingOk(submitted: map<nat, Job>, j: Job) {
    Genuine(submitted, j) && BackedOff(j)
  }

  /** A job in the list, or just taken from it: a retry is already due. */
  ghost predicate ListedOk(submitted: map<nat, Job>, now: int, j: Job) {
    WaitingOk(submitted, j) && (j.attempts > 0 ==> j.scheduledAt <= now)
  }

  ghost predicate DueOk(submitted: map<nat, Job>, now: int, j: Job) {
    WaitingOk(submitted, j) && j.scheduledAt <= now
  }

  ghost predicate PhaseOk(submitted: map<nat, Job>, now: int, p: Phase) {
    match p
    case Top => true
    case Polling(m) => m <= now
    case Pushing(items) => items != [] && forall k :: 0 <= k < |items| ==> DueOk(submitted, now, items[k])
    case Removing(items) => items != [] && forall k :: 0 <= k < |items| ==> DueOk(submitted, now, items[k])
    case Fetching => true
    case Holding(j) => ListedOk(submitted, now, j)
    case Processing(j) => DueOk(submitted, now, j)
    case Parking(j) => WaitingOk(submitted, j)
    case Burying(j) => Genuine(submitted, j) && j.attempts > 0
  }

  ghost predicate AttemptOk(submitted: map<nat, Job>, now: int, e: Attempt) {
    WaitingOk(submitted, e.job) && e.job.scheduledAt <= e.at <= now
  }

  ghost predicate KeysOk(submitted: map<nat, Job>) {
    forall i :: i in submitted ==>
      submitted[i].id == i && submitted[i].attempts == 0 && BackedOff(submitted[i])
  }

  ghost predicate DelayedOk(submitted: map<nat, Job>, delayed: map<Job, int>) {
    forall j :: j in delayed ==> WaitingOk(submitted, j) && delayed[j] == j.scheduledAt
  }

  /** What every reachable state satisfies about each job by itself. */
  ghost predicate Timely(s: State) {
    && KeysOk(s.submitted)
    && (forall k :: 0 <= k < |s.queues.list| ==> ListedOk(s.submitted, s.now, s.queues.list[k]))
    && DelayedOk(s.submitted, s.queues.delayed)
    && (forall k :: 0 <= k < |s.queues.dead| ==> Genuine(s.submitted, s.queues.dead[k]))
    && (forall k :: 0 <= k < |s.completed| ==> Genuine(s.submitted, s.completed[k]))
    && (forall k :: 0 <= k < |s.dropped| ==> Genuine(s.submitted, s.dropped[k]) && s.dropped[k].kind !in s.registered)
    && (forall k :: 0 <= k < |s.log| ==> AttemptOk(s.submitted, s.now, s.log[k]))
    && (forall w :: 0 <= w < |s.workers| ==> PhaseOk(s.submitted, s.now, s.workers[w]))
  }

  lemma TimelySubmit(s: State, j: Job)
    requires Timely(s) && Enabled(s, Submit(j))
    ensures Timely(Apply(s, Submit(j)))
  {
    var s' := Apply(s, Submit(j));
    assert forall x: Job :: Genuine(s.submitted, x) ==> Genuine(s'.submitted, x);
    assert forall x: Phase :: PhaseOk(s.submitted, s.now, x) ==> PhaseOk(s'.submitted, s.now, x);
    assert Genuine(s'.submitted, j);
  }

  lemma TimelyTick(s: State, to: int)
    requires Timely(s) && s.now <= to
    ensures Timely(s.(now := to))
  {
    assert forall x: Phase :: PhaseOk(s.submitted, s.now, x) ==> PhaseOk(s.submitted, to, x);
  }

  lemma TimelySnapshot(s: State, w: nat, reply: seq<Job>)
    requires Timely(s) && Enabled(s, Work(w, Snapshot(reply)))
    ensures Timely(Act(s, w, Snapshot(reply)))
  {
    forall k | 0 <= k < |reply|
      ensures DueOk(s.submitted, s.now, reply[k])
    {
      assert reply[k] in Elements(reply);
    }
  }

  lemma TimelyCheck(s: State, w: nat)
    requires Timely(s) && Enabled(s, Work(w, Check))
    ensures Timely(Act(s, w, Check))
  {
    assert PhaseOk(s.submitted, s.now, s.workers[w]);
  }

  lemma TimelyPop(s: State, w: nat)
    requires Timely(s) && Enabled(s, Work(w, Pop))
    ensures Timely(Act(s, w, Pop))
  {
  }

  lemma TimelyWork(s: State, w: nat, a: Action)
    requires Timely(s) && Enabled(s, Work(w, a))
    ensures Timely(Act(s, w, a))
  {
    assert PhaseOk(s.submitted, s.now, s.workers[w]);
    match a
    case Snapshot(reply) => TimelySnapshot(s, w, reply);
    case Check => TimelyCheck(s, w);
    case Pop => TimelyPop(s, w);
    case Push =>
      var items := s.workers[w].ready;
      assert DueOk(s.submitted, s.now, items[0]);
    case _ =>
  }

  lemma TimelyStep(s: State, t: Step)
    requires Timely(s) && Enabled(s, t)
    ensures Timely(Apply(s, t))
  {
    match t
    case Tick(to) => TimelyTick(s, to);
    case Submit(j) => TimelySubmit(s, j);
    case Work(w, a) => TimelyWork(s, w, a);
  }
}
