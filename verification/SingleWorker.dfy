/** What a pool of one worker guarantees besides not losing jobs: every job sits in
    exactly one place, attempts are counted exactly, and all work ends. */
module SingleWorker {
  import opened Collections
  import opened Redis
  import opened JobQueue
  import opened NoLoss

  function InHand(p: Phase): Option<Job> {
    match p
    case Holding(j) => Some(j)
    case Processing(j) => Some(j)
    case Parking(j) => Some(j)
    case Burying(j) => Some(j)
    case _ => None
  }

  /** The member whose ZREM is the worker's next command: it is already in the list. */
  function PendingZRem(p: Phase): set<Job> {
    if p.Removing? && p.ready != [] then {p.ready[0]} else {}
  }

  function Occurs(jobs: seq<Job>, j: Job): nat {
    if jobs == [] then 0 else Occurs(jobs[1..], j) + (if jobs[0] == j then 1 else 0)
  }

  /** How many copies of `j` there are in all places together: list, delayed set,
      dead-letter list, the worker's hands, completed and dropped. */
  function CopiesIn(q: Queues<Job>, p: Phase, completed: seq<Job>, dropped: seq<Job>, j: Job): nat {
    Occurs(q.list, j) + (if j in q.delayed && j !in PendingZRem(p) then 1 else 0)
      + Occurs(q.dead, j) + (if InHand(p) == Some(j) then 1 else 0) + Occurs(completed, j) + Occurs(dropped, j)
  }

  function Copies(s: State, j: Job): nat
    requires |s.workers| == 1
  {
    CopiesIn(s.queues, s.workers[0], s.completed, s.dropped, j)
  }

  /** One copy of one job for every submitted ID, and nothing else. */
  ghost predicate OneEach(s: State)
    requires |s.workers| == 1
  {
    && (forall j :: Copies(s, j) <= 1)
    && (forall j :: Copies(s, j) == 1 ==> j.id in s.submitted)
    && (forall j, k :: Copies(s, j) == 1 && Copies(s, k) == 1 && j.id == k.id ==> j == k)
    && (forall id :: id in s.submitted ==> exists j: Job :: j.id == id && Copies(s, j) == 1)
  }

  /** The items still to be promoted are members of the delayed set. */
  ghost predicate PromotionOk(s: State)
    requires |s.workers| == 1
  {
    var p := s.workers[0];
    p.Pushing? || p.Removing? ==>
      Distinct(p.ready) && forall k :: 0 <= k < |p.ready| ==> p.ready[k] in s.queues.delayed
  }

  // ---------------------------------------------------------------------------
  // Conservation: only a submission and a failure change what is in the places

  function FailedJob(j: Job, now: int): Job {
    if Bumped(j).attempts < j.maxAttempts then Retried(j, now) else Bumped(j)
  }

  /** The copies of `j` a step creates, less those it destroys. */
  function Delta(s: State, t: Step, j: Job): int
    requires |s.workers| == 1
  {
    match t
    case Submit(x) => if x == j then 1 else 0
    case Work(w, Fail) =>
      if s.workers[0].Processing? then
        (if FailedJob(s.workers[0].job, s.now) == j then 1 else 0) - (if s.workers[0].job == j then 1 else 0)
      else 0
    case _ => 0
  }

  lemma {:induction false} OccursBack(jobs: seq<Job>, x: Job, j: Job)
    ensures Occurs(jobs + [x], j) == Occurs(jobs, j) + (if x == j then 1 else 0)
  {
    if jobs == [] {
      assert jobs + [x] == [x];
    } else {
      OccursBack(jobs[1..], x, j);
      assert (jobs + [x])[1..] == jobs[1..] + [x];
    }
  }

  lemma OccursFront(jobs: seq<Job>, x: Job, j: Job)
    ensures Occurs([x] + jobs, j) == Occurs(jobs, j) + (if x == j then 1 else 0)
  {
    assert ([x] + jobs)[1..] == jobs;
  }

  lemma OccursPop(jobs: seq<Job>, j: Job)
    requires jobs != []
    ensures Occurs(jobs, j) == Occurs(jobs[..|jobs| - 1], j) + (if jobs[|jobs| - 1] == j then 1 else 0)
  {
    assert jobs == jobs[..|jobs| - 1] + [jobs[|jobs| - 1]];
    OccursBack(jobs[..|jobs| - 1], jobs[|jobs| - 1], j);
  }

  lemma {:induction false} OccursIn(jobs: seq<Job>, j: Job)
    ensures Occurs(jobs, j) > 0 <==> j in jobs
  {
    if jobs != [] {
      OccursIn(jobs[1..], j);
      assert jobs == [jobs[0]] + jobs[1..];
    }
  }

  /** In one of the places other than a worker's hands. */
  predicate Elsewhere(s: State, k: Job) {
    k in s.queues.list || k in s.queues.delayed || k in s.queues.dead || k in s.completed || k in s.dropped
  }

  /** What a worker holds is nowhere else, and neither is its ID. */
  lemma HandIsElsewhereAbsent(s: State, j: Job, k: Job)
    requires |s.workers| == 1 && OneEach(s) && InHand(s.workers[0]) == Some(j)
    requires Elsewhere(s, k)
    ensures k.id != j.id
  {
    OccursIn(s.queues.list, k);
    OccursIn(s.queues.dead, k);
    OccursIn(s.completed, k);
    OccursIn(s.dropped, k);
    assert Copies(s, k) <= 1 && Copies(s, j) == 1;
  }

  /** The worker's next command finds the queues as it left them. */
  ghost predicate InStep(s: State)
    requires |s.workers| == 1
  {
    match s.workers[0]
    case Pushing(items) => items != [] && items[0] in s.queues.delayed
    case Removing(items) =>
      items != [] && items[0] in s.queues.delayed && (|items| > 1 ==> items[1] in s.queues.delayed && items[1] != items[0])
    case Parking(j) => j !in s.queues.delayed
    case _ => true
  }

  lemma StaysInStep(s: State)
    requires |s.workers| == 1 && Timely(s) && OneEach(s) && PromotionOk(s)
    ensures InStep(s)
  {
    assert PhaseOk(s.submitted, s.now, s.workers[0]);
    if s.workers[0].Parking? && s.workers[0].job in s.queues.delayed {
      HandIsElsewhereAbsent(s, s.workers[0].job, s.workers[0].job);
    }
  }

  lemma CopiesConserved(s: State, t: Step, j: Job)
    requires |s.workers| == 1 && InStep(s) && Enabled(s, t)
    ensures Copies(Apply(s, t), j) == Copies(s, j) + Delta(s, t, j)
  {
    match t
    case Tick(_) =>
    case Submit(x) => OccursFront(s.queues.list, x, j);
    case Work(w, a) => CopiesConservedByWork(s, a, j);
  }

  lemma CopiesConservedByWork(s: State, a: Action, j: Job)
    requires |s.workers| == 1 && InStep(s) && Enabled(s, Work(0, a))
    ensures Copies(Act(s, 0, a), j) == Copies(s, j) + Delta(s, Work(0, a), j)
  {
    if InHand(s.workers[0]).Some? {
      CopiesConservedInHand(s, a, j);
    } else {
      CopiesConservedByFetch(s, a, j);
    }
  }

  lemma CopiesConservedByFetch(s: State, a: Action, j: Job)
    requires |s.workers| == 1 && InStep(s) && Enabled(s, Work(0, a)) && InHand(s.workers[0]).None?
    ensures Copies(Act(s, 0, a), j) == Copies(s, j) + Delta(s, Work(0, a), j)
  {
    match s.workers[0]
    case Pushing(items) => OccursFront(s.queues.list, items[0], j);
    case Fetching => if s.queues.list != [] { OccursPop(s.queues.list, j); }
    case _ =>
  }

  lemma CopiesConservedInHand(s: State, a: Action, j: Job)
    requires |s.workers| == 1 && InStep(s) && Enabled(s, Work(0, a)) && InHand(s.workers[0]).Some?
    ensures Copies(Act(s, 0, a), j) == Copies(s, j) + Delta(s, Work(0, a), j)
  {
    match s.workers[0]
    case Holding(x) => OccursBack(s.dropped, x, j);
    case Processing(x) => OccursBack(s.completed, x, j);
    case Burying(x) => OccursFront(s.queues.dead, x, j);
    case _ =>
  }

  lemma OneEachSame(s: State, s': State)
    requires |s.workers| == |s'.workers| == 1 && OneEach(s) && s'.submitted == s.submitted
    requires forall j :: Copies(s', j) == Copies(s, j)
    ensures OneEach(s')
  {
    forall id | id in s'.submitted
      ensures exists j: Job :: j.id == id && Copies(s', j) == 1
    {
      var j: Job :| j.id == id && Copies(s, j) == 1;
      assert Copies(s', j) == 1;
    }
  }

  lemma OneEachAdd(s: State, s': State, x: Job)
    requires |s.workers| == |s'.workers| == 1 && OneEach(s)
    requires x.id !in s.submitted && s'.submitted == s.submitted[x.id := x]
    requires forall j :: Copies(s', j) == Copies(s, j) + (if x == j then 1 else 0)
    ensures OneEach(s')
  {
    assert Copies(s', x) == 1;
    forall id | id in s'.submitted && id != x.id
      ensures exists j: Job :: j.id == id && Copies(s', j) == 1
    {
      var j: Job :| j.id == id && Copies(s, j) == 1;
      assert Copies(s', j) == 1;
    }
  }

  lemma OneEachReplace(s: State, s': State, x: Job, x': Job)
    requires |s.workers| == |s'.workers| == 1 && OneEach(s) && s'.submitted == s.submitted
    requires Copies(s, x) == 1 && x'.id == x.id && x' != x
    requires forall j :: Copies(s', j) == Copies(s, j) + (if x' == j then 1 else 0) - (if x == j then 1 else 0)
    ensures OneEach(s')
  {
    assert Copies(s, x') == 0;
    assert Copies(s', x') == 1;
    forall id | id in s'.submitted && id != x.id
      ensures exists j: Job :: j.id == id && Copies(s', j) == 1
    {
      var j: Job :| j.id == id && Copies(s, j) == 1;
      assert Copies(s', j) == 1;
    }
  }

  /** One copy each is kept by any change of the places that follows `Delta`. */
  lemma OneEachFollows(s: State, t: Step, s': State)
    requires |s.workers| == |s'.workers| == 1 && OneEach(s)
    requires forall j :: Copies(s', j) == Copies(s, j) + Delta(s, t, j)
    requires s'.submitted == if t.Submit? then s.submitted[t.job.id := t.job] else s.submitted
    requires t.Submit? ==> t.job.id !in s.submitted
    requires t.Work? && t.action == Fail ==> s.workers[0].Processing?
    ensures OneEach(s')
  {
    if t.Submit? {
      OneEachAdd(s, s', t.job);
    } else if t.Work? && t.action == Fail {
      var x := s.workers[0].job;
      assert Copies(s, x) == 1;
      OneEachReplace(s, s', x, FailedJob(x, s.now));
    } else {
      OneEachSame(s, s');
    }
  }

  lemma AllConserved(s: State, t: Step)
    requires |s.workers| == 1 && InStep(s) && Enabled(s, t)
    ensures forall j :: Copies(Apply(s, t), j) == Copies(s, j) + Delta(s, t, j)
  {
    forall j
      ensures Copies(Apply(s, t), j) == Copies(s, j) + Delta(s, t, j)
    {
      CopiesConserved(s, t, j);
    }
  }

  lemma OneEachStep(s: State, t: Step)
    requires |s.workers| == 1 && OneEach(s) && InStep(s) && Enabled(s, t)
    ensures OneEach(Apply(s, t))
  {
    AllConserved(s, t);
    OneEachFollows(s, t, Apply(s, t));
  }

  lemma PromotionStep(s: State, t: Step)
    requires |s.workers| == 1 && Timely(s) && PromotionOk(s) && Enabled(s, t)
    ensures PromotionOk(Apply(s, t))
  {
    match t
    case Work(_, Snapshot(reply)) =>
      forall k | 0 <= k < |reply|
        ensures reply[k] in s.queues.delayed
      {
        assert reply[k] in Elements(reply);
      }
    case _ =>
  }

  // ---------------------------------------------------------------------------
  // Attempts

  function Starts(log: seq<Attempt>, id: nat): nat {
    if log == [] then 0
    else Starts(log[..|log| - 1], id) + (if log[|log| - 1].job.id == id then 1 else 0)
  }

  /** How often a job is tried: a maximum below one still allows the first attempt. */
  function Budget(j: Job): nat { if j.maxAttempts < 1 then 1 else j.maxAttempts }

  ghost predicate Live(log: seq<Attempt>, j: Job) {
    j.attempts == Starts(log, j.id) < Budget(j)
  }

  ghost predicate Taken(log: seq<Attempt>, j: Job) {
    j.attempts + 1 == Starts(log, j.id) <= Budget(j)
  }

  ghost predicate Exhausted(log: seq<Attempt>, j: Job) {
    j.attempts == Starts(log, j.id) == Budget(j)
  }

  ghost predicate PhaseCounted(log: seq<Attempt>, p: Phase) {
    match p
    case Holding(j) => Live(log, j)
    case Parking(j) => Live(log, j)
    case Processing(j) => Taken(log, j)
    case Burying(j) => Exhausted(log, j)
    case _ => true
  }

  /** The log agrees with the attempts each job carries, wherever it is. */
  ghost predicate Counted(s: State)
    requires |s.workers| == 1
  {
    && (forall k :: 0 <= k < |s.queues.list| ==> Live(s.log, s.queues.list[k]))
    && (forall j :: j in s.queues.delayed ==> Live(s.log, j))
    && (forall k :: 0 <= k < |s.queues.dead| ==> Exhausted(s.log, s.queues.dead[k]))
    && (forall k :: 0 <= k < |s.completed| ==> Taken(s.log, s.completed[k]))
    && (forall k :: 0 <= k < |s.dropped| ==> Live(s.log, s.dropped[k]))
    && PhaseCounted(s.log, s.workers[0])
  }

  lemma {:induction false} NoStarts(log: seq<Attempt>, id: nat)
    requires forall k :: 0 <= k < |log| ==> log[k].job.id != id
    ensures Starts(log, id) == 0
  {
    if log != [] {
      NoStarts(log[..|log| - 1], id);
    }
  }

  /** Starting `j` leaves the count of every other job alone. */
  lemma StartsAppend(log: seq<Attempt>, e: Attempt, id: nat)
    ensures Starts(log + [e], id) == Starts(log, id) + (if e.job.id == id then 1 else 0)
  {
    assert (log + [e])[..|log + [e]| - 1] == log;
  }

  /** A job started from the worker's hands is no job anywhere else. */
  lemma StartCountsOnce(s: State, e: Attempt)
    requires |s.workers| == 1 && OneEach(s) && s.workers[0] == Holding(e.job)
    ensures forall k: Job | Elsewhere(s, k) ::
      Starts(s.log + [e], k.id) == Starts(s.log, k.id)
  {
    forall k: Job | Elsewhere(s, k)
      ensures Starts(s.log + [e], k.id) == Starts(s.log, k.id)
    {
      StartsAppend(s.log, e, k.id);
      HandIsElsewhereAbsent(s, e.job, k);
    }
  }

  lemma CountedStart(s: State, e: Attempt)
    requires |s.workers| == 1 && OneEach(s) && Counted(s) && s.workers[0] == Holding(e.job)
    ensures Counted(s.(log := s.log + [e], workers := [Processing(e.job)]))
  {
    StartsAppend(s.log, e, e.job.id);
    StartCountsOnce(s, e);
    assert PhaseCounted(s.log, s.workers[0]);
    CountedFrame(s, s.(log := s.log + [e], workers := [Processing(e.job)]));
  }

  lemma CountedCheck(s: State)
    requires |s.workers| == 1 && OneEach(s) && Counted(s)
    requires s.workers[0].Holding?
    ensures Counted(Act(s, 0, Check))
  {
    var e := Attempt(s.workers[0].job, s.now);
    if Act(s, 0, Check).workers[0].Processing? {
      StartedEffect(s, e);
      CountedStart(s, e);
    } else {
      CountedUnstarted(s);
    }
  }

  lemma StartedEffect(s: State, e: Attempt)
    requires |s.workers| == 1 && s.workers[0] == Holding(e.job) && e.at == s.now
    requires Act(s, 0, Check).workers[0].Processing?
    ensures Act(s, 0, Check) == s.(log := s.log + [e], workers := [Processing(e.job)])
  {
    assert s.workers[0 := Processing(e.job)] == [Processing(e.job)];
  }

  lemma CountedUnstarted(s: State)
    requires |s.workers| == 1 && Counted(s) && s.workers[0].Holding?
    requires !Act(s, 0, Check).workers[0].Processing?
    ensures Counted(Act(s, 0, Check))
  {
  }

  lemma CountedFrame(s: State, s': State)
    requires |s.workers| == |s'.workers| == 1 && Counted(s)
    requires s'.queues == s.queues && s'.completed == s.completed && s'.dropped == s.dropped
    requires forall k: Job | Elsewhere(s, k) ::
      Starts(s'.log, k.id) == Starts(s.log, k.id)
    requires PhaseCounted(s'.log, s'.workers[0])
    ensures Counted(s')
  {
    forall j | j in s'.queues.delayed ensures Live(s'.log, j) {
      assert Live(s.log, j);
    }
  }

  lemma CountedStep(s: State, t: Step)
    requires |s.workers| == 1 && Timely(s) && OneEach(s) && Counted(s) && PromotionOk(s) && Enabled(s, t)
    ensures Counted(Apply(s, t))
  {
    match t
    case Tick(_) =>
    case Submit(j) => CountedSubmit(s, j);
    case Work(w, a) =>
      if a == Check {
        CountedCheck(s);
      } else {
        CountedWork(s, a);
      }
  }

  lemma CountedSubmit(s: State, j: Job)
    requires |s.workers| == 1 && Timely(s) && Counted(s) && Enabled(s, Submit(j))
    ensures Counted(Apply(s, Submit(j)))
  {
    forall k | 0 <= k < |s.log| ensures s.log[k].job.id != j.id {
      assert AttemptOk(s.submitted, s.now, s.log[k]);
    }
    NoStarts(s.log, j.id);
  }

  lemma CountedWork(s: State, a: Action)
    requires |s.workers| == 1 && Timely(s) && Counted(s) && PromotionOk(s)
    requires Enabled(s, Work(0, a)) && a != Check
    ensures Counted(Act(s, 0, a))
  {
    assert PhaseOk(s.submitted, s.now, s.workers[0]);
    if a == Push {
      assert Live(s.log, s.workers[0].ready[0]);
    } else if a == Pop {
      CountedPop(s);
    }
  }

  lemma CountedPop(s: State)
    requires |s.workers| == 1 && Counted(s) && Enabled(s, Work(0, Pop))
    ensures Counted(Act(s, 0, Pop))
  {
  }

  // ---------------------------------------------------------------------------
  // Runs

  ghost predicate Orderly(s: State) {
    |s.workers| == 1 && Safe(s) && OneEach(s) && PromotionOk(s) && Counted(s)
  }

  lemma OrderlyStep(s: State, t: Step)
    requires Orderly(s) && Enabled(s, t)
    ensures Orderly(Apply(s, t))
  {
    SafeStep(s, t);
    StaysInStep(s);
    OneEachStep(s, t);
    PromotionStep(s, t);
    CountedStep(s, t);
  }

  lemma {:induction false} OrderlyRun(s: State, ts: seq<Step>)
    requires Orderly(s) && IsRun(s, ts)
    ensures Orderly(Final(s, ts))
    decreases |ts|
  {
    if ts != [] {
      OrderlyStep(s, ts[0]);
      OrderlyRun(Apply(s, ts[0]), ts[1..]);
    }
  }

  lemma OrderlyInit(registered: set<string>, now: int)
    ensures Orderly(Init(1, registered, now))
  {
  }

  /** With one worker every submitted job is in exactly one place, in one copy, and
      nothing else is anywhere. */
  lemma ExactlyOnePlace(registered: set<string>, now: int, ts: seq<Step>)
    requires IsRun(Init(1, registered, now), ts)
    ensures |Final(Init(1, registered, now), ts).workers| == 1
    ensures OneEach(Final(Init(1, registered, now), ts))
  {
    OrderlyInit(registered, now);
    OrderlyRun(Init(1, registered, now), ts);
  }

  /** How the attempts started so far bear on where a job can be. */
  lemma AttemptsTellPlace(s: State, j: Job)
    requires |s.workers| == 1 && Counted(s) && Copies(s, j) == 1
    ensures Starts(s.log, j.id) <= Budget(j)
    ensures j in s.queues.dead ==> Starts(s.log, j.id) == Budget(j) && j !in s.completed
    ensures j in s.completed ==> Starts(s.log, j.id) == j.attempts + 1
    ensures Starts(s.log, j.id) == Budget(j) ==>
      j in s.queues.dead || j in s.completed || s.workers[0] in {Processing(j), Burying(j)}
  {
    if j in s.queues.dead {
      assert Exhausted(s.log, j);
      assert j in s.completed ==> Taken(s.log, j);
    } else if j in s.completed {
      assert Taken(s.log, j);
    } else if InHand(s.workers[0]) == Some(j) {
      assert PhaseCounted(s.log, s.workers[0]);
    } else {
      OccursIn(s.queues.list, j);
      OccursIn(s.queues.dead, j);
      OccursIn(s.completed, j);
      OccursIn(s.dropped, j);
      assert Live(s.log, j);
    }
  }

  /** With one worker a job is attempted at most MaxAttempts times. It is in the
      dead-letter list only after exactly that many, none of them successful, and once
      the attempts are used up it is completed, dead, or on the way there. */
  lemma DeadAfterMaxAttempts(registered: set<string>, now: int, ts: seq<Step>, j: Job)
    requires IsRun(Init(1, registered, now), ts)
    requires |Final(Init(1, registered, now), ts).workers| == 1
    requires Copies(Final(Init(1, registered, now), ts), j) == 1
    ensures var s := Final(Init(1, registered, now), ts);
      && Starts(s.log, j.id) <= Budget(j)
      && (j in s.queues.dead ==> Starts(s.log, j.id) == Budget(j) && j !in s.completed)
      && (Starts(s.log, j.id) == Budget(j) ==>
            j in s.queues.dead || j in s.completed || s.workers[0] in {Processing(j), Burying(j)})
  {
    OrderlyInit(registered, now);
    OrderlyRun(Init(1, registered, now), ts);
    AttemptsTellPlace(Final(Init(1, registered, now), ts), j);
  }

  function TotalStarts(ids: seq<nat>, log: seq<Attempt>): nat {
    if ids == [] then 0 else Starts(log, ids[0]) + TotalStarts(ids[1..], log)
  }

  function TotalBudget(ids: seq<nat>, submitted: map<nat, Job>): nat
    requires forall k :: 0 <= k < |ids| ==> ids[k] in submitted
  {
    if ids == [] then 0 else Budget(submitted[ids[0]]) + TotalBudget(ids[1..], submitted)
  }

  lemma {:induction false} TotalStartsSnoc(ids: seq<nat>, log: seq<Attempt>, e: Attempt)
    requires Distinct(ids)
    ensures TotalStarts(ids, log + [e]) == TotalStarts(ids, log) + (if e.job.id in ids then 1 else 0)
  {
    if ids != [] {
      StartsAppend(log, e, ids[0]);
      TotalStartsSnoc(ids[1..], log, e);
      assert ids == [ids[0]] + ids[1..];
    }
  }

  lemma {:induction false} TotalStartsEmpty(ids: seq<nat>)
    ensures TotalStarts(ids, []) == 0
  {
    if ids != [] {
      TotalStartsEmpty(ids[1..]);
    }
  }

  lemma {:induction false} TotalStartsAll(ids: seq<nat>, log: seq<Attempt>)
    requires Distinct(ids) && forall k :: 0 <= k < |log| ==> log[k].job.id in ids
    ensures TotalStarts(ids, log) == |log|
  {
    if log == [] {
      TotalStartsEmpty(ids);
    } else {
      var init := log[..|log| - 1];
      TotalStartsAll(ids, init);
      TotalStartsSnoc(ids, init, log[|log| - 1]);
      assert log == init + [log[|log| - 1]];
    }
  }

  lemma {:induction false} TotalBounded(ids: seq<nat>, submitted: map<nat, Job>, log: seq<Attempt>)
    requires forall k :: 0 <= k < |ids| ==> ids[k] in submitted && Starts(log, ids[k]) <= Budget(submitted[ids[k]])
    ensures TotalStarts(ids, log) <= TotalBudget(ids, submitted)
  {
    if ids != [] {
      TotalBounded(ids[1..], submitted, log);
    }
  }

  lemma PlaceGenuine(s: State, j: Job)
    requires |s.workers| == 1 && Timely(s) && Copies(s, j) == 1
    ensures Genuine(s.submitted, j)
  {
    OccursIn(s.queues.list, j);
    OccursIn(s.queues.dead, j);
    OccursIn(s.completed, j);
    OccursIn(s.dropped, j);
    if InHand(s.workers[0]) == Some(j) {
      assert PhaseOk(s.submitted, s.now, s.workers[0]);
    }
  }

  lemma StartsWithinBudget(s: State, id: nat)
    requires Orderly(s) && id in s.submitted
    ensures Starts(s.log, id) <= Budget(s.submitted[id])
  {
    var j: Job :| j.id == id && Copies(s, j) == 1;
    AttemptsTellPlace(s, j);
    PlaceGenuine(s, j);
  }

  /** Every attempt uses up one unit of a finite budget, the sum of MaxAttempts over
      the submitted jobs, so what is left of it is a termination measure. */
  lemma WorkIsBounded(registered: set<string>, now: int, ts: seq<Step>, ids: seq<nat>)
    requires IsRun(Init(1, registered, now), ts)
    requires Distinct(ids)
    requires forall id :: id in ids <==> id in Final(Init(1, registered, now), ts).submitted
    ensures var s := Final(Init(1, registered, now), ts);
            |s.log| <= TotalBudget(ids, s.submitted)
  {
    OrderlyInit(registered, now);
    OrderlyRun(Init(1, registered, now), ts);
    var s := Final(Init(1, registered, now), ts);
    forall k | 0 <= k < |ids|
      ensures Starts(s.log, ids[k]) <= Budget(s.submitted[ids[k]])
    {
      assert ids[k] in ids;
      StartsWithinBudget(s, ids[k]);
    }
    forall k | 0 <= k < |s.log|
      ensures s.log[k].job.id in ids
    {
      assert AttemptOk(s.submitted, s.now, s.log[k]);
    }
    TotalStartsAll(ids, s.log);
    TotalBounded(ids, s.submitted, s.log);
  }
}
