/** No interleaving of any number of workers loses a job whose type has a processor,
    although promotion copies a job to the list before it removes the original and
    may run on several workers at once. */
module NoLoss {
  import opened Collections
  import opened Redis
  import opened JobQueue

  /** The job will be taken up with the attempts it has now. */
  ghost predicate Active(s: State, j: Job) {
    || j in s.queues.list
    || (exists w :: 0 <= w < |s.workers| && (s.workers[w] == Holding(j) || s.workers[w] == Processing(j)))
  }

  /** The job is in the delayed set, or a worker is about to put it there or in the
      dead-letter list. */
  ghost predicate Waiting(s: State, j: Job) {
    || j in s.queues.delayed
    || (exists w :: 0 <= w < |s.workers| && (s.workers[w] == Parking(j) || s.workers[w] == Burying(j)))
  }

  ghost predicate Settled(s: State, id: nat) {
    || (exists j :: j in s.completed && j.id == id)
    || (exists j :: j in s.queues.dead && j.id == id)
    || (exists j :: j in s.dropped && j.id == id)
  }

  /** A copy that outlives the removal of `r` from the delayed set. */
  ghost predicate Outlives(s: State, r: Job, j: Job) {
    && j.id == r.id
    && ((Active(s, j) && j.attempts >= r.attempts) || (Waiting(s, j) && j.attempts > r.attempts))
  }

  ghost predicate Witnessed(s: State, r: Job) {
    Settled(s, r.id) || exists j :: Outlives(s, r, j)
  }

  ghost predicate Copied(s: State, j: Job) { Active(s, j) || Waiting(s, j) }

  ghost predicate Alive(s: State, id: nat) {
    Settled(s, id) || exists j: Job :: j.id == id && Copied(s, j)
  }

  /** The inductive invariant: every submitted job is accounted for, and every
      pending ZREM leaves something behind. */
  ghost predicate Safe(s: State) {
    && Timely(s)
    && (forall id :: id in s.submitted ==> Alive(s, id))
    && (forall w :: 0 <= w < |s.workers| && s.workers[w].Removing? ==> Witnessed(s, s.workers[w].ready[0]))
  }

  // ---------------------------------------------------------------------------
  // What one step does to one copy

  lemma SettledStays(s: State, t: Step, id: nat)
    requires Timely(s) && Enabled(s, t) && Settled(s, id)
    ensures Settled(Apply(s, t), id)
  {
    var s' := Apply(s, t);
    if j :| j in s.completed && j.id == id {
      assert j in s'.completed;
    } else if j :| j in s.queues.dead && j.id == id {
      assert j in s'.queues.dead;
    } else {
      var j :| j in s.dropped && j.id == id;
      assert j in s'.dropped;
    }
  }

  /** A listed copy stays in the list or is taken by a worker. */
  lemma ListedFollow(s: State, w: nat, a: Action, j: Job)
    requires Enabled(s, Work(w, a)) && j in s.queues.list
    ensures Active(Act(s, w, a), j)
  {
    var s' := Act(s, w, a);
    if s.workers[w] == Fetching {
      var last := s.queues.list[|s.queues.list| - 1];
      assert s.queues.list == s'.queues.list + [last] && s'.workers[w] == Holding(last);
      assert j in s'.queues.list || j == last;
    } else {
      assert j in s'.queues.list;
    }
  }

  /** An active copy stays active, or its job is settled, or it moves on to wait:
      either with one more attempt, or unchanged because it is not due yet. */
  lemma ActiveFollow(s: State, t: Step, j: Job) returns (j': Job)
    requires Timely(s) && Enabled(s, t) && Active(s, j)
    ensures j'.id == j.id
    ensures
      var s' := Apply(s, t);
      || Settled(s', j.id)
      || (Active(s', j') && j' == j)
      || (Waiting(s', j') && j'.attempts > j.attempts)
      || (Waiting(s', j') && j' == j && j.scheduledAt > s.now && ListedOk(s.submitted, s.now, j))
  {
    j' := j;
    var s' := Apply(s, t);
    match t
    case Tick(_) =>
    case Submit(x) =>
      if j in s.queues.list {
        assert j in s'.queues.list;
      }
    case Work(w, a) =>
      var p := s.workers[w];
      if v :| 0 <= v < |s.workers| && v != w && (s.workers[v] == Holding(j) || s.workers[v] == Processing(j)) {
        assert s'.workers[v] == s.workers[v];
      } else if j in s.queues.list {
        ListedFollow(s, w, a, j);
      } else {
        assert p == Holding(j) || p == Processing(j);
        assert PhaseOk(s.submitted, s.now, p);
        match s'.workers[w]
        case Parking(x) => j' := x;
        case Burying(x) => j' := x;
        case Processing(x) =>
        case Top =>
          if a == Succeed {
            assert s'.completed[|s'.completed| - 1] == j;
          } else {
            assert s'.dropped[|s'.dropped| - 1] == j;
          }
    }
  }

  /** A waiting copy stays waiting, or its job is settled, or a ZREM takes it. */
  lemma WaitingFollow(s: State, t: Step, j: Job)
    requires Timely(s) && Enabled(s, t) && Waiting(s, j)
    ensures
      var s' := Apply(s, t);
      || Settled(s', j.id)
      || Waiting(s', j)
      || (t.Work? && t.action == Remove && s.workers[t.w].Removing? && s.workers[t.w].ready[0] == j)
  {
    var s' := Apply(s, t);
    match t
    case Tick(_) =>
    case Submit(_) =>
    case Work(w, a) =>
      if v :| 0 <= v < |s.workers| && v != w && (s.workers[v] == Parking(j) || s.workers[v] == Burying(j)) {
        assert s'.workers[v] == s.workers[v];
      } else if s.workers[w] == Burying(j) {
        assert s'.queues.dead[0] == j;
      } else {
        assert PhaseOk(s.submitted, s.now, s.workers[w]);
      }
  }

  // ---------------------------------------------------------------------------
  // Preservation

  /** A copy of a job whose ZREM is pending is due, so it is never put back
      unchanged: this is where a retry being a different member matters. */
  lemma WitnessFollow(s: State, t: Step, r: Job, j: Job)
    requires Safe(s) && Enabled(s, t)
    requires DueOk(s.submitted, s.now, r) && Outlives(s, r, j)
    ensures Witnessed(Apply(s, t), r)
  {
    var s' := Apply(s, t);
    if Active(s, j) && j.attempts >= r.attempts {
      var j' := ActiveFollow(s, t, j);
      if !Settled(s', j.id) {
        assert !(ListedOk(s.submitted, s.now, j) && j.scheduledAt > s.now);
        assert Outlives(s', r, j');
      }
    } else {
      WaitingFollow(s, t, j);
      if !Settled(s', j.id) {
        if Waiting(s', j) {
          assert Outlives(s', r, j);
        } else {
          var z := s.workers[t.w].ready[0];
          assert PhaseOk(s.submitted, s.now, s.workers[t.w]);
          RemovalLeavesWitness(s, t, z);
          if !Settled(s', z.id) {
            var k :| Outlives(s', z, k);
            assert Outlives(s', r, k);
          }
        }
      }
    }
  }

  /** The ZREM of `z` itself leaves the witness of `z` in place. */
  lemma RemovalLeavesWitness(s: State, t: Step, z: Job)
    requires Safe(s) && Enabled(s, t)
    requires t.Work? && t.action == Remove && s.workers[t.w].Removing? && s.workers[t.w].ready[0] == z
    ensures Witnessed(Apply(s, t), z)
  {
    assert PhaseOk(s.submitted, s.now, s.workers[t.w]);
    if Settled(s, z.id) {
      SettledStays(s, t, z.id);
    } else {
      var j :| Outlives(s, z, j);
      if Active(s, j) && j.attempts >= z.attempts {
        var j' := ActiveFollow(s, t, j);
        assert Outlives(Apply(s, t), z, j');
      } else {
        WaitingFollow(s, t, j);
        assert Outlives(Apply(s, t), z, j);
      }
    }
  }

  lemma WitnessStep(s: State, t: Step, w: nat)
    requires Safe(s) && Enabled(s, t)
    requires w < |s.workers| && Apply(s, t).workers[w].Removing?
    ensures Witnessed(Apply(s, t), Apply(s, t).workers[w].ready[0])
  {
    var s' := Apply(s, t);
    var r := s'.workers[w].ready[0];
    assert PhaseOk(s.submitted, s.now, s.workers[w]);
    if s.workers[w].Removing? && s.workers[w].ready[0] == r {
      if Settled(s, r.id) {
        SettledStays(s, t, r.id);
      } else {
        var j :| Outlives(s, r, j);
        WitnessFollow(s, t, r, j);
      }
    } else {
      assert t == Work(w, Push) && s.workers[w].ready[0] == r;
      assert s'.queues.list[0] == r;
      assert Outlives(s', r, r);
    }
  }

  lemma AliveStep(s: State, t: Step, id: nat)
    requires Safe(s) && Enabled(s, t) && id in Apply(s, t).submitted
    ensures Alive(Apply(s, t), id)
  {
    var s' := Apply(s, t);
    if id !in s.submitted {
      assert s'.queues.list[0].id == id;
      assert Copied(s', s'.queues.list[0]);
    } else if Settled(s, id) {
      SettledStays(s, t, id);
    } else {
      var j: Job :| j.id == id && Copied(s, j);
      if Active(s, j) {
        var j' := ActiveFollow(s, t, j);
        assert Settled(s', id) || Copied(s', j');
      } else {
        WaitingFollow(s, t, j);
        if !Settled(s', id) && !Waiting(s', j) {
          RemovalLeavesWitness(s, t, j);
          if !Settled(s', id) {
            var k :| Outlives(s', j, k);
            assert Copied(s', k);
          }
        } else {
          assert Settled(s', id) || Copied(s', j);
        }
      }
    }
  }

  lemma SafeStep(s: State, t: Step)
    requires Safe(s) && Enabled(s, t)
    ensures Safe(Apply(s, t))
  {
    var s' := Apply(s, t);
    TimelyStep(s, t);
    assert |s'.workers| == |s.workers|;
    forall id | id in s'.submitted
      ensures Alive(s', id)
    {
      AliveStep(s, t, id);
    }
    forall w | 0 <= w < |s'.workers| && s'.workers[w].Removing?
      ensures Witnessed(s', s'.workers[w].ready[0])
    {
      WitnessStep(s, t, w);
    }
  }

  lemma {:induction false} SafeRun(s: State, ts: seq<Step>)
    requires Safe(s) && IsRun(s, ts)
    ensures Safe(Final(s, ts))
    ensures Final(s, ts).registered == s.registered
    decreases |ts|
  {
    if ts != [] {
      SafeStep(s, ts[0]);
      SafeRun(Apply(s, ts[0]), ts[1..]);
    }
  }

  // ---------------------------------------------------------------------------
  // Main results

  /** A copy of the job exists somewhere a worker will find it, or has it in hand. */
  ghost predicate InCirculation(s: State, id: nat) {
    exists j: Job :: j.id == id && Copied(s, j)
  }

  ghost predicate Finished(s: State, id: nat) {
    || (exists j :: j in s.completed && j.id == id)
    || (exists j :: j in s.queues.dead && j.id == id)
  }

  /** In every reachable state, for any number of workers and any interleaving, a
      submitted job whose type has a processor is completed, dead-lettered or still
      in circulation. */
  lemma NoJobLost(n: nat, registered: set<string>, now: int, ts: seq<Step>, id: nat)
    requires IsRun(Init(n, registered, now), ts)
    requires id in Final(Init(n, registered, now), ts).submitted
    requires Final(Init(n, registered, now), ts).submitted[id].kind in registered
    ensures var s := Final(Init(n, registered, now), ts);
            Finished(s, id) || InCirculation(s, id)
  {
    SafeRun(Init(n, registered, now), ts);
    var s := Final(Init(n, registered, now), ts);
    assert Alive(s, id);
    forall j | j in s.dropped
      ensures j.id != id
    {
      assert Genuine(s.submitted, j) && j.kind !in s.registered;
    }
  }

  /** In every reachable state a job with `a` attempts that is in the list, in the
      delayed set, being worked on or about to be delayed again is scheduled at least
      5a(a+1)/2 seconds after its creation; a delayed member has its schedule as score;
      and no attempt was started before its schedule. */
  lemma BackoffHolds(n: nat, registered: set<string>, now: int, ts: seq<Step>)
    requires IsRun(Init(n, registered, now), ts)
    ensures var s := Final(Init(n, registered, now), ts);
      && (forall j :: j in s.queues.list || j in s.queues.delayed ==> SpacedBy(j, j.scheduledAt))
      && (forall w :: 0 <= w < |s.workers| && InTurn(s.workers[w]) ==>
            SpacedBy(s.workers[w].job, s.workers[w].job.scheduledAt))
      && (forall j :: j in s.queues.delayed ==> s.queues.delayed[j] == j.scheduledAt)
      && (forall e :: e in s.log ==> e.at >= e.job.scheduledAt && SpacedBy(e.job, e.at))
  {
    SafeRun(Init(n, registered, now), ts);
    var s := Final(Init(n, registered, now), ts);
    QueuesSpaced(s);
    WorkersSpaced(s);
    LogSpaced(s);
  }

  /** `at` is at least 5a(a+1)/2 seconds after the creation of a job with `a` attempts. */
  predicate SpacedBy(j: Job, at: int) {
    j.attempts >= 0 && 2 * (at - j.createdAt) >= 5 * j.attempts * (j.attempts + 1)
  }

  /** The worker has a job that it is to start, has started, or is to delay again. */
  predicate InTurn(p: Phase) { p.Holding? || p.Processing? || p.Parking? }

  lemma QueuesSpaced(s: State)
    requires Timely(s)
    ensures forall j :: j in s.queues.list || j in s.queues.delayed ==> SpacedBy(j, j.scheduledAt)
  {
    forall j | j in s.queues.list || j in s.queues.delayed
      ensures SpacedBy(j, j.scheduledAt)
    {
      assert WaitingOk(s.submitted, j);
      BackedOffBy(j, j.scheduledAt);
    }
  }

  lemma WorkersSpaced(s: State)
    requires Timely(s)
    ensures forall w :: 0 <= w < |s.workers| && InTurn(s.workers[w]) ==>
      SpacedBy(s.workers[w].job, s.workers[w].job.scheduledAt)
  {
    forall w | 0 <= w < |s.workers| && InTurn(s.workers[w])
      ensures SpacedBy(s.workers[w].job, s.workers[w].job.scheduledAt)
    {
      assert PhaseOk(s.submitted, s.now, s.workers[w]);
      BackedOffBy(s.workers[w].job, s.workers[w].job.scheduledAt);
    }
  }

  lemma LogSpaced(s: State)
    requires Timely(s)
    ensures forall e :: e in s.log ==> e.at >= e.job.scheduledAt && SpacedBy(e.job, e.at)
  {
    forall e | e in s.log
      ensures e.at >= e.job.scheduledAt && SpacedBy(e.job, e.at)
    {
      assert AttemptOk(s.submitted, s.now, e);
      BackedOffBy(e.job, e.at);
    }
  }

  lemma BackedOffBy(j: Job, at: int)
    requires BackedOff(j) && at >= j.scheduledAt
    ensures SpacedBy(j, at)
  {
    BackoffClosedForm(j.attempts);
  }

  /** When a worker's attempt fails at some time and attempts are left: in every later state
      in which the retried job is delayed, a ZRANGEBYSCORE reply lists it exactly when the
      bound is at least that time plus five seconds per attempt. */
  lemma RetryDueExactly(n: nat, registered: set<string>, now: int, before: seq<Step>, w: nat, after: seq<Step>,
                        maxScore: int, reply: seq<Job>)
    requires IsRun(Init(n, registered, now), before)
    requires var s := Final(Init(n, registered, now), before);
      && Enabled(s, Work(w, Fail)) && IsRun(Act(s, w, Fail), after)
      && IsRange(Final(Act(s, w, Fail), after).queues.delayed, maxScore, reply)
    ensures var s := Final(Init(n, registered, now), before);
      var j := s.workers[w].job;
      var due := s.now + 5 * (j.attempts + 1);
      var r := j.(attempts := j.attempts + 1, scheduledAt := due);
      j.attempts + 1 < j.maxAttempts ==>
        && Act(s, w, Fail).workers[w] == Parking(r)
        && (r in Final(Act(s, w, Fail), after).queues.delayed ==> (r in reply <==> maxScore >= due))
  {
    var s := Final(Init(n, registered, now), before);
    SafeRun(Init(n, registered, now), before);
    FailMoves(s, w);
    SafeStep(s, Work(w, Fail));
    SafeRun(Act(s, w, Fail), after);
    ListedExactly(Final(Act(s, w, Fail), after), maxScore, reply);
  }

  lemma ListedExactly(s: State, maxScore: int, reply: seq<Job>)
    requires Timely(s) && IsRange(s.queues.delayed, maxScore, reply)
    ensures forall r :: r in s.queues.delayed ==> (r in reply <==> maxScore >= r.scheduledAt)
  {
    forall r | r in s.queues.delayed
      ensures r in reply <==> maxScore >= r.scheduledAt
    {
      assert r in reply <==> r in Elements(reply);
    }
  }

  /** The hypothesis about processors is needed: a worker drops a due job of a type
      it has no processor for, and nothing of it remains. */
  lemma UnregisteredJobIsLost(n: nat, registered: set<string>, j: Job)
    requires n > 0 && j.kind !in registered && j.attempts == 0 && j.createdAt <= j.scheduledAt <= 0
    ensures
      var ts := [Submit(j), Work(0, ReadClock), Work(0, Snapshot([])), Work(0, Pop), Work(0, Check)];
      && IsRun(Init(n, registered, 0), ts)
      && var s := Final(Init(n, registered, 0), ts);
         j.id in s.submitted && s.submitted[j.id] == j && !Finished(s, j.id) && !InCirculation(s, j.id)
  {
    var s0 := Init(n, registered, 0);
    var idle := seq(n, _ => Top);
    var s1 := s0.(queues := Queues([j], map[], []), submitted := map[j.id := j]);
    var s2 := s1.(workers := idle[0 := Polling(0)]);
    var s3 := s1.(workers := idle[0 := Fetching]);
    var s4 := s1.(queues := Queues([], map[], []), workers := idle[0 := Holding(j)]);
    var s5 := s4.(workers := idle, dropped := [j]);
    FirstDropSteps(s0, s1, s2, s3, j);
    LastDropSteps(s3, s4, s5, j);
    NothingLeft(s5, n, j);
    RunFive(s0, [Submit(j), Work(0, ReadClock), Work(0, Snapshot([])), Work(0, Pop), Work(0, Check)], s1, s2, s3, s4, s5);
  }

  lemma FirstDropSteps(s0: State, s1: State, s2: State, s3: State, j: Job)
    requires |s0.workers| > 0 && s0.workers[0] == Top && s0.queues == Queues([], map[], []) && s0.submitted == map[]
    requires j.attempts == 0 && j.createdAt <= s0.now && j.createdAt <= j.scheduledAt
    requires s1 == s0.(queues := Queues([j], map[], []), submitted := map[j.id := j])
    requires s2 == s1.(workers := s0.workers[0 := Polling(s0.now)]) && s3 == s1.(workers := s0.workers[0 := Fetching])
    ensures Enabled(s0, Submit(j)) && s1 == Apply(s0, Submit(j))
    ensures Enabled(s1, Work(0, ReadClock)) && s2 == Apply(s1, Work(0, ReadClock))
    ensures Enabled(s2, Work(0, Snapshot([]))) && s3 == Apply(s2, Work(0, Snapshot([])))
  {
    assert [j] + [] == [j];
  }

  lemma LastDropSteps(s3: State, s4: State, s5: State, j: Job)
    requires |s3.workers| > 0 && s3.workers[0] == Fetching && s3.queues == Queues([j], map[], [])
    requires j.kind !in s3.registered && j.scheduledAt <= s3.now && s3.dropped == []
    requires s4 == s3.(queues := Queues([], map[], []), workers := s3.workers[0 := Holding(j)])
    requires s5 == s4.(workers := s3.workers[0 := Top], dropped := [j])
    ensures Enabled(s3, Work(0, Pop)) && s4 == Apply(s3, Work(0, Pop))
    ensures Enabled(s4, Work(0, Check)) && s5 == Apply(s4, Work(0, Check))
  {
    assert [j][..0] == [] && [] + [j] == [j];
  }

  lemma NothingLeft(s: State, n: nat, j: Job)
    requires s.queues == Queues([], map[], []) && s.workers == seq(n, _ => Top) && s.completed == []
    ensures !Finished(s, j.id) && !InCirculation(s, j.id)
  {
  }

  /** No run of `n` workers loses a job of this type. */
  ghost predicate Lossless(n: nat, registered: set<string>, kind: string) {
    forall now, ts, id ::
      IsRun(Init(n, registered, now), ts)
      && id in Final(Init(n, registered, now), ts).submitted
      && Final(Init(n, registered, now), ts).submitted[id].kind == kind ==>
        Finished(Final(Init(n, registered, now), ts), id) || InCirculation(Final(Init(n, registered, now), ts), id)
  }

  /** Having a processor is exactly what keeps the jobs of a type from being lost. */
  lemma LosslessExactly(n: nat, registered: set<string>, kind: string)
    requires n > 0
    ensures Lossless(n, registered, kind) <==> kind in registered
  {
    if kind in registered {
      forall now, ts, id |
        IsRun(Init(n, registered, now), ts)
        && id in Final(Init(n, registered, now), ts).submitted
        && Final(Init(n, registered, now), ts).submitted[id].kind == kind
        ensures Finished(Final(Init(n, registered, now), ts), id) || InCirculation(Final(Init(n, registered, now), ts), id)
      {
        NoJobLost(n, registered, now, ts, id);
      }
    } else {
      UnregisteredJobIsLost(n, registered, Job(0, kind, "", 0, 3, 0, 0));
    }
  }

  /** Unfolds a run of five steps. */
  lemma RunFive(s0: State, ts: seq<Step>, s1: State, s2: State, s3: State, s4: State, s5: State)
    requires |ts| == 5
    requires Enabled(s0, ts[0]) && s1 == Apply(s0, ts[0])
    requires Enabled(s1, ts[1]) && s2 == Apply(s1, ts[1])
    requires Enabled(s2, ts[2]) && s3 == Apply(s2, ts[2])
    requires Enabled(s3, ts[3]) && s4 == Apply(s3, ts[3])
    requires Enabled(s4, ts[4]) && s5 == Apply(s4, ts[4])
    ensures IsRun(s0, ts) && Final(s0, ts) == s5
  {
    assert ts[4..][1..] == [] && ts[4..][0] == ts[4];
    assert IsRun(s4, ts[4..]) && Final(s4, ts[4..]) == s5;
    assert ts[3..][1..] == ts[4..] && ts[3..][0] == ts[3];
    assert IsRun(s3, ts[3..]) && Final(s3, ts[3..]) == s5;
    assert ts[2..][1..] == ts[3..] && ts[2..][0] == ts[2];
    assert IsRun(s2, ts[2..]) && Final(s2, ts[2..]) == s5;
    assert ts[1..][1..] == ts[2..] && ts[1..][0] == ts[1];
    assert IsRun(s1, ts[1..]) && Final(s1, ts[1..]) == s5;
  }
}
