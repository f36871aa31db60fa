/** The worker loop itself, over a Redis client whose queues nobody else touches
    while the loop turns. Every turn is a run of the transition system. */
module Worker {
  import opened Collections
  import opened Redis
  import opened JobQueue

  /** What a turn of the loop reads from outside: the clock, three times, and
      whether the processor returns an error. */
  datatype Turn = Turn(polledAt: int, checkedAt: int, finishedAt: int, succeeds: bool)

  datatype Outcome = Idle | Postponed(job: Job) | Dropped(job: Job) | Completed(job: Job) | Retry(job: Job) | DeadLetter(job: Job)

  /** What a turn adds to the completed, dropped and dead-lettered jobs. */
  ghost predicate Records(s: State, out: Outcome, cur: State) {
    && cur.completed == s.completed + (if out.Completed? then [out.job] else [])
    && cur.dropped == s.dropped + (if out.Dropped? then [out.job] else [])
    && cur.queues.dead == (if out.DeadLetter? then [out.job] else []) + s.queues.dead
  }

  function CompletedIn(outs: seq<Outcome>): seq<Job> {
    if outs == [] then []
    else
      var out := outs[|outs| - 1];
      CompletedIn(outs[..|outs| - 1]) + (if out.Completed? then [out.job] else [])
  }

  function DroppedIn(outs: seq<Outcome>): seq<Job> {
    if outs == [] then []
    else
      var out := outs[|outs| - 1];
      DroppedIn(outs[..|outs| - 1]) + (if out.Dropped? then [out.job] else [])
  }

  /** Newest first, as the dead-letter list has them. */
  function DeadIn(outs: seq<Outcome>): seq<Job> {
    if outs == [] then []
    else
      var out := outs[|outs| - 1];
      (if out.DeadLetter? then [out.job] else []) + DeadIn(outs[..|outs| - 1])
  }

  /** What turns with these outcomes add. */
  ghost predicate AllRecorded(s: State, outs: seq<Outcome>, cur: State) {
    && cur.completed == s.completed + CompletedIn(outs)
    && cur.dropped == s.dropped + DroppedIn(outs)
    && cur.queues.dead == DeadIn(outs) + s.queues.dead
  }

  lemma RecordedNext(s: State, outs: seq<Outcome>, mid: State, out: Outcome, cur: State)
    requires AllRecorded(s, outs, mid) && Records(mid, out, cur)
    ensures AllRecorded(s, outs + [out], cur)
  {
    assert (outs + [out])[..|outs + [out]| - 1] == outs;
  }

  ghost predicate InOrder(now: int, turn: Turn) {
    now <= turn.polledAt <= turn.checkedAt <= turn.finishedAt
  }

  /** When the turn before turn `k` ended. */
  ghost function Since(now: int, turns: seq<Turn>, k: nat): int
    requires k <= |turns|
  {
    if k == 0 then now else turns[k - 1].finishedAt
  }

  ghost predicate OwnSteps(w: nat, ts: seq<Step>) {
    forall k :: 0 <= k < |ts| ==> ts[k].Tick? || (ts[k].Work? && ts[k].w == w)
  }

  lemma {:induction false} RunAppend(s: State, a: seq<Step>, b: seq<Step>)
    requires IsRun(s, a) && IsRun(Final(s, a), b)
    ensures IsRun(s, a + b) && Final(s, a + b) == Final(Final(s, a), b)
    decreases |a|
  {
    if a == [] {
      assert a + b == b;
    } else {
      RunAppend(Apply(s, a[0]), a[1..], b);
      assert (a + b)[1..] == a[1..] + b;
    }
  }

  lemma RunSnoc(s: State, ts: seq<Step>, t: Step)
    requires IsRun(s, ts) && Enabled(Final(s, ts), t)
    ensures IsRun(s, ts + [t]) && Final(s, ts + [t]) == Apply(Final(s, ts), t)
  {
    RunOne(Final(s, ts), [t]);
    RunAppend(s, ts, [t]);
  }

  lemma RunOne(s: State, ts: seq<Step>)
    requires |ts| == 1 && Enabled(s, ts[0])
    ensures IsRun(s, ts) && Final(s, ts) == Apply(s, ts[0])
  {
    var s' := Apply(s, ts[0]);
    assert ts[1..] == [];
    assert IsRun(s', ts[1..]) && Final(s', ts[1..]) == s';
  }

  function PromotionSteps(w: nat, n: nat): seq<Step> {
    if n == 0 then [] else [Work(w, Push), Work(w, Remove)] + PromotionSteps(w, n - 1)
  }

  /** Undisturbed, the two commands per item amount to `Promoted`. */
  lemma {:induction false} PromotionRun(s: State, w: nat, items: seq<Job>)
    requires w < |s.workers| && s.workers[w] == Promoting(items)
    ensures IsRun(s, PromotionSteps(w, |items|)) && OwnSteps(w, PromotionSteps(w, |items|))
    ensures Final(s, PromotionSteps(w, |items|)) == Goto(s.(queues := Promoted(s.queues, items)), w, Fetching)
    decreases |items|
  {
    if items == [] {
      assert s.workers[w := Fetching] == s.workers;
    } else {
      var s1 := Apply(s, Work(w, Push));
      var s2 := Apply(s1, Work(w, Remove));
      var rest := PromotionSteps(w, |items| - 1);
      var ts := PromotionSteps(w, |items|);
      PromotionRun(s2, w, items[1..]);
      assert ts[1..][1..] == rest && ts[0] == Work(w, Push) && ts[1..][0] == Work(w, Remove);
      assert IsRun(s1, ts[1..]);
      assert s2.workers[w := Fetching] == s.workers[w := Fetching];
    }
  }

  /** A run by worker `w` alone, so far. */
  ghost predicate Reached(s: State, w: nat, ts: seq<Step>, cur: State) {
    IsRun(s, ts) && OwnSteps(w, ts) && Final(s, ts) == cur
  }

  lemma ReachTick(s: State, w: nat, ts: seq<Step>, cur: State, to: int)
    requires Reached(s, w, ts, cur) && cur.now <= to
    ensures Reached(s, w, ts + [Tick(to)], cur.(now := to))
  {
    RunSnoc(s, ts, Tick(to));
  }

  lemma ReachWork(s: State, w: nat, ts: seq<Step>, cur: State, a: Action)
    requires Reached(s, w, ts, cur) && Enabled(cur, Work(w, a))
    ensures Reached(s, w, ts + [Work(w, a)], Act(cur, w, a))
  {
    RunSnoc(s, ts, Work(w, a));
  }

  lemma ReachPromotion(s: State, w: nat, ts: seq<Step>, cur: State, ready: seq<Job>)
    requires Reached(s, w, ts, cur) && w < |cur.workers| && cur.workers[w] == Promoting(ready)
    ensures Reached(s, w, ts + PromotionSteps(w, |ready|), Goto(cur.(queues := Promoted(cur.queues, ready)), w, Fetching))
  {
    PromotionRun(cur, w, ready);
    RunAppend(s, ts, PromotionSteps(w, |ready|));
  }

  lemma ReachAppend(s: State, w: nat, ts: seq<Step>, mid: State, more: seq<Step>, cur: State)
    requires Reached(s, w, ts, mid) && Reached(mid, w, more, cur)
    ensures Reached(s, w, ts + more, cur)
  {
    RunAppend(s, ts, more);
  }

  class Pool {
    const registered: set<string>
    const redis: Client<Job>

    constructor (registered: set<string>, redis: Client<Job>)
      ensures this.registered == registered && this.redis == redis
    {
      this.registered := registered;
      this.redis := redis;
    }

    /** Queues a new job, due at once; the two fields come from two clock readings. */
    method Enqueue(id: nat, kind: string, payload: string, createdAt: int, scheduledAt: int, ghost s: State)
      requires s.queues == redis.Contents() && id !in s.submitted
      requires createdAt <= scheduledAt <= s.now
      modifies redis
      ensures var t := Submit(Job(id, kind, payload, 0, 3, createdAt, scheduledAt));
              Enabled(s, t) && redis.Contents() == Apply(s, t).queues
      ensures redis.list == [Job(id, kind, payload, 0, 3, createdAt, scheduledAt)] + old(redis.list)
    {
      redis.Enqueue(Job(id, kind, payload, 0, 3, createdAt, scheduledAt));
    }

    /** Promotes what is due. */
    method Promote(turn: Turn, ghost s: State, ghost w: nat) returns (ghost ts: seq<Step>, ghost cur: State)
      requires w < |s.workers| && s.workers[w] == Top && s.queues == redis.Contents()
      requires s.now <= turn.polledAt
      modifies redis
      ensures Reached(s, w, ts, cur) && cur.queues == redis.Contents()
      ensures cur == s.(now := turn.polledAt, queues := cur.queues, workers := s.workers[w := Fetching])
      ensures cur.queues.dead == s.queues.dead
      ensures forall x :: x in cur.queues.delayed <==> x in s.queues.delayed && s.queues.delayed[x] > turn.polledAt
      ensures exists due :: cur.queues.list == due + s.queues.list
                && forall x :: x in due <==> x in s.queues.delayed && s.queues.delayed[x] <= turn.polledAt
    {
      ts, cur := [], s;
      ReachTick(s, w, ts, cur, turn.polledAt);
      ts, cur := ts + [Tick(turn.polledAt)], cur.(now := turn.polledAt);
      ReachWork(s, w, ts, cur, ReadClock);
      ts, cur := ts + [Work(w, ReadClock)], Act(cur, w, ReadClock);

      var ready := redis.PromoteReadyDelayed(turn.polledAt);
      ReachWork(s, w, ts, cur, Snapshot(ready));
      ts, cur := ts + [Work(w, Snapshot(ready))], Act(cur, w, Snapshot(ready));
      PromotedDue(cur.queues, turn.polledAt, ready);
      ReachPromotion(s, w, ts, cur, ready);
      ts, cur := ts + PromotionSteps(w, |ready|), Goto(cur.(queues := Promoted(cur.queues, ready)), w, Fetching);
    }

    /** The first half of a turn: promote what is due, then take a job. */
    method Fetch(turn: Turn, ghost s: State, ghost w: nat) returns (taken: Option<Job>, ghost ts: seq<Step>, ghost cur: State)
      requires w < |s.workers| && s.workers[w] == Top && s.queues == redis.Contents()
      requires s.now <= turn.polledAt
      modifies redis
      ensures Reached(s, w, ts, cur) && cur.queues == redis.Contents()
      ensures cur.workers == s.workers[w := match taken case Some(j) => Holding(j) case None => Top]
      ensures cur == s.(now := turn.polledAt, queues := cur.queues, workers := cur.workers)
      ensures cur.queues.dead == s.queues.dead
    {
      ts, cur := Promote(turn, s, w);
      taken := redis.Dequeue();
      ReachWork(s, w, ts, cur, Pop);
      ts, cur := ts + [Work(w, Pop)], Act(cur, w, Pop);
      assert taken.Some? ==> redis.list == (redis.list + [taken.value])[..|redis.list|];
    }

    /** After the processor has returned: a failed job is put back or goes to the
        dead-letter list. */
    method Finish(j: Job, turn: Turn, ghost s: State, ghost w: nat) returns (out: Outcome, ghost ts: seq<Step>, ghost cur: State)
      requires w < |s.workers| && s.workers[w] == Processing(j) && s.queues == redis.Contents()
      requires s.now <= turn.finishedAt
      modifies redis
      ensures Reached(s, w, ts, cur) && cur.queues == redis.Contents()
      ensures cur.workers == s.workers[w := Top] && cur.now == turn.finishedAt && Records(s, out, cur)
      ensures match out
              case Completed(x) => x == j && turn.succeeds && cur.completed == s.completed + [x] && cur.queues == s.queues
              case Retry(x) =>
                var due := turn.finishedAt + 5 * (j.attempts + 1);
                && !turn.succeeds && j.attempts + 1 < j.maxAttempts
                && x == j.(attempts := j.attempts + 1, scheduledAt := due)
                && cur.queues == s.queues.(delayed := s.queues.delayed[x := due]) && cur.completed == s.completed
              case DeadLetter(x) =>
                && !turn.succeeds && j.attempts + 1 >= j.maxAttempts
                && x == j.(attempts := j.attempts + 1)
                && cur.queues == s.queues.(dead := [x] + s.queues.dead) && cur.completed == s.completed
              case _ => false
    {
      ts, cur := [], s;
      ReachTick(s, w, ts, cur, turn.finishedAt);
      ts, cur := ts + [Tick(turn.finishedAt)], cur.(now := turn.finishedAt);
      if turn.succeeds {
        ReachWork(s, w, ts, cur, Succeed);
        return Completed(j), ts + [Work(w, Succeed)], Act(cur, w, Succeed);
      }
      ReachWork(s, w, ts, cur, Fail);
      ts, cur := ts + [Work(w, Fail)], Act(cur, w, Fail);
      var job := j.(attempts := j.attempts + 1);
      if job.attempts < job.maxAttempts {
        job := job.(scheduledAt := turn.finishedAt + job.attempts * 5);
        redis.EnqueueDelayed(job, job.scheduledAt);
        ReachWork(s, w, ts, cur, Park);
        return Retry(job), ts + [Work(w, Park)], Act(cur, w, Park);
      }
      redis.EnqueueDead(job);
      ReachWork(s, w, ts, cur, Bury);
      return DeadLetter(job), ts + [Work(w, Bury)], Act(cur, w, Bury);
    }

    /** The second half of a turn: check the schedule, then process the job. */
    method Handle(j: Job, turn: Turn, ghost s: State, ghost w: nat) returns (out: Outcome, ghost ts: seq<Step>, ghost cur: State)
      requires w < |s.workers| && s.workers[w] == Holding(j) && s.queues == redis.Contents()
      requires s.registered == registered
      requires s.now <= turn.checkedAt <= turn.finishedAt
      modifies redis
      ensures Reached(s, w, ts, cur) && cur.queues == redis.Contents()
      ensures cur.workers == s.workers[w := Top] && cur.now <= turn.finishedAt && Records(s, out, cur)
      ensures out.Postponed? <==> turn.checkedAt < j.scheduledAt
      ensures out.Dropped? <==> j.scheduledAt <= turn.checkedAt && j.kind !in registered
      ensures match out
              case Idle => false
              case Postponed(x) =>
                && x == j && turn.checkedAt < j.scheduledAt
                && cur.queues == s.queues.(delayed := s.queues.delayed[j := j.scheduledAt])
              case Dropped(x) => x == j && x.kind !in registered && cur.dropped == s.dropped + [x] && cur.queues == s.queues
              case Completed(x) => x == j && turn.succeeds && cur.completed == s.completed + [x] && cur.queues == s.queues
              case Retry(x) =>
                var due := turn.finishedAt + 5 * (j.attempts + 1);
                && !turn.succeeds && j.attempts + 1 < j.maxAttempts
                && x == j.(attempts := j.attempts + 1, scheduledAt := due)
                && cur.queues == s.queues.(delayed := s.queues.delayed[x := due]) && cur.completed == s.completed
              case DeadLetter(x) =>
                && !turn.succeeds && j.attempts + 1 >= j.maxAttempts
                && x == j.(attempts := j.attempts + 1)
                && cur.queues == s.queues.(dead := [x] + s.queues.dead) && cur.completed == s.completed
    {
      ts, cur := [], s;
      ReachTick(s, w, ts, cur, turn.checkedAt);
      ts, cur := ts + [Tick(turn.checkedAt)], cur.(now := turn.checkedAt);
      ReachWork(s, w, ts, cur, Check);
      ts, cur := ts + [Work(w, Check)], Act(cur, w, Check);

      if j.scheduledAt > turn.checkedAt {
        redis.EnqueueDelayed(j, j.scheduledAt);
        ReachWork(s, w, ts, cur, Park);
        return Postponed(j), ts + [Work(w, Park)], Act(cur, w, Park);
      }
      if j.kind !in registered {
        return Dropped(j), ts, cur;
      }
      ghost var before := ts;
      out, ts, cur := Finish(j, turn, cur, w);
      RunAppend(s, before, ts);
      ts := before + ts;
    }

    /** One turn of the loop. */
    method OneTurn(turn: Turn, ghost s: State, ghost w: nat) returns (out: Outcome, ghost ts: seq<Step>, ghost cur: State)
      requires w < |s.workers| && s.workers[w] == Top && s.queues == redis.Contents()
      requires s.registered == registered && InOrder(s.now, turn)
      modifies redis
      ensures Reached(s, w, ts, cur) && cur.queues == redis.Contents() && cur.workers == s.workers
      ensures cur.registered == s.registered && cur.now <= turn.finishedAt && Records(s, out, cur)
    {
      var taken;
      taken, ts, cur := Fetch(turn, s, w);
      out := Idle;
      if taken.Some? {
        ghost var before, fetched := ts, cur;
        out, ts, cur := Handle(taken.value, turn, fetched, w);
        RegisteredKept(fetched, ts);
        RunAppend(s, before, ts);
        ts := before + ts;
      }
      assert s.workers[w := Top] == s.workers;
    }

    /** The loop, for as many turns as there are inputs. */
    method Run(turns: seq<Turn>, ghost s: State, ghost w: nat) returns (outs: seq<Outcome>, ghost ts: seq<Step>, ghost cur: State)
      requires w < |s.workers| && s.workers[w] == Top && s.queues == redis.Contents()
      requires s.registered == registered
      requires forall k :: 0 <= k < |turns| ==> InOrder(Since(s.now, turns, k), turns[k])
      modifies redis
      ensures Reached(s, w, ts, cur) && cur.queues == redis.Contents() && cur.workers == s.workers
      ensures |outs| == |turns| && AllRecorded(s, outs, cur)
    {
      outs, ts, cur := [], [], s;
      var i := 0;
      while i < |turns|
        invariant 0 <= i <= |turns| && |outs| == i
        invariant Reached(s, w, ts, cur) && cur.queues == redis.Contents() && cur.workers == s.workers
        invariant cur.registered == s.registered && AllRecorded(s, outs, cur)
        invariant cur.now <= Since(s.now, turns, i)
      {
        assert InOrder(Since(s.now, turns, i), turns[i]);
        var out, more, next := OneTurn(turns[i], cur, w);
        RecordedNext(s, outs, cur, out, next);
        ReachAppend(s, w, ts, cur, more, next);
        outs, ts, cur := outs + [out], ts + more, next;
        i := i + 1;
      }
    }
  }

  lemma {:induction false} RegisteredKept(s: State, ts: seq<Step>)
    requires IsRun(s, ts)
    ensures Final(s, ts).registered == s.registered
    decreases |ts|
  {
    if ts != [] {
      RegisteredKept(Apply(s, ts[0]), ts[1..]);
    }
  }
}
