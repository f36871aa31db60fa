/** With one worker, jobs promoted together are taken from the list in due order, in every
    run, whatever producers push between the promotion's single commands. */
module DueOrder {
  import opened Collections
  import opened Redis
  import opened JobQueue
  import opened SingleWorker

  /** What a promotion has still to push. */
  function Pending(p: Phase): seq<Job> {
    match p
    case Pushing(items) => items
    case Removing(items) => if items == [] then [] else items[1..]
    case _ => []
  }

  /** Nearer the right end of the list, at which jobs are taken, than any `y` is an `x`. */
  ghost predicate Behind(list: seq<Job>, y: Job, x: Job) {
    forall k :: 0 <= k < |list| && list[k] == y ==> exists l :: k < l < |list| && list[l] == x
  }

  /** `y` is still to be pushed only when `x` is in the list or to be pushed before it. */
  ghost predicate PushedAfter(pending: seq<Job>, list: seq<Job>, y: Job, x: Job) {
    forall q :: 0 <= q < |pending| && pending[q] == y ==> x in list || exists p :: 0 <= p < q && pending[p] == x
  }

  /** `x` will be taken before `y` is. */
  ghost predicate Ahead(s: State, x: Job, y: Job)
    requires |s.workers| == 1
  {
    && x != y && y.id in s.submitted
    && Behind(s.queues.list, y, x)
    && PushedAfter(Pending(s.workers[0]), s.queues.list, y, x)
    && (y in s.queues.list || y in Pending(s.workers[0]))
  }

  /** The job a step takes from the list, if it does. */
  function Taken(s: State, t: Step): Option<Job> {
    if t == Work(0, Pop) && |s.workers| == 1 && s.workers[0].Fetching? && s.queues.list != []
    then Some(s.queues.list[|s.queues.list| - 1]) else None
  }

  /** A delayed job is in no other place. */
  lemma DelayedIsElsewhereAbsent(s: State, y: Job)
    requires |s.workers| == 1 && OneEach(s) && PendingZRem(s.workers[0]) == {} && y in s.queues.delayed
    ensures y !in s.queues.list && y.id in s.submitted
  {
    OccursIn(s.queues.list, y);
    assert Copies(s, y) <= 1;
  }

  /** After the snapshot of a promotion, an earlier item of the reply will be taken before
      a later one, and is due no later. */
  lemma SnapshotAhead(s: State, reply: seq<Job>, i: nat, j: nat)
    requires Orderly(s) && Enabled(s, Work(0, Snapshot(reply))) && i < j < |reply|
    ensures Ahead(Act(s, 0, Snapshot(reply)), reply[i], reply[j])
    ensures reply[i].scheduledAt <= reply[j].scheduledAt
  {
    DelayedIsElsewhereAbsent(s, reply[j]);
    var pending := Pending(Act(s, 0, Snapshot(reply)).workers[0]);
    assert pending == reply && pending[i] == reply[i];
    assert reply[j] in reply;
  }

  lemma PushKeepsBehind(list: seq<Job>, item: Job, y: Job, x: Job)
    requires Behind(list, y, x) && (item == y ==> x in list) && x != y
    ensures Behind([item] + list, y, x)
  {
    var list' := [item] + list;
    forall k | 0 <= k < |list'| && list'[k] == y
      ensures exists l :: k < l < |list'| && list'[l] == x
    {
      if k == 0 {
        var l :| 0 <= l < |list| && list[l] == x;
        assert list'[l + 1] == x;
      } else {
        assert list[k - 1] == y;
        var l :| k - 1 < l < |list| && list[l] == x;
        assert list'[l + 1] == x;
      }
    }
  }

  lemma PopKeepsBehind(list: seq<Job>, y: Job, x: Job)
    requires list != [] && Behind(list, y, x) && list[|list| - 1] != x
    ensures list[|list| - 1] != y && Behind(list[..|list| - 1], y, x)
    ensures forall z :: z in list && z != list[|list| - 1] ==> z in list[..|list| - 1]
  {
    var list' := list[..|list| - 1];
    forall k | 0 <= k < |list'| && list'[k] == y
      ensures exists l :: k < l < |list'| && list'[l] == x
    {
      var l :| k < l < |list| && list[l] == x;
      assert list'[l] == x;
    }
    forall z | z in list && z != list[|list| - 1]
      ensures z in list'
    {
      var l :| 0 <= l < |list| && list[l] == z;
      assert list'[l] == z;
    }
  }

  lemma PushAhead(s: State, x: Job, y: Job)
    requires |s.workers| == 1 && s.workers[0].Pushing? && s.workers[0].ready != [] && Ahead(s, x, y)
    ensures Ahead(Act(s, 0, Push), x, y)
  {
    var items, list := s.workers[0].ready, s.queues.list;
    var s' := Act(s, 0, Push);
    PushKeepsBehind(list, items[0], y, x);
    forall q | 0 <= q < |items[1..]| && items[1..][q] == y
      ensures x in s'.queues.list || exists p :: 0 <= p < q && items[1..][p] == x
    {
      assert items[q + 1] == y;
      if x !in list {
        var p :| 0 <= p < q + 1 && items[p] == x;
        assert p > 0 ==> items[1..][p - 1] == x;
      }
    }
    assert items == [items[0]] + items[1..];
  }

  lemma PopAhead(s: State, x: Job, y: Job)
    requires |s.workers| == 1 && Enabled(s, Work(0, Pop)) && Ahead(s, x, y) && Taken(s, Work(0, Pop)) != Some(x)
    ensures Ahead(Act(s, 0, Pop), x, y) && Taken(s, Work(0, Pop)) != Some(y)
  {
    if s.queues.list != [] {
      PopKeepsBehind(s.queues.list, y, x);
    }
  }

  lemma SubmitAhead(s: State, j: Job, x: Job, y: Job)
    requires |s.workers| == 1 && Enabled(s, Submit(j)) && Ahead(s, x, y)
    ensures Ahead(Apply(s, Submit(j)), x, y) && Taken(s, Submit(j)).None?
  {
    PushKeepsBehind(s.queues.list, j, y, x);
  }

  /** A new snapshot does not list `y` again: it is in the list. */
  lemma SnapshotKeepsAhead(s: State, reply: seq<Job>, x: Job, y: Job)
    requires Orderly(s) && Enabled(s, Work(0, Snapshot(reply))) && Ahead(s, x, y)
    ensures Ahead(Act(s, 0, Snapshot(reply)), x, y)
  {
    if y in reply {
      assert y in Elements(reply);
      DelayedIsElsewhereAbsent(s, y);
    }
  }

  lemma WorkAhead(s: State, a: Action, x: Job, y: Job)
    requires Orderly(s) && Enabled(s, Work(0, a)) && Ahead(s, x, y) && Taken(s, Work(0, a)) != Some(x)
    ensures Ahead(Act(s, 0, a), x, y) && Taken(s, Work(0, a)) != Some(y)
  {
    match a
    case Push => PushReady(s); PushAhead(s, x, y);
    case Pop => PopAhead(s, x, y);
    case Snapshot(reply) => SnapshotKeepsAhead(s, reply, x, y);
    case _ => OtherAhead(s, a, x, y);
  }

  lemma PushReady(s: State)
    requires Orderly(s) && Enabled(s, Work(0, Push))
    ensures s.workers[0].ready != []
  {
    assert PhaseOk(s.submitted, s.now, s.workers[0]);
  }

  lemma OtherAhead(s: State, a: Action, x: Job, y: Job)
    requires |s.workers| == 1 && Enabled(s, Work(0, a)) && Ahead(s, x, y) && !a.Push? && !a.Pop? && !a.Snapshot?
    ensures Ahead(Act(s, 0, a), x, y)
  {
    var s' := Act(s, 0, a);
    assert s'.queues.list == s.queues.list && Pending(s'.workers[0]) == Pending(s.workers[0]);
  }

  /** Until `x` is taken it stays ahead, and `y` is not taken. */
  lemma AheadStep(s: State, t: Step, x: Job, y: Job)
    requires Orderly(s) && Enabled(s, t) && Ahead(s, x, y) && Taken(s, t) != Some(x)
    ensures Ahead(Apply(s, t), x, y) && Taken(s, t) != Some(y)
  {
    match t
    case Tick(to) => TickAhead(s, to, x, y);
    case Submit(j) => SubmitAhead(s, j, x, y);
    case Work(w, a) => WorkStepAhead(s, w, a, x, y);
  }

  lemma TickAhead(s: State, to: int, x: Job, y: Job)
    requires |s.workers| == 1 && Ahead(s, x, y)
    ensures Ahead(s.(now := to), x, y) && Taken(s, Tick(to)).None?
  {
  }

  lemma WorkStepAhead(s: State, w: nat, a: Action, x: Job, y: Job)
    requires Orderly(s) && w < |s.workers| && Enabled(s, Work(w, a)) && Ahead(s, x, y)
    requires Taken(s, Work(w, a)) != Some(x)
    ensures Ahead(Act(s, w, a), x, y) && Taken(s, Work(w, a)) != Some(y)
  {
    assert w == 0;
    WorkAhead(s, a, x, y);
  }

  // ---------------------------------------------------------------------------
  // Runs

  /** The state before step `k` of a run. */
  ghost function StateAt(s: State, ts: seq<Step>, k: nat): State
    requires IsRun(s, ts) && k <= |ts|
    decreases k
  {
    if k == 0 then s else StateAt(Apply(s, ts[0]), ts[1..], k - 1)
  }

  lemma {:induction false} StateAtNext(s: State, ts: seq<Step>, k: nat)
    requires IsRun(s, ts) && k < |ts|
    ensures Enabled(StateAt(s, ts, k), ts[k]) && StateAt(s, ts, k + 1) == Apply(StateAt(s, ts, k), ts[k])
    decreases k
  {
    if k > 0 {
      StateAtNext(Apply(s, ts[0]), ts[1..], k - 1);
    }
  }

  lemma {:induction false} StateAtOrderly(s: State, ts: seq<Step>, k: nat)
    requires Orderly(s) && IsRun(s, ts) && k <= |ts|
    ensures Orderly(StateAt(s, ts, k))
    decreases k
  {
    if k > 0 {
      StateAtOrderly(s, ts, k - 1);
      StateAtNext(s, ts, k - 1);
      OrderlyNext(StateAt(s, ts, k - 1), ts[k - 1], StateAt(s, ts, k));
    }
  }

  lemma OrderlyNext(s: State, t: Step, s': State)
    requires Orderly(s) && Enabled(s, t) && s' == Apply(s, t)
    ensures Orderly(s')
  {
    OrderlyStep(s, t);
  }

  /** The job that step `k` of a run takes. */
  ghost function TakenAt(s: State, ts: seq<Step>, k: nat): Option<Job>
    requires IsRun(s, ts) && k < |ts|
  {
    Taken(StateAt(s, ts, k), ts[k])
  }

  ghost predicate AheadAt(s: State, ts: seq<Step>, k: nat, x: Job, y: Job)
    requires IsRun(s, ts) && k <= |ts|
  {
    |StateAt(s, ts, k).workers| == 1 && Ahead(StateAt(s, ts, k), x, y)
  }

  lemma AheadNext(s: State, ts: seq<Step>, k: nat, x: Job, y: Job)
    requires Orderly(s) && IsRun(s, ts) && k < |ts| && AheadAt(s, ts, k, x, y) && TakenAt(s, ts, k) != Some(x)
    ensures AheadAt(s, ts, k + 1, x, y) && TakenAt(s, ts, k) != Some(y)
  {
    StateAtNext(s, ts, k);
    StateAtOrderly(s, ts, k);
    AheadStep(StateAt(s, ts, k), ts[k], x, y);
  }

  lemma SnapshotAheadNext(s: State, ts: seq<Step>, k: nat, reply: seq<Job>, i: nat, j: nat)
    requires Orderly(s) && IsRun(s, ts) && k < |ts| && ts[k] == Work(0, Snapshot(reply)) && i < j < |reply|
    ensures AheadAt(s, ts, k + 1, reply[i], reply[j])
    ensures reply[i] != reply[j] && reply[i].scheduledAt <= reply[j].scheduledAt
  {
    StateAtNext(s, ts, k);
    StateAtOrderly(s, ts, k);
    SnapshotAhead(StateAt(s, ts, k), reply, i, j);
  }

  lemma {:induction false} AheadTakenFirst(s: State, ts: seq<Step>, k: nat, d: nat, x: Job, y: Job) returns (c: nat)
    requires Orderly(s) && IsRun(s, ts) && k <= d < |ts| && x != y
    requires AheadAt(s, ts, k, x, y) && TakenAt(s, ts, d) == Some(y)
    ensures k <= c < d && TakenAt(s, ts, c) == Some(x)
    decreases d - k
  {
    c := k;
    if TakenAt(s, ts, k) != Some(x) {
      AheadNext(s, ts, k, x, y);
      c := AheadTakenFirst(s, ts, k + 1, d, x, y);
    }
  }

  /** In every run of one worker: when a step takes an item of an earlier promotion from
      the list, a step between the two took every item that came before it in the reply,
      and those were due no later. */
  lemma DueOrderInRuns(registered: set<string>, now: int, ts: seq<Step>, a: nat, d: nat, reply: seq<Job>, i: nat, j: nat)
    requires IsRun(Init(1, registered, now), ts) && a < d < |ts|
    requires ts[a] == Work(0, Snapshot(reply)) && i < j < |reply|
    requires TakenAt(Init(1, registered, now), ts, d) == Some(reply[j])
    ensures reply[i].scheduledAt <= reply[j].scheduledAt
    ensures exists c :: a < c < d && TakenAt(Init(1, registered, now), ts, c) == Some(reply[i])
  {
    OrderlyInit(registered, now);
    var c := DueOrderFrom(Init(1, registered, now), ts, a, d, reply, i, j);
  }

  lemma DueOrderFrom(s: State, ts: seq<Step>, a: nat, d: nat, reply: seq<Job>, i: nat, j: nat) returns (c: nat)
    requires Orderly(s) && IsRun(s, ts) && a < d < |ts| && ts[a] == Work(0, Snapshot(reply)) && i < j < |reply|
    requires TakenAt(s, ts, d) == Some(reply[j])
    ensures reply[i].scheduledAt <= reply[j].scheduledAt && a < c < d && TakenAt(s, ts, c) == Some(reply[i])
  {
    SnapshotAheadNext(s, ts, a, reply, i, j);
    c := AheadTakenFirst(s, ts, a + 1, d, reply[i], reply[j]);
  }
}
