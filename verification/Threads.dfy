/** FindOrCreateThread under concurrency: any number of calls for one domain and
    user, each a transaction of a select, an insert and perhaps a second select, in
    any interleaving. */
module Threads {
  import opened Collections

  type ThreadId = nat

  datatype Thread = Thread(subject: string, messageIds: seq<string>)

  /** How a completed call came by its thread. */
  datatype Path = Appended | Created | Conflict

  /** Where a transaction stands. `Appending` holds the row's lock with its update
      not yet committed; the row of `Inserted` is not yet visible to others. */
  datatype Phase =
    | Start
    | Missed
    | Appending(thread: ThreadId)
    | Inserted(thread: ThreadId)
    | Conflicted
    | Reselected(thread: ThreadId)
    | Done(thread: ThreadId, path: Path)
    | Failed

  datatype Call = Call(subject: string, messageId: string, inReplyTo: string, phase: Phase)

  datatype State = State(rows: map<ThreadId, Thread>, calls: seq<Call>)

  datatype Step =
    | Begin(subject: string, messageId: string, inReplyTo: string)
    | Select(c: nat, found: Option<ThreadId>)
    | Insert(c: nat, thread: ThreadId)
    | Reselect(c: nat, thread: ThreadId)
    | Commit(c: nat)
    | Abort(c: nat)

  /** The width of the subject_hash column. */
  const SUBJECT_LIMIT := 64

  predicate Matches(t: Thread, call: Call) {
    call.inReplyTo in t.messageIds || t.subject == call.subject
  }

  ghost predicate SubjectTaken(s: State, subject: string) {
    exists t :: t in s.rows && s.rows[t].subject == subject
  }

  ghost predicate IsLocked(s: State, t: ThreadId) {
    exists c :: 0 <= c < |s.calls| && s.calls[c].phase == Appending(t)
  }

  /** Another transaction holds an uncommitted row with the subject. */
  ghost predicate InsertBlocked(s: State, subject: string) {
    exists c :: 0 <= c < |s.calls| && s.calls[c].phase.Inserted? && s.calls[c].subject == subject
  }

  /** A select waits for the lock of the row it picks; an insert waits for an
      uncommitted row with the same subject; new thread IDs are fresh. */
  ghost predicate Enabled(s: State, t: Step) {
    match t
    case Begin(_, _, _) => true
    case Select(c, found) =>
      c < |s.calls| && s.calls[c].phase.Start?
      && (match found
          case Some(x) => x in s.rows && Matches(s.rows[x], s.calls[c]) && !IsLocked(s, x)
          case None => forall x :: x in s.rows ==> !Matches(s.rows[x], s.calls[c]))
    case Insert(c, x) =>
      c < |s.calls| && s.calls[c].phase.Missed? && !InsertBlocked(s, s.calls[c].subject)
      && x !in s.rows && forall k :: 0 <= k < |s.calls| ==> s.calls[k].phase != Inserted(x)
    case Reselect(c, x) =>
      c < |s.calls| && s.calls[c].phase.Conflicted? && x in s.rows && s.rows[x].subject == s.calls[c].subject
    case Commit(c) =>
      c < |s.calls| && (s.calls[c].phase.Appending? || s.calls[c].phase.Inserted? || s.calls[c].phase.Reselected?)
    case Abort(c) => c < |s.calls| && !s.calls[c].phase.Done?
  }

  function Goto(s: State, c: nat, p: Phase): State
    requires c < |s.calls|
  {
    s.(calls := s.calls[c := s.calls[c].(phase := p)])
  }

  ghost function Apply(s: State, t: Step): State
    requires Enabled(s, t)
  {
    match t
    case Begin(subject, messageId, inReplyTo) => s.(calls := s.calls + [Call(subject, messageId, inReplyTo, Start)])
    case Select(c, found) => Goto(s, c, match found case Some(x) => Appending(x) case None => Missed)
    case Insert(c, x) =>
      Goto(s, c, if |s.calls[c].subject| > SUBJECT_LIMIT then Failed
                 else if SubjectTaken(s, s.calls[c].subject) then Conflicted
                 else Inserted(x))
    case Reselect(c, x) => Goto(s, c, Reselected(x))
    case Commit(c) => Committed(s, c)
    case Abort(c) => Goto(s, c, Failed)
  }

  function Committed(s: State, c: nat): State
    requires c < |s.calls|
  {
    var call := s.calls[c];
    match call.phase
    case Appending(x) =>
      if x in s.rows then
        var row := s.rows[x];
        Goto(s.(rows := s.rows[x := row.(messageIds := row.messageIds + [call.messageId])]), c, Done(x, Appended))
      else s
    case Inserted(x) =>
      Goto(s.(rows := s.rows[x := Thread(call.subject, [call.messageId])]), c, Done(x, Created))
    case Reselected(x) => Goto(s, c, Done(x, Conflict))
    case _ => s
  }

  ghost predicate IsRun(s: State, ts: seq<Step>)
    decreases |ts|
  {
    ts == [] || (Enabled(s, ts[0]) && IsRun(Apply(s, ts[0]), ts[1..]))
  }

  ghost function Final(s: State, ts: seq<Step>): State
    requires IsRun(s, ts)
    decreases |ts|
  {
    if ts == [] then s else Final(Apply(s, ts[0]), ts[1..])
  }

  const EMPTY := State(map[], [])

  // ---------------------------------------------------------------------------
  // Invariants

  /** A call as the inbound processor makes it. */
  predicate FromInbound(call: Call) { call.inReplyTo == "" && call.messageId != "" }

  ghost predicate AllFromInbound(s: State) {
    forall c :: 0 <= c < |s.calls| ==> FromInbound(s.calls[c])
  }

  /** The thread a call is about, once it has one that others can see. */
  ghost predicate OnRow(s: State, call: Call, x: ThreadId) {
    x in s.rows && s.rows[x].subject == call.subject
  }

  ghost predicate CallOk(s: State, call: Call) {
    match call.phase
    case Appending(x) => OnRow(s, call, x)
    case Reselected(x) => OnRow(s, call, x)
    case Done(x, path) => OnRow(s, call, x) && (path.Conflict? || call.messageId in s.rows[x].messageIds)
    case Inserted(x) => x !in s.rows && !SubjectTaken(s, call.subject) && |call.subject| <= SUBJECT_LIMIT
    case _ => true
  }

  ghost predicate UniqueSubjects(s: State) {
    forall a, b :: a in s.rows && b in s.rows && s.rows[a].subject == s.rows[b].subject ==> a == b
  }

  ghost predicate InsertsApart(s: State) {
    forall c, d :: 0 <= c < d < |s.calls| && s.calls[c].phase.Inserted? && s.calls[d].phase.Inserted? ==>
      s.calls[c].subject != s.calls[d].subject && s.calls[c].phase.thread != s.calls[d].phase.thread
  }

  /** Every recorded message ID was put there by a completed call. */
  ghost predicate Recorded(s: State, x: ThreadId, m: string) {
    exists c :: 0 <= c < |s.calls| && s.calls[c].messageId == m
      && (s.calls[c].phase == Done(x, Appended) || s.calls[c].phase == Done(x, Created))
  }

  ghost predicate RowsOk(s: State) {
    forall x, m :: x in s.rows && m in s.rows[x].messageIds ==> Recorded(s, x, m)
  }

  ghost predicate Inv(s: State) {
    && AllFromInbound(s)
    && UniqueSubjects(s)
    && InsertsApart(s)
    && RowsOk(s)
    && (forall x :: x in s.rows ==> |s.rows[x].subject| <= SUBJECT_LIMIT)
    && (forall c :: 0 <= c < |s.calls| ==> CallOk(s, s.calls[c]))
  }

  lemma NoEmptyMessageIds(s: State, x: ThreadId)
    requires AllFromInbound(s) && RowsOk(s) && x in s.rows
    ensures "" !in s.rows[x].messageIds
  {
    forall m | m in s.rows[x].messageIds
      ensures m != ""
    {
      assert Recorded(s, x, m);
    }
  }

  /** Recorded IDs stay recorded: completed calls do not change. */
  lemma RecordedStays(s: State, s': State, c: nat, x: ThreadId, m: string)
    requires |s'.calls| >= |s.calls| && c < |s.calls| && !s.calls[c].phase.Done?
    requires forall k :: 0 <= k < |s.calls| && k != c ==> s'.calls[k] == s.calls[k]
    requires Recorded(s, x, m)
    ensures Recorded(s', x, m)
  {
    var k :| 0 <= k < |s.calls| && s.calls[k].messageId == m
      && (s.calls[k].phase == Done(x, Appended) || s.calls[k].phase == Done(x, Created));
    assert s'.calls[k] == s.calls[k];
  }

  /** A step that only moves one unfinished call on, leaving the rows alone. */
  lemma MoveKeepsInv(s: State, c: nat, p: Phase)
    requires Inv(s) && c < |s.calls| && !s.calls[c].phase.Done?
    requires CallOk(s, s.calls[c].(phase := p))
    requires p.Inserted? ==> !InsertBlocked(s, s.calls[c].subject)
    requires p.Inserted? ==> forall k :: 0 <= k < |s.calls| ==> s.calls[k].phase != p
    ensures Inv(Goto(s, c, p))
  {
    var s' := Goto(s, c, p);
    forall x, m | x in s'.rows && m in s'.rows[x].messageIds
      ensures Recorded(s', x, m)
    {
      RecordedStays(s, s', c, x, m);
    }
    forall k | 0 <= k < |s'.calls|
      ensures CallOk(s', s'.calls[k])
    {
      assert CallOk(s, s'.calls[k]);
    }
  }

  lemma AppendKeepsInv(s: State, c: nat)
    requires Inv(s) && c < |s.calls| && s.calls[c].phase.Appending?
    ensures Inv(Committed(s, c))
  {
    var s' := Committed(s, c);
    var call := s.calls[c];
    var x := call.phase.thread;
    assert CallOk(s, call);
    forall y, m | y in s'.rows && m in s'.rows[y].messageIds
      ensures Recorded(s', y, m)
    {
      if y in s.rows && m in s.rows[y].messageIds {
        RecordedStays(s, s', c, y, m);
      } else {
        assert s'.calls[c].phase == Done(y, Appended) && s'.calls[c].messageId == m;
      }
    }
    assert forall subject :: SubjectTaken(s', subject) ==> SubjectTaken(s, subject);
    forall k | 0 <= k < |s'.calls|
      ensures CallOk(s', s'.calls[k])
    {
      if k != c {
        assert CallOk(s, s.calls[k]);
      }
    }
  }

  lemma CreateKeepsInv(s: State, c: nat)
    requires Inv(s) && c < |s.calls| && s.calls[c].phase.Inserted?
    ensures Inv(Committed(s, c))
  {
    var s' := Committed(s, c);
    var call := s.calls[c];
    var x := call.phase.thread;
    assert CallOk(s, call);
    forall a | a in s.rows
      ensures s.rows[a].subject != call.subject
    {
      assert !SubjectTaken(s, call.subject);
    }
    forall y, m | y in s'.rows && m in s'.rows[y].messageIds
      ensures Recorded(s', y, m)
    {
      if y in s.rows {
        RecordedStays(s, s', c, y, m);
      } else {
        assert s'.calls[c].phase == Done(y, Created) && s'.calls[c].messageId == m;
      }
    }
    forall k | 0 <= k < |s'.calls|
      ensures CallOk(s', s'.calls[k])
    {
      if k != c {
        assert CallOk(s, s.calls[k]);
        assert s.calls[k].phase.Inserted? ==> s.calls[k].subject != call.subject && s.calls[k].phase.thread != x;
      }
    }
  }

  lemma BeginKeepsInv(s: State, call: Call)
    requires Inv(s) && FromInbound(call) && call.phase == Start
    ensures Inv(s.(calls := s.calls + [call]))
  {
    var s' := s.(calls := s.calls + [call]);
    forall x, m | x in s'.rows && m in s'.rows[x].messageIds
      ensures Recorded(s', x, m)
    {
      var k :| 0 <= k < |s.calls| && s.calls[k].messageId == m
        && (s.calls[k].phase == Done(x, Appended) || s.calls[k].phase == Done(x, Created));
      assert s'.calls[k] == s.calls[k];
    }
    forall k | 0 <= k < |s'.calls|
      ensures CallOk(s', s'.calls[k])
    {
      assert k < |s.calls| ==> CallOk(s, s.calls[k]);
    }
  }

  lemma InvStep(s: State, t: Step)
    requires Inv(s) && Enabled(s, t) && AllFromInbound(Apply(s, t))
    ensures Inv(Apply(s, t))
  {
    match t
    case Begin(a, b, c) =>
      assert Apply(s, t).calls[|s.calls|] == Call(a, b, c, Start);
      BeginKeepsInv(s, Call(a, b, c, Start));
    case Select(c, found) =>
      if found.Some? {
        NoEmptyMessageIds(s, found.value);
      }
      assert FromInbound(s.calls[c]);
      MoveKeepsInv(s, c, Apply(s, t).calls[c].phase);
    case Insert(c, x) => MoveKeepsInv(s, c, Apply(s, t).calls[c].phase);
    case Reselect(c, x) => MoveKeepsInv(s, c, Reselected(x));
    case Abort(c) => MoveKeepsInv(s, c, Failed);
    case Commit(c) =>
      assert CallOk(s, s.calls[c]);
      match s.calls[c].phase
      case Appending(_) => AppendKeepsInv(s, c);
      case Inserted(_) => CreateKeepsInv(s, c);
      case Reselected(x) => MoveKeepsInv(s, c, Done(x, Conflict));
  }

  /** No call changes its request, and rows and their message IDs only grow. */
  ghost predicate Grows(s: State, s': State) {
    && |s.calls| <= |s'.calls|
    && (forall c :: 0 <= c < |s.calls| ==> s'.calls[c] == s.calls[c].(phase := s'.calls[c].phase))
    && (forall c :: 0 <= c < |s.calls| && s.calls[c].phase.Done? ==> s'.calls[c] == s.calls[c])
    && (forall x :: x in s.rows ==>
          x in s'.rows && s'.rows[x].subject == s.rows[x].subject && s.rows[x].messageIds <= s'.rows[x].messageIds)
  }

  ghost predicate FreshInserts(s: State) {
    forall c :: 0 <= c < |s.calls| && s.calls[c].phase.Inserted? ==> s.calls[c].phase.thread !in s.rows
  }

  lemma GrowsStep(s: State, t: Step)
    requires Enabled(s, t) && FreshInserts(s)
    ensures Grows(s, Apply(s, t))
  {
  }

  lemma {:induction false} InvRun(s: State, ts: seq<Step>)
    requires Inv(s) && IsRun(s, ts) && AllFromInbound(Final(s, ts))
    ensures Inv(Final(s, ts)) && Grows(s, Final(s, ts))
    decreases |ts|
  {
    if ts != [] {
      var s' := Apply(s, ts[0]);
      RequestsKept(s', ts[1..]);
      assert forall c :: 0 <= c < |s'.calls| ==> FromInbound(Final(s', ts[1..]).calls[c]);
      InvStep(s, ts[0]);
      assert forall c :: 0 <= c < |s.calls| ==> CallOk(s, s.calls[c]);
      GrowsStep(s, ts[0]);
      InvRun(s', ts[1..]);
    }
  }

  lemma {:induction false} RequestsKept(s: State, ts: seq<Step>)
    requires IsRun(s, ts)
    ensures var s' := Final(s, ts);
      |s.calls| <= |s'.calls| && forall c :: 0 <= c < |s.calls| ==> s'.calls[c] == s.calls[c].(phase := s'.calls[c].phase)
    decreases |ts|
  {
    if ts != [] {
      RequestsKept(Apply(s, ts[0]), ts[1..]);
    }
  }

  // ---------------------------------------------------------------------------
  // Main results

  /** In every interleaving of calls with no in-reply-to and non-empty message IDs,
      two completed calls return the same thread exactly when their subjects are
      equal, and the thread has that subject. */
  lemma SameThreadIffSameSubject(ts: seq<Step>, c: nat, d: nat)
    requires IsRun(EMPTY, ts) && AllFromInbound(Final(EMPTY, ts))
    requires c < |Final(EMPTY, ts).calls| && Final(EMPTY, ts).calls[c].phase.Done?
    requires d < |Final(EMPTY, ts).calls| && Final(EMPTY, ts).calls[d].phase.Done?
    ensures var s := Final(EMPTY, ts);
      && (s.calls[c].phase.thread == s.calls[d].phase.thread <==> s.calls[c].subject == s.calls[d].subject)
      && s.calls[c].phase.thread in s.rows && s.rows[s.calls[c].phase.thread].subject == s.calls[c].subject
      && |s.calls[c].subject| <= SUBJECT_LIMIT
  {
    InvRun(EMPTY, ts);
    var s := Final(EMPTY, ts);
    assert CallOk(s, s.calls[c]) && CallOk(s, s.calls[d]);
  }

  /** The message IDs of a thread are those of the completed calls that returned it
      without taking the conflict path, and no others. */
  lemma MessageIdsExactly(ts: seq<Step>, x: ThreadId, m: string)
    requires IsRun(EMPTY, ts) && AllFromInbound(Final(EMPTY, ts))
    requires x in Final(EMPTY, ts).rows
    ensures var s := Final(EMPTY, ts);
      m in s.rows[x].messageIds <==> Recorded(s, x, m)
  {
    InvRun(EMPTY, ts);
    var s := Final(EMPTY, ts);
    if Recorded(s, x, m) {
      var c :| 0 <= c < |s.calls| && s.calls[c].messageId == m
        && (s.calls[c].phase == Done(x, Appended) || s.calls[c].phase == Done(x, Created));
      assert CallOk(s, s.calls[c]);
    }
  }

  /** From any reachable state on, a thread keeps its subject and the message IDs it
      has, in order, and a completed call keeps its thread. */
  lemma MessageIdsOnlyGrow(ts: seq<Step>, more: seq<Step>)
    requires IsRun(EMPTY, ts) && IsRun(Final(EMPTY, ts), more)
    requires AllFromInbound(Final(Final(EMPTY, ts), more))
    ensures Grows(Final(EMPTY, ts), Final(Final(EMPTY, ts), more))
  {
    var s := Final(EMPTY, ts);
    RequestsKept(s, more);
    assert forall c :: 0 <= c < |s.calls| ==> FromInbound(Final(s, more).calls[c]);
    InvRun(EMPTY, ts);
    InvRun(s, more);
  }

  /** A non-empty message ID matters: once a call with an empty one has completed,
      a call with another subject and no in-reply-to is given the same thread. */
  lemma EmptyMessageIdMergesSubjects(a: string, b: string, m: string)
    requires a != b && |a| <= SUBJECT_LIMIT
    ensures
      var ts := [Begin(a, "", ""), Select(0, None), Insert(0, 7), Commit(0)];
      var us := [Begin(b, m, ""), Select(1, Some(7)), Commit(1)];
      && IsRun(EMPTY, ts) && IsRun(Final(EMPTY, ts), us)
      && var s := Final(Final(EMPTY, ts), us);
         |s.calls| == 2 && s.calls[0] == Call(a, "", "", Done(7, Created)) && s.calls[1] == Call(b, m, "", Done(7, Appended))
  {
    var ts := [Begin(a, "", ""), Select(0, None), Insert(0, 7), Commit(0)];
    var us := [Begin(b, m, ""), Select(1, Some(7)), Commit(1)];
    var s1 := State(map[], [Call(a, "", "", Start)]);
    var s2 := State(map[], [Call(a, "", "", Missed)]);
    var s3 := State(map[], [Call(a, "", "", Inserted(7))]);
    var s4 := State(map[7 := Thread(a, [""])], [Call(a, "", "", Done(7, Created))]);
    assert !SubjectTaken(s2, a) && !InsertBlocked(s2, a);
    assert Apply(EMPTY, ts[0]) == s1 && Apply(s1, ts[1]) == s2 && Apply(s2, ts[2]) == s3 && Apply(s3, ts[3]) == s4;
    RunFour(EMPTY, ts, s1, s2, s3, s4);
    var s5 := s4.(calls := s4.calls + [Call(b, m, "", Start)]);
    assert !IsLocked(s5, 7) && Matches(s5.rows[7], s5.calls[1]);
    var s6 := Goto(s5, 1, Appending(7));
    assert Apply(s4, us[0]) == s5 && Apply(s5, us[1]) == s6;
    var s7 := Apply(s6, us[2]);
    RunThree(s4, us, s5, s6, s7);
  }

  lemma RunFour(s0: State, ts: seq<Step>, s1: State, s2: State, s3: State, s4: State)
    requires |ts| == 4
    requires Enabled(s0, ts[0]) && s1 == Apply(s0, ts[0])
    requires Enabled(s1, ts[1]) && s2 == Apply(s1, ts[1])
    requires Enabled(s2, ts[2]) && s3 == Apply(s2, ts[2])
    requires Enabled(s3, ts[3]) && s4 == Apply(s3, ts[3])
    ensures IsRun(s0, ts) && Final(s0, ts) == s4
  {
    assert ts[4..] == [] && ts[3..][1..] == ts[4..] && ts[2..][1..] == ts[3..] && ts[1..][1..] == ts[2..];
    assert IsRun(s3, ts[3..]) && Final(s3, ts[3..]) == s4;
    assert IsRun(s2, ts[2..]) && Final(s2, ts[2..]) == s4;
    assert IsRun(s1, ts[1..]) && Final(s1, ts[1..]) == s4;
  }

  // ---------------------------------------------------------------------------
  // One call at a time

  class ThreadStore {
    var rows: map<ThreadId, Thread>

    constructor ()
      ensures rows == map[]
    {
      rows := map[];
    }

    /** A call that nothing interleaves with is a run of the four steps. Any matching
        row will do for a select with LIMIT 1; None is an error of the insert. */
    method FindOrCreateThread(subject: string, messageId: string, inReplyTo: string, newId: ThreadId)
      returns (r: Option<ThreadId>, ghost ts: seq<Step>)
      requires newId !in rows
      modifies this
      ensures IsRun(State(old(rows), []), [Begin(subject, messageId, inReplyTo)] + ts)
      ensures var s := Final(State(old(rows), []), [Begin(subject, messageId, inReplyTo)] + ts);
        && s.rows == rows && |s.calls| == 1
        && (match r case Some(x) => s.calls[0].phase.Done? && s.calls[0].phase.thread == x case None => s.calls[0].phase.Failed?)
      ensures r.None? || r.value !in old(rows) <==>
        forall y :: y in old(rows) ==> inReplyTo !in old(rows)[y].messageIds && old(rows)[y].subject != subject
      ensures match r
        case Some(x) =>
          if x in old(rows) then
            && (inReplyTo in old(rows)[x].messageIds || old(rows)[x].subject == subject)
            && rows == old(rows)[x := Thread(old(rows)[x].subject, old(rows)[x].messageIds + [messageId])]
          else
            x == newId && |subject| <= 64 && rows == old(rows)[x := Thread(subject, [messageId])]
        case None => |subject| > 64 && rows == old(rows)
    {
      ghost var s0 := State(rows, []);
      ghost var call := Call(subject, messageId, inReplyTo, Start);
      ghost var s1 := State(rows, [call]);
      if x :| x in rows && Matches(rows[x], Call(subject, messageId, inReplyTo, Start)) {
        rows := rows[x := rows[x].(messageIds := rows[x].messageIds + [messageId])];
        ts := [Select(0, Some(x)), Commit(0)];
        ghost var s2 := State(old(rows), [call.(phase := Appending(x))]);
        ghost var s3 := State(rows, [call.(phase := Done(x, Appended))]);
        assert !IsLocked(s1, x) && Apply(s1, ts[0]) == s2 && Apply(s2, ts[1]) == s3;
        RunThree(s0, [Begin(subject, messageId, inReplyTo)] + ts, s1, s2, s3);
        return Some(x), ts;
      }
      ghost var s2 := State(rows, [call.(phase := Missed)]);
      assert Apply(s1, Select(0, None)) == s2;
      assert !InsertBlocked(s2, subject) && !SubjectTaken(s2, subject);
      if |subject| > SUBJECT_LIMIT {
        ts := [Select(0, None), Insert(0, newId)];
        ghost var s3 := State(rows, [call.(phase := Failed)]);
        assert Apply(s2, ts[1]) == s3;
        RunThree(s0, [Begin(subject, messageId, inReplyTo)] + ts, s1, s2, s3);
        return None, ts;
      }
      rows := rows[newId := Thread(subject, [messageId])];
      ts := [Select(0, None), Insert(0, newId), Commit(0)];
      ghost var s3 := State(old(rows), [call.(phase := Inserted(newId))]);
      ghost var s4 := State(rows, [call.(phase := Done(newId, Created))]);
      assert Apply(s2, ts[1]) == s3 && Apply(s3, ts[2]) == s4;
      RunFour(s0, [Begin(subject, messageId, inReplyTo)] + ts, s1, s2, s3, s4);
      return Some(newId), ts;
    }
  }

  lemma {:induction false} RunAppend(s: State, a: seq<Step>, b: seq<Step>)
    requires IsRun(s, a) && IsRun(Final(s, a), b)
    ensures IsRun(s, a + b) && Final(s, a + b) == Final(Final(s, a), b)
    decreases |a|
  {
    if a == [] {
      assert a + b == b;
    } else {
      assert (a + b)[1..] == a[1..] + b;
      RunAppend(Apply(s, a[0]), a[1..], b);
    }
  }

  /** Only calls with no in-reply-to and a message ID among `ids`. */
  ghost predicate Permitted(ids: iset<string>, s: State) {
    forall c :: 0 <= c < |s.calls| ==> s.calls[c].inReplyTo == "" && s.calls[c].messageId in ids
  }

  /** Two completed calls share a thread exactly when they share a subject. */
  ghost predicate BySubject(s: State, c: nat, d: nat)
    requires c < |s.calls| && d < |s.calls|
  {
    s.calls[c].phase.Done? && s.calls[d].phase.Done? ==>
      (s.calls[c].phase.thread == s.calls[d].phase.thread <==> s.calls[c].subject == s.calls[d].subject)
  }

  /** In every run of permitted calls the subject decides the thread. */
  ghost predicate SubjectDecides(ids: iset<string>) {
    forall ts, c: nat, d: nat ::
      && IsRun(EMPTY, ts) && Permitted(ids, Final(EMPTY, ts))
      && c < |Final(EMPTY, ts).calls| && d < |Final(EMPTY, ts).calls|
      ==> BySubject(Final(EMPTY, ts), c, d)
  }

  /** The subject decides the thread exactly when the empty message ID is not permitted. */
  lemma SubjectDecidesExactly(ids: iset<string>)
    ensures SubjectDecides(ids) <==> "" !in ids
  {
    if "" in ids {
      var ts := [Begin("a", "", ""), Select(0, None), Insert(0, 7), Commit(0)];
      var us := [Begin("b", "", ""), Select(1, Some(7)), Commit(1)];
      EmptyMessageIdMergesSubjects("a", "b", "");
      RunAppend(EMPTY, ts, us);
      assert !BySubject(Final(EMPTY, ts + us), 0, 1);
    } else {
      forall ts, c: nat, d: nat |
        IsRun(EMPTY, ts) && Permitted(ids, Final(EMPTY, ts))
        && c < |Final(EMPTY, ts).calls| && d < |Final(EMPTY, ts).calls|
        ensures BySubject(Final(EMPTY, ts), c, d)
      {
        var s := Final(EMPTY, ts);
        if s.calls[c].phase.Done? && s.calls[d].phase.Done? {
          SameThreadIffSameSubject(ts, c, d);
        }
      }
    }
  }

  lemma RunThree(s0: State, ts: seq<Step>, s1: State, s2: State, s3: State)
    requires |ts| == 3
    requires Enabled(s0, ts[0]) && s1 == Apply(s0, ts[0])
    requires Enabled(s1, ts[1]) && s2 == Apply(s1, ts[1])
    requires Enabled(s2, ts[2]) && s3 == Apply(s2, ts[2])
    ensures IsRun(s0, ts) && Final(s0, ts) == s3
  {
    assert ts[3..] == [] && ts[2..][1..] == ts[3..] && ts[1..][1..] == ts[2..];
    assert IsRun(s2, ts[2..]) && Final(s2, ts[2..]) == s3;
    assert IsRun(s1, ts[1..]) && Final(s1, ts[1..]) == s3;
  }
}
