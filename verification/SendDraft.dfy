/** The life of a draft: the webmail handlers that create, edit and queue it, and
    the send processor that hands it to Postmark and marks it sent. */
module SendDraft {

  type Id = nat

  datatype Message = Message(isDraft: bool, isOutbound: bool, mailbox: string, subject: string, to: seq<string>)

  /** A processor between its calls: about to post the draft, or about to mark it. */
  datatype Phase = Waiting | Sending(draft: Id) | Marking(draft: Id)

  /** `queued` holds the drafts a send job was ever queued for. Nothing is taken out
      of it, so a job may be delivered to a processor any number of times, as retries
      and promotion races do. The other lists record the run: accepted sends, failed
      post-send updates, IMAP stores of \Draft, and those of them that made a draft of
      a message that was none. */
  datatype State = State(
    messages: map<Id, Message>,
    deleted: set<Id>,
    queued: set<Id>,
    processors: seq<Phase>,
    accepted: seq<Id>,
    failedUpdates: seq<Id>,
    stored: seq<Id>,
    rearmed: seq<Id>)

  datatype Step =
    | CreateDraft(id: Id, subject: string, to: seq<string>)
    | UpdateDraft(id: Id, subject: string, to: seq<string>)
    | Delete(id: Id)
    | StoreDraft(id: Id, draft: bool)
    | RequestSend(id: Id)
    | Load(p: nat, id: Id)
    | Post(p: nat, accepted: bool)
    | Mark(p: nat, stored: bool)

  function Init(processors: nat): State {
    State(map[], {}, {}, seq(processors, _ => Waiting), [], [], [], [])
  }

  /** Draft IDs are fresh. A store can only confirm an update of an existing row. */
  ghost predicate Enabled(s: State, t: Step) {
    match t
    case CreateDraft(id, _, _) => id !in s.messages && id !in s.deleted
    case UpdateDraft(_, _, _) => true
    case Delete(_) => true
    case StoreDraft(_, _) => true
    case RequestSend(_) => true
    case Load(p, id) => p < |s.processors| && s.processors[p].Waiting? && id in s.queued
    case Post(p, _) => p < |s.processors| && s.processors[p].Sending?
    case Mark(p, stored) =>
      p < |s.processors| && s.processors[p].Marking? && (stored ==> s.processors[p].draft in s.messages)
  }

  function MarkedSent(m: Message): Message { m.(isDraft := false, isOutbound := true, mailbox := "SENT") }

  /** An edited draft. Without recipients the patch carries none, and the old ones stay. */
  function Edited(m: Message, subject: string, to: seq<string>): Message {
    m.(subject := subject, to := if to == [] then m.to else to)
  }

  function Goto(s: State, p: nat, phase: Phase): State
    requires p < |s.processors|
  {
    s.(processors := s.processors[p := phase])
  }

  ghost function Apply(s: State, t: Step): State
    requires Enabled(s, t)
  {
    match t
    case CreateDraft(id, subject, to) => s.(messages := s.messages[id := Message(true, false, "DRAFTS", subject, to)])
    case UpdateDraft(id, subject, to) =>
      if id in s.messages then s.(messages := s.messages[id := Edited(s.messages[id], subject, to)]) else s
    case Delete(id) =>
      if id in s.messages then s.(messages := s.messages - {id}, deleted := s.deleted + {id}) else s
    case StoreDraft(id, draft) =>
      if id in s.messages then
        s.(messages := s.messages[id := s.messages[id].(isDraft := draft)], stored := s.stored + [id],
           rearmed := if draft && !s.messages[id].isDraft then s.rearmed + [id] else s.rearmed)
      else s
    case RequestSend(id) =>
      if id in s.messages && s.messages[id].isDraft then s.(queued := s.queued + {id}) else s
    case Load(p, id) =>
      if id in s.messages && s.messages[id].isDraft then Goto(s, p, Sending(id)) else s
    case Post(p, accepted) =>
      var id := s.processors[p].draft;
      if accepted then Goto(s.(accepted := s.accepted + [id]), p, Marking(id)) else Goto(s, p, Waiting)
    case Mark(p, stored) =>
      var id := s.processors[p].draft;
      if stored then Goto(s.(messages := s.messages[id := MarkedSent(s.messages[id])]), p, Waiting)
      else Goto(s.(failedUpdates := s.failedUpdates + [id]), p, Waiting)
  }

  ghost predicate IsRun(s: State, ts: seq<Step>)
    decreases |ts|
  {
    ts == [] || (Enabled(s, ts[0]) && IsRun(Apply(s, ts[0]), ts[1..]))
  }

  ghost function Final(s: State, ts: seq<Step>): State
    requires IsRun(s, ts)
    decreases |ts|
  {
    if ts == [] then s else Final(Apply(s, ts[0]), ts[1..])
  }

  function Count(log: seq<Id>, id: Id): nat {
    if log == [] then 0 else Count(log[..|log| - 1], id) + (if log[|log| - 1] == id then 1 else 0)
  }

  lemma CountAppend(log: seq<Id>, x: Id, id: Id)
    ensures Count(log + [x], id) == Count(log, id) + (if x == id then 1 else 0)
  {
    assert (log + [x])[..|log + [x]| - 1] == log;
  }

  /** The books of one draft, with a single processor. */
  ghost predicate Balanced(s: State, id: Id)
    requires |s.processors| == 1
  {
    && (id in s.messages ==> id !in s.deleted)
    && (id in s.queued || s.processors[0] == Sending(id) || s.processors[0] == Marking(id) ==> Known(s, id))
    && Bounded(s, id)
    && (Count(s.stored, id) == 0 ==> Exact(s, id))
  }

  predicate Known(s: State, id: Id) { id in s.messages || id in s.deleted }

  /** No more sends, with the one that can still be made, than failed updates and
      re-armings allow. */
  ghost predicate Bounded(s: State, id: Id)
    requires |s.processors| == 1
  {
    var pending :=
      if s.processors[0] == Sending(id) then 1
      else if s.processors[0] == Marking(id) then 0
      else if id in s.messages && s.messages[id].isDraft then 1 else 0;
    Count(s.accepted, id) + pending <= Count(s.failedUpdates, id) + Count(s.rearmed, id) + (if Known(s, id) then 1 else 0)
  }

  /** The books as long as nobody stores \Draft. */
  ghost predicate Exact(s: State, id: Id)
    requires |s.processors| == 1
  {
    var sends, failures := Count(s.accepted, id), Count(s.failedUpdates, id);
    if s.processors[0] == Sending(id) then
      sends == failures && (id in s.messages ==> s.messages[id].isDraft)
    else if s.processors[0] == Marking(id) then
      sends == failures + 1 && (id in s.messages ==> s.messages[id].isDraft)
    else if id in s.messages then
      sends == failures + (if s.messages[id].isDraft then 0 else 1)
    else if id in s.deleted then
      failures <= sends <= failures + 1
    else
      sends == failures
  }

  lemma BalancedHandler(s: State, t: Step, id: Id)
    requires |s.processors| == 1 && Enabled(s, t) && Balanced(s, id)
    requires !t.StoreDraft? && !t.Load? && !t.Post? && !t.Mark?
    ensures Balanced(Apply(s, t), id)
  {
  }

  lemma BalancedStore(s: State, x: Id, draft: bool, id: Id)
    requires |s.processors| == 1 && Balanced(s, id)
    ensures Balanced(Apply(s, StoreDraft(x, draft)), id)
  {
    CountAppend(s.stored, x, id);
    CountAppend(s.rearmed, x, id);
  }

  lemma BalancedPost(s: State, ok: bool, id: Id)
    requires |s.processors| == 1 && Enabled(s, Post(0, ok)) && Balanced(s, id)
    ensures Balanced(Apply(s, Post(0, ok)), id)
  {
    CountAppend(s.accepted, s.processors[0].draft, id);
  }

  lemma BalancedMark(s: State, ok: bool, id: Id)
    requires |s.processors| == 1 && Enabled(s, Mark(0, ok)) && Balanced(s, id)
    ensures Balanced(Apply(s, Mark(0, ok)), id)
  {
    CountAppend(s.failedUpdates, s.processors[0].draft, id);
  }

  lemma BalancedStep(s: State, t: Step, id: Id)
    requires |s.processors| == 1 && Enabled(s, t) && Balanced(s, id)
    ensures |Apply(s, t).processors| == 1 && Balanced(Apply(s, t), id)
  {
    match t
    case Load(_, _) =>
    case StoreDraft(x, draft) => BalancedStore(s, x, draft, id);
    case Post(_, ok) => BalancedPost(s, ok, id);
    case Mark(_, ok) => BalancedMark(s, ok, id);
    case _ => BalancedHandler(s, t, id);
  }

  lemma {:induction false} BalancedRun(s: State, ts: seq<Step>, id: Id)
    requires |s.processors| == 1 && IsRun(s, ts) && Balanced(s, id)
    ensures |Final(s, ts).processors| == 1 && Balanced(Final(s, ts), id)
    decreases |ts|
  {
    if ts != [] {
      BalancedStep(s, ts[0], id);
      BalancedRun(Apply(s, ts[0]), ts[1..], id);
    }
  }

  /** With jobs processed one at a time, Postmark accepts a draft at most once more
      than its post-send update fails and IMAP makes a draft of it again, whatever is
      queued, retried, edited or deleted in between. If nobody stores \Draft, the count
      is exact between processings: a message still marked as a draft has had one failed
      update for every accepted send, and a message marked sent exactly one send more. */
  lemma SendsBounded(ts: seq<Step>, id: Id)
    requires IsRun(Init(1), ts)
    ensures
      var s := Final(Init(1), ts);
      var sends, failures := Count(s.accepted, id), Count(s.failedUpdates, id);
      && sends <= failures + Count(s.rearmed, id) + 1
      && (s.processors == [Waiting] && id in s.messages && Count(s.stored, id) == 0 ==>
            sends == failures + (if s.messages[id].isDraft then 0 else 1))
  {
    BalancedRun(Init(1), ts, id);
  }

  lemma RunTwo(s0: State, t0: Step, t1: Step)
    requires Enabled(s0, t0) && Enabled(Apply(s0, t0), t1)
    ensures IsRun(s0, [t0, t1]) && Final(s0, [t0, t1]) == Apply(Apply(s0, t0), t1)
  {
    var ts := [t0, t1];
    var s1, s2 := Apply(s0, t0), Apply(Apply(s0, t0), t1);
    assert ts[2..] == [] && ts[1..][1..] == ts[2..] && ts[1..][0] == t1;
    assert IsRun(s2, ts[2..]) && Final(s2, ts[2..]) == s2;
    assert IsRun(s1, ts[1..]) && Final(s1, ts[1..]) == s2;
  }

  lemma RunThree(s0: State, t0: Step, t1: Step, t2: Step)
    requires Enabled(s0, t0) && Enabled(Apply(s0, t0), t1) && Enabled(Apply(Apply(s0, t0), t1), t2)
    ensures IsRun(s0, [t0, t1, t2])
    ensures Final(s0, [t0, t1, t2]) == Apply(Apply(Apply(s0, t0), t1), t2)
  {
    var ts := [t0, t1, t2];
    assert ts[3..] == [] && ts[2..][1..] == ts[3..] && ts[1..][1..] == ts[2..];
    assert IsRun(Apply(Apply(s0, t0), t1), ts[2..]);
    assert IsRun(Apply(s0, t0), ts[1..]);
    assert Final(Apply(Apply(s0, t0), t1), ts[2..]) == Apply(Apply(Apply(s0, t0), t1), t2);
    assert Final(Apply(s0, t0), ts[1..]) == Apply(Apply(Apply(s0, t0), t1), t2);
  }

  // ---------------------------------------------------------------------------
  // One at a time matters

  /** Whether `n` processors keep the bound on the sends of every draft in every run. */
  ghost predicate SendsBoundedBy(n: nat) {
    forall ts, id :: IsRun(Init(n), ts) ==>
      Count(Final(Init(n), ts).accepted, id)
        <= Count(Final(Init(n), ts).failedUpdates, id) + Count(Final(Init(n), ts).rearmed, id) + 1
  }

  lemma {:induction false} NobodySends(s: State, ts: seq<Step>)
    requires |s.processors| == 0 && IsRun(s, ts)
    ensures Final(s, ts).accepted == s.accepted
    decreases |ts|
  {
    if ts != [] {
      NobodySends(Apply(s, ts[0]), ts[1..]);
    }
  }

  /** A run that sends the draft twice: two processors load it before either marks it. */
  function SendTwice(id: Id): seq<Step> {
    [CreateDraft(id, "", []), RequestSend(id), Load(0, id)] + [Load(1, id), Post(0, true), Post(1, true)]
  }

  lemma TwoLoads(n: nat, id: Id)
    requires n >= 2
    ensures var ts := [CreateDraft(id, "", []), RequestSend(id), Load(0, id)];
      && IsRun(Init(n), ts)
      && Final(Init(n), ts)
         == Init(n).(messages := map[id := Message(true, false, "DRAFTS", "", [])], queued := {id},
                     processors := Init(n).processors[0 := Sending(id)])
  {
    RunThree(Init(n), CreateDraft(id, "", []), RequestSend(id), Load(0, id));
  }

  lemma TwoPosts(s: State, id: Id)
    requires |s.processors| >= 2 && s.processors[0] == Sending(id) && s.processors[1] == Waiting
    requires id in s.queued && id in s.messages && s.messages[id].isDraft
    ensures var ts := [Load(1, id), Post(0, true), Post(1, true)];
      && IsRun(s, ts) && Final(s, ts).accepted == s.accepted + [id] + [id]
      && Final(s, ts).failedUpdates == s.failedUpdates && Final(s, ts).rearmed == s.rearmed
  {
    RunThree(s, Load(1, id), Post(0, true), Post(1, true));
  }

  lemma {:induction false} RunAppend(s: State, a: seq<Step>, b: seq<Step>)
    requires IsRun(s, a) && IsRun(Final(s, a), b)
    ensures IsRun(s, a + b) && Final(s, a + b) == Final(Final(s, a), b)
    decreases |a|
  {
    if a == [] {
      assert a + b == b;
    } else {
      assert (a + b)[1..] == a[1..] + b;
      RunAppend(Apply(s, a[0]), a[1..], b);
    }
  }

  /** From an empty store, two processors send a draft twice with no failed update. */
  lemma TwoProcessorsSendTwice(n: nat, id: Id)
    requires n >= 2
    ensures IsRun(Init(n), SendTwice(id))
    ensures var s := Final(Init(n), SendTwice(id));
      Count(s.accepted, id) == 2 && Count(s.failedUpdates, id) == Count(s.rearmed, id) == 0
  {
    var ts := [CreateDraft(id, "", []), RequestSend(id), Load(0, id)];
    TwoLoads(n, id);
    TwoPosts(Final(Init(n), ts), id);
    RunAppend(Init(n), ts, [Load(1, id), Post(0, true), Post(1, true)]);
    CountAppend([], id, id);
    CountAppend([] + [id], id, id);
  }

  /** The bound on sends holds in every run exactly when at most one job is processed
      at a time. */
  lemma SendsBoundedExactly(n: nat)
    ensures SendsBoundedBy(n) <==> n <= 1
  {
    if n >= 2 {
      TwoProcessorsSendTwice(n, 0);
    } else {
      forall ts, id | IsRun(Init(n), ts)
        ensures Count(Final(Init(n), ts).accepted, id)
          <= Count(Final(Init(n), ts).failedUpdates, id) + Count(Final(Init(n), ts).rearmed, id) + 1
      {
        if n == 0 {
          NobodySends(Init(n), ts);
        } else {
          SendsBounded(ts, id);
        }
      }
    }
  }

  // ---------------------------------------------------------------------------
  // The handlers and the processor over a store nobody else uses meanwhile

  /** How a call ended. An index out of range in Go is a panic. */
  datatype Result = Success | Failure(reason: string) | Panic

  /** Postmark's reply to one send: a transport error, an error code, or accepted. */
  datatype Reply = Unreachable | Rejected | Accepted

  datatype Delivery = Delivery(message: Id, recipient: string)

  class SendService {
    var messages: map<Id, Message>
    var queued: set<Id>
    var deliveries: seq<Delivery>
    ghost var deleted: set<Id>
    ghost var accepted: seq<Id>
    ghost var failedUpdates: seq<Id>

    ghost function Abstract(): State
      reads this
    {
      State(messages, deleted, queued, [Waiting], accepted, failedUpdates, [], [])
    }

    constructor ()
      ensures Abstract() == Init(1) && deliveries == []
    {
      messages, queued, deliveries, deleted, accepted, failedUpdates := map[], {}, [], {}, [], [];
    }

    method CreateDraft(id: Id, subject: string, to: seq<string>)
      requires id !in messages && id !in deleted
      modifies this`messages
      ensures Abstract() == Apply(old(Abstract()), Step.CreateDraft(id, subject, to))
      ensures messages == old(messages)[id := Message(true, false, "DRAFTS", subject, to)]
    {
      messages := messages[id := Message(true, false, "DRAFTS", subject, to)];
    }

    /** The patch keeps is_draft as it is, is not refused for a sent message, and cannot
        empty the recipients. */
    method UpdateDraft(id: Id, subject: string, to: seq<string>) returns (r: Result)
      modifies this`messages
      ensures r.Success? <==> id in old(messages)
      ensures !r.Panic?
      ensures Abstract() == Apply(old(Abstract()), Step.UpdateDraft(id, subject, to))
      ensures r.Success? ==>
        && messages.Keys == old(messages).Keys && messages[id].subject == subject
        && messages[id].to == (if to == [] then old(messages)[id].to else to)
        && messages[id].isDraft == old(messages)[id].isDraft && messages[id].isOutbound == old(messages)[id].isOutbound
        && messages[id].mailbox == old(messages)[id].mailbox
        && forall m :: m in messages && m != id ==> messages[m] == old(messages)[m]
    {
      if id !in messages {
        return Failure("not found");
      }
      var msg := messages[id];
      var kept := if |to| == 0 then msg.to else to;
      messages := messages[id := msg.(subject := subject, to := kept)];
      r := Success;
    }

    method SendDraft(id: Id) returns (r: Result)
      modifies this`queued
      ensures r.Success? <==> id in messages && messages[id].isDraft
      ensures !r.Panic?
      ensures Abstract() == Apply(old(Abstract()), RequestSend(id))
      ensures queued == old(queued) + (if r.Success? then {id} else {})
    {
      if id !in messages {
        return Failure("not found");
      }
      if !messages[id].isDraft {
        return Failure("validation");
      }
      queued := queued + {id};
      r := Success;
    }

    /** One send job. `domainFound`, `reply`, `updateWorks` and `logWorks` are what the
        store and Postmark answer. */
    method Process(id: Id, domainFound: bool, reply: Reply, updateWorks: bool, logWorks: bool)
      returns (r: Result, ghost ts: seq<Step>)
      requires id in queued
      modifies this`messages, this`deliveries, this`accepted, this`failedUpdates
      ensures IsRun(old(Abstract()), ts) && Final(old(Abstract()), ts) == Abstract()
      ensures var sent := id in old(messages) && old(messages)[id].isDraft && domainFound && reply.Accepted?;
        && accepted == old(accepted) + (if sent then [id] else [])
        && failedUpdates == old(failedUpdates) + (if sent && !updateWorks then [id] else [])
        && messages == (if sent && updateWorks
                        then old(messages)[id := Message(false, true, "SENT", old(messages)[id].subject, old(messages)[id].to)]
                        else old(messages))
        && (r.Success? <==> sent && updateWorks && old(messages)[id].to != [])
        && (r.Panic? <==> sent && updateWorks && old(messages)[id].to == [])
        && deliveries == old(deliveries) + (if r.Success? && logWorks then [Delivery(id, old(messages)[id].to[0])] else [])
    {
      ts := [];
      if id !in messages {
        return Failure("get draft"), ts;
      }
      var msg := messages[id];
      if !msg.isDraft {
        return Failure("message is not a draft"), ts;
      }
      if !domainFound {
        return Failure("get domain"), ts;
      }
      if !reply.Accepted? {
        ts := [Load(0, id), Post(0, false)];
        ghost var s1 := Apply(old(Abstract()), ts[0]);
        assert s1.processors == [Sending(id)];
        RunTwo(old(Abstract()), ts[0], ts[1]);
        assert Apply(s1, ts[1]) == Abstract();
        return Failure("postmark"), ts;
      }
      accepted := accepted + [id];
      ts := [Load(0, id), Post(0, true), Mark(0, updateWorks)];
      ghost var s1 := Apply(old(Abstract()), ts[0]);
      assert s1.processors == [Sending(id)];
      ghost var s2 := Apply(s1, ts[1]);
      assert s2.processors == [Marking(id)];
      RunThree(old(Abstract()), ts[0], ts[1], ts[2]);
      if !updateWorks {
        failedUpdates := failedUpdates + [id];
        assert Apply(s2, ts[2]) == Abstract();
        return Failure("update message"), ts;
      }
      messages := messages[id := msg.(isDraft := false, isOutbound := true, mailbox := "SENT")];
      assert Apply(s2, ts[2]) == Abstract();
      if |msg.to| == 0 {
        return Panic, ts;
      }
      if logWorks {
        deliveries := deliveries + [Delivery(id, msg.to[0])];
      }
      r := Success;
    }
  }
}
