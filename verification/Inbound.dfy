/** Delivery of an inbound message: one independent INBOX copy per resolved target,
    in a loop that a failure leaves half done and a retry starts again. */
module Inbound {
  import opened Collections
  import opened Routing
  import opened Strings

  datatype Payload = Payload(originalRecipient: string, to: string, messageId: string)

  /** An INBOX copy of the job's message. */
  datatype InboxCopy = InboxCopy(user: UserId, messageId: string)

  /** What the reputation engine answers; a failing engine counts as `Deliver`. */
  datatype Decision = Deliver | Block | Greylist

  datatype Result = Success | Failure(reason: string)

  /** The outside of one Process call: the decision, and the first target whose
      labels or message cannot be stored (none, if beyond the last). */
  datatype Call = Call(decision: Decision, failsAt: nat)

  function Recipient(p: Payload): string { if p.originalRecipient != "" then p.originalRecipient else p.to }

  /** How many targets one call serves before it returns. */
  function Served(targets: seq<UserId>, call: Call): (n: nat)
    ensures n <= |targets|
  {
    if !call.decision.Deliver? then 0 else if call.failsAt < |targets| then call.failsAt else |targets|
  }

  function CopiesFor(targets: seq<UserId>, messageId: string): seq<InboxCopy> {
    seq(|targets|, i requires 0 <= i < |targets| => InboxCopy(targets[i], messageId))
  }

  function Targets(t: Tables, p: Payload): seq<UserId> {
    match ResolveRecipients(t, Recipient(p))
    case Routed(targets, _) => targets
    case Unroutable(_) => []
  }

  /** The inbox after copies for the first `n` targets. */
  ghost predicate CopiesAdded(before: seq<InboxCopy>, after: seq<InboxCopy>, targets: seq<UserId>, messageId: string, n: nat)
    requires n <= |targets|
  {
    && before <= after && |after| == |before| + n
    && forall k :: 0 <= k < n ==> after[|before| + k] == InboxCopy(targets[k], messageId)
  }

  /** A call adds nothing unless it is to deliver, and then copies for the targets up to the
      first that fails. */
  lemma ServedAdds(before: seq<InboxCopy>, targets: seq<UserId>, messageId: string, call: Call)
    ensures CopiesAdded(before, before + CopiesFor(targets[..Served(targets, call)], messageId), targets, messageId,
                        if call.decision.Deliver? then Min(call.failsAt, |targets|) else 0)
    ensures Succeeds(targets, call) <==> targets != [] && call.decision.Deliver? && call.failsAt >= |targets|
  {
  }

  lemma NothingServed(before: seq<InboxCopy>, messageId: string, call: Call)
    ensures Served([], call) == 0 && before + CopiesFor([][..0], messageId) == before
    ensures CopiesAdded(before, before, [], messageId, 0)
  {
  }

  /** The targets of a job are those of its envelope recipient, whatever its header says,
      and those of its header only if it has no envelope recipient. */
  lemma EnvelopeFirst(t: Tables, p: Payload)
    ensures var route := ResolveRecipients(t, if p.originalRecipient != "" then p.originalRecipient else p.to);
      Targets(t, p) == if route.Routed? then route.targets else []
  {
  }

  function Min(a: nat, b: nat): nat { if a < b then a else b }

  predicate Succeeds(targets: seq<UserId>, call: Call) {
    targets != [] && call.decision.Deliver? && call.failsAt >= |targets|
  }

  class InboundProcessor {
    var inbox: seq<InboxCopy>

    constructor ()
      ensures inbox == []
    {
      inbox := [];
    }

    /** The fan-out loop: a copy for each target in turn, until one cannot be stored. */
    method FanOut(targets: seq<UserId>, messageId: string, failsAt: nat) returns (r: Result)
      modifies this
      ensures inbox == old(inbox) + CopiesFor(targets[..if failsAt < |targets| then failsAt else |targets|], messageId)
      ensures r.Success? <==> failsAt >= |targets|
    {
      var i := 0;
      while i < |targets|
        invariant 0 <= i <= |targets| && i <= failsAt
        invariant inbox == old(inbox) + CopiesFor(targets[..i], messageId)
      {
        if i == failsAt {
          return Failure("create message");
        }
        inbox := inbox + [InboxCopy(targets[i], messageId)];
        i := i + 1;
        assert CopiesFor(targets[..i], messageId)
            == CopiesFor(targets[..i - 1], messageId) + [InboxCopy(targets[i - 1], messageId)];
      }
      assert targets[..i] == targets;
      r := Success;
    }

    /** The first half of a call: the resolved targets, or why there are none. */
    method Route(t: Tables, p: Payload) returns (targets: seq<UserId>, failure: string)
      ensures targets == Targets(t, p)
      ensures var route := ResolveRecipients(t, if p.originalRecipient != "" then p.originalRecipient else p.to);
        targets == if route.Routed? then route.targets else []
      ensures targets == [] <==> failure != ""
    {
      var recipient := p.originalRecipient;
      if recipient == "" {
        recipient := p.to;
      }
      if recipient == "" {
        NothingForEmpty(t);
        return [], "no recipient in inbound payload";
      }
      var route := ResolveRecipients(t, recipient);
      if route.Unroutable? {
        return [], "resolve recipient";
      }
      targets := route.targets;
      failure := if |targets| == 0 then "no route for recipient" else "";
    }

    /** The second half: the reputation's decision, then the fan-out. */
    method Deliver(targets: seq<UserId>, messageId: string, call: Call) returns (r: Result)
      requires targets != []
      modifies this
      ensures inbox == old(inbox) + CopiesFor(targets[..Served(targets, call)], messageId)
      ensures r.Success? <==> Succeeds(targets, call)
      ensures CopiesAdded(old(inbox), inbox, targets, messageId,
                          if call.decision.Deliver? then Min(call.failsAt, |targets|) else 0)
      ensures r.Success? <==> call.decision.Deliver? && call.failsAt >= |targets|
    {
      ServedAdds(inbox, targets, messageId, call);
      if call.decision.Block? {
        return Failure("sender blacklisted");
      }
      if call.decision.Greylist? {
        return Failure("greylisted: retry later");
      }
      r := FanOut(targets, messageId, call.failsAt);
    }

    /** One call. The targets are those of the envelope recipient, whatever the header says,
        and those of the header only if there is no envelope recipient. */
    method Process(t: Tables, p: Payload, call: Call) returns (r: Result, ghost targets: seq<UserId>)
      modifies this
      ensures inbox == old(inbox) + CopiesFor(targets[..Served(targets, call)], p.messageId)
      ensures CopiesAdded(old(inbox), inbox, targets, p.messageId,
                          if call.decision.Deliver? then Min(call.failsAt, |targets|) else 0)
      ensures r.Success? <==> targets != [] && call.decision.Deliver? && call.failsAt >= |targets|
      ensures var route := ResolveRecipients(t, if p.originalRecipient != "" then p.originalRecipient else p.to);
        targets == if route.Routed? then route.targets else []
    {
      var found, failure := Route(t, p);
      targets := found;
      if failure != "" {
        NothingServed(inbox, p.messageId, call);
        return Failure(failure), targets;
      }
      r := Deliver(found, p.messageId, call);
    }
  }

  lemma NothingForEmpty(t: Tables)
    ensures ResolveRecipients(t, "").Unroutable?
  {
  }

  // ---------------------------------------------------------------------------
  // A job over all its calls

  function After(targets: seq<UserId>, calls: seq<Call>, messageId: string): seq<InboxCopy> {
    if calls == [] then []
    else After(targets, calls[..|calls| - 1], messageId)
           + CopiesFor(targets[..Served(targets, calls[|calls| - 1])], messageId)
  }

  function Count(inbox: seq<InboxCopy>, u: UserId): nat {
    if inbox == [] then 0 else Count(inbox[1..], u) + (if inbox[0].user == u then 1 else 0)
  }

  lemma {:induction false} CountAppend(a: seq<InboxCopy>, b: seq<InboxCopy>, u: UserId)
    ensures Count(a + b, u) == Count(a, u) + Count(b, u)
  {
    if a == [] {
      assert a + b == b;
    } else {
      CountAppend(a[1..], b, u);
      assert (a + b)[1..] == a[1..] + b;
    }
  }

  /** One call gives a target it reached one copy, and nobody else any. */
  lemma {:induction false} OneCopyPerCall(targets: seq<UserId>, messageId: string, u: UserId)
    requires Distinct(targets)
    ensures Count(CopiesFor(targets, messageId), u) == if u in targets then 1 else 0
  {
    if targets != [] {
      var copies := CopiesFor(targets, messageId);
      assert copies[1..] == CopiesFor(targets[1..], messageId);
      OneCopyPerCall(targets[1..], messageId, u);
      assert targets == [targets[0]] + targets[1..];
    }
  }

  /** The calls that got past target `i`. */
  function Reached(targets: seq<UserId>, calls: seq<Call>, i: nat): nat {
    if calls == [] then 0
    else Reached(targets, calls[..|calls| - 1], i) + (if i < Served(targets, calls[|calls| - 1]) then 1 else 0)
  }

  /** The copies of each target are exactly the calls that got past it. */
  lemma {:induction false} CopiesAreCallsReached(targets: seq<UserId>, calls: seq<Call>, messageId: string, u: UserId)
    requires Distinct(targets)
    ensures u !in targets ==> Count(After(targets, calls, messageId), u) == 0
    ensures forall i :: 0 <= i < |targets| && targets[i] == u ==>
      Count(After(targets, calls, messageId), u) == Reached(targets, calls, i) <= |calls|
  {
    if calls != [] {
      var call := calls[|calls| - 1];
      var n := Served(targets, call);
      var before := After(targets, calls[..|calls| - 1], messageId);
      CopiesAreCallsReached(targets, calls[..|calls| - 1], messageId, u);
      CountAppend(before, CopiesFor(targets[..n], messageId), u);
      OneCopyPerCall(targets[..n], messageId, u);
      forall i | 0 <= i < |targets| && targets[i] == u
        ensures u in targets[..n] <==> i < n
      {
        if i < n {
          assert targets[..n][i] == u;
        }
      }
    }
  }

  /** With unchanged routing tables, a job whose k-th call succeeds has left every
      resolved target between one and k INBOX copies, and nobody else any. */
  lemma CompletedJobDelivered(t: Tables, p: Payload, calls: seq<Call>, u: UserId)
    requires Keyed(t) && calls != [] && Succeeds(Targets(t, p), calls[|calls| - 1])
    ensures
      var copies := Count(After(Targets(t, p), calls, p.messageId), u);
      && (u in Targets(t, p) ==> 1 <= copies <= |calls|)
      && (u !in Targets(t, p) ==> copies == 0)
    ensures
      var copies := Count(After(Targets(t, p), calls, p.messageId), u);
      var address := ToLower(TrimSpace(if p.originalRecipient != "" then p.originalRecipient else p.to));
      exists at ::
        && SplitsAt(t, address, at)
        && if RoutesTo(t, address, address[..at], t.domains[address[at + 1..]], u) then 1 <= copies <= |calls|
           else copies == 0
  {
    var targets := Targets(t, p);
    var at := ResolvedTargets(t, Recipient(p));
    assert SplitsAt(t, ToLower(TrimSpace(Recipient(p))), at);
    CopiesAreCallsReached(targets, calls, p.messageId, u);
    if u in targets {
      var i :| 0 <= i < |targets| && targets[i] == u;
      assert Reached(targets, calls, i) >= 1;
    }
  }

  lemma {:induction false} ReachedNone(targets: seq<UserId>, calls: seq<Call>, i: nat)
    ensures Reached(targets, calls, i) == 0 <==> forall k :: 0 <= k < |calls| ==> Served(targets, calls[k]) <= i
  {
    if calls != [] {
      var before := calls[..|calls| - 1];
      ReachedNone(targets, before, i);
      assert forall k :: 0 <= k < |before| ==> before[k] == calls[k];
      if forall k :: 0 <= k < |calls| ==> Served(targets, calls[k]) <= i {
        assert forall k :: 0 <= k < |before| ==> Served(targets, before[k]) <= i;
      } else {
        var k :| 0 <= k < |calls| && Served(targets, calls[k]) > i;
        assert k < |before| ==> Served(targets, before[k]) > i;
      }
    }
  }

  ghost predicate OneCopyEach(t: Tables, p: Payload, calls: seq<Call>) {
    forall u :: u in Targets(t, p) ==> Count(After(Targets(t, p), calls, p.messageId), u) == 1
  }

  /** A completed job has left every target exactly one copy if and only if none of its
      earlier calls delivered anything before it failed. */
  lemma OneCopyEachExactly(t: Tables, p: Payload, calls: seq<Call>)
    requires Keyed(t) && calls != [] && Succeeds(Targets(t, p), calls[|calls| - 1])
    ensures OneCopyEach(t, p, calls)
      <==> forall k :: 0 <= k < |calls| - 1 ==> Served(Targets(t, p), calls[k]) == 0
  {
    var _ := ResolvedTargets(t, Recipient(p));
    EachOnceExactly(Targets(t, p), calls, p.messageId);
  }

  lemma EachOnceExactly(targets: seq<UserId>, calls: seq<Call>, messageId: string)
    requires Distinct(targets) && calls != [] && Succeeds(targets, calls[|calls| - 1])
    ensures (forall u :: u in targets ==> Count(After(targets, calls, messageId), u) == 1)
      <==> forall k :: 0 <= k < |calls| - 1 ==> Served(targets, calls[k]) == 0
  {
    OnceAt(targets, calls, messageId, 0);
    assert targets[0] in targets;
    if forall k :: 0 <= k < |calls| - 1 ==> Served(targets, calls[k]) == 0 {
      forall u | u in targets
        ensures Count(After(targets, calls, messageId), u) == 1
      {
        var i :| 0 <= i < |targets| && targets[i] == u;
        OnceAt(targets, calls, messageId, i);
      }
    }
  }

  /** A target has one copy exactly when no earlier call got past it. */
  lemma OnceAt(targets: seq<UserId>, calls: seq<Call>, messageId: string, i: nat)
    requires Distinct(targets) && i < |targets| && calls != [] && Succeeds(targets, calls[|calls| - 1])
    ensures Count(After(targets, calls, messageId), targets[i]) == 1
      <==> forall k :: 0 <= k < |calls| - 1 ==> Served(targets, calls[k]) <= i
  {
    var before := calls[..|calls| - 1];
    CopiesAreCallsReached(targets, calls, messageId, targets[i]);
    ReachedNone(targets, before, i);
    assert forall k :: 0 <= k < |before| ==> before[k] == calls[k];
  }

  /** A retry repeats what an earlier call already delivered: a first call that fails
      at the second of two targets leaves the first target two copies. */
  lemma RetryDuplicates(a: UserId, b: UserId, messageId: string)
    requires a != b
    ensures
      var calls := [Call(Deliver, 1), Call(Deliver, 2)];
      && !Succeeds([a, b], calls[0]) && Succeeds([a, b], calls[1])
      && Count(After([a, b], calls, messageId), a) == 2 && Count(After([a, b], calls, messageId), b) == 1
  {
    var calls := [Call(Deliver, 1), Call(Deliver, 2)];
    CopiesAreCallsReached([a, b], calls, messageId, a);
    CopiesAreCallsReached([a, b], calls, messageId, b);
    assert [a, b][0] == a && [a, b][1] == b;
    assert calls[..1] == [Call(Deliver, 1)] && calls[..1][..0] == [];
    assert Reached([a, b], calls[..1], 0) == 1 && Reached([a, b], calls[..1], 1) == 0;
  }
}
