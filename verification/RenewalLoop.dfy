/** The timing of the renewal loop: when a served certificate can expire. Times are
    in one unit, say seconds; the loop's context stays live. */
module RenewalLoop {

  /** The loop's configuration. `duration` bounds how long one attempt takes and
      `failures` how many attempts in a row may fail. */
  datatype Timing = Timing(renewInterval: int, renewBefore: int, duration: int, failures: nat)

  const HOUR := 3600

  /** applyConfig's defaults for settings left at zero. */
  function WithDefaults(t: Timing): Timing {
    t.(renewInterval := if t.renewInterval == 0 then 24 * HOUR else t.renewInterval,
       renewBefore := if t.renewBefore == 0 then 720 * HOUR else t.renewBefore)
  }

  /** What happened at a tick: nothing was due, the attempt failed, or it brought a
      certificate valid until `notAfter`. */
  datatype Outcome = NotDue | Failed | Renewed(notAfter: int)

  /** A check starts at `at` and its attempt, if any, ends at `done`. An install is a
      new certificate from outside the loop: a forced renewal or a Reload. */
  datatype Event = Check(at: int, done: int, outcome: Outcome) | Install(at: int, notAfter: int)

  /** The served certificate's end, when the last check began, when the last event
      ended, and how many attempts have failed in a row. */
  datatype State = State(notAfter: int, lastCheck: int, lastEnd: int, failed: nat)

  predicate NeedsRenewal(t: Timing, now: int, notAfter: int) { now + t.renewBefore > notAfter }

  /** Checks are at most an interval apart, an attempt is made exactly when renewal is
      due, a new certificate outlives `renewBefore`, and failures are limited. */
  ghost predicate Legal(t: Timing, s: State, e: Event) {
    match e
    case Check(at, done, outcome) =>
      && s.lastEnd <= at <= done <= at + t.duration
      && at <= s.lastCheck + t.renewInterval
      && (match outcome
          case NotDue => !NeedsRenewal(t, at, s.notAfter)
          case Failed => NeedsRenewal(t, at, s.notAfter) && s.failed < t.failures
          case Renewed(n) => NeedsRenewal(t, at, s.notAfter) && n >= done + t.renewBefore)
    case Install(at, n) => s.lastEnd <= at && n >= at + t.renewBefore
  }

  function After(s: State, e: Event): State {
    match e
    case Check(at, done, outcome) =>
      (match outcome
       case NotDue => State(s.notAfter, at, done, 0)
       case Failed => State(s.notAfter, at, done, s.failed + 1)
       case Renewed(n) => State(n, at, done, 0))
    case Install(at, n) => State(n, s.lastCheck, at, 0)
  }

  ghost predicate LegalRun(t: Timing, s: State, events: seq<Event>)
    decreases |events|
  {
    events == [] || (Legal(t, s, events[0]) && LegalRun(t, After(s, events[0]), events[1..]))
  }

  function AfterAll(s: State, events: seq<Event>): State
    decreases |events|
  {
    if events == [] then s else AfterAll(After(s, events[0]), events[1..])
  }

  /** The latest time by which the next check and its attempt are over. */
  function Horizon(t: Timing, s: State): int { s.lastCheck + t.renewInterval + t.duration }

  /** Some time from which the certificate was good for `renewBefore`, no more than
      one interval per failure ago. */
  ghost predicate Anchored(t: Timing, s: State) {
    && s.failed <= t.failures && s.lastCheck <= s.lastEnd
    && s.lastCheck + t.renewBefore <= s.notAfter + s.failed * t.renewInterval
  }

  lemma AnchoredStep(t: Timing, s: State, e: Event)
    requires t.renewInterval >= 0 && Anchored(t, s) && Legal(t, s, e)
    ensures Anchored(t, After(s, e))
  {
    assert (s.failed + 1) * t.renewInterval == s.failed * t.renewInterval + t.renewInterval;
  }

  lemma AnchoredHorizon(t: Timing, s: State)
    requires t.renewInterval >= 0 && Anchored(t, s)
    requires (t.failures + 1) * t.renewInterval + t.duration <= t.renewBefore
    ensures Horizon(t, s) <= s.notAfter
  {
    Monotone(s.failed, t.failures, t.renewInterval);
    assert (t.failures + 1) * t.renewInterval == t.failures * t.renewInterval + t.renewInterval;
  }

  lemma Monotone(a: nat, b: nat, x: int)
    requires a <= b && x >= 0
    ensures a * x <= b * x
  {
    assert b * x == a * x + (b - a) * x;
  }

  lemma {:induction false} AnchoredRun(t: Timing, s: State, events: seq<Event>)
    requires t.renewInterval >= 0 && Anchored(t, s) && LegalRun(t, s, events)
    ensures Anchored(t, AfterAll(s, events))
    decreases |events|
  {
    if events != [] {
      AnchoredStep(t, s, events[0]);
      AnchoredRun(t, After(s, events[0]), events[1..]);
    }
  }

  /** Right after a check at `at` that found the certificate not due. */
  ghost predicate FoundNotDue(t: Timing, s: State) {
    !NeedsRenewal(t, s.lastCheck, s.notAfter) && s.lastEnd == s.lastCheck && s.failed == 0
  }

  /** From a check that found renewal not due on, the served certificate is valid until
      the next check and its attempt are over, after any events, provided
      (k+1)*RenewInterval plus the length of an attempt fits into RenewBefore. */
  lemma NeverExpires(t: Timing, s: State, events: seq<Event>)
    requires t.renewInterval >= 0 && FoundNotDue(t, s) && LegalRun(t, s, events)
    requires (t.failures + 1) * t.renewInterval + t.duration <= t.renewBefore
    ensures Horizon(t, AfterAll(s, events)) <= AfterAll(s, events).notAfter
  {
    AnchoredRun(t, s, events);
    AnchoredHorizon(t, AfterAll(s, events));
  }

  /** `n` failed attempts, one per interval after `start`. */
  function FailedChecks(t: Timing, start: int, n: nat): seq<Event>
    decreases n
  {
    if n == 0 then []
    else [Check(start + t.renewInterval, start + t.renewInterval, Failed)] + FailedChecks(t, start + t.renewInterval, n - 1)
  }

  lemma {:induction false} FailedChecksLegal(t: Timing, s: State, n: nat)
    requires t.renewInterval > 0 && t.duration >= 0 && s.lastEnd == s.lastCheck
    requires s.failed + n <= t.failures && NeedsRenewal(t, s.lastCheck + t.renewInterval, s.notAfter)
    ensures LegalRun(t, s, FailedChecks(t, s.lastCheck, n))
    ensures AfterAll(s, FailedChecks(t, s.lastCheck, n))
         == State(s.notAfter, s.lastCheck + n * t.renewInterval, s.lastCheck + n * t.renewInterval, s.failed + n)
    decreases n
  {
    if n > 0 {
      var e := Check(s.lastCheck + t.renewInterval, s.lastCheck + t.renewInterval, Failed);
      var events := FailedChecks(t, s.lastCheck, n);
      assert events[0] == e && events[1..] == FailedChecks(t, s.lastCheck + t.renewInterval, n - 1);
      FailedChecksLegal(t, After(s, e), n - 1);
      assert (n - 1) * t.renewInterval + t.renewInterval == n * t.renewInterval;
    }
  }

  /** The bound is exact: if it does not fit, there is a run in which the certificate
      expires before the next check and its attempt are over. */
  lemma BoundIsTight(t: Timing)
    requires t.renewInterval > 0 && t.duration >= 0
    requires (t.failures + 1) * t.renewInterval + t.duration > t.renewBefore
    ensures exists s, events ::
      && FoundNotDue(t, s) && LegalRun(t, s, events)
      && Horizon(t, AfterAll(s, events)) > AfterAll(s, events).notAfter
  {
    var s := State(t.renewBefore, 0, 0, 0);
    var events := FailedChecks(t, 0, t.failures);
    FailedChecksLegal(t, s, t.failures);
    assert (t.failures + 1) * t.renewInterval == t.failures * t.renewInterval + t.renewInterval;
    assert FoundNotDue(t, s) && LegalRun(t, s, events);
  }

  /** Left at zero, the loop checks once a day and renews 30 days before the end; other
      settings are kept. Times are in seconds. */
  lemma DefaultsAre(t: Timing)
    ensures WithDefaults(t).renewInterval == if t.renewInterval == 0 then 86_400 else t.renewInterval
    ensures WithDefaults(t).renewBefore == if t.renewBefore == 0 then 2_592_000 else t.renewBefore
    ensures WithDefaults(t).duration == t.duration && WithDefaults(t).failures == t.failures
  {
  }

  /** With the default timings and attempts that take no time, 29 failures in a row
      are tolerated, and not one more. */
  lemma DefaultTimingsTolerate29(k: nat)
    ensures var t := WithDefaults(Timing(0, 0, 0, k));
      (t.failures + 1) * t.renewInterval + t.duration <= t.renewBefore <==> k <= 29
  {
    assert (k + 1) * (24 * HOUR) == k * 86400 + 86400;
  }

  /** One tick of the loop as it meets the outside: when it fires, when its attempt
      would end, whether the attempt succeeds and the certificate it brings. */
  datatype Tick = Tick(at: int, done: int, succeeds: bool, notAfter: int)

  function EventOf(t: Timing, s: State, tick: Tick): Event {
    if !NeedsRenewal(t, tick.at, s.notAfter) then Check(tick.at, tick.at, NotDue)
    else Check(tick.at, tick.done, if tick.succeeds then Renewed(tick.notAfter) else Failed)
  }

  ghost function EventsOf(t: Timing, s: State, ticks: seq<Tick>): seq<Event>
    decreases |ticks|
  {
    if ticks == [] then []
    else [EventOf(t, s, ticks[0])] + EventsOf(t, After(s, EventOf(t, s, ticks[0])), ticks[1..])
  }

  lemma {:induction false} EventsSnoc(t: Timing, s: State, ticks: seq<Tick>, tick: Tick)
    ensures var s' := AfterAll(s, EventsOf(t, s, ticks));
      AfterAll(s, EventsOf(t, s, ticks + [tick])) == After(s', EventOf(t, s', tick))
    decreases |ticks|
  {
    if ticks == [] {
      assert ticks + [tick] == [tick] && [tick][1..] == [];
    } else {
      var s1 := After(s, EventOf(t, s, ticks[0]));
      assert (ticks + [tick])[1..] == ticks[1..] + [tick];
      assert EventsOf(t, s, ticks)[1..] == EventsOf(t, s1, ticks[1..]);
      assert EventsOf(t, s, ticks + [tick])[1..] == EventsOf(t, s1, ticks[1..] + [tick]);
      EventsSnoc(t, s1, ticks[1..], tick);
    }
  }

  /** After any ticks, the next one changes what is served exactly when less than
      `renewBefore` is left and its attempt succeeds. */
  lemma NextTick(t: Timing, s: State, ticks: seq<Tick>, tick: Tick)
    ensures var served := AfterAll(s, EventsOf(t, s, ticks)).notAfter;
      AfterAll(s, EventsOf(t, s, ticks + [tick])).notAfter ==
        if served - tick.at < t.renewBefore && tick.succeeds then tick.notAfter else served
  {
    EventsSnoc(t, s, ticks, tick);
  }

  /** Ticks after a check at `at` that ended by `end`: at most an interval apart, none
      before the attempt of the one before is over, attempts within `duration`, new
      certificates that outlive `renewBefore`, and after `failed` ticks at which an
      attempt would have failed, at most `failures` of them in a row. */
  predicate Prompt(t: Timing, ticks: seq<Tick>, at: int, end: int, failed: nat)
    decreases |ticks|
  {
    ticks == [] ||
    var tick := ticks[0];
    && end <= tick.at <= at + t.renewInterval
    && tick.at <= tick.done <= tick.at + t.duration
    && (if tick.succeeds then tick.notAfter >= tick.done + t.renewBefore else failed < t.failures)
    && Prompt(t, ticks[1..], tick.at, tick.done, if tick.succeeds then 0 else failed + 1)
  }

  lemma TickLegal(t: Timing, s: State, tick: Tick, failed: nat)
    requires s.failed <= failed && s.lastEnd <= tick.at <= s.lastCheck + t.renewInterval
    requires tick.at <= tick.done <= tick.at + t.duration
    requires if tick.succeeds then tick.notAfter >= tick.done + t.renewBefore else failed < t.failures
    ensures Legal(t, s, EventOf(t, s, tick))
    ensures var s' := After(s, EventOf(t, s, tick));
      s'.lastCheck == tick.at && s'.lastEnd <= tick.done && s'.failed <= (if tick.succeeds then 0 else failed + 1)
  {
  }

  /** Prompt ticks make a legal run, whatever certificate is served. */
  lemma {:induction false} PromptTicksLegal(t: Timing, s: State, ticks: seq<Tick>, end: int, failed: nat)
    requires s.lastEnd <= end && s.failed <= failed && Prompt(t, ticks, s.lastCheck, end, failed)
    ensures LegalRun(t, s, EventsOf(t, s, ticks))
    ensures ticks != [] ==> AfterAll(s, EventsOf(t, s, ticks)).lastCheck == ticks[|ticks| - 1].at
    decreases |ticks|
  {
    if ticks != [] {
      var tick := ticks[0];
      TickLegal(t, s, tick, failed);
      var e := EventOf(t, s, tick);
      var rest := EventsOf(t, After(s, e), ticks[1..]);
      PromptTicksLegal(t, After(s, e), ticks[1..], tick.done, if tick.succeeds then 0 else failed + 1);
      assert ([e] + rest)[1..] == rest;
      if |ticks| == 1 {
        assert rest == [];
      }
    }
  }

  /** The loop: at every tick it renews if renewal is due, and keeps the certificate
      it has if the attempt fails. After prompt ticks that began with a certificate found
      not due, what it serves is valid until the next check and its attempt are over. */
  method RenewalLoop(t: Timing, notAfter: int, ticks: seq<Tick>, ghost s: State) returns (served: int)
    requires s.notAfter == notAfter
    ensures served == AfterAll(s, EventsOf(t, s, ticks)).notAfter
    ensures t.renewInterval >= 0 && FoundNotDue(t, s) && Prompt(t, ticks, s.lastCheck, s.lastEnd, 0)
            && (t.failures + 1) * t.renewInterval + t.duration <= t.renewBefore ==>
              (if ticks == [] then s.lastCheck else ticks[|ticks| - 1].at) + t.renewInterval + t.duration <= served
  {
    if t.renewInterval >= 0 && FoundNotDue(t, s) && Prompt(t, ticks, s.lastCheck, s.lastEnd, 0)
       && (t.failures + 1) * t.renewInterval + t.duration <= t.renewBefore
    {
      PromptTicksLegal(t, s, ticks, s.lastEnd, 0);
      NeverExpires(t, s, EventsOf(t, s, ticks));
    }
    served := notAfter;
    var i := 0;
    while i < |ticks|
      invariant 0 <= i <= |ticks|
      invariant served == AfterAll(s, EventsOf(t, s, ticks[..i])).notAfter
    {
      EventsSnoc(t, s, ticks[..i], ticks[i]);
      assert ticks[..i + 1] == ticks[..i] + [ticks[i]];
      var tick := ticks[i];
      i := i + 1;
      if !NeedsRenewal(t, tick.at, served) || !tick.succeeds {
        continue;
      }
      served := tick.notAfter;
    }
    assert ticks[..i] == ticks;
  }
}
