/** The sliding-window rate limiter: a map of recent timestamps per client, pruned
    lazily and cleaned periodically, against the full history of admissions. */
module RateLimiter {
  import opened Collections
  import opened Strings

  function Fresh(times: seq<int>, now: int, window: int): (r: seq<int>) {
    if times == [] then []
    else (if now - times[0] < window then [times[0]] else []) + Fresh(times[1..], now, window)
  }

  ghost predicate Ordered(times: seq<int>) {
    forall i, j :: 0 <= i < j < |times| ==> times[i] <= times[j]
  }

  ghost predicate NoLater(times: seq<int>, now: int) {
    forall i :: 0 <= i < |times| ==> times[i] <= now
  }

  lemma {:induction false} FreshAppend(a: seq<int>, b: seq<int>, now: int, window: int)
    ensures Fresh(a + b, now, window) == Fresh(a, now, window) + Fresh(b, now, window)
  {
    if a == [] {
      assert a + b == b;
    } else {
      FreshAppend(a[1..], b, now, window);
      FreshHead(a, now, window);
      FreshHead(a + b, now, window);
      assert (a + b)[1..] == a[1..] + b && (a + b)[..1] == a[..1];
      Associative(Fresh(a[..1], now, window), Fresh(a[1..], now, window), Fresh(b, now, window));
    }
  }

  lemma FreshHead(times: seq<int>, now: int, window: int)
    requires times != []
    ensures Fresh(times, now, window) == Fresh(times[..1], now, window) + Fresh(times[1..], now, window)
  {
    assert times[..1] == [times[0]] && [times[0]][1..] == [];
  }

  /** Pruning twice, the second time later, is pruning once. */
  lemma {:induction false} FreshFresh(times: seq<int>, earlier: int, now: int, window: int)
    requires earlier <= now
    ensures Fresh(Fresh(times, earlier, window), now, window) == Fresh(times, now, window)
  {
    if times != [] {
      FreshFresh(times[1..], earlier, now, window);
      var rest := Fresh(times[1..], earlier, window);
      if earlier - times[0] < window {
        assert Fresh(times, earlier, window) == [times[0]] + rest;
        assert ([times[0]] + rest)[1..] == rest;
      } else {
        assert Fresh(times, earlier, window) == rest;
      }
    }
  }

  lemma {:induction false} FreshMembers(times: seq<int>, now: int, window: int)
    ensures forall t :: t in Fresh(times, now, window) <==> t in times && now - t < window
  {
    if times != [] {
      FreshMembers(times[1..], now, window);
      assert times == [times[0]] + times[1..];
    }
  }

  // ---------------------------------------------------------------------------
  // The specification: a limiter that remembers every admission

  /** All admissions of one client, oldest first. */
  type History = seq<int>

  predicate Admits(h: History, now: int, requests: int, window: int) {
    |Fresh(h, now, window)| < requests
  }

  /** The admissions less than a window old. */
  function Recent(h: History, now: int, window: int): set<int> {
    set i | 0 <= i < |h| && now - h[i] < window
  }

  lemma {:induction false} FreshCounts(h: History, now: int, window: int)
    ensures |Fresh(h, now, window)| == |Recent(h, now, window)|
    decreases |h|
  {
    if h != [] {
      var last := |h| - 1;
      FreshCounts(h[..last], now, window);
      FreshAppend(h[..last], [h[last]], now, window);
      assert h == h[..last] + [h[last]];
      assert Fresh([h[last]], now, window) == if now - h[last] < window then [h[last]] else [] by {
        assert [h[last]][1..] == [];
      }
      assert Recent(h, now, window)
          == Recent(h[..last], now, window) + (if now - h[last] < window then {last} else {});
    }
  }

  /** At the oldest of the latest `requests` admissions, and no later, room is made. */
  lemma AdmitsExactly(h: History, now: int, requests: int, window: int)
    requires Ordered(h)
    ensures Admits(h, now, requests, window) <==> |Recent(h, now, window)| < requests
    ensures Admits(h, now, requests, window) <==>
      requests > 0 && (|h| < requests || now - h[|h| - requests] >= window)
  {
    FreshCounts(h, now, window);
    if 0 < requests <= |h| {
      if now - h[|h| - requests] < window {
        FewFresh(h, now, window, |h| - requests);
      } else {
        StaleFresh(h, now, window, |h| - requests);
      }
    } else {
      FreshShrinks(h, now, window);
    }
  }

  lemma {:induction false} FreshShrinks(h: History, now: int, window: int)
    ensures |Fresh(h, now, window)| <= |h|
  {
    if h != [] {
      FreshShrinks(h[1..], now, window);
    }
  }

  /** The admissions up to a stale one are all stale. */
  lemma StaleFresh(h: History, now: int, window: int, i: nat)
    requires i < |h| && Ordered(h) && now - h[i] >= window
    ensures |Fresh(h, now, window)| < |h| - i
  {
    assert h == h[..i + 1] + h[i + 1..];
    FreshAppend(h[..i + 1], h[i + 1..], now, window);
    NoneFresh(h[..i + 1], now, window);
    FreshShrinks(h[i + 1..], now, window);
  }

  lemma {:induction false} NoneFresh(h: History, now: int, window: int)
    requires forall i :: 0 <= i < |h| ==> now - h[i] >= window
    ensures Fresh(h, now, window) == []
  {
    if h != [] {
      NoneFresh(h[1..], now, window);
    }
  }

  /** The history of one client after its requests at `times`. */
  function Served(h: History, times: seq<int>, requests: int, window: int): History
    decreases |times|
  {
    if times == [] then h
    else Served(if Admits(h, times[0], requests, window) then h + [times[0]] else h, times[1..], requests, window)
  }

  ghost predicate Spaced(h: History, requests: int, window: int) {
    forall i, j :: 0 <= i < j < |h| && i + requests <= j ==> h[j] - h[i] >= window
  }

  lemma {:induction false} AllFresh(h: History, now: int, window: int)
    requires forall i :: 0 <= i < |h| ==> now - h[i] < window
    ensures Fresh(h, now, window) == h
  {
    if h != [] {
      AllFresh(h[1..], now, window);
    }
  }

  /** The admissions from a fresh one on are all fresh, so there are few of them. */
  lemma FewFresh(h: History, now: int, window: int, i: nat)
    requires i < |h| && Ordered(h) && now - h[i] < window
    ensures |h| - i <= |Fresh(h, now, window)|
  {
    assert h == h[..i] + h[i..];
    FreshAppend(h[..i], h[i..], now, window);
    AllFresh(h[i..], now, window);
  }

  lemma AdmissionKeepsSpacing(h: History, now: int, requests: int, window: int)
    requires requests > 0 && Ordered(h) && NoLater(h, now) && Spaced(h, requests, window)
    requires Admits(h, now, requests, window)
    ensures Ordered(h + [now]) && NoLater(h + [now], now) && Spaced(h + [now], requests, window)
  {
    forall i | 0 <= i < |h| && i + requests <= |h|
      ensures now - h[i] >= window
    {
      if now - h[i] < window {
        FewFresh(h, now, window, i);
      }
    }
  }

  lemma {:induction false} ServedSpaced(h: History, times: seq<int>, requests: int, window: int)
    requires requests > 0 && Ordered(h) && Spaced(h, requests, window) && Ordered(times)
    requires times == [] || NoLater(h, times[0])
    ensures Ordered(Served(h, times, requests, window)) && Spaced(Served(h, times, requests, window), requests, window)
    decreases |times|
  {
    if times != [] {
      if Admits(h, times[0], requests, window) {
        AdmissionKeepsSpacing(h, times[0], requests, window);
        ServedSpaced(h + [times[0]], times[1..], requests, window);
      } else {
        ServedSpaced(h, times[1..], requests, window);
      }
    }
  }

  /** A client's first `requests` requests are all admitted, at whatever times. */
  lemma {:induction false} FirstAdmitted(h: History, times: seq<int>, requests: int, window: int)
    requires |h| + |times| <= requests
    ensures Served(h, times, requests, window) == h + times
    decreases |times|
  {
    if times != [] {
      FreshShrinks(h, times[0], window);
      FirstAdmitted(h + [times[0]], times[1..], requests, window);
      assert h + times == h + [times[0]] + times[1..];
    }
  }

  lemma {:induction false} ServedSnoc(h: History, times: seq<int>, now: int, requests: int, window: int)
    ensures var h' := Served(h, times, requests, window);
      Served(h, times + [now], requests, window) == if Admits(h', now, requests, window) then h' + [now] else h'
    decreases |times|
  {
    if times == [] {
      assert times + [now] == [now] && [now][1..] == [];
    } else {
      assert (times + [now])[1..] == times[1..] + [now];
      ServedSnoc(if Admits(h, times[0], requests, window) then h + [times[0]] else h, times[1..], now, requests, window);
    }
  }

  /** After any run of requests at nondecreasing times, one more is admitted exactly when
      fewer than `requests` were, or the `requests`-th latest was at least a window ago. */
  lemma NextAdmittedExactly(times: seq<int>, now: int, requests: int, window: int)
    requires requests > 0 && Ordered(times)
    ensures var h := Served([], times, requests, window);
      Served([], times + [now], requests, window)
        == if |h| < requests || now - h[|h| - requests] >= window then h + [now] else h
  {
    ServedSpaced([], times, requests, window);
    ServedSnoc([], times, now, requests, window);
    var h := Served([], times, requests, window);
    AdmitsExactly(h, now, requests, window);
    assert Admits(h, now, requests, window) <==> |h| < requests || now - h[|h| - requests] >= window;
  }

  /** Over any run of requests at nondecreasing times, two admissions of a client
      that are `requests` apart in the order of admission are `window` apart in time. */
  lemma AdmissionsSpaced(times: seq<int>, requests: int, window: int, i: nat)
    requires requests > 0 && Ordered(times)
    ensures var h := Served([], times, requests, window);
            i + requests < |h| ==> h[i + requests] - h[i] >= window
  {
    ServedSpaced([], times, requests, window);
  }

  // ---------------------------------------------------------------------------
  // The limiter

  function HistoryOf(history: map<string, History>, ip: string): History {
    if ip in history then history[ip] else []
  }

  /** What the map holds for a client: its fresh admissions and perhaps older ones. */
  ghost predicate Covers(times: seq<int>, h: History, last: int, window: int) {
    && NoLater(h, last)
    && Fresh(times, last, window) == Fresh(h, last, window)
  }

  lemma CoversLater(times: seq<int>, h: History, last: int, now: int, window: int)
    requires Covers(times, h, last, window) && last <= now
    ensures Covers(times, h, now, window)
  {
    FreshFresh(times, last, now, window);
    FreshFresh(h, last, now, window);
  }

  lemma CoversPruned(times: seq<int>, h: History, now: int, window: int)
    requires Covers(times, h, now, window)
    ensures Covers(Fresh(times, now, window), h, now, window)
  {
    FreshFresh(times, now, now, window);
  }

  lemma CoversAdmitted(times: seq<int>, h: History, now: int, window: int)
    requires Covers(times, h, now, window)
    ensures Covers(Fresh(times, now, window) + [now], h + [now], now, window)
  {
    FreshFresh(times, now, now, window);
    FreshAppend(Fresh(times, now, window), [now], now, window);
    FreshAppend(h, [now], now, window);
  }

  /** An entry is not empty, within the limit, and recent: its last admission is
      less than a window older than the last cleanup, or it came after that. */
  ghost predicate EntryOk(times: seq<int>, requests: int, window: int, lastCleanup: int) {
    0 < |times| <= requests && (times[|times| - 1] >= lastCleanup || lastCleanup - times[|times| - 1] < window)
  }

  lemma {:induction false} FreshEntry(times: seq<int>, now: int, window: int)
    ensures |Fresh(times, now, window)| <= |times|
    ensures var f := Fresh(times, now, window);
            f != [] ==> now - f[|f| - 1] < window
  {
    if times != [] {
      FreshEntry(times[1..], now, window);
    }
  }

  /** The invariant of the limiter, with the full history beside its map. */
  ghost predicate Consistent(clients: map<string, seq<int>>, history: map<string, History>,
                             last: int, lastCleanup: int, requests: int, window: int)
  {
    && lastCleanup <= last
    && (last - lastCleanup <= window || last == lastCleanup)
    && (forall ip :: ip in clients ==> EntryOk(clients[ip], requests, window, lastCleanup))
    && (forall ip :: ip in clients ==> AllFrom(clients[ip], HistoryOf(history, ip)))
    && (forall ip :: Covers(HistoryOf(clients, ip), HistoryOf(history, ip), last, window))
  }

  ghost predicate AllFrom(times: seq<int>, h: History) {
    forall i :: 0 <= i < |times| ==> times[i] in h
  }

  lemma ConsistentLater(clients: map<string, seq<int>>, history: map<string, History>,
                        last: int, now: int, lastCleanup: int, requests: int, window: int)
    requires Consistent(clients, history, last, lastCleanup, requests, window)
    requires last <= now <= lastCleanup + window
    ensures Consistent(clients, history, now, lastCleanup, requests, window)
  {
    forall ip
      ensures Covers(HistoryOf(clients, ip), HistoryOf(history, ip), now, window)
    {
      CoversLater(HistoryOf(clients, ip), HistoryOf(history, ip), last, now, window);
    }
  }

  function Pruned(clients: map<string, seq<int>>, now: int, window: int): map<string, seq<int>> {
    map ip | ip in clients && Fresh(clients[ip], now, window) != [] :: Fresh(clients[ip], now, window)
  }

  lemma ConsistentPruned(clients: map<string, seq<int>>, history: map<string, History>,
                         last: int, now: int, lastCleanup: int, requests: int, window: int)
    requires Consistent(clients, history, last, lastCleanup, requests, window) && last <= now
    ensures Consistent(Pruned(clients, now, window), history, now, now, requests, window)
  {
    var pruned := Pruned(clients, now, window);
    forall ip
      ensures Covers(HistoryOf(pruned, ip), HistoryOf(history, ip), now, window)
    {
      CoversLater(HistoryOf(clients, ip), HistoryOf(history, ip), last, now, window);
      CoversPruned(HistoryOf(clients, ip), HistoryOf(history, ip), now, window);
    }
    forall ip | ip in pruned
      ensures EntryOk(pruned[ip], requests, window, now) && AllFrom(pruned[ip], HistoryOf(history, ip))
    {
      FreshEntry(clients[ip], now, window);
      PrunedFrom(clients[ip], HistoryOf(history, ip), now, window);
    }
  }

  lemma PrunedFrom(times: seq<int>, h: History, now: int, window: int)
    requires AllFrom(times, h)
    ensures AllFrom(Fresh(times, now, window), h)
  {
    FreshMembers(times, now, window);
    var kept := Fresh(times, now, window);
    forall i | 0 <= i < |kept|
      ensures kept[i] in h
    {
      assert kept[i] in kept;
      var k :| 0 <= k < |times| && times[k] == kept[i];
    }
  }

  lemma ConsistentAdmitted(clients: map<string, seq<int>>, history: map<string, History>, ip: string,
                           now: int, lastCleanup: int, requests: int, window: int)
    requires Consistent(clients, history, now, lastCleanup, requests, window)
    requires Admits(HistoryOf(history, ip), now, requests, window)
    ensures Consistent(
      clients[ip := Fresh(HistoryOf(clients, ip), now, window) + [now]],
      history[ip := HistoryOf(history, ip) + [now]], now, lastCleanup, requests, window)
  {
    var times, h := HistoryOf(clients, ip), HistoryOf(history, ip);
    var kept := Fresh(times, now, window) + [now];
    assert Covers(times, h, now, window) && AllFrom(times, h);
    AdmittedEntry(times, h, now, lastCleanup, requests, window);
    var clients', history' := clients[ip := kept], history[ip := h + [now]];
    forall c
      ensures Covers(HistoryOf(clients', c), HistoryOf(history', c), now, window)
    {
      assert Covers(HistoryOf(clients, c), HistoryOf(history, c), now, window);
    }
    forall c | c in clients'
      ensures EntryOk(clients'[c], requests, window, lastCleanup) && AllFrom(clients'[c], HistoryOf(history', c))
    {
      assert c != ip ==> HistoryOf(history', c) == HistoryOf(history, c);
    }
  }

  lemma AdmittedEntry(times: seq<int>, h: History, now: int, lastCleanup: int, requests: int, window: int)
    requires Covers(times, h, now, window) && AllFrom(times, h) && lastCleanup <= now && Admits(h, now, requests, window)
    ensures var kept := Fresh(times, now, window) + [now];
      Covers(kept, h + [now], now, window) && AllFrom(kept, h + [now]) && EntryOk(kept, requests, window, lastCleanup)
  {
    CoversAdmitted(times, h, now, window);
    PrunedFrom(times, h, now, window);
  }

  /** At most `requests` timestamps per client, and only clients admitted less than
      two windows ago, or just now. */
  ghost predicate Bounded(clients: map<string, seq<int>>, history: map<string, History>, now: int, requests: int, window: int) {
    forall ip :: ip in clients ==>
      0 < |clients[ip]| <= requests && LatelyAdmitted(HistoryOf(history, ip), now, window)
  }

  ghost predicate LatelyAdmitted(h: History, now: int, window: int) {
    exists t :: t in h && (now - t < 2 * window || t == now)
  }

  lemma ConsistentBounded(clients: map<string, seq<int>>, history: map<string, History>,
                          now: int, lastCleanup: int, requests: int, window: int)
    requires Consistent(clients, history, now, lastCleanup, requests, window)
    ensures Bounded(clients, history, now, requests, window)
  {
    forall ip | ip in clients
      ensures 0 < |clients[ip]| <= requests
      ensures exists t :: t in HistoryOf(history, ip) && (now - t < 2 * window || t == now)
    {
      var times := clients[ip];
      assert EntryOk(times, requests, window, lastCleanup);
      var t := times[|times| - 1];
      assert t in HistoryOf(history, ip);
      assert Covers(HistoryOf(clients, ip), HistoryOf(history, ip), now, window);
    }
  }

  ghost predicate AllSpaced(history: map<string, History>, requests: int, window: int) {
    forall ip :: ip in history ==> Ordered(history[ip]) && Spaced(history[ip], requests, window)
  }

  lemma AllSpacedAdmitted(history: map<string, History>, ip: string, now: int, requests: int, window: int)
    requires AllSpaced(history, requests, window) && NoLater(HistoryOf(history, ip), now)
    requires Admits(HistoryOf(history, ip), now, requests, window)
    ensures AllSpaced(history[ip := HistoryOf(history, ip) + [now]], requests, window)
  {
    AdmissionKeepsSpacing(HistoryOf(history, ip), now, requests, window);
  }

  class RateLimiter {
    const requests: int
    const window: int
    var clients: map<string, seq<int>>
    var lastCleanup: int
    /** Every admission so far, and the time of the last request. */
    ghost var history: map<string, History>
    ghost var last: int

    /** The map agrees with the full history, and admissions are spaced. */
    ghost predicate Valid()
      reads this
    {
      && Consistent(clients, history, last, lastCleanup, requests, window)
      && AllSpaced(history, requests, window)
    }

    constructor (requests: int, window: int, now: int)
      ensures Valid() && history == map[] && last == now
      ensures this.requests == requests && this.window == window
    {
      this.requests, this.window := requests, window;
      clients, lastCleanup := map[], now;
      history, last := map[], now;
    }

    method Prune(times: seq<int>, now: int) returns (kept: seq<int>)
      ensures kept == Fresh(times, now, window)
    {
      kept := [];
      var i := 0;
      while i < |times|
        invariant 0 <= i <= |times|
        invariant kept == Fresh(times[..i], now, window)
      {
        FreshAppend(times[..i], [times[i]], now, window);
        assert times[..i + 1] == times[..i] + [times[i]];
        if now - times[i] < window {
          kept := kept + [times[i]];
        }
        i := i + 1;
      }
      assert times[..i] == times;
    }

    /** Drops stale timestamps everywhere, and clients that have none left. */
    method Cleanup(now: int)
      modifies this`clients
      ensures clients == Pruned(old(clients), now, window)
    {
      var todo := clients.Keys;
      while todo != {}
        invariant todo <= clients.Keys <= old(clients).Keys
        invariant forall ip :: ip in todo ==> clients[ip] == old(clients)[ip]
        invariant forall ip :: ip in old(clients) && ip !in todo ==>
          if Fresh(old(clients)[ip], now, window) == [] then ip !in clients
          else ip in clients && clients[ip] == Fresh(old(clients)[ip], now, window)
        decreases |todo|
      {
        var ip :| ip in todo;
        var kept := Prune(clients[ip], now);
        if |kept| == 0 {
          clients := clients - {ip};
        } else {
          clients := clients[ip := kept];
        }
        todo := todo - {ip};
      }
    }

    /** One request of a client. It is admitted exactly when fewer than `requests` of all the
        client's admissions so far are less than a window old, which is when there are fewer
        than `requests` or the `requests`-th latest is at least a window old. Admissions stay
        spaced (`Valid`), and memory is bounded. */
    method Admit(ip: string, now: int) returns (admitted: bool)
      requires Valid() && last <= now
      modifies this
      ensures Valid() && last == now
      ensures var h := HistoryOf(old(history), ip);
        && (admitted <==> |Recent(h, now, window)| < requests)
        && (admitted <==> requests > 0 && (|h| < requests || now - h[|h| - requests] >= window))
        && history == (if admitted then old(history)[ip := h + [now]] else old(history))
      ensures Bounded(clients, history, now, requests, window)
    {
      AdmitsByHistory(history, ip, now, requests, window);
      if now - lastCleanup > window {
        ConsistentPruned(clients, history, last, now, lastCleanup, requests, window);
        Cleanup(now);
        lastCleanup := now;
      } else {
        ConsistentLater(clients, history, last, now, lastCleanup, requests, window);
      }
      last := now;
      var times := Prune(if ip in clients then clients[ip] else [], now);
      assert Covers(HistoryOf(clients, ip), HistoryOf(history, ip), now, window);
      if |times| >= requests {
        ConsistentBounded(clients, history, now, lastCleanup, requests, window);
        return false;
      }
      ConsistentAdmitted(clients, history, ip, now, lastCleanup, requests, window);
      AllSpacedAdmitted(history, ip, now, requests, window);
      clients := clients[ip := times + [now]];
      history := history[ip := HistoryOf(history, ip) + [now]];
      ConsistentBounded(clients, history, now, lastCleanup, requests, window);
      return true;
    }

    /** In every state between requests memory is bounded. */
    lemma MemoryBounded()
      requires Valid()
      ensures Bounded(clients, history, last, requests, window)
    {
      ConsistentBounded(clients, history, last, lastCleanup, requests, window);
    }

    /** A request, counted for the client that its headers name. */
    method Handle(remoteAddr: string, forwardedFor: string, now: int) returns (admitted: bool, ip: string)
      requires Valid() && last <= now
      modifies this
      ensures Valid() && last == now
      ensures if forwardedFor == "" then ip == remoteAddr
              else ip <= forwardedFor && ',' !in ip && (|ip| < |forwardedFor| ==> forwardedFor[|ip|] == ',')
      ensures var h := HistoryOf(old(history), ip);
        && (admitted <==> |Recent(h, now, window)| < requests)
        && (admitted <==> requests > 0 && (|h| < requests || now - h[|h| - requests] >= window))
        && history == (if admitted then old(history)[ip := h + [now]] else old(history))
    {
      ip := Key(remoteAddr, forwardedFor);
      admitted := Admit(ip, now);
    }

    /** The client a request counts for: the first address of X-Forwarded-For, or else the peer. */
    method Key(remoteAddr: string, forwardedFor: string) returns (ip: string)
      ensures if forwardedFor == "" then ip == remoteAddr
              else ip <= forwardedFor && ',' !in ip && (|ip| < |forwardedFor| ==> forwardedFor[|ip|] == ',')
    {
      if forwardedFor == "" {
        return remoteAddr;
      }
      var comma := Index(forwardedFor, ',');
      assert forall i :: 0 <= i < comma ==> forwardedFor[..comma][i] == forwardedFor[i];
      ip := forwardedFor[..comma];
    }
  }

  lemma AdmitsByHistory(history: map<string, History>, ip: string, now: int, requests: int, window: int)
    requires AllSpaced(history, requests, window)
    ensures var h := HistoryOf(history, ip);
      && (Admits(h, now, requests, window) <==> |Recent(h, now, window)| < requests)
      && (Admits(h, now, requests, window) <==>
            requests > 0 && (|h| < requests || now - h[|h| - requests] >= window))
  {
    AdmitsExactly(HistoryOf(history, ip), now, requests, window);
  }
}
