/** The three Redis structures behind the job queue (a list, a sorted set and a
    dead-letter list) and the client helpers that change them. */
module Redis {
  import opened Collections

  /** What the server stores. `list[0]` is the left end of the list, where LPUSH
      inserts; BRPOP takes from the right end. `delayed` maps each member of the
      sorted set to its score. */
  datatype Queues<!T(==)> = Queues(list: seq<T>, delayed: map<T, int>, dead: seq<T>)
  {
    function LPush(x: T): Queues<T> { this.(list := [x] + list) }

    function BRPop(): Queues<T>
      requires list != []
    {
      this.(list := list[..|list| - 1])
    }

    function ZAdd(x: T, score: int): Queues<T> { this.(delayed := delayed[x := score]) }

    function ZRem(x: T): Queues<T> { this.(delayed := delayed - {x}) }

    function LPushDead(x: T): Queues<T> { this.(dead := [x] + dead) }
  }

  function Reverse<T>(s: seq<T>): (r: seq<T>)
    ensures |r| == |s|
  {
    if s == [] then [] else Reverse(s[1..]) + [s[0]]
  }

  /** The order in which BRPOP hands out a list. */
  function DequeueOrder<T>(list: seq<T>): (r: seq<T>)
    ensures |r| == |list|
  {
    if list == [] then [] else [list[|list| - 1]] + DequeueOrder(list[..|list| - 1])
  }

  /** The members of a sorted set with a score of at most `maxScore`. */
  ghost function Ready<T>(delayed: map<T, int>, maxScore: int): set<T> {
    set x | x in delayed && delayed[x] <= maxScore
  }

  ghost predicate Ascending<T>(delayed: map<T, int>, s: seq<T>) {
    && (forall i :: 0 <= i < |s| ==> s[i] in delayed)
    && (forall i, j :: 0 <= i < j < |s| ==> delayed[s[i]] <= delayed[s[j]])
  }

  /** A possible ZRANGEBYSCORE reply: exactly the members in range, once each, by
      ascending score. Members with equal scores may come in any order. */
  ghost predicate IsRange<T>(delayed: map<T, int>, maxScore: int, ready: seq<T>) {
    && Distinct(ready)
    && Elements(ready) == Ready(delayed, maxScore)
    && Ascending(delayed, ready)
  }

  /** LPUSH then ZREM for every item in turn. */
  function Promoted<T(==)>(q: Queues<T>, items: seq<T>): Queues<T>
    decreases |items|
  {
    if items == [] then q else Promoted(q.LPush(items[0]).ZRem(items[0]), items[1..])
  }

  lemma {:induction false} PromotedResult<T>(q: Queues<T>, items: seq<T>)
    ensures Promoted(q, items)
         == Queues(Reverse(items) + q.list, q.delayed - Elements(items), q.dead)
    decreases |items|
  {
    if items == [] {
      assert Reverse(items) + q.list == q.list;
      assert q.delayed - Elements(items) == q.delayed;
    } else {
      var q1 := q.LPush(items[0]).ZRem(items[0]);
      PromotedResult(q1, items[1..]);
      assert Reverse(items[1..]) + ([items[0]] + q.list) == Reverse(items) + q.list;
      assert Elements(items) == {items[0]} + Elements(items[1..]);
      assert q.delayed - {items[0]} - Elements(items[1..]) == q.delayed - Elements(items);
    }
  }

  lemma {:induction false} PromotedSnoc<T>(q: Queues<T>, items: seq<T>, x: T)
    ensures Promoted(q, items + [x]) == Promoted(q, items).LPush(x).ZRem(x)
    decreases |items|
  {
    if items == [] {
      assert (items + [x])[1..] == [];
    } else {
      assert (items + [x])[1..] == items[1..] + [x];
      PromotedSnoc(q.LPush(items[0]).ZRem(items[0]), items[1..], x);
    }
  }

  lemma {:induction false} DequeueAppend<T>(a: seq<T>, b: seq<T>)
    ensures DequeueOrder(a + b) == DequeueOrder(b) + DequeueOrder(a)
  {
    if b == [] {
      assert a + b == a;
    } else {
      assert (a + b)[..|a + b| - 1] == a + b[..|b| - 1];
      DequeueAppend(a, b[..|b| - 1]);
    }
  }

  lemma {:induction false} DequeueReverse<T>(s: seq<T>)
    ensures DequeueOrder(Reverse(s)) == s
  {
    if s != [] {
      var r := Reverse(s[1..]);
      assert Reverse(s)[..|r|] == r;
      DequeueReverse(s[1..]);
    }
  }

  /** Jobs promoted together leave the list after everything that was already
      there and in the order of their scores, the earliest first. */
  lemma PromotedInDueOrder<T>(q: Queues<T>, maxScore: int, ready: seq<T>)
    requires IsRange(q.delayed, maxScore, ready)
    ensures DequeueOrder(Promoted(q, ready).list) == DequeueOrder(q.list) + ready
    ensures Ascending(q.delayed, ready)
    ensures forall x :: x in Promoted(q, ready).delayed <==> x in q.delayed && q.delayed[x] > maxScore
    ensures forall x :: x in Promoted(q, ready).delayed ==> Promoted(q, ready).delayed[x] == q.delayed[x]
  {
    PromotedResult(q, ready);
    DequeueAppend(Reverse(ready), q.list);
    DequeueReverse(ready);
    forall x
      ensures x in Promoted(q, ready).delayed <==> x in q.delayed && q.delayed[x] > maxScore
    {
      assert x in Elements(ready) <==> x in Ready(q.delayed, maxScore);
    }
  }

  lemma {:induction false} ReverseMembers<T>(s: seq<T>)
    ensures forall x :: x in Reverse(s) <==> x in s
  {
    if s != [] {
      ReverseMembers(s[1..]);
      assert s == [s[0]] + s[1..];
    }
  }

  /** A promotion of all members due puts exactly those in front of the list. */
  lemma PromotedDue<T>(q: Queues<T>, maxScore: int, ready: seq<T>)
    requires IsRange(q.delayed, maxScore, ready)
    ensures Promoted(q, ready).list == Reverse(ready) + q.list && Promoted(q, ready).dead == q.dead
    ensures forall x :: x in Reverse(ready) <==> x in q.delayed && q.delayed[x] <= maxScore
    ensures forall x :: x in Promoted(q, ready).delayed <==> x in q.delayed && q.delayed[x] > maxScore
  {
    PromotedResult(q, ready);
    ReverseMembers(ready);
    forall x
      ensures x in ready <==> x in q.delayed && q.delayed[x] <= maxScore
    {
      assert x in ready <==> x in Elements(ready);
    }
  }

  lemma {:induction false} LeastScoreExists<T>(m: map<T, int>, s: set<T>)
    requires s != {} && s <= m.Keys
    ensures exists x :: x in s && forall y :: y in s ==> m[x] <= m[y]
    decreases |s|
  {
    var a :| a in s;
    if s != {a} {
      assert s - {a} != {};
      LeastScoreExists(m, s - {a});
      var x :| x in s - {a} && forall y :: y in s - {a} ==> m[x] <= m[y];
      var best := if m[a] <= m[x] then a else x;
      assert best in s && forall y :: y in s ==> m[best] <= m[y];
    }
  }

  class Client<T(==)> {
    var list: seq<T>
    var delayed: map<T, int>
    var dead: seq<T>

    ghost function Contents(): Queues<T>
      reads this
    {
      Queues(list, delayed, dead)
    }

    constructor ()
      ensures Contents() == Queues([], map[], [])
    {
      list, delayed, dead := [], map[], [];
    }

    method Enqueue(payload: T)
      modifies this`list
      ensures Contents() == old(Contents()).LPush(payload)
    {
      list := [payload] + list;
    }

    /** None stands for the nil reply of a BRPOP that timed out on an empty list. */
    method Dequeue() returns (r: Option<T>)
      modifies this`list
      ensures r.None? <==> old(list) == []
      ensures r.None? ==> list == old(list)
      ensures r.Some? ==> DequeueOrder(old(list)) == [r.value] + DequeueOrder(list)
      ensures r.Some? ==> old(list) == list + [r.value]
    {
      if list == [] {
        return None;
      }
      r := Some(list[|list| - 1]);
      list := list[..|list| - 1];
      assert old(list) == list + [r.value];
    }

    method ZRangeByScore(maxScore: int) returns (ready: seq<T>)
      ensures IsRange(delayed, maxScore, ready)
    {
      ready := [];
      var rest := set x | x in delayed && delayed[x] <= maxScore;
      while rest != {}
        invariant rest <= Ready(delayed, maxScore)
        invariant Distinct(ready)
        invariant forall x :: x in Ready(delayed, maxScore) <==> x in ready || x in rest
        invariant forall x :: x in rest ==> x !in ready
        invariant Ascending(delayed, ready)
        invariant forall i, x :: 0 <= i < |ready| && x in rest ==> delayed[ready[i]] <= delayed[x]
        decreases |rest|
      {
        LeastScoreExists(delayed, rest);
        var x :| x in rest && forall y :: y in rest ==> delayed[x] <= delayed[y];
        ready := ready + [x];
        rest := rest - {x};
      }
    }

    /** Moves every due member to the list: LPUSH, then ZREM, one item at a time. */
    method PromoteReadyDelayed(maxScore: int) returns (ready: seq<T>)
      modifies this`list, this`delayed
      ensures IsRange(old(delayed), maxScore, ready)
      ensures Contents() == Promoted(old(Contents()), ready)
    {
      ready := ZRangeByScore(maxScore);
      var i := 0;
      while i < |ready|
        invariant 0 <= i <= |ready|
        invariant Contents() == Promoted(old(Contents()), ready[..i])
      {
        PromotedSnoc(old(Contents()), ready[..i], ready[i]);
        assert ready[..i + 1] == ready[..i] + [ready[i]];
        list := [ready[i]] + list;
        delayed := delayed - {ready[i]};
        i := i + 1;
      }
      assert ready[..i] == ready;
    }

    method EnqueueDelayed(payload: T, score: int)
      modifies this`delayed
      ensures Contents() == old(Contents()).ZAdd(payload, score)
    {
      delayed := delayed[payload := score];
    }

    method EnqueueDead(payload: T)
      modifies this`dead
      ensures Contents() == old(Contents()).LPushDead(payload)
    {
      dead := [payload] + dead;
    }
  }
}
