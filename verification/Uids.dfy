/** IMAP UIDs: rows handed out from one sequence for all users and mailboxes. */
module Uids {
  import opened Expunging

  datatype Key = Key(message: MsgId, user: nat, mailbox: string)

  /** The UID rows, and the last value the sequence handed out. */
  datatype Table = Table(uids: map<Key, nat>, last: nat)

  const UID_RANGE := 0x1_0000_0000

  /** The conversion of a column value to a protocol UID. */
  function Uint32(n: nat): nat { n % UID_RANGE }

  /** Get or create: a new row takes one value of the sequence for its UID and the
      next one for its modification sequence. */
  function Assigned(t: Table, k: Key): Table {
    if k in t.uids then t else Table(t.uids[k := t.last + 1], t.last + 2)
  }

  /** Deleting a message deletes its rows. */
  function Forgotten(t: Table, m: MsgId): Table {
    t.(uids := map k | k in t.uids && k.message != m :: t.uids[k])
  }

  /** The highest UID of a mailbox, 0 if it has none. */
  ghost predicate IsMax(t: Table, user: nat, mailbox: string, max: nat) {
    && (forall k :: k in t.uids && k.user == user && k.mailbox == mailbox ==> t.uids[k] <= max)
    && (max == 0 || exists k :: k in t.uids && k.user == user && k.mailbox == mailbox && t.uids[k] == max)
  }

  /** `reported` holds every UIDNEXT reported and `ever` every UID handed out, also to
      messages deleted since. */
  datatype State = State(table: Table, reported: set<nat>, ever: set<nat>)

  datatype Step = Assign(key: Key) | Delete(message: MsgId) | ReportNext(user: nat, mailbox: string, max: nat)

  ghost predicate Enabled(s: State, t: Step) {
    t.ReportNext? ==> IsMax(s.table, t.user, t.mailbox, t.max)
  }

  function Apply(s: State, t: Step): State {
    match t
    case Assign(k) => s.(table := Assigned(s.table, k), ever := s.ever + {Assigned(s.table, k).uids[k]})
    case Delete(m) => s.(table := Forgotten(s.table, m))
    case ReportNext(_, _, max) => s.(reported := s.reported + {max + 1})
  }

  ghost predicate IsRun(s: State, ts: seq<Step>)
    decreases |ts|
  {
    ts == [] || (Enabled(s, ts[0]) && IsRun(Apply(s, ts[0]), ts[1..]))
  }

  function Final(s: State, ts: seq<Step>): State
    decreases |ts|
  {
    if ts == [] then s else Final(Apply(s, ts[0]), ts[1..])
  }

  const EMPTY := State(Table(map[], 0), {}, {})

  ghost predicate Inv(s: State) {
    && (forall k :: k in s.table.uids ==> 0 < s.table.uids[k] && s.table.uids[k] in s.ever)
    && (forall u :: u in s.ever ==> u <= s.table.last)
    && (forall k, l :: k in s.table.uids && l in s.table.uids && s.table.uids[k] == s.table.uids[l] ==> k == l)
    && (forall n :: n in s.reported ==> n <= s.table.last + 1)
  }

  lemma InvStep(s: State, t: Step)
    requires Inv(s) && Enabled(s, t)
    ensures Inv(Apply(s, t))
  {
  }

  lemma {:induction false} InvRun(s: State, ts: seq<Step>)
    requires Inv(s) && IsRun(s, ts)
    ensures Inv(Final(s, ts))
    decreases |ts|
  {
    if ts != [] {
      InvStep(s, ts[0]);
      InvRun(Apply(s, ts[0]), ts[1..]);
    }
  }

  /** A message's UID in a mailbox never changes while the message lives. */
  lemma {:induction false} UidNeverChanges(s: State, ts: seq<Step>, k: Key)
    requires k in s.table.uids && Delete(k.message) !in ts
    ensures k in Final(s, ts).table.uids && Final(s, ts).table.uids[k] == s.table.uids[k]
    decreases |ts|
  {
    if ts != [] {
      assert ts[0] in ts && forall t :: t in ts[1..] ==> t in ts;
      UidNeverChanges(Apply(s, ts[0]), ts[1..], k);
    }
  }

  /** Distinct messages never share a UID in a mailbox, also as 32-bit numbers as long
      as the sequence stays below 2^32. */
  lemma UidsDistinct(ts: seq<Step>, k: Key, l: Key)
    requires IsRun(EMPTY, ts) && Final(EMPTY, ts).table.last < UID_RANGE
    requires k in Final(EMPTY, ts).table.uids && l in Final(EMPTY, ts).table.uids && k != l
    ensures var uids := Final(EMPTY, ts).table.uids;
      Uint32(uids[k]) == uids[k] && Uint32(uids[k]) != Uint32(uids[l]) && Uint32(uids[k]) != 0
  {
    InvRun(EMPTY, ts);
  }

  /** A new UID exceeds every UID ever handed out and is at least every UIDNEXT ever
      reported, also after deletions have lowered the maximum. */
  lemma NewUidIsFresh(ts: seq<Step>, k: Key)
    requires IsRun(EMPTY, ts) && k !in Final(EMPTY, ts).table.uids
    ensures var s := Final(EMPTY, ts);
      var uid := Assigned(s.table, k).uids[k];
      && (forall u :: u in s.ever ==> uid > u)
      && (forall l :: l in s.table.uids ==> uid > s.table.uids[l])
      && (forall n :: n in s.reported ==> uid >= n)
  {
    InvRun(EMPTY, ts);
  }

  // ---------------------------------------------------------------------------
  // Addressing messages of a page

  /** The rows after every message of a page has been given a UID in turn. */
  function AssignAll(t: Table, page: seq<MsgId>, user: nat, mailbox: string): Table
    decreases |page|
  {
    if page == [] then t
    else Assigned(AssignAll(t, page[..|page| - 1], user, mailbox), Key(page[|page| - 1], user, mailbox))
  }

  lemma {:induction false} AssignAllKeeps(t: Table, page: seq<MsgId>, user: nat, mailbox: string)
    ensures var t' := AssignAll(t, page, user, mailbox);
      && (forall k :: k in t.uids ==> k in t'.uids && t'.uids[k] == t.uids[k])
      && (forall i :: 0 <= i < |page| ==> Key(page[i], user, mailbox) in t'.uids)
    decreases |page|
  {
    if page != [] {
      AssignAllKeeps(t, page[..|page| - 1], user, mailbox);
    }
  }

  /** Once assigned, a UID is not changed by the rest of the page. */
  lemma {:induction false} AssignAllPrefix(t: Table, page: seq<MsgId>, n: nat, user: nat, mailbox: string)
    requires n <= |page|
    ensures var t' := AssignAll(t, page[..n], user, mailbox);
      forall k :: k in t'.uids ==>
        k in AssignAll(t, page, user, mailbox).uids && AssignAll(t, page, user, mailbox).uids[k] == t'.uids[k]
    decreases |page| - n
  {
    if n == |page| {
      assert page[..n] == page;
    } else {
      assert page[..n + 1][..n] == page[..n];
      AssignAllPrefix(t, page, n + 1, user, mailbox);
    }
  }
}
