/** The IMAP backend's mailbox commands as functions on the mail store's tables, and
    what they guarantee over whole runs. */
module Imap {
  import opened Collections
  import opened Expunging
  import opened Flags
  import opened MailStore
  import Uids

  /** A sequence set: None stands for an absent set, which selects everything. */
  type SeqSet = Option<set<nat>>

  /** A flag with both a row and a column is listed twice. */
  datatype Fetched = Fetched(seqNum: nat, uid: nat, flags: FlagList)

  datatype MailboxStatus = MailboxStatus(messages: nat, unseen: nat, uidNext: nat)

  /** How many messages a command loads per query. */
  type PageSize = n: nat | 0 < n witness 5000

  function UidOf(t: Uids.Table, m: MsgId, user: nat, mailbox: string): nat {
    var k := Uids.Key(m, user, mailbox);
    if k in t.uids then Uids.Uint32(t.uids[k]) else 0
  }

  predicate Selects(which: SeqSet, byUid: bool, uid: nat, seqNum: nat) {
    which.None? || (if byUid then uid else seqNum) in which.value
  }

  /** Whether a command addresses message `i` of a page, by UID or sequence number. */
  predicate Chosen(t: Uids.Table, page: seq<MsgId>, i: nat, user: nat, mailbox: string, byUid: bool, which: SeqSet)
    requires i < |page|
  {
    Selects(which, byUid, UidOf(t, page[i], user, mailbox), i + 1)
  }

  /** The messages among the first `n` of a page that a command addresses. */
  function ChosenIds(t: Uids.Table, page: seq<MsgId>, n: nat, user: nat, mailbox: string, byUid: bool, which: SeqSet): set<MsgId>
    requires n <= |page|
  {
    set i | 0 <= i < n && Chosen(t, page, i, user, mailbox, byUid, which) :: page[i]
  }

  /** The messages of a page as FETCH can return them. */
  function Items(t: Uids.Table, page: seq<MsgId>, messages: Messages, user: nat, mailbox: string): (items: seq<Fetched>)
    requires forall i :: 0 <= i < |page| ==> page[i] in messages
    ensures |items| == |page|
    ensures forall i :: 0 <= i < |page| ==>
      items[i] == Fetched(i + 1, UidOf(t, page[i], user, mailbox), Listed(messages[page[i]].marks))
  {
    seq(|page|, i requires 0 <= i < |page| => Fetched(i + 1, UidOf(t, page[i], user, mailbox), Listed(messages[page[i]].marks)))
  }

  /** Those of the first `n` that a command addresses. */
  function Picked(items: seq<Fetched>, n: nat, byUid: bool, which: SeqSet): seq<Fetched>
    requires n <= |items|
  {
    if n == 0 then []
    else
      var before := Picked(items, n - 1, byUid, which);
      if Selects(which, byUid, items[n - 1].uid, items[n - 1].seqNum) then before + [items[n - 1]] else before
  }

  lemma ItemAt(t: Uids.Table, page: seq<MsgId>, messages: Messages, user: nat, mailbox: string, i: nat)
    requires i < |page| && forall k :: 0 <= k < |page| ==> page[k] in messages
    ensures Items(t, page, messages, user, mailbox)[i]
         == Fetched(i + 1, UidOf(t, page[i], user, mailbox), Listed(messages[page[i]].marks))
  {
  }

  /** The `n`-th, if a command addresses it. */
  function PickedAt(items: seq<Fetched>, n: nat, byUid: bool, which: SeqSet): seq<Fetched>
    requires n < |items|
  {
    if Selects(which, byUid, items[n].uid, items[n].seqNum) then [items[n]] else []
  }

  lemma PickedNext(items: seq<Fetched>, n: nat, byUid: bool, which: SeqSet)
    requires n < |items|
    ensures Picked(items, n + 1, byUid, which) == Picked(items, n, byUid, which) + PickedAt(items, n, byUid, which)
  {
  }

  ghost predicate AsOnPage(items: seq<Fetched>, f: Fetched, n: nat, byUid: bool, which: SeqSet)
    requires n <= |items|
  {
    && 1 <= f.seqNum <= n && f == items[f.seqNum - 1]
    && (which.None? || (if byUid then f.uid else f.seqNum) in which.value)
  }

  /** FETCH returns each message as it stands on the page, addressed, in the order of the
      sequence numbers, */
  lemma {:induction false} PickedInOrder(items: seq<Fetched>, n: nat, byUid: bool, which: SeqSet, out: seq<Fetched>)
    requires n <= |items| && forall i :: 0 <= i < |items| ==> items[i].seqNum == i + 1
    requires out == Picked(items, n, byUid, which)
    ensures forall k :: 0 <= k < |out| ==> AsOnPage(items, out[k], n, byUid, which)
    ensures forall j, k :: 0 <= j < k < |out| ==> out[j].seqNum < out[k].seqNum
  {
    if n > 0 {
      var before := Picked(items, n - 1, byUid, which);
      PickedInOrder(items, n - 1, byUid, which, before);
      assert forall k :: 0 <= k < |before| ==> AsOnPage(items, before[k], n - 1, byUid, which) && out[k] == before[k];
    }
  }

  /** and every message that is addressed. */
  lemma {:induction false} PickedAll(items: seq<Fetched>, n: nat, byUid: bool, which: SeqSet, i: nat)
    requires i < n <= |items| && (which.None? || (if byUid then items[i].uid else items[i].seqNum) in which.value)
    ensures items[i] in Picked(items, n, byUid, which)
  {
    var before := Picked(items, n - 1, byUid, which);
    if i == n - 1 {
      assert (before + [items[i]])[|before|] == items[i];
    } else {
      PickedAll(items, n - 1, byUid, which, i);
    }
  }

  /** STORE on a set of messages. */
  function StoredIn(messages: Messages, ids: set<MsgId>, op: FlagsOp, flags: seq<string>): Messages {
    map m | m in messages :: if m in ids then messages[m].(marks := Stored(messages[m].marks, op, flags)) else messages[m]
  }

  /** STORE acts on the addressed messages, on what FETCH shows of them, as union,
      difference or replacement; leaves every other message alone; and keeps the two
      places a flag is held in step. */
  lemma StoreActs(messages: Messages, ids: set<MsgId>, op: FlagsOp, flags: seq<string>, m: MsgId)
    requires m in messages
    ensures var after := StoredIn(messages, ids, op, flags);
      && after.Keys == messages.Keys
      && (m !in ids ==> after[m] == messages[m])
      && (m in ids ==>
            && after[m].labels == messages[m].labels && after[m].account == messages[m].account
            && Visible(after[m].marks) ==
               match op
               case AddFlags => Visible(messages[m].marks) + Members(flags)
               case RemoveFlags => Visible(messages[m].marks) - Members(flags)
               case SetFlags => (Visible(messages[m].marks) - {SEEN, FLAGGED, ANSWERED, DRAFT, DELETED}) + Members(flags))
    ensures AllInStep(messages) ==> AllInStep(StoredIn(messages, ids, op, flags))
  {
    StoreMeaning(messages[m].marks, op, flags);
    if AllInStep(messages) {
      forall k | k in messages
        ensures InStep(StoredIn(messages, ids, op, flags)[k].marks)
      {
        StoreMeaning(messages[k].marks, op, flags);
      }
    }
  }

  lemma {:induction false} AddedSnoc(m: Marks, flags: seq<string>, f: string)
    ensures Added(m, flags + [f]) == Patched(Flags.SetFlag(Added(m, flags), f), FlagToPatch(f, true))
    decreases |flags|
  {
    if flags == [] {
      assert ([] + [f])[1..] == [] && ([] + [f])[0] == f;
      assert Added(Patched(Flags.SetFlag(m, f), FlagToPatch(f, true)), []) == Patched(Flags.SetFlag(m, f), FlagToPatch(f, true));
    } else {
      assert (flags + [f])[1..] == flags[1..] + [f];
      AddedSnoc(Patched(Flags.SetFlag(m, flags[0]), FlagToPatch(flags[0], true)), flags[1..], f);
    }
  }

  lemma {:induction false} RemovedSnoc(m: Marks, flags: seq<string>, f: string)
    ensures Removed(m, flags + [f]) == Patched(Flags.ClearFlag(Removed(m, flags), f), FlagToPatch(f, false))
    decreases |flags|
  {
    if flags == [] {
      assert ([] + [f])[1..] == [] && ([] + [f])[0] == f;
      assert Removed(Patched(Flags.ClearFlag(m, f), FlagToPatch(f, false)), [])
          == Patched(Flags.ClearFlag(m, f), FlagToPatch(f, false));
    } else {
      assert (flags + [f])[1..] == flags[1..] + [f];
      RemovedSnoc(Patched(Flags.ClearFlag(m, flags[0]), FlagToPatch(flags[0], false)), flags[1..], f);
    }
  }

  lemma StoredInMore(messages: Messages, ids: set<MsgId>, op: FlagsOp, flags: seq<string>, m: MsgId)
    requires m in messages && m !in ids
    ensures var part := StoredIn(messages, ids, op, flags);
      && m in part && part[m] == messages[m]
      && StoredIn(messages, ids + {m}, op, flags) == part[m := part[m].(marks := Stored(part[m].marks, op, flags))]
  {
  }

  lemma LabelledMore(messages: Messages, ids: set<MsgId>, box: LabelId, m: MsgId)
    requires m in messages
    ensures var part := Labelled(messages, ids, box);
      && m in part
      && Labelled(messages, ids + {m}, box) == part[m := part[m].(labels := part[m].labels - {} + {box})]
  {
    var labels := messages[m].labels;
    assert labels - {} + {box} == labels + {box} && labels + {box} - {} + {box} == labels + {box};
  }

  /** Giving message `i` of a page its UID: nothing later on the page changes it. */
  lemma AssignNext(t: Uids.Table, page: seq<MsgId>, i: nat, user: nat, mailbox: string)
    requires i < |page|
    ensures Uids.AssignAll(t, page[..i + 1], user, mailbox)
         == Uids.Assigned(Uids.AssignAll(t, page[..i], user, mailbox), Uids.Key(page[i], user, mailbox))
    ensures UidOf(Uids.AssignAll(t, page[..i + 1], user, mailbox), page[i], user, mailbox)
         == UidOf(Uids.AssignAll(t, page, user, mailbox), page[i], user, mailbox)
  {
    assert page[..i + 1][..i] == page[..i];
    Uids.AssignAllPrefix(t, page, i + 1, user, mailbox);
  }

  lemma ChosenNext(t: Uids.Table, page: seq<MsgId>, i: nat, user: nat, mailbox: string, byUid: bool, which: SeqSet)
    requires i < |page| && Distinct(page)
    ensures var ids := ChosenIds(t, page, i, user, mailbox, byUid, which);
      && page[i] !in ids
      && ChosenIds(t, page, i + 1, user, mailbox, byUid, which)
         == if Chosen(t, page, i, user, mailbox, byUid, which) then ids + {page[i]} else ids
  {
  }

  // ---------------------------------------------------------------------------
  // One EXPUNGE, page by page

  /** The deleted messages of a page. */
  function Doomed(page: seq<MsgId>, deleted: set<MsgId>): set<MsgId> {
    set m | m in page && m in deleted
  }

  /** The messages an EXPUNGE of a list takes out of it lose the label, and nothing else changes. */
  function Expunged(messages: Messages, list: seq<MsgId>, box: LabelId, batch: PageSize): Messages {
    Unlabelled(messages, (set m | m in list && m !in Pass(list, Deleted(messages), batch)), box)
  }

  lemma {:induction false} Untouched(list: seq<MsgId>, gone: set<MsgId>)
    requires forall m :: m in list ==> m !in gone
    ensures Without(list, gone) == list
  {
    if list != [] {
      assert list == [list[0]] + list[1..];
      Untouched(list[1..], gone);
    }
  }

  /** Taking a page's deleted messages out of a list of distinct messages leaves the rest of the list alone. */
  lemma WithoutOnePage(done: seq<MsgId>, page: seq<MsgId>, behind: seq<MsgId>, deleted: set<MsgId>)
    requires Distinct(done + page + behind)
    ensures Without(done + page + behind, Doomed(page, deleted)) == done + Without(page, deleted) + behind
  {
    var list := done + page + behind;
    var gone := Doomed(page, deleted);
    forall m | m in done
      ensures m !in gone
    {
      var i :| 0 <= i < |done| && done[i] == m;
      assert list[i] == m && forall j :: 0 <= j < |page| ==> list[|done| + j] == page[j];
    }
    forall m | m in behind
      ensures m !in gone
    {
      var i :| 0 <= i < |behind| && behind[i] == m;
      assert list[|done| + |page| + i] == m && forall j :: 0 <= j < |page| ==> list[|done| + j] == page[j];
    }
    WithoutAppend(done + page, behind, gone);
    WithoutAppend(done, page, gone);
    Untouched(done, gone);
    Untouched(behind, gone);
    WithoutAgree(page, gone, deleted);
  }

  /** One page of a pass over a list of distinct messages. */
  lemma OnePage(list: seq<MsgId>, page: seq<MsgId>, list': seq<MsgId>, offset: nat, deleted: set<MsgId>, batch: PageSize)
    requires Distinct(list) && page == Page(list, batch, offset) && list' == Without(list, Doomed(page, deleted))
    ensures |page| == batch ==> Scan(list', deleted, batch, 0, offset + batch) == Scan(list, deleted, batch, 0, offset)
    ensures |page| < batch ==> list' == Scan(list, deleted, batch, 0, offset)
  {
    if offset >= |list| {
      assert page == [] && Doomed([], deleted) == {};
      Untouched(list, {});
      ScanBeyond(list, deleted, batch, offset);
    } else {
      var done, behind := list[..offset], list[offset + |page|..];
      assert list == done + page + behind;
      WithoutOnePage(done, page, behind, deleted);
      if |page| == batch {
        FullPage(done, page, behind, deleted, batch);
      } else {
        LastPage(done, page, deleted, batch);
        assert done + page + behind == done + page && done + Without(page, deleted) + behind == done + Without(page, deleted);
      }
    }
  }

  lemma PageMembers(list: seq<MsgId>, batch: PageSize, offset: nat)
    ensures var page := Page(list, batch, offset);
      |page| <= batch && (page != [] ==> offset < |list|) && (forall m :: m in page ==> m in list)
  {
  }

  /** The mailbox after a page of an EXPUNGE that has taken `gone` out of it so far. */
  lemma ListingAfterPage(order: seq<MsgId>, was: Messages, gone: set<MsgId>, page: seq<MsgId>, account: Account, box: LabelId)
    requires Distinct(order)
    ensures var now := Listing(order, Unlabelled(was, gone, box), account, box);
      && Distinct(now) && |now| <= |Listing(order, was, account, box)|
      && (forall m :: m in now ==> m in was && m in Listing(order, was, account, box))
      && Listing(order, Unlabelled(was, gone + Doomed(page, Deleted(was)), box), account, box)
         == Without(now, Doomed(page, Deleted(was)))
  {
    var list := Listing(order, was, account, box);
    ListingMembers(order, was, account, box);
    ListingUnlabelled(order, was, gone, account, box);
    WithoutMembers(list, gone);
    WithoutShrinks(list, gone);
    DistinctWithout(list, gone);
    WithoutTwice(list, gone, Doomed(page, Deleted(was)));
    ListingUnlabelled(order, was, gone + Doomed(page, Deleted(was)), account, box);
  }

  /** One page of an EXPUNGE: `size` messages looked at, and `gone` grown to `gone'`. */
  ghost predicate PageOf(order: seq<MsgId>, was: Messages, gone: set<MsgId>, gone': set<MsgId>, size: nat,
                         account: Account, box: LabelId, offset: nat, batch: PageSize) {
    var list := Listing(order, was, account, box);
    var now := Listing(order, Unlabelled(was, gone, box), account, box);
    var now' := Listing(order, Unlabelled(was, gone', box), account, box);
    && gone' <= Elements(list) * Deleted(was)
    && size <= batch && (size > 0 ==> offset < |list|)
    && (size == batch ==> Scan(now', Deleted(was), batch, 0, offset + batch) == Scan(now, Deleted(was), batch, 0, offset))
    && (size < batch ==> now' == Scan(now, Deleted(was), batch, 0, offset))
  }

  lemma PageOfPass(order: seq<MsgId>, was: Messages, gone: set<MsgId>, page: seq<MsgId>,
                   account: Account, box: LabelId, offset: nat, batch: PageSize)
    requires Distinct(order) && gone <= Elements(Listing(order, was, account, box)) * Deleted(was)
    requires page == Page(Listing(order, Unlabelled(was, gone, box), account, box), batch, offset)
    ensures PageOf(order, was, gone, gone + Doomed(page, Deleted(was)), |page|, account, box, offset, batch)
    ensures forall m :: m in page ==> m in was
  {
    var now := Listing(order, Unlabelled(was, gone, box), account, box);
    var now' := Without(now, Doomed(page, Deleted(was)));
    ListingAfterPage(order, was, gone, page, account, box);
    PageMembers(now, batch, offset);
    OnePage(now, page, now', offset, Deleted(was), batch);
  }

  /** A finished EXPUNGE took out exactly what the pass leaves out. */
  lemma PassDone(order: seq<MsgId>, was: Messages, gone: set<MsgId>, account: Account, box: LabelId, batch: PageSize)
    requires var list := Listing(order, was, account, box);
      && gone <= Elements(list) * Deleted(was)
      && Listing(order, Unlabelled(was, gone, box), account, box) == Pass(list, Deleted(was), batch)
    ensures Unlabelled(was, gone, box) == Expunged(was, Listing(order, was, account, box), box, batch)
  {
    var list := Listing(order, was, account, box);
    ListingUnlabelled(order, was, gone, account, box);
    WithoutMembers(list, gone);
    assert gone == set m | m in list && m !in Pass(list, Deleted(was), batch);
  }

  /** EXPUNGE takes the label from deleted messages of the mailbox only. */
  lemma ExpungeOnlyDeleted(messages: Messages, list: seq<MsgId>, box: LabelId, batch: PageSize, m: MsgId)
    requires m in messages
    ensures var after := Expunged(messages, list, box, batch)[m];
      && (after == messages[m] || (m in list && DELETED in messages[m].marks.rows))
      && after == messages[m].(labels := after.labels)
      && messages[m].labels - {box} <= after.labels <= messages[m].labels
  {
    if m in list && m !in Deleted(messages) {
      PassKeepsOthers(list, Deleted(messages), batch);
      WithoutMembers(list, Deleted(messages));
      WithoutMembers(Pass(list, Deleted(messages), batch), Deleted(messages));
    }
  }

  /** `k` EXPUNGEs of a mailbox in a row. */
  function Expunges(order: seq<MsgId>, messages: Messages, account: Account, box: LabelId, batch: PageSize, k: nat): Messages
    decreases k
  {
    if k == 0 then messages
    else Expunges(order, Expunged(messages, Listing(order, messages, account, box), box, batch), account, box, batch, k - 1)
  }

  /** What one EXPUNGE leaves in the mailbox is a pass over it. */
  lemma ExpungedListing(order: seq<MsgId>, messages: Messages, account: Account, box: LabelId, batch: PageSize)
    requires Distinct(order)
    ensures var list := Listing(order, messages, account, box);
      var after := Expunged(messages, list, box, batch);
      && Listing(order, after, account, box) == Pass(list, Deleted(messages), batch)
      && Deleted(after) == Deleted(messages)
  {
    var list := Listing(order, messages, account, box);
    var pass := Pass(list, Deleted(messages), batch);
    var gone := set m | m in list && m !in pass;
    ListingUnlabelled(order, messages, gone, account, box);
    ListingMembers(order, messages, account, box);
    ScanIsWithout(list, Deleted(messages), batch, 0, 0);
  }

  /** As many EXPUNGEs as the mailbox holds deleted messages leave exactly the others in it. */
  lemma {:induction false} EnoughExpunges(order: seq<MsgId>, messages: Messages, account: Account, box: LabelId,
                                         batch: PageSize, k: nat)
    requires Distinct(order)
    ensures var list := Listing(order, messages, account, box);
      && Listing(order, Expunges(order, messages, account, box, batch, k), account, box)
         == Passes(list, Deleted(messages), batch, k)
      && (CountIn(list, Deleted(messages)) <= k ==>
            Listing(order, Expunges(order, messages, account, box, batch, k), account, box) == Without(list, Deleted(messages)))
    decreases k
  {
    var list := Listing(order, messages, account, box);
    if k == 0 {
      assert Expunges(order, messages, account, box, batch, k) == messages;
    } else {
      ExpungedListing(order, messages, account, box, batch);
      EnoughExpunges(order, Expunged(messages, list, box, batch), account, box, batch, k - 1);
    }
    if CountIn(list, Deleted(messages)) <= k {
      EnoughPasses(list, Deleted(messages), batch, k);
    }
  }

  // ---------------------------------------------------------------------------
  // Runs of commands on any mailboxes, and of the webmail's changes to the same messages

  datatype Folder = Folder(account: Account, user: nat, box: LabelId, name: string, batch: PageSize)

  datatype Command =
    | Fetch
    | Store(byUid: bool, which: SeqSet, op: FlagsOp, flags: seq<string>)
    | Copy(byUid: bool, which: SeqSet, dest: LabelId)
    | Append(id: MsgId, flags: seq<string>)
    | Expunge
    | WebPatch(id: MsgId, isRead: Change, isFlagged: Change)
    | WebDelete(id: MsgId)

  function Contents(t: Tables, f: Folder): seq<MsgId> { Listing(t.order, t.messages, f.account, f.box) }

  /** The part of a mailbox that a command loads. */
  function FirstPage(t: Tables, f: Folder): seq<MsgId> { Page(Contents(t, f), f.batch, 0) }

  /** Every command but APPEND and EXPUNGE gives each loaded message a UID, whether it is addressed or not. */
  function Loaded(t: Tables, f: Folder): Uids.Table { Uids.AssignAll(t.uids, FirstPage(t, f), f.user, f.name) }

  /** The messages a command addresses. */
  function Addressed(t: Tables, f: Folder, byUid: bool, which: SeqSet): set<MsgId> {
    ChosenIds(Loaded(t, f), FirstPage(t, f), |FirstPage(t, f)|, f.user, f.name, byUid, which)
  }

  /** The row of an appended message: its four flags in the columns only, other flags dropped. */
  function Appended(f: Folder, flags: seq<string>): Message {
    Message(f.account, Marks({}, SEEN in flags, FLAGGED in flags, ANSWERED in flags, DRAFT in flags), {f.box})
  }

  function Effect(t: Tables, f: Folder, c: Command): Tables {
    match c
    case Fetch => t.(uids := Loaded(t, f))
    case Store(byUid, which, op, flags) =>
      t.(uids := Loaded(t, f), messages := StoredIn(t.messages, Addressed(t, f, byUid, which), op, flags))
    case Copy(byUid, which, dest) =>
      t.(uids := Loaded(t, f), messages := Labelled(t.messages, Addressed(t, f, byUid, which), dest))
    case Append(id, flags) =>
      t.(order := t.order + [id], messages := t.messages[id := Appended(f, flags)])
    case Expunge => t.(messages := Expunged(t.messages, Contents(t, f), f.box, f.batch))
    case WebPatch(id, isRead, isFlagged) =>
      if Owns(t, f, id) then t.(messages := t.messages[id := WebPatched(t.messages[id], isRead, isFlagged)]) else t
    case WebDelete(id) =>
      if Owns(t, f, id) then Tables(Without(t.order, {id}), t.messages - {id}, Uids.Forgotten(t.uids, id)) else t
  }

  predicate Owns(t: Tables, f: Folder, id: MsgId) { id in t.messages && t.messages[id].account == f.account }

  /** A message marked read or flagged, or unmarked, in the webmail: columns only. */
  function WebPatched(m: Message, isRead: Change, isFlagged: Change): Message {
    m.(marks := Patched(m.marks, NO_CHANGE.(isRead := isRead, isFlagged := isFlagged)))
  }

  /** The webmail must not clear a column beside its row. Every other command is harmless. */
  predicate Harmless(t: Tables, f: Folder, c: Command) {
    c.WebPatch? && Owns(t, f, c.id) ==>
      && (c.isRead == To(false) ==> SEEN !in t.messages[c.id].marks.rows)
      && (c.isFlagged == To(false) ==> FLAGGED !in t.messages[c.id].marks.rows)
  }

  function Final(t: Tables, run: seq<(Folder, Command)>): Tables
    decreases |run|
  {
    if run == [] then t else Final(Effect(t, run[0].0, run[0].1), run[1..])
  }

  /** Every UID of a table is positive, handed out, and one message's in one mailbox. */
  ghost predicate Sound(t: Uids.Table) {
    Uids.Inv(Uids.State(t, {}, t.uids.Values))
  }

  lemma {:induction false} AssignAllSound(t: Uids.Table, page: seq<MsgId>, user: nat, mailbox: string)
    requires Sound(t)
    ensures Sound(Uids.AssignAll(t, page, user, mailbox))
    decreases |page|
  {
    if page != [] {
      AssignAllSound(t, page[..|page| - 1], user, mailbox);
      var before := Uids.AssignAll(t, page[..|page| - 1], user, mailbox);
      var k := Uids.Key(page[|page| - 1], user, mailbox);
      Uids.InvStep(Uids.State(before, {}, before.uids.Values), Uids.Assign(k));
      forall u | u in Uids.Assigned(before, k).uids.Values
        ensures u in before.uids.Values || u == Uids.Assigned(before, k).uids[k]
      {
      }
    }
  }

  lemma ForgottenSound(t: Uids.Table, m: MsgId)
    requires Sound(t)
    ensures Sound(Uids.Forgotten(t, m))
  {
    var t' := Uids.Forgotten(t, m);
    forall u | u in t'.uids.Values
      ensures u in t.uids.Values
    {
    }
  }

  /** Every command keeps the UIDs sound. */
  lemma CommandSound(t: Tables, f: Folder, c: Command)
    requires Sound(t.uids)
    ensures Sound(Effect(t, f, c).uids)
  {
    AssignAllSound(t.uids, FirstPage(t, f), f.user, f.name);
    if c.WebDelete? {
      ForgottenSound(t.uids, c.id);
    }
  }

  lemma StoreInStep(t: Tables, f: Folder, c: Command)
    requires AllInStep(t.messages) && c.Store?
    ensures AllInStep(Effect(t, f, c).messages)
  {
    forall m | m in t.messages
      ensures InStep(Effect(t, f, c).messages[m].marks)
    {
      StoreActs(t.messages, Addressed(t, f, c.byUid, c.which), c.op, c.flags, m);
    }
  }

  lemma WebPatchInStep(t: Tables, f: Folder, c: Command)
    requires AllInStep(t.messages) && c.WebPatch?
    ensures AllInStep(Effect(t, f, c).messages) <==> Harmless(t, f, c)
  {
    if Owns(t, f, c.id) {
      var after := Effect(t, f, c).messages;
      assert InStep(after[c.id].marks) <==> Harmless(t, f, c) by {
        DistinctNames();
      }
      assert forall m :: m in t.messages && m != c.id ==> after[m] == t.messages[m];
    }
  }

  /** A command keeps rows and columns of the flags in step exactly when it is harmless. */
  lemma CommandInStep(t: Tables, f: Folder, c: Command)
    requires AllInStep(t.messages)
    ensures AllInStep(Effect(t, f, c).messages) <==> Harmless(t, f, c)
  {
    match c
    case Store(_, _, _, _) => StoreInStep(t, f, c);
    case WebPatch(_, _, _) => WebPatchInStep(t, f, c);
    case _ =>
  }

  predicate HarmlessRun(t: Tables, run: seq<(Folder, Command)>)
    decreases |run|
  {
    run == [] || (Harmless(t, run[0].0, run[0].1) && HarmlessRun(Effect(t, run[0].0, run[0].1), run[1..]))
  }

  ghost predicate AlwaysInStep(t: Tables, run: seq<(Folder, Command)>)
    decreases |run|
  {
    AllInStep(t.messages) && (run == [] || AlwaysInStep(Effect(t, run[0].0, run[0].1), run[1..]))
  }

  /** In every run, rows and columns are in step throughout exactly when every command
      is harmless. Runs of IMAP commands alone are. */
  lemma {:induction false} InStepExactly(t: Tables, run: seq<(Folder, Command)>)
    requires AllInStep(t.messages)
    ensures AlwaysInStep(t, run) <==> HarmlessRun(t, run)
    ensures HarmlessRun(t, run) ==> AllInStep(Final(t, run).messages)
    ensures (forall k :: 0 <= k < |run| ==> !run[k].1.WebPatch?) ==> HarmlessRun(t, run)
    decreases |run|
  {
    if run != [] {
      assert forall k :: 0 <= k < |run[1..]| ==> run[1..][k] == run[k + 1];
      CommandInStep(t, run[0].0, run[0].1);
      if Harmless(t, run[0].0, run[0].1) {
        InStepExactly(Effect(t, run[0].0, run[0].1), run[1..]);
      }
    }
  }

  lemma {:induction false} RunSound(t: Tables, run: seq<(Folder, Command)>)
    requires Sound(t.uids)
    ensures Sound(Final(t, run).uids)
    decreases |run|
  {
    if run != [] {
      CommandSound(t, run[0].0, run[0].1);
      RunSound(Effect(t, run[0].0, run[0].1), run[1..]);
    }
  }

  const NO_TABLES := Tables([], map[], Uids.EMPTY.table)

  /** After any run of harmless commands on any mailboxes, a message's unread column agrees
      with the absence of \Seen from what FETCH shows, so STATUS UNSEEN is right. */
  lemma UnseenAgrees(run: seq<(Folder, Command)>, f: Folder)
    requires HarmlessRun(NO_TABLES, run)
    ensures var t := Final(NO_TABLES, run);
      && CountUnread(t.messages, Contents(t, f)) == CountUnseen(t.messages, Contents(t, f))
      && forall m :: m in t.messages ==> (t.messages[m].marks.isRead <==> SEEN in Visible(t.messages[m].marks))
  {
    InStepExactly(NO_TABLES, run);
    var t := Final(NO_TABLES, run);
    UnreadIsUnseen(t.messages, Contents(t, f));
    forall m | m in t.messages
      ensures t.messages[m].marks.isRead <==> SEEN in Visible(t.messages[m].marks)
    {
      UnreadIffNotSeen(t.messages[m].marks);
    }
  }

  /** Where flags are in step, marking a message of a mailbox unread in the webmail keeps
      the mailbox's STATUS UNSEEN right exactly when the message has no \Seen row. */
  lemma WebmailUnseenExactly(t: Tables, f: Folder, id: MsgId)
    requires AllInStep(t.messages) && id in t.messages && id in Contents(t, f)
    ensures var t' := Effect(t, f, WebPatch(id, To(false), Keep));
      && Contents(t', f) == Contents(t, f)
      && (CountUnread(t'.messages, Contents(t', f)) == CountUnseen(t'.messages, Contents(t', f))
          <==> SEEN !in t.messages[id].marks.rows)
  {
    var t' := Effect(t, f, WebPatch(id, To(false), Keep));
    var list := Contents(t, f);
    ListingMembers(t.order, t.messages, f.account, f.box);
    ListingFrame(t.order, t.messages, t'.messages, f.account, f.box);
    CountsAgreeExactly(t'.messages, list);
    var k :| 0 <= k < |list| && list[k] == id;
    forall j | 0 <= j < |list|
      ensures Torn(t'.messages, list[j]) <==> list[j] == id && SEEN in t.messages[id].marks.rows
    {
      assert list[j] in list;
    }
    assert Torn(t'.messages, list[k]) <==> SEEN in t.messages[id].marks.rows;
  }

  /** The failing input: a message appended, flagged \Seen by STORE, and marked unread in
      the webmail counts as unread and shows \Seen. */
  lemma SeenThenUnread(f: Folder, id: MsgId)
    ensures
      var run := [(f, Append(id, [])), (f, Command.Store(false, None, AddFlags, [SEEN])), (f, WebPatch(id, To(false), Keep))];
      var t := Final(NO_TABLES, run);
      && Contents(t, f) == [id]
      && CountUnread(t.messages, Contents(t, f)) == 1 && CountUnseen(t.messages, Contents(t, f)) == 0
  {
    var run := [(f, Append(id, [])), (f, Command.Store(false, None, AddFlags, [SEEN])), (f, WebPatch(id, To(false), Keep))];
    var t1 := Effect(NO_TABLES, f, Append(id, []));
    var t2 := Effect(t1, f, Command.Store(false, None, AddFlags, [SEEN]));
    var t3 := Effect(t2, f, WebPatch(id, To(false), Keep));
    SeenAlone(f, id);
    OnlyListed(t2, t3, f, id);
    RunOfThree(NO_TABLES, run, t1, t2, t3);
  }

  lemma RunOfThree(t: Tables, run: seq<(Folder, Command)>, t1: Tables, t2: Tables, t3: Tables)
    requires |run| == 3 && t1 == Effect(t, run[0].0, run[0].1)
    requires t2 == Effect(t1, run[1].0, run[1].1) && t3 == Effect(t2, run[2].0, run[2].1)
    ensures Final(t, run) == t3
  {
    assert run[3..] == [] && run[2..][1..] == run[3..] && run[1..][1..] == run[2..];
    assert Final(t3, run[3..]) == t3 && Final(t2, run[2..]) == t3 && Final(t1, run[1..]) == t3;
  }

  lemma SeenAlone(f: Folder, id: MsgId)
    ensures var t := Effect(Effect(NO_TABLES, f, Append(id, [])), f, Command.Store(false, None, AddFlags, [SEEN]));
      && t.order == [id] && id in t.messages && InBox(t.messages, id, f.account, f.box)
      && SEEN in t.messages[id].marks.rows
  {
    AppendedAlone(f, id);
    var t := Effect(NO_TABLES, f, Append(id, []));
    StoreActs(t.messages, {id}, AddFlags, [SEEN], id);
    SeenRow(t.messages[id].marks);
  }

  lemma AppendedAlone(f: Folder, id: MsgId)
    ensures var t := Effect(NO_TABLES, f, Append(id, []));
      && t.order == [id] && t.messages == map[id := Appended(f, [])]
      && Contents(t, f) == [id] && Addressed(t, f, false, None) == {id}
  {
    var t := Effect(NO_TABLES, f, Append(id, []));
    ListedAlone(t.messages, f, id);
    PageAlone(id, f.batch);
    AddressedAlone(Loaded(t, f), f, id);
  }

  lemma ListedAlone(messages: Messages, f: Folder, id: MsgId)
    requires InBox(messages, id, f.account, f.box)
    ensures Listing([id], messages, f.account, f.box) == [id]
  {
    assert [id][1..] == [];
    assert Listing([], messages, f.account, f.box) == [];
  }

  lemma PageAlone(id: MsgId, batch: PageSize)
    ensures Page([id], batch, 0) == [id]
  {
  }

  lemma AddressedAlone(t: Uids.Table, f: Folder, id: MsgId)
    ensures ChosenIds(t, [id], 1, f.user, f.name, false, None) == {id}
  {
    assert Chosen(t, [id], 0, f.user, f.name, false, None);
  }

  lemma SeenRow(m: Marks)
    ensures SEEN in Stored(m, AddFlags, [SEEN]).rows
  {
    var m1 := Patched(Flags.SetFlag(m, SEEN), FlagToPatch(SEEN, true));
    assert [SEEN][1..] == [] && Added(m1, []) == m1;
  }

  lemma OnlyListed(t: Tables, t': Tables, f: Folder, id: MsgId)
    requires t.order == [id] && id in t.messages && InBox(t.messages, id, f.account, f.box)
    requires SEEN in t.messages[id].marks.rows && t' == Effect(t, f, WebPatch(id, To(false), Keep))
    ensures Contents(t', f) == [id]
    ensures CountUnread(t'.messages, [id]) == 1 && CountUnseen(t'.messages, [id]) == 0
  {
    ListedAlone(t'.messages, f, id);
    assert [id][1..] == [];
  }

  lemma {:induction false} ListingFrame(order: seq<MsgId>, messages: Messages, messages': Messages, account: Account, box: LabelId)
    requires forall m :: InBox(messages, m, account, box) <==> InBox(messages', m, account, box)
    ensures Listing(order, messages', account, box) == Listing(order, messages, account, box)
  {
    if order != [] {
      ListingFrame(order[1..], messages, messages', account, box);
    }
  }

  /** After any run, while the sequence is below 2^32: a UID command for the UID that
      FETCH shows for a loaded message addresses that message and no other. */
  lemma UidNamesOneMessage(run: seq<(Folder, Command)>, f: Folder, i: nat)
    requires var t := Final(NO_TABLES, run);
      i < |FirstPage(t, f)| && Loaded(t, f).last < Uids.UID_RANGE
    ensures var t := Final(NO_TABLES, run);
      var m := FirstPage(t, f)[i];
      var uid := UidOf(Loaded(t, f), m, f.user, f.name);
      uid != 0 && Addressed(t, f, true, Some({uid})) == {m}
  {
    RunSound(NO_TABLES, run);
    var t := Final(NO_TABLES, run);
    var page := FirstPage(t, f);
    AssignAllSound(t.uids, page, f.user, f.name);
    Uids.AssignAllKeeps(t.uids, page, f.user, f.name);
    OneChosen(Loaded(t, f), page, i, f.user, f.name);
  }

  lemma OneChosen(t: Uids.Table, page: seq<MsgId>, i: nat, user: nat, mailbox: string)
    requires Sound(t) && t.last < Uids.UID_RANGE && i < |page|
    requires forall j :: 0 <= j < |page| ==> Uids.Key(page[j], user, mailbox) in t.uids
    ensures var uid := UidOf(t, page[i], user, mailbox);
      uid != 0 && ChosenIds(t, page, |page|, user, mailbox, true, Some({uid})) == {page[i]}
  {
    var uid := UidOf(t, page[i], user, mailbox);
    forall j | 0 <= j < |page|
      ensures Chosen(t, page, j, user, mailbox, true, Some({uid})) <==> page[j] == page[i]
    {
      UidsSmall(t, Uids.Key(page[i], user, mailbox), Uids.Key(page[j], user, mailbox));
    }
    assert Chosen(t, page, i, user, mailbox, true, Some({uid}));
  }

  /** No run changes a UID once it is assigned, as long as the message is not deleted. */
  lemma {:induction false} RunKeepsUids(t: Tables, run: seq<(Folder, Command)>, k: Uids.Key)
    requires k in t.uids.uids && forall j :: 0 <= j < |run| ==> run[j].1 != WebDelete(k.message)
    ensures k in Final(t, run).uids.uids && Final(t, run).uids.uids[k] == t.uids.uids[k]
    decreases |run|
  {
    if run != [] {
      Uids.AssignAllKeeps(t.uids, FirstPage(t, run[0].0), run[0].0.user, run[0].0.name);
      assert forall j :: 0 <= j < |run[1..]| ==> run[1..][j] == run[j + 1];
      RunKeepsUids(Effect(t, run[0].0, run[0].1), run[1..], k);
    }
  }

  lemma UidsSmall(t: Uids.Table, k: Uids.Key, l: Uids.Key)
    requires Sound(t) && t.last < Uids.UID_RANGE && k in t.uids && l in t.uids
    ensures Uids.Uint32(t.uids[k]) == t.uids[k] != 0
    ensures Uids.Uint32(t.uids[k]) == Uids.Uint32(t.uids[l]) <==> k == l
  {
    var s := Uids.State(t, {}, t.uids.Values);
    assert t.uids[k] in s.ever && t.uids[l] in s.ever;
  }
}
