/** The IMAP backend's mailbox commands over the mail store, each proved to have the
    effect the command stands for. */
module ImapBackend {
  import opened Collections
  import opened Expunging
  import opened Flags
  import opened MailStore
  import opened Imap
  import opened ImapMeaning
  import Uids

  class Mailbox {
    const store: Store
    const account: Account
    const user: nat
    const box: LabelId
    const name: string
    const batch: PageSize

    constructor (store: Store, account: Account, user: nat, box: LabelId, name: string, batch: PageSize)
      ensures this.store == store && this.account == account && this.user == user
      ensures this.box == box && this.name == name && this.batch == batch
    {
      this.store, this.account, this.user, this.box, this.name, this.batch := store, account, user, box, name, batch;
    }

    ghost function Here(): Folder { Folder(account, user, box, name, batch) }

    /** The messages a command works on. */
    method LoadPage() returns (page: seq<MsgId>)
      requires store.Valid()
      ensures page == FirstPage(store.Rows(), Here()) && Distinct(page)
      ensures forall i :: 0 <= i < |page| ==> page[i] in store.messages && store.messages[page[i]].account == account
    {
      page := store.ListMessages(account, box, batch, 0);
      ListingMembers(store.order, store.messages, account, box);
      ghost var list := Listing(store.order, store.messages, account, box);
      forall i | 0 <= i < |page|
        ensures page[i] in store.messages && store.messages[page[i]].account == account
      {
        assert page[i] == list[i];
        assert list[i] in list;
      }
    }

    /** The UID of a message, assigned now if it has none. */
    method ImapUID(m: MsgId) returns (uid: nat)
      modifies store`uids
      ensures store.uids == Uids.Assigned(old(store.uids), Uids.Key(m, user, name))
      ensures uid == UidOf(store.uids, m, user, name)
    {
      uid := store.GetIMAPUID(m, user, name);
      if uid == 0 {
        uid := store.GetOrCreateIMAPUID(m, user, name);
      }
    }

    /** STATUS. Its UNSEEN is the number of messages that do not show \Seen, as long
        as rows and columns of the flags are in step. */
    method Status() returns (status: MailboxStatus)
      requires store.Valid()
      ensures status.messages == |Contents(store.Rows(), Here())|
      ensures AllInStep(store.messages) ==> status.unseen == CountUnseen(store.messages, Contents(store.Rows(), Here()))
      ensures AllInStep(store.messages) ==>
        status.unseen == |set m | m in store.messages && store.messages[m].account == account
                                  && box in store.messages[m].labels && SEEN !in Visible(store.messages[m].marks)|
      ensures exists next: nat ::
        && status.uidNext == next % 0x1_0000_0000
        && (forall k :: k in store.uids.uids && k.user == user && k.mailbox == name ==> store.uids.uids[k] < next)
        && (next == 1 || exists k :: k in store.uids.uids && k.user == user && k.mailbox == name && store.uids.uids[k] + 1 == next)
    {
      var unseen := store.CountUnreadByLabel(account, box);
      CountsInBox(store.order, store.messages, account, box);
      var max := store.GetMaxIMAPUID(user, name);
      ghost var m: nat :| Uids.IsMax(store.uids, user, name, m) && max == Uids.Uint32(m);
      assert Uids.Uint32(max + 1) == (m + 1) % 0x1_0000_0000;
      status := MailboxStatus(|Listing(store.order, store.messages, account, box)|, unseen, Uids.Uint32(max + 1));
    }

    /** FETCH. */
    method ListMessages(byUid: bool, which: SeqSet) returns (out: seq<Fetched>)
      requires store.Valid()
      modifies store`uids
      ensures store.Rows() == Effect(old(store.Rows()), Here(), Fetch)
      ensures var page := FirstPage(store.Rows(), Here());
        && (forall i :: 0 <= i < |page| ==> page[i] in store.messages)
        && out == Picked(Items(store.uids, page, store.messages, user, name), |page|, byUid, which)
      ensures Answers(old(store.Rows()), Here(), byUid, which, out)
    {
      var page := LoadPage();
      ghost var was := store.Rows();
      out := FetchPage(page, byUid, which);
      FetchAnswers(was, Here(), byUid, which, out);
    }

    /** Message `i` of a page gets its UID and is returned if it is addressed. */
    method FetchNext(page: seq<MsgId>, i: nat, byUid: bool, which: SeqSet, ghost before: Uids.Table) returns (more: seq<Fetched>)
      requires i < |page| && forall k :: 0 <= k < |page| ==> page[k] in store.messages
      requires store.uids == Uids.AssignAll(before, page[..i], user, name)
      modifies store`uids
      ensures store.uids == Uids.AssignAll(before, page[..i + 1], user, name)
      ensures more == PickedAt(Items(Uids.AssignAll(before, page, user, name), page, store.messages, user, name), i, byUid, which)
    {
      var uid := ImapUID(page[i]);
      AssignNext(before, page, i, user, name);
      ItemAt(Uids.AssignAll(before, page, user, name), page, store.messages, user, name, i);
      more := [];
      if Selects(which, byUid, uid, i + 1) {
        more := [Fetched(i + 1, uid, Listed(store.messages[page[i]].marks))];
      }
    }

    method FetchPage(page: seq<MsgId>, byUid: bool, which: SeqSet) returns (out: seq<Fetched>)
      requires forall i :: 0 <= i < |page| ==> page[i] in store.messages
      modifies store`uids
      ensures store.uids == Uids.AssignAll(old(store.uids), page, user, name)
      ensures out == Picked(Items(store.uids, page, store.messages, user, name), |page|, byUid, which)
    {
      ghost var was := store.uids;
      ghost var items := Items(Uids.AssignAll(was, page, user, name), page, store.messages, user, name);
      out := [];
      var i := 0;
      while i < |page|
        invariant 0 <= i <= |page|
        invariant store.uids == Uids.AssignAll(was, page[..i], user, name)
        invariant out == Picked(items, i, byUid, which)
      {
        var more := FetchNext(page, i, byUid, which, was);
        PickedNext(items, i, byUid, which);
        out := out + more;
        i := i + 1;
      }
      assert page[..i] == page;
    }

    method AddAll(m: MsgId, flags: seq<string>)
      requires m in store.messages && store.messages[m].account == account
      modifies store`messages
      ensures store.messages
           == old(store.messages)[m := old(store.messages)[m].(marks := Added(old(store.messages)[m].marks, flags))]
    {
      ghost var was := store.messages[m];
      var j := 0;
      while j < |flags|
        invariant 0 <= j <= |flags|
        invariant store.messages == old(store.messages)[m := was.(marks := Added(was.marks, flags[..j]))]
      {
        AddedSnoc(was.marks, flags[..j], flags[j]);
        assert flags[..j + 1] == flags[..j] + [flags[j]];
        store.SetFlag(m, flags[j]);
        var _ := store.UpdateMessage(account, m, FlagToPatch(flags[j], true));
        j := j + 1;
      }
      assert flags[..j] == flags;
    }

    method RemoveAll(m: MsgId, flags: seq<string>)
      requires m in store.messages && store.messages[m].account == account
      modifies store`messages
      ensures store.messages
           == old(store.messages)[m := old(store.messages)[m].(marks := Removed(old(store.messages)[m].marks, flags))]
    {
      ghost var was := store.messages[m];
      var j := 0;
      while j < |flags|
        invariant 0 <= j <= |flags|
        invariant store.messages == old(store.messages)[m := was.(marks := Removed(was.marks, flags[..j]))]
      {
        RemovedSnoc(was.marks, flags[..j], flags[j]);
        assert flags[..j + 1] == flags[..j] + [flags[j]];
        store.ClearFlag(m, flags[j]);
        var _ := store.UpdateMessage(account, m, FlagToPatch(flags[j], false));
        j := j + 1;
      }
      assert flags[..j] == flags;
    }

    method ClearKnown(m: MsgId)
      requires m in store.messages && store.messages[m].account == account
      modifies store`messages
      ensures store.messages
           == old(store.messages)[m := old(store.messages)[m].(marks := Cleared(old(store.messages)[m].marks))]
    {
      ghost var was := store.messages[m];
      assert was.marks.rows - Members(KNOWN[..0]) == was.marks.rows;
      var j := 0;
      while j < |KNOWN|
        invariant 0 <= j <= |KNOWN|
        invariant store.messages
               == old(store.messages)[m := was.(marks := was.marks.(rows := was.marks.rows - Members(KNOWN[..j])))]
      {
        assert KNOWN[..j + 1] == KNOWN[..j] + [KNOWN[j]];
        assert was.marks.rows - Members(KNOWN[..j]) - {KNOWN[j]} == was.marks.rows - Members(KNOWN[..j + 1]);
        store.ClearFlag(m, KNOWN[j]);
        j := j + 1;
      }
      assert KNOWN[..j] == KNOWN && Members(KNOWN) == {SEEN, FLAGGED, ANSWERED, DRAFT, DELETED};
      var _ := store.UpdateMessage(account, m, Patch(To(false), To(false), To(false), To(false)));
    }

    method StoreOne(m: MsgId, op: FlagsOp, flags: seq<string>)
      requires m in store.messages && store.messages[m].account == account
      modifies store`messages
      ensures store.messages
           == old(store.messages)[m := old(store.messages)[m].(marks := Stored(old(store.messages)[m].marks, op, flags))]
    {
      match op
      case AddFlags => AddAll(m, flags);
      case RemoveFlags => RemoveAll(m, flags);
      case SetFlags =>
        ClearKnown(m);
        AddAll(m, flags);
    }

    /** STORE, on the messages FETCH would return for the same set. */
    method UpdateMessagesFlags(byUid: bool, which: SeqSet, op: FlagsOp, flags: seq<string>)
      requires store.Valid()
      modifies store`uids, store`messages
      ensures store.Valid()
      ensures store.Rows() == Effect(old(store.Rows()), Here(), Command.Store(byUid, which, op, flags))
    {
      var page := LoadPage();
      StorePage(page, byUid, which, op, flags);
    }

    method StorePage(page: seq<MsgId>, byUid: bool, which: SeqSet, op: FlagsOp, flags: seq<string>)
      requires Distinct(page)
      requires forall i :: 0 <= i < |page| ==> page[i] in store.messages && store.messages[page[i]].account == account
      modifies store`uids, store`messages
      ensures store.uids == Uids.AssignAll(old(store.uids), page, user, name)
      ensures store.messages
           == StoredIn(old(store.messages), ChosenIds(store.uids, page, |page|, user, name, byUid, which), op, flags)
    {
      ghost var all := Uids.AssignAll(store.uids, page, user, name);
      ghost var was := store.messages;
      var i := 0;
      while i < |page|
        invariant 0 <= i <= |page|
        invariant store.uids == Uids.AssignAll(old(store.uids), page[..i], user, name)
        invariant store.messages == StoredIn(was, ChosenIds(all, page, i, user, name, byUid, which), op, flags)
      {
        var uid := ImapUID(page[i]);
        AssignNext(old(store.uids), page, i, user, name);
        ChosenNext(all, page, i, user, name, byUid, which);
        if Selects(which, byUid, uid, i + 1) {
          StoredInMore(was, ChosenIds(all, page, i, user, name, byUid, which), op, flags, page[i]);
          StoreOne(page[i], op, flags);
        }
        i := i + 1;
      }
      assert page[..i] == page;
    }

    /** COPY: adds the destination's label; None for an unknown destination. */
    method CopyMessages(byUid: bool, which: SeqSet, dest: string) returns (ok: bool)
      requires store.Valid()
      modifies store`uids, store`messages
      ensures store.Valid()
      ensures ok <==> LabelName(account, dest) in store.labelIds
      ensures store.Rows() ==
        if ok then Effect(old(store.Rows()), Here(), Copy(byUid, which, store.labelIds[LabelName(account, dest)]))
        else old(store.Rows())
    {
      if LabelName(account, dest) !in store.labelIds {
        return false;
      }
      var destId := store.labelIds[LabelName(account, dest)];
      var page := LoadPage();
      CopyPage(page, byUid, which, destId);
      ok := true;
    }

    method CopyPage(page: seq<MsgId>, byUid: bool, which: SeqSet, destId: LabelId)
      requires Distinct(page) && forall i :: 0 <= i < |page| ==> page[i] in store.messages
      modifies store`uids, store`messages
      ensures store.uids == Uids.AssignAll(old(store.uids), page, user, name)
      ensures store.messages
           == Labelled(old(store.messages), ChosenIds(store.uids, page, |page|, user, name, byUid, which), destId)
    {
      ghost var all := Uids.AssignAll(store.uids, page, user, name);
      ghost var was := store.messages;
      assert Labelled(was, {}, destId) == was;
      var i := 0;
      while i < |page|
        invariant 0 <= i <= |page|
        invariant store.uids == Uids.AssignAll(old(store.uids), page[..i], user, name)
        invariant store.messages == Labelled(was, ChosenIds(all, page, i, user, name, byUid, which), destId)
      {
        var uid := ImapUID(page[i]);
        AssignNext(old(store.uids), page, i, user, name);
        ChosenNext(all, page, i, user, name, byUid, which);
        if Selects(which, byUid, uid, i + 1) {
          LabelledMore(was, ChosenIds(all, page, i, user, name, byUid, which), destId, page[i]);
          store.ApplyLabels(page[i], {destId}, {});
        }
        i := i + 1;
      }
      assert page[..i] == page;
    }

    /** APPEND. */
    method CreateMessage(id: MsgId, flags: seq<string>)
      requires store.Valid() && id !in store.messages
      modifies store`order, store`messages
      ensures store.Valid()
      ensures store.Rows() == Effect(old(store.Rows()), Here(), Append(id, flags))
    {
      var marks := Marks({}, SEEN in flags, FLAGGED in flags, ANSWERED in flags, DRAFT in flags);
      store.CreateMessage(id, Message(account, marks, {box}));
    }

    /** Unlabels the deleted messages of a page. */
    method UnlabelPage(page: seq<MsgId>, ghost was: Messages, ghost gone: set<MsgId>)
      requires forall m :: m in page ==> m in was
      requires store.messages == Unlabelled(was, gone, box)
      modifies store`messages
      ensures store.messages == Unlabelled(was, gone + Doomed(page, Deleted(was)), box)
    {
      assert gone + Doomed(page[..0], Deleted(was)) == gone;
      var i := 0;
      while i < |page|
        invariant 0 <= i <= |page|
        invariant store.messages == Unlabelled(was, gone + Doomed(page[..i], Deleted(was)), box)
      {
        ghost var before := gone + Doomed(page[..i], Deleted(was));
        assert page[..i + 1] == page[..i] + [page[i]];
        if DELETED in store.messages[page[i]].marks.rows {
          assert gone + Doomed(page[..i + 1], Deleted(was)) == before + {page[i]};
          UnlabelMore(was, before, page[i], box);
          store.ApplyLabels(page[i], {}, {box});
        } else {
          assert gone + Doomed(page[..i + 1], Deleted(was)) == before;
        }
        i := i + 1;
      }
      assert page[..i] == page;
    }

    /** One page of an EXPUNGE that has taken `gone` out of the mailbox so far. */
    method ExpungePage(offset: nat, ghost was: Messages, ghost gone: set<MsgId>) returns (size: nat, ghost gone': set<MsgId>)
      requires Distinct(store.order) && store.messages == Unlabelled(was, gone, box)
      requires gone <= Elements(Listing(store.order, was, account, box)) * Deleted(was)
      modifies store`messages
      ensures store.messages == Unlabelled(was, gone', box)
      ensures PageOf(store.order, was, gone, gone', size, account, box, offset, batch)
    {
      var page := store.ListMessages(account, box, batch, offset);
      PageOfPass(store.order, was, gone, page, account, box, offset, batch);
      UnlabelPage(page, was, gone);
      gone' := gone + Doomed(page, Deleted(was));
      size := |page|;
    }

    /** EXPUNGE: unlabels the deleted messages that its paging meets. Messages, flags,
        other labels and UIDs stay as they are. */
    method Expunge()
      requires store.Valid()
      modifies store`messages
      ensures store.Valid()
      ensures store.Rows() == Effect(old(store.Rows()), Here(), Command.Expunge)
    {
      ExpungePages();
    }

    method ExpungePages()
      requires Distinct(store.order)
      modifies store`messages
      ensures store.messages
           == Expunged(old(store.messages), Listing(store.order, old(store.messages), account, box), box, batch)
    {
      ghost var was := store.messages;
      ghost var list := Listing(store.order, was, account, box);
      ghost var gone: set<MsgId> := {};
      assert Unlabelled(was, {}, box) == was;
      Untouched(list, {});
      var offset := 0;
      while true
        invariant 0 <= offset && store.messages == Unlabelled(was, gone, box)
        invariant gone <= Elements(list) * Deleted(was)
        invariant Scan(Listing(store.order, store.messages, account, box), Deleted(was), batch, 0, offset)
               == Pass(list, Deleted(was), batch)
        decreases |list| - offset
      {
        var size;
        size, gone := ExpungePage(offset, was, gone);
        if size == 0 {
          break;
        }
        offset := offset + size;
        if size < batch {
          break;
        }
      }
      PassDone(store.order, was, gone, account, box, batch);
    }
  }
}
