/** What each mailbox command does, said of the tables alone: which messages it reaches and
    what becomes of them. */
module ImapMeaning {
  import opened Collections
  import opened Expunging
  import opened Flags
  import opened MailStore
  import opened Imap
  import Uids

  // ---------------------------------------------------------------------------
  // Listings and pages

  /** A mailbox holds exactly its account's messages with its label. */
  lemma ContentsExactly(t: Tables, f: Folder, m: MsgId)
    ensures m in Contents(t, f) <==>
      m in t.order && m in t.messages && t.messages[m].account == f.account && f.box in t.messages[m].labels
  {
    ListingMembers(t.order, t.messages, f.account, f.box);
  }

  /** A mailbox lists its messages in the order of their creation. */
  lemma {:induction false} ListedInOrder(order: seq<MsgId>, messages: Messages, account: Account, box: LabelId, i: nat, j: nat)
    returns (a: nat, b: nat)
    requires i < j < |Listing(order, messages, account, box)|
    ensures a < b < |order|
    ensures order[a] == Listing(order, messages, account, box)[i] && order[b] == Listing(order, messages, account, box)[j]
  {
    var rest := Listing(order[1..], messages, account, box);
    if !InBox(messages, order[0], account, box) {
      a, b := ListedInOrder(order[1..], messages, account, box, i, j);
      a, b := a + 1, b + 1;
    } else if i > 0 {
      a, b := ListedInOrder(order[1..], messages, account, box, i - 1, j - 1);
      a, b := a + 1, b + 1;
    } else {
      ListingMembers(order[1..], messages, account, box);
      assert rest[j - 1] in rest;
      a := 0;
      b :| 0 <= b < |order[1..]| && order[1..][b] == rest[j - 1];
      b := b + 1;
    }
  }

  /** A page is the stretch of the list from its offset on, `limit` long unless the list
      ends first. No limit means 50, and no offset the beginning. */
  lemma PageExactly(list: seq<MsgId>, limit: int, offset: int)
    ensures limit > 0 && 0 <= offset <= |list| ==>
      var page := Page(list, limit, offset);
      && |page| <= limit && (|page| < limit ==> offset + |page| == |list|)
      && offset + |page| <= |list| && list == list[..offset] + page + list[offset + |page|..]
    ensures offset > |list| ==> Page(list, limit, offset) == []
    ensures limit <= 0 ==> Page(list, limit, offset) == Page(list, 50, offset)
    ensures offset < 0 ==> Page(list, limit, offset) == Page(list, limit, 0)
  {
  }

  // ---------------------------------------------------------------------------
  // Which messages a command addresses

  /** The UID that FETCH shows for message `i` of the loaded page. */
  function ShownUid(t: Tables, f: Folder, i: nat): nat
    requires i < |FirstPage(t, f)|
  {
    Uids.AssignAllKeeps(t.uids, FirstPage(t, f), f.user, f.name);
    Uids.Uint32(Loaded(t, f).uids[Uids.Key(FirstPage(t, f)[i], f.user, f.name)])
  }

  lemma FirstPageDistinct(t: Tables, f: Folder)
    requires Distinct(t.order)
    ensures Distinct(FirstPage(t, f))
  {
    ListingMembers(t.order, t.messages, f.account, f.box);
  }

  /** A set of sequence numbers addresses the messages at those places of the page, counted
      from 1; a set of UIDs the messages that show one of them; an absent set the whole page;
      and nothing but messages of the page is ever addressed. */
  lemma AddressedExactly(t: Tables, f: Folder, numbers: set<nat>, i: nat)
    requires Distinct(t.order) && i < |FirstPage(t, f)|
    ensures var m := FirstPage(t, f)[i];
      && (m in Addressed(t, f, false, Some(numbers)) <==> i + 1 in numbers)
      && (m in Addressed(t, f, true, Some(numbers)) <==> ShownUid(t, f, i) in numbers)
      && m in Addressed(t, f, false, None) && m in Addressed(t, f, true, None)
  {
    FirstPageDistinct(t, f);
    Uids.AssignAllKeeps(t.uids, FirstPage(t, f), f.user, f.name);
    ChosenAt(Loaded(t, f), FirstPage(t, f), i, f.user, f.name, false, Some(numbers));
    ChosenAt(Loaded(t, f), FirstPage(t, f), i, f.user, f.name, true, Some(numbers));
    ChosenAt(Loaded(t, f), FirstPage(t, f), i, f.user, f.name, false, None);
    ChosenAt(Loaded(t, f), FirstPage(t, f), i, f.user, f.name, true, None);
  }

  lemma ChosenAt(t: Uids.Table, page: seq<MsgId>, i: nat, user: nat, mailbox: string, byUid: bool, which: SeqSet)
    requires Distinct(page) && i < |page|
    ensures page[i] in ChosenIds(t, page, |page|, user, mailbox, byUid, which)
      <==> Chosen(t, page, i, user, mailbox, byUid, which)
  {
  }

  lemma AddressedOnPage(t: Tables, f: Folder, byUid: bool, which: SeqSet, m: MsgId)
    requires m in Addressed(t, f, byUid, which)
    ensures m in FirstPage(t, f)
  {
  }

  /** Whether message `i` of the page is meant: by its place or by its UID. */
  ghost predicate Meant(t: Tables, f: Folder, i: nat, byUid: bool, which: SeqSet)
    requires i < |FirstPage(t, f)|
  {
    which.Some? ==> (if byUid then ShownUid(t, f, i) else i + 1) in which.value
  }

  lemma AddressedIsMeant(t: Tables, f: Folder, i: nat, byUid: bool, which: SeqSet)
    requires Distinct(t.order) && i < |FirstPage(t, f)|
    ensures FirstPage(t, f)[i] in Addressed(t, f, byUid, which) <==> Meant(t, f, i, byUid, which)
  {
    AddressedExactly(t, f, if which.Some? then which.value else {}, i);
  }

  // ---------------------------------------------------------------------------
  // What becomes of them

  /** FETCH answers with exactly the messages meant, by ascending place, each with its place,
      its UID and its flags. */
  ghost predicate Answers(t: Tables, f: Folder, byUid: bool, which: SeqSet, out: seq<Fetched>)
  {
    var page := FirstPage(t, f);
    && (forall i :: 0 <= i < |page| ==> page[i] in t.messages)
    && (forall k :: 0 <= k < |out| ==>
          && 1 <= out[k].seqNum <= |page| && Meant(t, f, out[k].seqNum - 1, byUid, which)
          && out[k].uid == ShownUid(t, f, out[k].seqNum - 1)
          && out[k].flags == Listed(t.messages[page[out[k].seqNum - 1]].marks))
    && (forall j, k :: 0 <= j < k < |out| ==> out[j].seqNum < out[k].seqNum)
    && (forall i :: 0 <= i < |page| && Meant(t, f, i, byUid, which) ==> exists k :: 0 <= k < |out| && out[k].seqNum == i + 1)
  }

  lemma FetchAnswers(t: Tables, f: Folder, byUid: bool, which: SeqSet, out: seq<Fetched>)
    requires forall i :: 0 <= i < |FirstPage(t, f)| ==> FirstPage(t, f)[i] in t.messages
    requires out == Picked(Items(Loaded(t, f), FirstPage(t, f), t.messages, f.user, f.name), |FirstPage(t, f)|, byUid, which)
    ensures Answers(t, f, byUid, which, out)
  {
    var page := FirstPage(t, f);
    var items := Items(Loaded(t, f), page, t.messages, f.user, f.name);
    Uids.AssignAllKeeps(t.uids, page, f.user, f.name);
    PickedInOrder(items, |page|, byUid, which, out);
    forall k | 0 <= k < |out|
      ensures 1 <= out[k].seqNum <= |page| && Meant(t, f, out[k].seqNum - 1, byUid, which)
      ensures out[k].uid == ShownUid(t, f, out[k].seqNum - 1)
      ensures out[k].flags == Listed(t.messages[page[out[k].seqNum - 1]].marks)
    {
      assert AsOnPage(items, out[k], |page|, byUid, which);
    }
    forall i | 0 <= i < |page| && Meant(t, f, i, byUid, which)
      ensures exists k :: 0 <= k < |out| && out[k].seqNum == i + 1
    {
      PickedAll(items, |page|, byUid, which, i);
      var k :| 0 <= k < |out| && out[k] == items[i];
    }
  }

  /** STORE changes the flags of the messages meant, as its operation says, and of no others. */
  lemma StoreReaches(t: Tables, f: Folder, byUid: bool, which: SeqSet, op: FlagsOp, flags: seq<string>, i: nat)
    requires Distinct(t.order) && i < |FirstPage(t, f)| && FirstPage(t, f)[i] in t.messages
    ensures var m := FirstPage(t, f)[i];
      var was := t.messages[m];
      var after := Effect(t, f, Command.Store(byUid, which, op, flags)).messages;
      && m in after && after[m].labels == was.labels && after[m].account == was.account
      && Visible(after[m].marks) ==
         if !Meant(t, f, i, byUid, which) then Visible(was.marks)
         else match op
              case AddFlags => Visible(was.marks) + Members(flags)
              case RemoveFlags => Visible(was.marks) - Members(flags)
              case SetFlags => (Visible(was.marks) - {SEEN, FLAGGED, ANSWERED, DRAFT, DELETED}) + Members(flags)
  {
    AddressedIsMeant(t, f, i, byUid, which);
    StoreActs(t.messages, Addressed(t, f, byUid, which), op, flags, FirstPage(t, f)[i]);
  }

  /** COPY gives the messages meant the destination's label beside those they have. */
  lemma CopyReaches(t: Tables, f: Folder, byUid: bool, which: SeqSet, dest: LabelId, i: nat)
    requires Distinct(t.order) && i < |FirstPage(t, f)| && FirstPage(t, f)[i] in t.messages
    ensures var m := FirstPage(t, f)[i];
      var was := t.messages[m];
      var after := Effect(t, f, Copy(byUid, which, dest)).messages;
      m in after && after[m] == if Meant(t, f, i, byUid, which) then was.(labels := was.labels + {dest}) else was
  {
    AddressedIsMeant(t, f, i, byUid, which);
  }

  /** STORE and COPY leave messages off the page as they are. */
  lemma OffPageUntouched(t: Tables, f: Folder, c: Command, m: MsgId)
    requires (c.Store? || c.Copy?) && m in t.messages && m !in FirstPage(t, f)
    ensures m in Effect(t, f, c).messages && Effect(t, f, c).messages[m] == t.messages[m]
  {
    if c.Store? {
      StoreActs(t.messages, Addressed(t, f, c.byUid, c.which), c.op, c.flags, m);
    }
  }

  /** APPEND puts a new last message in the mailbox and no other, which shows those of the
      four flags it was given. */
  lemma AppendShows(t: Tables, f: Folder, id: MsgId, flags: seq<string>)
    requires id !in t.messages && id !in t.order
    ensures var t' := Effect(t, f, Append(id, flags));
      && id in t'.messages && t'.messages[id].account == f.account && t'.messages[id].labels == {f.box}
      && Visible(t'.messages[id].marks) == Members(flags) * {SEEN, FLAGGED, ANSWERED, DRAFT}
      && t'.messages[id].marks.rows == {}
      && (forall m :: m in t.messages ==> m in t'.messages && t'.messages[m] == t.messages[m])
      && Contents(t', f) == Contents(t, f) + [id]
  {
    var t' := Effect(t, f, Append(id, flags));
    ListingAppend(t.order, [id], t'.messages, f.account, f.box);
    ListedAlone(t'.messages, f, id);
    ListingIgnores(t.order, t.messages, id, Appended(f, flags), f.account, f.box);
  }

  lemma {:induction false} ListingAppend(a: seq<MsgId>, b: seq<MsgId>, messages: Messages, account: Account, box: LabelId)
    ensures Listing(a + b, messages, account, box) == Listing(a, messages, account, box) + Listing(b, messages, account, box)
  {
    if a == [] {
      assert a + b == b;
    } else {
      ListingAppend(a[1..], b, messages, account, box);
      assert (a + b)[1..] == a[1..] + b;
      Associative(if InBox(messages, a[0], account, box) then [a[0]] else [],
                  Listing(a[1..], messages, account, box), Listing(b, messages, account, box));
    }
  }

  lemma {:induction false} ListingIgnores(order: seq<MsgId>, messages: Messages, id: MsgId, message: Message, account: Account, box: LabelId)
    requires id !in order
    ensures Listing(order, messages[id := message], account, box) == Listing(order, messages, account, box)
  {
    if order != [] {
      assert order[0] in order && forall m :: m in order[1..] ==> m in order;
      ListingIgnores(order[1..], messages, id, message, account, box);
    }
  }

  /** EXPUNGE of a mailbox of at most one page leaves in it exactly the messages without a
      \Deleted row. */
  lemma ExpungeClears(t: Tables, f: Folder)
    requires Distinct(t.order) && |Contents(t, f)| <= f.batch
    ensures var t' := Effect(t, f, Command.Expunge);
      forall m :: m in Contents(t', f) <==>
        m in Contents(t, f) && m in t.messages && DELETED !in t.messages[m].marks.rows
  {
    ListingMembers(t.order, t.messages, f.account, f.box);
    ExpungedListing(t.order, t.messages, f.account, f.box, f.batch);
    OnePageSuffices(Contents(t, f), Deleted(t.messages), f.batch);
    WithoutMembers(Contents(t, f), Deleted(t.messages));
  }
}
